/**
  The lazy parser's books: what the recorded literals and matches stand for, the match put aside,
  and the place of the lookahead always add up to the input.
 */
module Parsing {
  import opened Bits
  import opened Deflate
  import opened LzRecords
  import opened Chains
  import opened BlockFlush

  /** A match put aside at the byte before the lookahead, with that byte. */
  ghost predicate PutAside(input: seq<byte>, pos: nat, len: nat, dist: nat, lit: byte)
  {
    MIN_MATCH_LEN <= len < 128 && dist <= LZ_DICT_SIZE && 1 <= pos <= |input| && input[pos - 1] == lit &&
    MatchAt(input, pos - 1, dist, len)
  }

  /** The records, and one byte more if a match is put aside, account for the input up to pos. */
  ghost predicate Parsed(recs: seq<Lz>, done: seq<byte>, parsed: seq<byte>, total: nat, input: seq<byte>, pos: nat,
                         saved_len: nat, saved_dist: nat, saved_lit: byte)
  {
    StandFor(recs, done, parsed, total) && parsed <= input && |parsed| + (if saved_len > 0 then 1 else 0) == pos &&
    (saved_len > 0 ==> PutAside(input, pos, saved_len, saved_dist, saved_lit))
  }

  /** What the search for a match at pos may come up with, having been given a length to beat. */
  ghost predicate Candidate(input: seq<byte>, pos: nat, ahead: nat, beat: nat, dist: nat, len: nat)
  {
    if dist == 0 then len == 0 || len == beat
    else MIN_MATCH_LEN <= len <= ahead && len <= MAX_MATCH_LEN && dist <= LZ_DICT_SIZE && MatchAt(input, pos, dist, len)
  }

  /** Nothing but the byte before, and none of it longer. */
  ghost predicate LongestRun(input: seq<byte>, pos: int, ahead: nat, dist: nat, len: nat)
  {
    pos >= 0 && dist <= 1 &&
    forall n: nat :: n <= ahead && MatchAt(input, pos, 1, n) ==> n <= if dist == 1 then len else MIN_MATCH_LEN - 1
  }

  /** A move of the parser: what is recorded, whether the match found is put aside, and how far it goes on. */
  datatype Move = Move(recs: seq<Lz>, aside: bool, forward: int)

  /**
    The lazy parser's choice, with a match put aside (if len0 is not zero) and a match found (if dist is
    not zero) at the byte after it.
   */
  function LazyMove(len0: nat, dist0: nat, lit0: byte, dist: nat, len: nat, lit: byte, eager: bool): (r: Move)
  {
    if len0 > 0 then
      if len <= len0 then Move([Match(len0, dist0)], false, len0 - 1)
      else if len >= 128 then Move([Literal(lit0), Match(len, dist)], false, len)
      else Move([Literal(lit0)], true, 1)
    else if dist == 0 then Move([Literal(lit)], false, 1)
    else if eager || len >= 128 then Move([Match(len, dist)], false, len)
    else Move([], true, 1)
  }

  /** No match found is passed over except for one no shorter, and one put aside only for a longer one. */
  lemma NothingIgnored(len0: nat, dist0: nat, lit0: byte, dist: nat, len: nat, lit: byte, eager: bool)
    requires dist > 0 || len <= len0 || len0 == 0
    ensures var m := LazyMove(len0, dist0, lit0, dist, len, lit, eager);
            (dist > 0 ==> m.aside || Match(len, dist) in m.recs || (len <= len0 && Match(len0, dist0) in m.recs)) &&
            (len0 > 0 ==> Match(len0, dist0) in m.recs || (len > len0 && (m.aside || Match(len, dist) in m.recs))) &&
            (m.forward == Sizes(m.recs) - (if len0 > 0 then 1 else 0) + if m.aside then 1 else 0)
  {
    var m := LazyMove(len0, dist0, lit0, dist, len, lit, eager);
    if |m.recs| == 1 { SizesOne(m.recs[0]); }
    if |m.recs| == 2 {
      SizesTwo(m.recs[0], m.recs[1]);
      assert m.recs[1] == Match(len, dist);
    }
  }

  lemma SizesOne(a: Lz)
    ensures Sizes([a]) == Size(a)
  {
    assert [a][..0] == [];
  }

  lemma SizesTwo(a: Lz, b: Lz)
    ensures Sizes([a, b]) == Size(a) + Size(b)
  {
    SizesOne(a);
    assert [a, b][..1] == [a];
  }

  /** The first n bytes of the input. */
  ghost function Upto(input: seq<byte>, n: nat): (r: seq<byte>)
    requires n <= |input|
    ensures |r| == n && r <= input
  {
    input[..n]
  }

  /** Bytes that repeat are copied from where they were. */
  lemma {:induction false} CopiesMatch(input: seq<byte>, p: nat, dist: nat, len: nat)
    requires MatchAt(input, p, dist, len)
    ensures CopyBack(input[..p], dist, len) == input[..p + len]
    decreases len
  {
    if len > 0 {
      var c, d := input[p..p + len], input[p - dist..p - dist + len];
      assert c[0] == d[0] && input[p] == input[p - dist];
      assert input[..p] + [input[p - dist]] == input[..p + 1];
      assert input[p + 1..p + 1 + (len - 1)] == c[1..];
      assert input[p + 1 - dist..p + 1 - dist + (len - 1)] == d[1..];
      CopiesMatch(input, p + 1, dist, len - 1);
    }
  }

  lemma StandForMore(recs: seq<Lz>, rec: Lz, o: seq<byte>, o': seq<byte>, total: nat)
    requires StandFor(recs, o, o', total) && Sound(rec, |o'|)
    ensures StandFor(recs + [rec], o, Play(o', rec), total + Size(rec))
  {
    hide *;
    StandForGives(recs, o, o', total);
    OneMore(recs, rec, o);
    PlayExtends(o', rec);
    StandForNow(recs + [rec], o, Play(o', rec), total + Size(rec));
  }

  lemma StandForGives(recs: seq<Lz>, o: seq<byte>, o': seq<byte>, total: nat)
    requires StandFor(recs, o, o', total)
    ensures o <= o' && |o'| == |o| + total && total == Sizes(recs) && AllSound(recs, |o|) && PlayAll(o, recs) == o'
  {
  }

  lemma StandForNow(recs: seq<Lz>, o: seq<byte>, o': seq<byte>, total: nat)
    requires o <= o' && |o'| == |o| + total && total == Sizes(recs) && AllSound(recs, |o|) && PlayAll(o, recs) == o'
    ensures StandFor(recs, o, o', total)
  {
  }

  /** One more record played. */
  lemma OneMore(recs: seq<Lz>, rec: Lz, o: seq<byte>)
    requires AllSound(recs, |o|) && Sound(rec, |PlayAll(o, recs)|)
    ensures AllSound(recs + [rec], |o|) && PlayAll(o, recs + [rec]) == Play(PlayAll(o, recs), rec)
    ensures Sizes(recs + [rec]) == Sizes(recs) + Size(rec)
  {
    var t := recs + [rec];
    assert t[..|t| - 1] == recs && t[|t| - 1] == rec;
    hide Play, Sound, Size;
  }

  lemma PlayExtends(o: seq<byte>, rec: Lz)
    requires Sound(rec, |o|)
    ensures o <= Play(o, rec) && |Play(o, rec)| == |o| + Size(rec)
  {
  }

  /** A literal. */
  lemma TakeLiteral(recs: seq<Lz>, done: seq<byte>, parsed: seq<byte>, total: nat, input: seq<byte>, pos: nat, c: byte)
    requires Parsed(recs, done, parsed, total, input, pos, 0, 0, 0) && pos < |input| && input[pos] == c
    ensures Parsed(recs + [Literal(c)], done, Upto(input, pos + 1), total + 1, input, pos + 1, 0, 0, 0)
  {
    hide StandFor;
    StandForMore(recs, Literal(c), done, parsed, total);
    assert Play(parsed, Literal(c)) == parsed + [c] == Upto(input, pos + 1);
  }

  /** A match. */
  lemma TakeMatch(recs: seq<Lz>, done: seq<byte>, parsed: seq<byte>, total: nat, input: seq<byte>, pos: nat, len: nat,
                  dist: nat)
    requires Parsed(recs, done, parsed, total, input, pos, 0, 0, 0) && MatchAt(input, pos, dist, len)
    requires MIN_MATCH_LEN <= len <= MAX_MATCH_LEN && dist <= LZ_DICT_SIZE
    ensures pos + len <= |input|
    ensures Parsed(recs + [Match(len, dist)], done, Upto(input, pos + len), total + len, input, pos + len, 0, 0, 0)
  {
    CopiesMatch(input, pos, dist, len);
    MatchBounds(input, pos, dist, len);
    hide StandFor, CopyBack, MatchAt;
    assert parsed == input[..pos];
    StandForMore(recs, Match(len, dist), done, parsed, total);
    assert Play(parsed, Match(len, dist)) == CopyBack(parsed, dist, len) == Upto(input, pos + len);
  }

  lemma MatchBounds(input: seq<byte>, p: nat, dist: nat, len: nat)
    requires MatchAt(input, p, dist, len)
    ensures 1 <= dist <= p && p + len <= |input|
  {
  }

  /** A match is put aside. */
  lemma SaveMatch(recs: seq<Lz>, done: seq<byte>, parsed: seq<byte>, total: nat, input: seq<byte>, pos: nat, len: nat,
                  dist: nat, c: byte)
    requires Parsed(recs, done, parsed, total, input, pos, 0, 0, 0) && MatchAt(input, pos, dist, len)
    requires MIN_MATCH_LEN <= len < 128 && dist <= LZ_DICT_SIZE && pos < |input| && input[pos] == c
    ensures Parsed(recs, done, parsed, total, input, pos + 1, len, dist, c)
  {
    hide StandFor, MatchAt;
  }

  /** Without the match put aside, the books are right for the byte before. */
  lemma BeforeSaved(recs: seq<Lz>, done: seq<byte>, parsed: seq<byte>, total: nat, input: seq<byte>, pos: nat,
                    saved_len: nat, saved_dist: nat, saved_lit: byte)
    requires Parsed(recs, done, parsed, total, input, pos, saved_len, saved_dist, saved_lit) && saved_len > 0
    ensures MIN_MATCH_LEN <= saved_len < 128 && saved_dist <= LZ_DICT_SIZE && 1 <= pos <= |input|
    ensures input[pos - 1] == saved_lit
    ensures MatchAt(input, pos - 1, saved_dist, saved_len) && pos - 1 + saved_len <= |input|
    ensures Parsed(recs, done, parsed, total, input, pos - 1, 0, 0, 0)
  {
    hide StandFor;
  }

  lemma ParsedGives(recs: seq<Lz>, done: seq<byte>, parsed: seq<byte>, total: nat, input: seq<byte>, pos: nat,
                    saved_len: nat, saved_dist: nat, saved_lit: byte)
    requires Parsed(recs, done, parsed, total, input, pos, saved_len, saved_dist, saved_lit)
    ensures StandFor(recs, done, parsed, total) && parsed <= input && |parsed| + (if saved_len > 0 then 1 else 0) == pos
    ensures |done| + total == |parsed| <= pos <= |input| && done <= parsed
    ensures saved_len == 0 ==> Parsed(recs, done, parsed, total, input, pos, 0, 0, 0)
    ensures saved_len < 128
  {
    hide PlayAll, AllSound, MatchAt;
  }

  /** More input changes nothing. */
  lemma ParsedLater(recs: seq<Lz>, done: seq<byte>, parsed: seq<byte>, total: nat, input: seq<byte>, input': seq<byte>,
                    pos: nat,
                    saved_len: nat, saved_dist: nat, saved_lit: byte)
    requires Parsed(recs, done, parsed, total, input, pos, saved_len, saved_dist, saved_lit) && input <= input'
    ensures Parsed(recs, done, parsed, total, input', pos, saved_len, saved_dist, saved_lit)
  {
    hide StandFor, MatchAt;
    if saved_len > 0 { MatchLater(input, input', pos - 1, saved_dist, saved_len); }
  }

  lemma MatchLater(input: seq<byte>, input': seq<byte>, p: nat, dist: nat, len: nat)
    requires MatchAt(input, p, dist, len) && input <= input'
    ensures MatchAt(input', p, dist, len)
  {
    assert input'[p..p + len] == input[p..p + len];
    assert input'[p - dist..p - dist + len] == input[p - dist..p - dist + len];
  }

  /** A fresh start once the records are flushed. */
  lemma ParsedFlushed(recs: seq<Lz>, done: seq<byte>, parsed: seq<byte>, total: nat, input: seq<byte>, pos: nat,
                      saved_len: nat, saved_dist: nat, saved_lit: byte)
    requires Parsed(recs, done, parsed, total, input, pos, saved_len, saved_dist, saved_lit)
    ensures Parsed([], parsed, parsed, 0, input, pos, saved_len, saved_dist, saved_lit)
  {
    hide MatchAt;
  }

  /** No match is left put aside when there is nothing ahead. */
  lemma NothingPutAside(recs: seq<Lz>, done: seq<byte>, parsed: seq<byte>, total: nat, input: seq<byte>,
                        saved_len: nat, saved_dist: nat, saved_lit: byte)
    requires Parsed(recs, done, parsed, total, input, |input|, saved_len, saved_dist, saved_lit)
    ensures saved_len == 0 && parsed == input
  {
    hide StandFor;
  }
}
