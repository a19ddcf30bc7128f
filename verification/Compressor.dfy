/**
  The compressor: takes input in pieces, parses it into literals and matches, writes blocks, and
  hands out the output in pieces.
 */
module Compressor {
  import opened Wrappers
  import opened Bits
  import opened Deflate
  import opened LzRecords
  import opened LzLayout
  import opened LzBuffer
  import opened HuffTables
  import opened BitWriter
  import opened BlockWriter
  import opened FixedFit
  import opened Stream
  import opened BlockFlush
  import opened BlockEnd
  import opened OutputBuffer
  import opened Parsing
  import opened Chains
  import D = Dictionary

  const GREEDY_PARSING_FLAG: nat := 0x04000
  const NONDETERMINISTIC_PARSING_FLAG: nat := 0x08000
  const RLE_MATCHES: nat := 0x10000
  const FILTER_MATCHES: nat := 0x20000
  const FORCE_ALL_STATIC_BLOCKS: nat := 0x40000
  const FORCE_ALL_RAW_BLOCKS: nat := 0x80000

  /** Whether a flag, a power of two, is set. */
  predicate HasFlag(flags: nat, flag: nat)
    requires flag > 0
  {
    flags / flag % 2 == 1
  }

  /** How many probes a setting allows. */
  function MaxProbes(probes: nat): (r: nat)
    ensures r > 0
  {
    1 + (probes + 2) / 3
  }

  datatype Status = BadParam | Okay | Done

  /** If the block begins within the window, the window holds all of it. */
  lemma InWindowSince(dict: seq<byte>, before: seq<byte>, input: seq<byte>, pos: nat, dict_size: nat, done: seq<byte>,
                      parsed: seq<byte>, total: nat)
    requires dict_size <= pos <= |input| && dict_size <= LZ_DICT_SIZE
    requires D.Window(dict, before + input, |before| + pos - dict_size)
    requires parsed <= input && |parsed| == |done| + total && |parsed| <= pos <= |parsed| + 1 && total + 1 < U32
    requires D.Sub32((|before| + pos) % U32, (|before| + |done|) % U32) <= dict_size
    ensures Holds(dict, before + parsed, |before| + |done|, total)
  {
    hide *;
    Longer(before, done, parsed, input);
    InWindow(dict, before + input, |before| + pos, dict_size, before + done, before + parsed, total);
  }

  lemma Longer(before: seq<byte>, done: seq<byte>, parsed: seq<byte>, input: seq<byte>)
    requires parsed <= input
    ensures before + parsed <= before + input
    ensures |before + parsed| == |before| + |parsed| && |before + done| == |before| + |done|
    ensures |before + input| == |before| + |input|
  {
  }

  lemma InWindow(dict: seq<byte>, input: seq<byte>, pos: nat, dict_size: nat, done: seq<byte>, parsed: seq<byte>,
                 total: nat)
    requires dict_size <= pos <= |input| && dict_size <= LZ_DICT_SIZE && D.Window(dict, input, pos - dict_size)
    requires parsed <= input && |parsed| == |done| + total && |parsed| <= pos <= |parsed| + 1 && total + 1 < U32
    requires D.Sub32(pos % U32, |done| % U32) <= dict_size
    ensures Holds(dict, parsed, |done|, total)
  {
    Difference(pos, |done|);
    WindowHolds(dict, input, pos - dict_size, |done|, total);
  }

  lemma Difference(a: nat, b: nat)
    requires b <= a < b + U32
    ensures D.Sub32(a % U32, b % U32) == a - b
  {
  }

  lemma {:induction false} SizesBound(recs: seq<Lz>)
    requires forall i :: 0 <= i < |recs| ==> InRange(recs[i])
    ensures Sizes(recs) <= 258 * |recs|
  {
    if recs != [] { SizesBound(recs[..|recs| - 1]); }
  }

  /** What is in the buffer of literals and matches cannot stand for 2^32 bytes. */
  lemma TotalBound(lz: LzBuffer)
    requires lz.Valid() && lz.code_pos <= LZ_CODE_BUF_SIZE - 2
    ensures lz.total_lz_bytes == Sizes(lz.recs) && lz.total_lz_bytes + 1 < U32
  {
    FewRecords(lz);
    hide Recorded, Tallied, PayloadPos, FlagPos, GroupStart;
    SizesBound(lz.recs);
  }

  class Compressor {
    const dic: D.Dictionary
    const lz: LzBuffer
    const cl: HuffTable
    const output: Output
    /** m_flags, m_max_probes, m_greedy_parsing: set once and for all. */
    const flags: nat
    const max_probes0: nat
    const max_probes1: nat
    const greedy_parsing: bool
    /** m_saved_match_len, m_saved_match_dist, m_saved_lit. */
    var saved_match_len: nat
    var saved_match_dist: nat
    var saved_lit: byte
    var lz_code_buf_dict_pos: nat
    var finished: bool
    var wants_to_finish: bool
    var prev_return_status: Status
    /** The input since the last full flush, up to the last block and up to the last record. */
    ghost var done: seq<byte>
    ghost var parsed: seq<byte>
    /** The output up to the last full flush. */
    ghost var mark: seq<byte>

    /** All arrays of the compressor. */
    ghost function Arrays(): (r: set<object>)
    {
      {dic.dict as object, dic.next as object, dic.hash as object, lz.code_buf as object,
       lz.lits.count as object, lz.lits.codes as object, lz.lits.sizes as object,
       lz.dists.count as object, lz.dists.codes as object, lz.dists.sizes as object,
       cl.count as object, cl.codes as object, cl.sizes as object, output.output_buf as object}
    }

    ghost function Repr(): (r: set<object>)
    {
      Arrays() + {this, dic, lz, output, output.w}
    }

    /** None of the arrays are the same. */
    ghost predicate Apart()
    {
      Distinct(dic, lz, cl, output)
    }

    /** The caller's buffer is not one of the compressor's own arrays. */
    ghost predicate Foreign(out_buf: array<byte>)
    {
      out_buf !in Arrays()
    }

    lemma ForeignGives(out_buf: array<byte>)
      requires Apart() && Foreign(out_buf)
      ensures Inputs(lz, cl, out_buf, dic.dict) && out_buf != output.output_buf && out_buf != dic.dict
      ensures out_buf as object != dic.next && out_buf as object != dic.hash && out_buf != lz.code_buf
      ensures out_buf as object != lz.lits.count && out_buf as object != lz.dists.count && out_buf as object != cl.count
      ensures out_buf as object != lz.lits.codes && out_buf as object != lz.dists.codes && out_buf as object != cl.codes
      ensures out_buf != lz.lits.sizes && out_buf != lz.dists.sizes && out_buf != cl.sizes
    {
    }

    lemma ApartGives()
      requires Apart()
      ensures dic.Shaped() && output.output_buf.Length == OUT_BUF_SIZE && Inputs(lz, cl, output.output_buf, dic.dict)
      ensures output.output_buf != dic.dict && lz.code_buf != dic.dict && output.output_buf != lz.code_buf
      ensures dic.dict as object != lz.lits.count && dic.dict as object != lz.dists.count
      ensures output.output_buf as object != lz.lits.count && output.output_buf as object != lz.dists.count
      ensures dic.dict as object != lz.lits.codes && dic.dict as object != lz.dists.codes
      ensures dic.dict as object != cl.count && dic.dict as object != cl.codes && dic.dict != cl.sizes
      ensures dic.dict != lz.lits.sizes && dic.dict != lz.dists.sizes
      ensures OffChain(dic.next, dic, lz, cl, output) && OffChain(dic.hash, dic, lz, cl, output)
    {
    }

    /** The records and the match put aside account for the input up to pos. */
    ghost predicate Account(pos: nat)
      reads this`done, this`parsed, this`saved_match_len, this`saved_match_dist, this`saved_lit, lz`recs
      reads lz`total_lz_bytes, dic`input
    {
      Parsed(lz.recs, done, parsed, lz.total_lz_bytes, dic.input, pos, saved_match_len, saved_match_dist, saved_lit)
    }

    ghost predicate Books(pos: nat)
      reads this`done, this`parsed, this`saved_match_len, this`saved_match_dist, this`saved_lit
      reads this`lz_code_buf_dict_pos, lz`recs, lz`total_lz_bytes, dic`input, dic`before
    {
      Account(pos) && lz_code_buf_dict_pos == (|dic.before| + |done|) % U32
    }

    /** The output stands for the input up to the last block, and behind the mark for what came since by itself. */
    ghost predicate Streamed(fin: bool)
      reads this`done, this`mark, dic`before
      reads output`out, output`flush_ofs, output`flush_remaining, output.output_buf, output.w
    {
      output.Valid() &&
      Behind(output.out + output.Pending(), mark, dic.before, output.w.bit_buffer, output.w.bits_in, done, fin)
    }

    /** The hash chains are complete, unless it was not asked for that the hash table be cleared. */
    ghost predicate Chaining()
      reads dic`chained
    {
      !HasFlag(flags, NONDETERMINISTIC_PARSING_FLAG) ==> dic.chained
    }

    /** Everything that always holds. */
    ghost predicate Valid()
      reads this`done, this`parsed, this`mark, this`saved_match_len, this`saved_match_dist, this`saved_lit
      reads this`lz_code_buf_dict_pos
      reads this`finished
      reads dic, dic.dict, dic.next, dic.hash, lz, lz.code_buf, lz.lits.count, lz.dists.count
      reads output`out, output`flush_ofs, output`flush_remaining, output.output_buf, output.w
    {
      Apart() && dic.Valid() && lz.Valid() && lz.code_pos <= LZ_CODE_BUF_SIZE - 8 && Books(dic.Pos()) &&
      Streamed(finished) &&
      max_probes0 > 0 && max_probes1 > 0 && Chaining() && (finished ==> done == dic.input)
    }

    constructor (flags: nat)
      ensures Valid() && fresh(Repr()) && !finished && !wants_to_finish && prev_return_status == Okay
      ensures dic.before == dic.input == [] && output.out == mark == [] && this.flags == flags
      ensures output.flush_remaining == 0 && greedy_parsing == HasFlag(flags, GREEDY_PARSING_FLAG)
      ensures max_probes0 == MaxProbes(flags % 4096) && max_probes1 == MaxProbes(flags % 4096 / 4)
    {
      hide Distinct, D.Dictionary.Valid, LzBuffer.Valid, Output.Valid, HasFlag, Valid, MaxProbes;
      var d, l, c, o := NewParts(!HasFlag(flags, NONDETERMINISTIC_PARSING_FLAG));
      dic, lz, cl, output := d, l, c, o;
      this.flags := flags;
      max_probes0, max_probes1 := MaxProbes(flags % 4096), MaxProbes(flags % 4096 / 4);
      greedy_parsing := HasFlag(flags, GREEDY_PARSING_FLAG);
      saved_match_len, saved_match_dist, saved_lit, lz_code_buf_dict_pos := 0, 0, 0, 0;
      finished, wants_to_finish, prev_return_status := false, false, Okay;
      done, parsed, mark := [], [], [];
      new;
      AtFirst();
    }

    lemma AtFirst()
      requires Distinct(dic, lz, cl, output) && dic.Valid() && lz.Valid() && lz.code_pos == 1
      requires dic.before == dic.input == []
      requires dic.lookahead_size == 0
      requires output.Valid() && output.out == [] && output.flush_remaining == 0 && output.w.bits_in == 0
      requires output.w.bit_buffer == 0
      requires lz.recs == [] && lz.total_lz_bytes == 0 && done == parsed == mark == [] && saved_match_len == 0
      requires lz_code_buf_dict_pos == 0
      requires max_probes0 > 0 && max_probes1 > 0 && !finished && Chaining()
      ensures Valid()
    {
      BehindAtFirst();
      hide Behind, D.Dictionary.Valid, LzBuffer.Valid, Distinct, Apart;
      ApartAtFirst();
      assert output.out + output.Pending() == [];
    }

    lemma ApartAtFirst()
      requires Distinct(dic, lz, cl, output)
      ensures Apart()
    {
    }

    /** The length a match has to beat. */
    function Beat(): (r: nat)
      reads this
    {
      if saved_match_len > 0 then saved_match_len else MIN_MATCH_LEN - 1
    }

    /** The probes for a length to beat. */
    function Probes(len: nat): (r: nat)
      reads this
    {
      if len >= 32 then max_probes1 else max_probes0
    }

    /**
      Looks for a match at the lookahead, of whatever length: none if blocks are to be stored, the
      longest run of the byte before if runs alone are wanted, otherwise the longest on the chain.
     */
    method Look() returns (dist: nat, len: nat)
      requires dic.Valid() && dic.lookahead_size > 0 && (saved_match_len == 0 || MIN_MATCH_LEN <= saved_match_len < 128)
      requires max_probes0 > 0 && max_probes1 > 0
      ensures Candidate(dic.input, dic.Pos(), dic.lookahead_size, Beat(), dist, len)
      ensures HasFlag(flags, FORCE_ALL_RAW_BLOCKS) ==> dist == 0
      ensures HasFlag(flags, RLE_MATCHES) && !HasFlag(flags, FORCE_ALL_RAW_BLOCKS) ==>
                dist <= 1 && (dic.dict_size > 0 ==> LongestRun(dic.input, dic.Pos(), dic.lookahead_size, dist, len))
      ensures !HasFlag(flags, RLE_MATCHES) && !HasFlag(flags, FORCE_ALL_RAW_BLOCKS) && dic.chained ==>
                NoneLonger(dic.All(), |dic.before| + dic.Pos(), dic.dict_size, dic.lookahead_size,
                           Probes(Beat()) - 1, len)
    {
      hide *;
      DictionarySizes(dic);
      BeatIs();
      Shortest();
      dist, len := 0, Beat();
      if HasFlag(flags, RLE_MATCHES) || HasFlag(flags, FORCE_ALL_RAW_BLOCKS) {
        if dic.dict_size > 0 && !HasFlag(flags, FORCE_ALL_RAW_BLOCKS) {
          len := dic.RunAhead();
          if len < MIN_MATCH_LEN {
            len := 0;
          } else {
            dist := 1;
          }
          LongestIs(dic.input, dic.Pos(), dic.lookahead_size, dist, len);
        }
      } else {
        dist, len := dic.FindMatch(max_probes0, max_probes1, dic.dict_size, dic.lookahead_size, dist, len);
        ProbesIs();
        if dist != 0 || len != Beat() { AtLeastOne(dic.input, dic.Pos(), dist, len); }
      }
      CandidateNow(dic.input, dic.Pos(), dic.lookahead_size, Beat(), dist, len);
    }

    lemma ProbesIs()
      ensures Probes(Beat()) == if Beat() >= 32 then max_probes1 else max_probes0
    {
    }

    static lemma LongestIs(input: seq<byte>, pos: nat, ahead: nat, dist: nat, len: nat)
      requires dist <= 1 && if dist == 1 then len >= MIN_MATCH_LEN else len == 0
      requires forall n: nat :: n <= ahead && MatchAt(input, pos, 1, n) ==> n <= if dist == 1 then len else 2
      ensures LongestRun(input, pos, ahead, dist, len)
    {
    }

    static lemma CandidateNow(input: seq<byte>, pos: nat, ahead: nat, beat: nat, dist: nat, len: nat)
      requires dist == 0 ==> len == 0 || len == beat
      requires dist != 0 ==>
                 MIN_MATCH_LEN <= len <= ahead && len <= MAX_MATCH_LEN && dist <= LZ_DICT_SIZE &&
                 MatchAt(input, pos, dist, len)
      ensures Candidate(input, pos, ahead, beat, dist, len)
    {
    }

    /** Matches that are not worth it: far ones of three bytes, those to the start of the ring, filtered ones. */
    predicate Dropped(dist: nat, len: nat)
      reads this, dic
    {
      (len == MIN_MATCH_LEN && dist >= 8 * 1024) || Ring(dic.lookahead_pos) == dist ||
      (HasFlag(flags, FILTER_MATCHES) && len <= 5)
    }

    /** Looks for a match at the lookahead that is worth it. */
    method Search() returns (dist: nat, len: nat, ghost found: (nat, nat))
      requires dic.Valid() && dic.lookahead_size > 0 && (saved_match_len == 0 || MIN_MATCH_LEN <= saved_match_len < 128)
      requires max_probes0 > 0 && max_probes1 > 0
      ensures Candidate(dic.input, dic.Pos(), dic.lookahead_size, Beat(), dist, len)
      ensures HasFlag(flags, FORCE_ALL_RAW_BLOCKS) ==> dist == 0
      ensures HasFlag(flags, RLE_MATCHES) && !HasFlag(flags, FORCE_ALL_RAW_BLOCKS) && dic.dict_size > 0 ==>
                LongestRun(dic.input, dic.Pos(), dic.lookahead_size, found.0, found.1)
      ensures !HasFlag(flags, RLE_MATCHES) && !HasFlag(flags, FORCE_ALL_RAW_BLOCKS) && dic.chained ==>
                NoneLonger(dic.All(), |dic.before| + dic.Pos(), dic.dict_size, dic.lookahead_size,
                           Probes(Beat()) - 1, found.1)
      ensures (dist, len) == if Dropped(found.0, found.1) then (0, 0) else found
    {
      DictionarySizes(dic);
      hide D.Dictionary.Valid, HasFlag, MatchAt, NoneLonger, LongestRun;
      dist, len := Look();
      found := (dist, len);
      if (len == MIN_MATCH_LEN && dist >= 8 * 1024) || Ring(dic.lookahead_pos) == dist ||
         (HasFlag(flags, FILTER_MATCHES) && len <= 5)
      {
        dist, len := 0, 0;
      }
    }

    static lemma DictionarySizes(d: D.Dictionary)
      requires d.Valid()
      ensures d.lookahead_size <= MAX_MATCH_LEN && d.dict_size <= LZ_DICT_SIZE && d.Pos() >= 0
    {
    }

    static lemma AtLeastOne(input: seq<byte>, p: nat, dist: nat, len: nat)
      requires MatchAt(input, p, dist, len)
      ensures dist >= 1
    {
    }

    /** Records a literal that follows what has been parsed. */
    method Record(c: byte, ghost pos: nat)
      requires lz.Valid() && lz.code_pos <= LZ_CODE_BUF_SIZE - 2
      requires Parsed(lz.recs, done, parsed, lz.total_lz_bytes, dic.input, pos, 0, 0, 0)
      requires pos < |dic.input| && dic.input[pos] == c
      modifies lz, lz.code_buf, lz.lits.count, lz.dists.count, this`parsed
      ensures lz.Valid() && lz.code_pos <= old(lz.code_pos) + 2 && lz.recs == old(lz.recs) + [Literal(c)]
      ensures Parsed(lz.recs, done, parsed, lz.total_lz_bytes, dic.input, pos + 1, 0, 0, 0)
    {
      hide *;
      TakeLiteral(lz.recs, done, parsed, lz.total_lz_bytes, dic.input, pos, c);
      lz.RecordLiteral(c);
      parsed := Upto(dic.input, pos + 1);
      SameTotal(lz.recs, done, parsed, old(lz.total_lz_bytes) + 1, dic.input, pos + 1);
      TotalIs(lz);
    }

    /** Records a match that follows what has been parsed. */
    method RecordMatch(len: nat, dist: nat, ghost pos: nat)
      requires lz.Valid() && lz.code_pos <= LZ_CODE_BUF_SIZE - 4
      requires Parsed(lz.recs, done, parsed, lz.total_lz_bytes, dic.input, pos, 0, 0, 0)
      requires MatchAt(dic.input, pos, dist, len) && MIN_MATCH_LEN <= len <= MAX_MATCH_LEN && dist <= LZ_DICT_SIZE
      modifies lz, lz.code_buf, lz.lits.count, lz.dists.count, this`parsed
      ensures lz.Valid() && lz.code_pos <= old(lz.code_pos) + 4 && pos + len <= |dic.input|
      ensures lz.recs == old(lz.recs) + [Match(len, dist)]
      ensures Parsed(lz.recs, done, parsed, lz.total_lz_bytes, dic.input, pos + len, 0, 0, 0)
    {
      hide *;
      MatchBounds(dic.input, pos, dist, len);
      TakeMatch(lz.recs, done, parsed, lz.total_lz_bytes, dic.input, pos, len, dist);
      lz.RecordMatch(len, dist);
      parsed := Upto(dic.input, pos + len);
      SameTotal(lz.recs, done, parsed, old(lz.total_lz_bytes) + len, dic.input, pos + len);
      TotalIs(lz);
    }

    static lemma SameTotal(recs: seq<Lz>, done: seq<byte>, parsed: seq<byte>, total: nat, input: seq<byte>, pos: nat)
      requires Parsed(recs, done, parsed, total, input, pos, 0, 0, 0)
      ensures total == Sizes(recs)
    {
      hide AllSound, PlayAll, Sizes;
    }

    static lemma TotalIs(lz: LzBuffer)
      requires lz.Valid()
      ensures lz.total_lz_bytes == Sizes(lz.recs)
    {
      hide Sizes;
    }

    lemma AccountGives(pos: nat)
      requires Account(pos)
      ensures StandFor(lz.recs, done, parsed, lz.total_lz_bytes) && parsed <= dic.input && pos <= |dic.input|
      ensures |parsed| == |done| + lz.total_lz_bytes <= pos <= |parsed| + 1 && done <= parsed
      ensures saved_match_len == 0 || MIN_MATCH_LEN <= saved_match_len < 128
      ensures saved_match_len == 0 ==> Parsed(lz.recs, done, parsed, lz.total_lz_bytes, dic.input, pos, 0, 0, 0)
      ensures saved_match_len > 0 ==>
                pos >= 1 && pos - 1 + saved_match_len <= |dic.input| && saved_match_dist <= LZ_DICT_SIZE
      ensures saved_match_len > 0 ==> Parsed(lz.recs, done, parsed, lz.total_lz_bytes, dic.input, pos - 1, 0, 0, 0)
      ensures saved_match_len > 0 ==> dic.input[pos - 1] == saved_lit
      ensures saved_match_len > 0 ==> MatchAt(dic.input, pos - 1, saved_match_dist, saved_match_len)
    {
      hide Parsed;
      ParsedGives(lz.recs, done, parsed, lz.total_lz_bytes, dic.input, pos, saved_match_len, saved_match_dist,
                  saved_lit);
      if saved_match_len > 0 {
        BeforeSaved(lz.recs, done, parsed, lz.total_lz_bytes, dic.input, pos, saved_match_len, saved_match_dist,
                    saved_lit);
      }
    }

    lemma AccountNow(pos: nat)
      requires saved_match_len == 0 && Parsed(lz.recs, done, parsed, lz.total_lz_bytes, dic.input, pos, 0, 0, 0)
      ensures Account(pos)
    {
    }

    /** Puts a match aside. */
    method Save(len: nat, dist: nat, lit: byte, ghost pos: nat)
      requires Parsed(lz.recs, done, parsed, lz.total_lz_bytes, dic.input, pos, 0, 0, 0)
      requires MatchAt(dic.input, pos, dist, len) && MIN_MATCH_LEN <= len < 128 && dist <= LZ_DICT_SIZE
      requires pos < |dic.input| && dic.input[pos] == lit
      modifies this`saved_match_len, this`saved_match_dist, this`saved_lit
      ensures Account(pos + 1) && saved_match_len == len && saved_match_dist == dist && saved_lit == lit
    {
      hide Parsed, MatchAt;
      saved_lit, saved_match_dist, saved_match_len := lit, dist, len;
      SaveMatch(lz.recs, done, parsed, lz.total_lz_bytes, dic.input, pos, len, dist, lit);
    }

    /** With a match put aside: a longer one here makes a literal of the byte before, otherwise it is recorded. */
    method DecideSaved(dist: nat, len: nat, lit: byte, ghost pos: nat) returns (len_to_move: nat)
      requires lz.Valid() && lz.code_pos <= LZ_CODE_BUF_SIZE - 8 && Account(pos) && saved_match_len > 0
      requires Candidate(dic.input, pos, |dic.input| - pos, saved_match_len, dist, len) && pos < |dic.input|
      requires dic.input[pos] == lit
      modifies lz, lz.code_buf, lz.lits.count, lz.dists.count, this`parsed, this`saved_match_len, this`saved_match_dist
      modifies this`saved_lit
      ensures lz.Valid() && lz.code_pos <= old(lz.code_pos) + 6
      ensures pos + len_to_move <= |dic.input| && Account(pos + len_to_move) && len_to_move > 0
      ensures Took(old(saved_match_len), old(saved_match_dist), old(saved_lit), dist, len, lit, old(lz.recs),
                   len_to_move)
    {
      hide *;
      Shortest();
      AccountGives(pos);
      ghost var len0, dist0, lit0, recs0 := saved_match_len, saved_match_dist, saved_lit, lz.recs;
      CandidateGives(dic.input, pos, |dic.input| - pos, saved_match_len, dist, len);
      if len > saved_match_len {
        Record(saved_lit, pos - 1);
        if len >= 128 {
          RecordMatch(len, dist, pos);
          saved_match_len := 0;
          AccountNow(pos + len);
          len_to_move := len;
        } else {
          Save(len, dist, lit, pos);
          len_to_move := 1;
        }
      } else {
        RecordMatch(saved_match_len, saved_match_dist, pos - 1);
        len_to_move := saved_match_len - 1;
        saved_match_len := 0;
        AccountNow(pos + len_to_move);
      }
      TookSaved(len0, dist0, lit0, dist, len, lit, recs0, len_to_move);
    }

    /** The lazy parser's move has been made: what is recorded, what is put aside, how far it goes on. */
    ghost predicate Took(len0: nat, dist0: nat, lit0: byte, dist: nat, len: nat, lit: byte, recs0: seq<Lz>,
                         len_to_move: nat)
      reads this`saved_match_len, this`saved_match_dist, this`saved_lit, lz`recs
    {
      var m := LazyMove(len0, dist0, lit0, dist, len, lit, greedy_parsing || HasFlag(flags, RLE_MATCHES));
      lz.recs == recs0 + m.recs && len_to_move == m.forward &&
      if m.aside then saved_match_len == len && saved_match_dist == dist && saved_lit == lit else saved_match_len == 0
    }

    lemma TookSaved(len0: nat, dist0: nat, lit0: byte, dist: nat, len: nat, lit: byte, recs0: seq<Lz>, len_to_move: nat)
      requires len0 > 0
      requires len > len0 ==>
                 if len >= 128 then
                   lz.recs == (recs0 + [Literal(lit0)]) + [Match(len, dist)] && saved_match_len == 0 &&
                   len_to_move == len
                 else
                   lz.recs == recs0 + [Literal(lit0)] && saved_match_len == len && saved_match_dist == dist &&
                   saved_lit == lit && len_to_move == 1
      requires len <= len0 ==>
                 lz.recs == recs0 + [Match(len0, dist0)] && saved_match_len == 0 && len_to_move == len0 - 1
      ensures Took(len0, dist0, lit0, dist, len, lit, recs0, len_to_move)
    {
      hide HasFlag;
    }

    lemma TookFresh(dist0: nat, lit0: byte, dist: nat, len: nat, lit: byte, recs0: seq<Lz>, len_to_move: nat)
      requires var now := greedy_parsing || HasFlag(flags, RLE_MATCHES) || len >= 128;
               if dist == 0 then lz.recs == recs0 + [Literal(lit)] && saved_match_len == 0 && len_to_move == 1
               else if now then lz.recs == recs0 + [Match(len, dist)] && saved_match_len == 0 && len_to_move == len
               else
                 lz.recs == recs0 && saved_match_len == len && saved_match_dist == dist && saved_lit == lit &&
                 len_to_move == 1
      ensures Took(0, dist0, lit0, dist, len, lit, recs0, len_to_move)
    {
      hide HasFlag;
      assert lz.recs == recs0 ==> lz.recs == recs0 + [];
    }

    static lemma Shortest()
      ensures MIN_MATCH_LEN == 3 && MAX_MATCH_LEN == 258 && RLE_MATCHES > 0 && FORCE_ALL_RAW_BLOCKS > 0
    {
    }

    static lemma CandidateGives(input: seq<byte>, pos: nat, ahead: nat, beat: nat, dist: nat, len: nat)
      requires Candidate(input, pos, ahead, beat, dist, len) && beat >= 2
      ensures dist != 0 ==>
                MIN_MATCH_LEN <= len <= MAX_MATCH_LEN && len <= ahead && dist <= LZ_DICT_SIZE &&
                MatchAt(input, pos, dist, len)
      ensures len > beat ==> dist != 0
    {
    }

    /** Without a match put aside: a literal, a match at once, or a match put aside. */
    method DecideFresh(dist: nat, len: nat, lit: byte, ghost pos: nat) returns (len_to_move: nat)
      requires lz.Valid() && lz.code_pos <= LZ_CODE_BUF_SIZE - 8 && Account(pos) && saved_match_len == 0
      requires Candidate(dic.input, pos, |dic.input| - pos, MIN_MATCH_LEN - 1, dist, len) && pos < |dic.input|
      requires dic.input[pos] == lit
      modifies lz, lz.code_buf, lz.lits.count, lz.dists.count, this`parsed, this`saved_match_len, this`saved_match_dist
      modifies this`saved_lit
      ensures lz.Valid() && lz.code_pos <= old(lz.code_pos) + 6
      ensures pos + len_to_move <= |dic.input| && Account(pos + len_to_move) && len_to_move > 0
      ensures Took(0, old(saved_match_dist), old(saved_lit), dist, len, lit, old(lz.recs), len_to_move)
    {
      hide *;
      Shortest();
      AccountGives(pos);
      ghost var dist0, lit0, recs0 := saved_match_dist, saved_lit, lz.recs;
      CandidateGives(dic.input, pos, |dic.input| - pos, MIN_MATCH_LEN - 1, dist, len);
      if dist == 0 {
        Record(lit, pos);
        AccountNow(pos + 1);
        len_to_move := 1;
      } else if greedy_parsing || HasFlag(flags, RLE_MATCHES) || len >= 128 {
        RecordMatch(len, dist, pos);
        AccountNow(pos + len);
        len_to_move := len;
      } else {
        Save(len, dist, lit, pos);
        len_to_move := 1;
      }
      TookFresh(dist0, lit0, dist, len, lit, recs0, len_to_move);
    }

    /** One step of the lazy parser: what is found at the lookahead, and what is made of it. */
    method ParseOne() returns (ghost found: (nat, nat))
      requires Apart() && dic.Valid() && lz.Valid() && lz.code_pos <= LZ_CODE_BUF_SIZE - 8 && Account(dic.Pos())
      requires dic.lookahead_size > 0 && max_probes0 > 0 && max_probes1 > 0
      modifies lz, lz.code_buf, lz.lits.count, lz.dists.count, this`parsed, this`saved_match_len, this`saved_match_dist
      modifies this`saved_lit
      modifies dic`lookahead_pos, dic`lookahead_size, dic`dict_size
      ensures dic.Valid() && lz.Valid() && lz.code_pos <= old(lz.code_pos) + 6 && Account(dic.Pos())
      ensures dic.lookahead_size < old(dic.lookahead_size)
      ensures !HasFlag(flags, RLE_MATCHES) && !HasFlag(flags, FORCE_ALL_RAW_BLOCKS) && dic.chained ==>
                NoneLonger(dic.All(), |dic.before| + old(dic.Pos()), old(dic.dict_size), old(dic.lookahead_size),
                           old(Probes(Beat())) - 1, found.1)
      ensures var (dist, len) := if old(Dropped(found.0, found.1)) then (0, 0) else found;
              0 <= old(dic.Pos()) < |dic.input| &&
              Took(old(saved_match_len), old(saved_match_dist), old(saved_lit), dist, len,
                   dic.input[old(dic.Pos())], old(lz.recs), old(dic.lookahead_size) - dic.lookahead_size)
    {
      hide *;
      Ahead(dic);
      SavedBounds(dic.Pos());
      ghost var pos := dic.Pos();
      var dist, len;
      dist, len, found := Search();
      var lit := dic.Current();
      var len_to_move := Decide(dist, len, lit, pos);
      Ahead(dic);
      dic.Advance(len_to_move);
      Ahead(dic);
    }

    lemma SavedBounds(pos: nat)
      requires Account(pos)
      ensures saved_match_len == 0 || MIN_MATCH_LEN <= saved_match_len < 128
    {
      hide StandFor, MatchAt;
    }

    /** A literal, a match, or a match put aside. */
    method Decide(dist: nat, len: nat, lit: byte, ghost pos: nat) returns (len_to_move: nat)
      requires Apart() && dic.Valid() && lz.Valid() && lz.code_pos <= LZ_CODE_BUF_SIZE - 8 && Account(pos)
      requires dic.Pos() == pos
      requires Candidate(dic.input, pos, dic.lookahead_size, Beat(), dist, len) && pos < |dic.input|
      requires dic.input[pos] == lit
      modifies lz, lz.code_buf, lz.lits.count, lz.dists.count, this`parsed, this`saved_match_len, this`saved_match_dist
      modifies this`saved_lit
      ensures dic.Valid() && dic.Pos() == pos
      ensures lz.Valid() && lz.code_pos <= old(lz.code_pos) + 6
      ensures 0 < len_to_move <= dic.lookahead_size && Account(pos + len_to_move)
      ensures Took(old(saved_match_len), old(saved_match_dist), old(saved_lit), dist, len, lit, old(lz.recs),
                   len_to_move)
    {
      hide *;
      ApartGives();
      Ahead(dic);
      BeatIs();
      ghost var d0 := dic.dict[..];
      if saved_match_len > 0 {
        len_to_move := DecideSaved(dist, len, lit, pos);
      } else {
        len_to_move := DecideFresh(dist, len, lit, pos);
      }
      assert dic.dict[..] == d0;
    }

    lemma BeatIs()
      ensures Beat() == if saved_match_len > 0 then saved_match_len else MIN_MATCH_LEN - 1
    {
    }

    static lemma Ahead(d: D.Dictionary)
      requires d.Valid()
      ensures 0 <= d.Pos() == |d.input| - d.lookahead_size
    {
    }

    /** How the block at hand is to be written. */
    method BlockKind() returns (in_window: bool, use_raw_block: bool, static_block: bool)
      requires dic.Valid() && lz.Valid() && lz.code_pos <= LZ_CODE_BUF_SIZE - 2 && Books(dic.Pos())
      ensures in_window ==> Holds(dic.dict[..], dic.before + parsed, |dic.before| + |done|, lz.total_lz_bytes)
      ensures use_raw_block <==> HasFlag(flags, FORCE_ALL_RAW_BLOCKS) && in_window
      ensures static_block <==> HasFlag(flags, FORCE_ALL_STATIC_BLOCKS) || lz.total_lz_bytes < 48
      ensures in_window <==> D.Sub32(dic.lookahead_pos, lz_code_buf_dict_pos) <= dic.dict_size
      ensures StandFor(lz.recs, done, parsed, lz.total_lz_bytes)
      ensures lz_code_buf_dict_pos == (|dic.before| + |done|) % U32
    {
      AccountGives(dic.Pos());
      TotalBound(lz);
      WindowGives(dic);
      hide HasFlag, LzBuffer.Valid, StandFor, Parsed, Holds, D.Window, D.Sub32;
      in_window := D.Sub32(dic.lookahead_pos, lz_code_buf_dict_pos) <= dic.dict_size;
      use_raw_block := HasFlag(flags, FORCE_ALL_RAW_BLOCKS) && in_window;
      static_block := HasFlag(flags, FORCE_ALL_STATIC_BLOCKS) || lz.total_lz_bytes < 48;
      if in_window {
        InWindowSince(dic.dict[..], dic.before, dic.input, dic.Pos(), dic.dict_size, done, parsed, lz.total_lz_bytes);
      }
    }

    static lemma WindowGives(d: D.Dictionary)
      requires d.Valid()
      ensures d.dict_size <= d.Pos() <= |d.input| && d.dict_size <= LZ_DICT_SIZE
      ensures d.lookahead_pos == (|d.before| + d.Pos()) % U32
      ensures D.Window(d.dict[..], d.before + d.input, |d.before| + d.Pos() - d.dict_size)
    {
    }

    /** Writes a block where output.Start has put the bit writer. */
    method PutStarted(out_buf: array<byte>, flush: Flush, ghost out0: seq<byte>, start: nat) returns (ghost more: Bits)
      requires Apart() && Foreign(out_buf) && dic.Valid() && lz.Valid() && lz.code_pos <= LZ_CODE_BUF_SIZE - 2
      requires Books(dic.Pos())
      requires output.w.Valid() && output.w.cur == output.w.start == start && output.w.end == start + OUT_BUF_SIZE - 16
      requires |output.w.bits| < 8 && output.Placed(out_buf, output.w.target, start) && output.Given(out0, out_buf)
      modifies lz`code_pos, lz.code_buf, lz.lits.count, lz.lits.codes, lz.lits.sizes, lz.dists.codes, lz.dists.sizes,
               cl.count, cl.codes, cl.sizes, output.w, output.w.target
      ensures dic.Valid() && output.w.Valid() && output.w.start == start && output.w.target == old(output.w.target)
      ensures output.w.bits == old(output.w.bits) + more && Continues(more, old(|output.w.bits|), done, parsed, flush)
      ensures output.Given(out0, out_buf)
      ensures output.w.Fits()
      ensures flush != NoFlush ==> output.w.bits_in == 0
    {
      hide *;
      ApartGives();
      ChainsGive();
      ForeignGives(out_buf);
      PlacedGives(out_buf, output.w.target, start);
      GivenIs(out_buf, out0);
      ghost var d0, b0 := dic.dict[..], out_buf[..];
      var in_window, use_raw_block, static_block := BlockKind();
      StateIs(output.w);
      ghost var a := output.w.State();
      more := WriteBlock(lz, cl, output.w, dic.dict, lz_code_buf_dict_pos, in_window, use_raw_block, static_block,
                         flush, dic.before, done, parsed);
      assert dic.dict[..] == d0;
      StateIs(output.w);
      ExtendsBits(a, output.w.State(), more);
      assert output.w.target != out_buf ==> out_buf[..] == b0;
      GivenStill(out_buf, out0, b0, a, output.w.State(), more);
    }

    lemma GivenStill(out_buf: array<byte>, out0: seq<byte>, b0: seq<byte>, a: Snapshot, b: Snapshot, more: Bits)
      requires output.out_buf_ofs <= |b0| == out_buf.Length && output.out == out0 + b0[..output.out_buf_ofs]
      requires out_buf[..] == b0 ||
               (a.bytes == b0 && b.bytes == out_buf[..] && a.cur == output.out_buf_ofs && Extends(a, b, more))
      ensures output.Given(out0, out_buf)
    {
      var k := output.out_buf_ofs;
      if out_buf[..] == b0 {
        assert out_buf[..k] == b0[..k];
      } else {
        assert Kept(a.bytes, b.bytes, k, a.end);
        assert out_buf[..k] == b.bytes[..k] == b0[..k];
      }
    }

    /** Writes a block where there is room for it. */
    method PutBlock(out_buf: array<byte>, flush: Flush, ghost out0: seq<byte>) returns (start: nat, ghost more: Bits)
      requires Apart() && Foreign(out_buf) && dic.Valid() && lz.Valid() && lz.code_pos <= LZ_CODE_BUF_SIZE - 2
      requires Books(dic.Pos())
      requires output.Valid() && output.flush_remaining == 0 && output.Given(out0, out_buf)
      modifies lz`code_pos, lz.code_buf, lz.lits.count, lz.lits.codes, lz.lits.sizes, lz.dists.codes, lz.dists.sizes,
               cl.count, cl.codes, cl.sizes, output`flush_ofs, output.w, output.output_buf, out_buf
      ensures dic.Valid() && output.w.Valid() && output.w.start == start
      ensures output.Placed(out_buf, output.w.target, start)
      ensures output.w.bits == ToBits(old(output.w.bit_buffer), old(output.w.bits_in)) + more
      ensures Continues(more, old(output.w.bits_in), done, parsed, flush)
      ensures output.flush_ofs == 0 && output.Given(out0, out_buf)
      ensures output.w.Fits()
      ensures flush != NoFlush ==> output.w.bits_in == 0
    {
      hide *;
      ForeignGives(out_buf);
      GivenIs(out_buf, out0);
      output.Start(out_buf);
      start := output.w.start;
      PlacedGives(out_buf, output.w.target, start);
      FewBits(output.w);
      more := PutStarted(out_buf, flush, out0, start);
    }

    static lemma FewBits(w: BitWriter)
      requires w.Valid() && w.bits == ToBits(w.bit_buffer, w.bits_in)
      ensures |w.bits| == w.bits_in < 8
    {
    }

    lemma PlacedGives(out_buf: array<byte>, target: array<byte>, start: nat)
      requires output.Placed(out_buf, target, start)
      ensures target == out_buf || target == output.output_buf
      ensures target == out_buf && out_buf != output.output_buf ==> start == output.out_buf_ofs
    {
    }

    lemma GivenIs(out_buf: array<byte>, out0: seq<byte>)
      requires output.Given(out0, out_buf)
      ensures output.out_buf_ofs <= out_buf.Length && output.out == out0 + out_buf[..][..output.out_buf_ofs]
    {
      assert out_buf[..][..output.out_buf_ofs] == out_buf[..output.out_buf_ofs];
    }

    lemma StreamedGives()
      requires Streamed(false) && output.flush_remaining == 0
      ensures output.Valid() && output.w.bits_in < 8
      ensures Behind(output.out, mark, dic.before, output.w.bit_buffer, output.w.bits_in, done, false)
    {
      hide Behind;
      assert output.out + output.Pending() == output.out;
    }

    lemma StreamedNow(fin: bool)
      requires output.Valid()
      requires Behind(output.out + output.Pending(), mark, dic.before, output.w.bit_buffer, output.w.bits_in, done, fin)
      ensures Streamed(fin)
    {
      hide Behind;
    }

    /** The records have been written; the books start anew. */
    method CloseBlock()
      requires lz.Shaped() && dic.Pos() >= 0 && Books(dic.Pos())
      modifies this`done, this`lz_code_buf_dict_pos, lz, lz.lits.count, lz.dists.count
      ensures lz.Valid() && lz.code_pos == 1 && lz.recs == [] && done == parsed && Books(dic.Pos())
    {
      ParsedFlushed(lz.recs, done, parsed, lz.total_lz_bytes, dic.input, dic.Pos(), saved_match_len, saved_match_dist,
                    saved_lit);
      ParsedGives(lz.recs, done, parsed, lz.total_lz_bytes, dic.input, dic.Pos(), saved_match_len, saved_match_dist,
                  saved_lit);
      SumWraps(|dic.before| + |done|, lz.total_lz_bytes);
      hide Parsed, StandFor, LzBuffer.Valid;
      lz_code_buf_dict_pos := (lz_code_buf_dict_pos + lz.total_lz_bytes) % U32;
      done := parsed;
      lz.Reset();
    }

    static lemma SumWraps(a: nat, b: nat)
      ensures (a % U32 + b) % U32 == (a + b) % U32
    {
    }

    /** Writes the block at hand behind what has gone out so far. */
    method PutNext(out_buf: array<byte>, flush: Flush, ghost out0: seq<byte>) returns (start: nat)
      requires Apart() && Foreign(out_buf) && dic.Valid() && lz.Valid() && lz.code_pos <= LZ_CODE_BUF_SIZE - 2
      requires Books(dic.Pos())
      requires Streamed(false) && output.flush_remaining == 0 && output.Given(out0, out_buf)
      modifies lz`code_pos, lz.code_buf, lz.lits.count, lz.lits.codes, lz.lits.sizes, lz.dists.codes, lz.dists.sizes,
               cl.count, cl.codes, cl.sizes, output`flush_ofs, output.w, output.output_buf, out_buf
      ensures dic.Valid() && output.w.Valid() && output.w.start == start <= output.w.cur <= output.w.target.Length
      ensures output.Placed(out_buf, output.w.target, start) && output.flush_ofs == 0 && output.Given(out0, out_buf)
      ensures Behind(output.out + Piece(output.w.target[..], start, output.w.cur), mark, dic.before,
                     output.w.bit_buffer, output.w.bits_in, parsed, flush == Finish)
      ensures flush != NoFlush ==> output.w.bits_in == 0
    {
      hide *;
      ghost var bb, bi := output.w.bit_buffer, output.w.bits_in;
      StreamedGives();
      ghost var more;
      start, more := PutBlock(out_buf, flush, out0);
      WriterBounds(output.w);
      AddsToStream(output.out, bb, bi, done, flush, more, start);
    }

    static lemma WriterBounds(w: BitWriter)
      requires w.Valid()
      ensures w.start <= w.cur <= w.target.Length
    {
    }

    /** Writes the block at hand, with the marks of the flush asked for, and hands it out. */
    method FlushBlock(out_buf: array<byte>, flush: Flush, ghost out0: seq<byte>)
      requires Apart() && Foreign(out_buf) && dic.Valid() && lz.Valid() && lz.code_pos <= LZ_CODE_BUF_SIZE - 2
      requires Books(dic.Pos())
      requires Streamed(false) && output.flush_remaining == 0 && output.Given(out0, out_buf)
      modifies this`done, this`lz_code_buf_dict_pos, lz, lz.code_buf, lz.lits.count, lz.lits.codes, lz.lits.sizes,
               lz.dists.count, lz.dists.codes, lz.dists.sizes, cl.count, cl.codes, cl.sizes, output, output.w,
               output.output_buf, out_buf
      ensures dic.Valid() && lz.Valid() && lz.code_pos == 1 && Books(dic.Pos()) && Streamed(flush == Finish)
      ensures done == parsed && lz.recs == [] && (flush != NoFlush ==> output.w.bits_in == 0)
      ensures output.Given(out0, out_buf) && (output.flush_remaining > 0 ==> output.out_buf_ofs == out_buf.Length)
    {
      hide *;
      TablesGive(lz);
      Ahead(dic);
      var start := PutNext(out_buf, flush, out0);
      ApartGives();
      ForeignGives(out_buf);
      PlacedGives(out_buf, output.w.target, start);
      ghost var d0 := dic.dict[..];
      CloseBlock();
      output.Deliver(out_buf, start, out0);
      assert dic.dict[..] == d0;
      StreamedNow(flush == Finish);
    }

    static lemma TablesGive(lz: LzBuffer)
      requires lz.Valid()
      ensures lz.Shaped()
    {
    }

    lemma AddsToStream(out1: seq<byte>, bb: nat, bi: nat, done1: seq<byte>, flush: Flush, more: Bits, start: nat)
      requires Behind(out1, mark, dic.before, bb, bi, done1, false) && Continues(more, bi, done1, parsed, flush)
      requires output.w.Valid() && output.w.Fits() && output.w.bits == ToBits(bb, bi) + more && output.w.start == start
      requires flush == Finish ==> output.w.bits_in == 0
      ensures start <= output.w.cur <= output.w.target.Length
      ensures Behind(out1 + Piece(output.w.target[..], start, output.w.cur), mark, dic.before, output.w.bit_buffer,
                     output.w.bits_in, parsed, flush == Finish)
    {
      hide Behind, Continues, Written, Piece;
      var w := output.w;
      BehindMore(out1, mark, dic.before, bb, bi, done1, parsed, flush, w.target[..], start, w.cur, w.end, w.bit_buffer,
                 w.bits_in, w.bits, more);
    }

    lemma ValidGives()
      requires Valid()
      ensures Apart() && dic.Valid() && lz.Valid() && lz.code_pos <= LZ_CODE_BUF_SIZE - 8 && dic.Pos() >= 0
      ensures Books(dic.Pos())
      ensures Account(dic.Pos()) && Streamed(finished) && max_probes0 > 0 && max_probes1 > 0 && Chaining()
      ensures finished ==> done == dic.input
      ensures lz_code_buf_dict_pos == (|dic.before| + |done|) % U32
    {
      hide Apart, LzBuffer.Valid, Account, Streamed;
    }

    lemma ValidNow()
      requires Apart() && dic.Valid() && lz.Valid() && lz.code_pos <= LZ_CODE_BUF_SIZE - 8 && dic.Pos() >= 0
      requires Account(dic.Pos())
      requires lz_code_buf_dict_pos == (|dic.before| + |done|) % U32
      requires Streamed(finished) && max_probes0 > 0 && max_probes1 > 0 && Chaining()
      requires finished ==> done == dic.input
      ensures Valid()
    {
      hide Apart, LzBuffer.Valid, Account, Streamed;
    }

    /** Whether it is time to write a block. */
    predicate Full()
      reads this, lz
    {
      lz.code_pos > LZ_CODE_BUF_SIZE - 8 ||
      (lz.total_lz_bytes > 31 * 1024 &&
       (lz.code_pos * 115 / 128 >= lz.total_lz_bytes || HasFlag(flags, FORCE_ALL_RAW_BLOCKS)))
    }

    lemma FullOr()
      ensures (!Full() ==> lz.code_pos <= LZ_CODE_BUF_SIZE - 8) && 1 <= LZ_CODE_BUF_SIZE - 8
    {
    }

    lemma BooksNow(pos: nat)
      requires Account(pos) && lz_code_buf_dict_pos == (|dic.before| + |done|) % U32
      ensures Books(pos)
    {
    }

    lemma BooksGive(pos: nat)
      requires Books(pos)
      ensures Account(pos) && lz_code_buf_dict_pos == (|dic.before| + |done|) % U32
    {
    }

    /** One step of the parser, and a block if it is time for one. */
    method ParseAndFlush(out_buf: array<byte>, ghost out0: seq<byte>)
      requires Valid() && !finished && Foreign(out_buf) && output.flush_remaining == 0 && output.Given(out0, out_buf)
      requires dic.lookahead_size > 0
      modifies Repr(), out_buf
      ensures Valid() && !finished && output.Given(out0, out_buf)
      ensures output.flush_remaining > 0 ==> output.out_buf_ofs == out_buf.Length
      ensures dic.lookahead_size < old(dic.lookahead_size) && dic.input == old(dic.input)
      ensures wants_to_finish == old(wants_to_finish) && mark == old(mark) && dic.before == old(dic.before)
    {
      hide *;
      ValidGives();
      ReprGives();
      ApartGives();
      ForeignGives(out_buf);
      ghost var found := ParseOne();
      FullOr();
      Ahead(dic);
      BooksNow(dic.Pos());
      if Full() {
        FlushBlock(out_buf, NoFlush, out0);
        Ahead(dic);
        BooksGive(dic.Pos());
      }
      ValidNow();
    }

    lemma ReprGives()
      ensures Arrays() <= Repr() && {this, dic, lz, output, output.w} <= Repr()
      ensures dic.dict in Repr() && dic.next in Repr() && dic.hash in Repr() && lz.code_buf in Repr()
      ensures output.output_buf in Repr()
      ensures lz.lits.count in Repr() && lz.lits.codes in Repr() && lz.lits.sizes in Repr()
      ensures lz.dists.count in Repr() && lz.dists.codes in Repr() && lz.dists.sizes in Repr()
      ensures cl.count in Repr() && cl.codes in Repr() && cl.sizes in Repr()
      ensures this in Repr() && dic in Repr() && lz in Repr() && output in Repr() && output.w in Repr()
    {
    }

    lemma InputLater(input0: seq<byte>, pos: nat)
      requires Parsed(lz.recs, done, parsed, lz.total_lz_bytes, input0, pos, saved_match_len, saved_match_dist,
                      saved_lit)
      requires input0 <= dic.input
      ensures Account(pos)
    {
      ParsedLater(lz.recs, done, parsed, lz.total_lz_bytes, input0, dic.input, pos, saved_match_len, saved_match_dist,
                  saved_lit);
    }

    lemma AccountIs(pos: nat)
      requires Account(pos)
      ensures Parsed(lz.recs, done, parsed, lz.total_lz_bytes, dic.input, pos, saved_match_len, saved_match_dist,
                     saved_lit)
    {
    }

    /** Fills the lookahead. */
    method Fill(src: seq<byte>, p0: nat, ghost input0: seq<byte>) returns (p: nat)
      requires Valid() && !finished && p0 <= |src| && dic.input == input0 + Upto(src, p0)
      modifies dic`lookahead_size, dic`dict_size, dic`input, dic.dict, dic.next, dic.hash
      ensures Valid() && p0 <= p <= |src| && dic.input == input0 + Upto(src, p)
      ensures dic.lookahead_size == old(dic.lookahead_size) + (p - p0)
      ensures p == |src| || dic.lookahead_size == MAX_MATCH_LEN
    {
      hide *;
      ValidGives();
      ApartGives();
      ChainsGive();
      Ahead(dic);
      ghost var i0, pos := dic.input, dic.Pos();
      AccountIs(pos);
      p := dic.Load(src, p0);
      UptoMore(src, p0, p, input0);
      Ahead(dic);
      InputLater(i0, pos);
      ValidNow();
    }

    static lemma UptoMore(src: seq<byte>, p0: nat, p: nat, input0: seq<byte>)
      requires p0 <= p <= |src|
      ensures (input0 + Upto(src, p0)) + src[p0..p] == input0 + Upto(src, p)
    {
    }

    lemma ChainsGive()
      requires Apart()
      ensures dic.next != lz.lits.count && dic.next != lz.dists.count && dic.next as object != lz.code_buf
      ensures dic.next as object != output.output_buf && OffChain(dic.next, dic, lz, cl, output)
      ensures dic.next != lz.lits.codes && dic.next != lz.dists.codes && dic.next != cl.count && dic.next != cl.codes
      ensures dic.next as object != lz.lits.sizes && dic.next as object != lz.dists.sizes
      ensures dic.next as object != cl.sizes && dic.hash as object != cl.sizes
      ensures dic.hash as object != lz.lits.sizes && dic.hash as object != lz.dists.sizes
      ensures dic.hash != lz.lits.codes && dic.hash != lz.dists.codes && dic.hash != cl.count && dic.hash != cl.codes
      ensures dic.hash != lz.lits.count && dic.hash != lz.dists.count && dic.hash as object != lz.code_buf
      ensures dic.hash as object != output.output_buf
    {
    }

    /** Parses the input and writes the blocks that fill up, until the input is used up or the output has no room. */
    method CompressNormal(src: seq<byte>, flush: Flush, out_buf: array<byte>, ghost out0: seq<byte>,
                          ghost input0: seq<byte>) returns (p: nat)
      requires Valid() && !finished && Foreign(out_buf) && output.flush_remaining == 0 && output.Given(out0, out_buf)
      requires dic.input == input0
      modifies Repr(), out_buf
      ensures Valid() && !finished && output.Given(out0, out_buf)
      ensures output.flush_remaining > 0 ==> output.out_buf_ofs == out_buf.Length
      ensures p <= |src| && dic.input == input0 + Upto(src, p)
      ensures wants_to_finish == old(wants_to_finish) && mark == old(mark) && dic.before == old(dic.before)
      ensures output.flush_remaining == 0 ==> p == |src| && (flush != NoFlush ==> dic.lookahead_size == 0)
      ensures Less(|src|, p, old(dic.lookahead_size), flush)
      ensures output.flush_remaining > 0 ==> |src| > 0 || old(dic.lookahead_size) > 0
    {
      UptoNone(src, input0);
      hide *;
      p := 0;
      ghost var la := dic.lookahead_size;
      NoLess(|src|, flush);
      while p < |src| || (flush != NoFlush && dic.lookahead_size > 0)
        invariant Valid() && !finished && output.Given(out0, out_buf) && output.flush_remaining == 0
        invariant p <= |src| && dic.input == input0 + Upto(src, p)
        invariant wants_to_finish == old(wants_to_finish) && Lower(|src|, p, la)
        invariant mark == old(mark) && dic.before == old(dic.before)
        invariant p > 0 || dic.lookahead_size != la ==> Less(|src|, p, la, flush)
        decreases |src| - p, dic.lookahead_size
      {
        ghost var p1, la1 := p, dic.lookahead_size;
        ReprGives();
        ValidGives();
        ForeignGives(out_buf);
        LowerGives(|src|, p, la);
        p := Fill(src, p, input0);
        Filled(|src|, p1, p, la, la1, flush);
        if flush == NoFlush && dic.lookahead_size < MAX_MATCH_LEN {
          break;
        }
        LongEnough();
        ghost var la2 := dic.lookahead_size;
        LowerGives(|src|, p, la);
        ParseAndFlush(out_buf, out0);
        LowerStill(|src|, p, la, la2, flush);
        if output.flush_remaining > 0 {
          return;
        }
      }
    }

    /** Input that is left counts twice, since it is yet to be looked ahead at. */
    ghost predicate Lower(size: nat, p: nat, la: nat)
      reads dic`lookahead_size
    {
      2 * (size - p) + dic.lookahead_size <= 2 * size + la
    }

    /** A call has less to do after it than before, if there was anything to do. */
    ghost predicate Less(size: nat, p: nat, la: nat, flush: Flush)
      reads dic`lookahead_size
    {
      Lower(size, p, la) &&
      (size > 0 || (flush != NoFlush && la > 0) ==> 2 * (size - p) + dic.lookahead_size < 2 * size + la)
    }

    lemma LowerGives(size: nat, p: nat, la: nat)
      requires Lower(size, p, la)
      ensures 2 * (size - p) + dic.lookahead_size <= 2 * size + la
    {
    }

    lemma NoLess(size: nat, flush: Flush)
      ensures Lower(size, 0, dic.lookahead_size)
      ensures !(size > 0 || (flush != NoFlush && dic.lookahead_size > 0)) ==> Less(size, 0, dic.lookahead_size, flush)
    {
    }

    lemma Filled(size: nat, p1: nat, p: nat, la: nat, la1: nat, flush: Flush)
      requires 2 * (size - p1) + la1 <= 2 * size + la && p1 <= p <= size && dic.lookahead_size == la1 + (p - p1)
      ensures Lower(size, p, la) && (p > p1 ==> Less(size, p, la, flush))
    {
    }

    lemma LowerStill(size: nat, p: nat, la: nat, la2: nat, flush: Flush)
      requires 2 * (size - p) + la2 <= 2 * size + la && dic.lookahead_size < la2
      ensures Lower(size, p, la) && Less(size, p, la, flush)
    {
    }

    static lemma LongEnough()
      ensures MAX_MATCH_LEN > 0
    {
    }

    static lemma UptoNone(src: seq<byte>, input0: seq<byte>)
      ensures input0 + Upto(src, 0) == input0
    {
    }

    /** Hands out what there is room for, and says whether that was all. */
    method Serve(out_buf: array<byte>, ghost flush: Flush, ghost out0: seq<byte>) returns (status: Status)
      requires Valid() && Foreign(out_buf) && output.Given(out0, out_buf)
      modifies output, out_buf
      ensures Valid() && output.Given(out0, out_buf)
      ensures output.flush_remaining > 0 ==> output.out_buf_ofs == out_buf.Length
      ensures status == if finished && output.flush_remaining == 0 then Done else Okay
      ensures old(output.out_buf_ofs) <= output.out_buf_ofs <= out_buf.Length
      ensures output.out_buf_ofs - old(output.out_buf_ofs) == old(output.flush_remaining) - output.flush_remaining
      ensures old(Caught(flush)) ==> Caught(flush)
    {
      hide *;
      ghost var caught := Caught(flush);
      if caught { CaughtGives(flush); }
      ValidGives();
      ApartGives();
      ForeignGives(out_buf);
      StreamedIs(finished);
      ghost var d0 := dic.dict[..];
      output.FlushOutputBuffer(out_buf, out0);
      assert dic.dict[..] == d0;
      StreamedNow(finished);
      ValidNow();
      if caught {
        StreamedIs(finished);
        CaughtStill(flush);
      }
      status := if finished && output.flush_remaining == 0 then Done else Okay;
    }

    lemma StreamedIs(fin: bool)
      requires Streamed(fin)
      ensures output.Valid()
      ensures Behind(output.out + output.Pending(), mark, dic.before, output.w.bit_buffer, output.w.bits_in, done, fin)
    {
      hide Behind;
    }

    /** Clears the dictionary: no later match reaches back past this point. */
    method ForgetAll()
      requires Apart() && dic.Valid() && lz.Valid() && lz.recs == [] && dic.lookahead_size == 0 && Books(dic.Pos())
      requires Streamed(false) && output.w.bits_in == 0 && done == parsed == dic.input && saved_match_len == 0
      modifies dic`dict_size, dic`before, dic`input, dic`chained, dic.next, dic.hash, this`done, this`parsed, this`mark
      ensures dic.Valid() && lz.Valid() && Books(dic.Pos()) && Streamed(false) && dic.dict_size == 0
      ensures done == parsed == dic.input == [] && dic.before == old(dic.All()) && dic.chained
      ensures mark == output.out + output.Pending()
    {
      hide *;
      ApartGives();
      ChainsGive();
      Ahead(dic);
      StreamedIs(false);
      WholeByte();
      ghost var bytes, all := output.out + output.Pending(), dic.All();
      SplitAll(dic);
      MarkHere(bytes, mark, dic.before, output.w.bit_buffer, done);
      BooksGive(dic.Pos());
      dic.Forget();
      SplitAll(dic);
      Ahead(dic);
      done, parsed, mark := [], [], bytes;
      NothingSince();
      StreamedNow(false);
    }

    static lemma SplitAll(d: D.Dictionary)
      ensures d.All() == d.before + d.input && (d.input == [] ==> d.All() == d.before)
    {
    }

    lemma WholeByte()
      requires output.Valid() && output.w.bits_in == 0
      ensures output.flush_ofs + output.flush_remaining <= output.output_buf.Length && output.w.bit_buffer < Pow2(0)
    {
    }

    lemma NothingSince()
      requires lz.recs == [] && lz.Valid() && done == parsed == dic.input == [] && saved_match_len == 0
      requires dic.Pos() == 0 && lz_code_buf_dict_pos == |dic.before| % U32
      ensures Books(dic.Pos())
    {
    }

    /** The last block of a call, when everything has been parsed. */
    method FinishCall(flush: Flush, out_buf: array<byte>, ghost out0: seq<byte>)
      requires Valid() && !finished && Foreign(out_buf) && output.flush_remaining == 0 && output.Given(out0, out_buf)
      requires flush != NoFlush && dic.lookahead_size == 0
      modifies Repr(), out_buf
      ensures Valid() && finished == (flush == Finish) && output.Given(out0, out_buf)
      ensures output.flush_remaining > 0 ==> output.out_buf_ofs == out_buf.Length
      ensures dic.All() == old(dic.All()) && wants_to_finish == old(wants_to_finish)
      ensures dic.lookahead_size == 0 && done == dic.input && output.w.bits_in == 0
      ensures if flush == FullFlush then Forgotten()
              else mark == old(mark) && dic.before == old(dic.before) && dic.input == old(dic.input)
    {
      hide *;
      ValidGives();
      ReprGives();
      FullOr();
      NothingAhead();
      FlushBlock(out_buf, flush, out0);
      finished := flush == Finish;
      BooksGive(dic.Pos());
      ApartGives();
      ForeignGives(out_buf);
      ChainsGive();
      if flush == FullFlush {
        ForgetAll();
        ChainingNow();
        SplitAll(dic);
        StreamedIs(false);
        ForgottenNow();
      }
      Ahead(dic);
      BooksGive(dic.Pos());
      ValidNow();
    }

    lemma ChainingNow()
      requires dic.chained
      ensures Chaining()
    {
    }

    /** All the output so far is behind the mark, and nothing of the input is left to refer to. */
    ghost predicate Forgotten()
      reads this`mark, dic`before, dic`input, dic`dict_size, output`out, output`flush_ofs, output`flush_remaining
      reads output.output_buf
    {
      dic.input == [] && dic.dict_size == 0 && output.flush_ofs + output.flush_remaining <= output.output_buf.Length &&
      mark == output.out + output.Pending()
    }

    lemma ForgottenNow()
      requires dic.input == [] && dic.dict_size == 0 && output.Valid() && mark == output.out + output.Pending()
      ensures Forgotten()
    {
    }

    /** All that was taken in is out, in whole bytes, and the stream is not at its end. */
    ghost predicate Flushed()
      reads this`done, this`finished, dic`input, dic`lookahead_size, output`flush_remaining, output.w
    {
      !finished && dic.lookahead_size == 0 && done == dic.input && output.w.bits_in == 0 && output.flush_remaining == 0
    }

    lemma FlushedNow()
      requires !finished && dic.lookahead_size == 0 && done == dic.input && output.w.bits_in == 0
      requires output.flush_remaining == 0
      ensures Flushed()
    {
    }

    /** What is out then stands for all the input so far, and behind a full flush nothing is referred back to. */
    lemma CaughtMeans(flush: Flush)
      requires Valid() && Caught(flush)
      ensures flush in {SyncFlush, FullFlush} ==>
                dic.lookahead_size == 0 && Prefix(BytesToBits(output.out), dic.All())
      ensures flush == FullFlush ==> mark == output.out && dic.input == [] && dic.dict_size == 0
    {
      hide *;
      ValidGives();
      CaughtGives(flush);
      StreamedIs(finished);
      SplitAll(dic);
      if flush in {SyncFlush, FullFlush} {
        NothingPending();
        BehindAll(output.out, mark, dic.before, output.w.bit_buffer, done);
      }
    }

    /** Nothing ahead, nothing put aside: all the input has been parsed. */
    lemma NothingAhead()
      requires Valid() && dic.lookahead_size == 0
      ensures parsed == dic.input && saved_match_len == 0
    {
      hide Parsed, LzBuffer.Valid, Apart, Streamed;
      NothingPutAside(lz.recs, done, parsed, lz.total_lz_bytes, dic.input, saved_match_len, saved_match_dist,
                      saved_lit);
    }

    /** Less input, then the end of it all, then less output pending. */
    ghost predicate Closer(size: nat, in_used: nat, la: nat, finished0: bool, pending: nat)
      requires in_used <= size
      reads this`finished, dic`lookahead_size, output`flush_remaining
    {
      var a, a0 := 2 * (size - in_used) + dic.lookahead_size, 2 * size + la;
      a < a0 || (a == a0 && ((finished && !finished0) || (finished == finished0 && output.flush_remaining < pending)))
    }

    /** Takes in what it can, and closes the last block if everything has been parsed. */
    method TakeIn(src: seq<byte>, out_buf: array<byte>, flush: Flush, ghost out0: seq<byte>, ghost input0: seq<byte>)
      returns (in_used: nat)
      requires Valid() && !finished && Foreign(out_buf) && output.flush_remaining == 0 && output.Given(out0, out_buf)
      requires dic.All() == input0
      modifies Repr(), out_buf
      ensures Valid() && in_used <= |src| && output.Given(out0, out_buf) && dic.All() == input0 + Upto(src, in_used)
      ensures output.flush_remaining > 0 ==> output.out_buf_ofs == out_buf.Length
      ensures output.flush_remaining == 0 ==> in_used == |src| && (finished || Caught(flush))
      ensures flush != FullFlush ==> mark == old(mark) && dic.before == old(dic.before)
      ensures wants_to_finish == old(wants_to_finish)
      ensures finished ==> flush == Finish && in_used == |src|
      ensures flush == Finish && !finished ==> output.flush_remaining > 0
      ensures Less(|src|, in_used, old(dic.lookahead_size), flush)
      ensures |src| == 0 && old(dic.lookahead_size) == 0 && flush == Finish ==> finished
    {
      hide *;
      ReprGives();
      UptoNone(src, dic.input);
      SplitAll(dic);
      ghost var before, since, la := dic.before, dic.input, dic.lookahead_size;
      in_used := CompressNormal(src, flush, out_buf, out0, since);
      SplitAll(dic);
      JoinInput(before, since, Upto(src, in_used));
      LessGives(|src|, in_used, la, flush);
      if flush != NoFlush && dic.lookahead_size == 0 && in_used == |src| && output.flush_remaining == 0 {
        FinishCall(flush, out_buf, out0);
        LessNow(|src|, in_used, la, flush);
        if output.flush_remaining == 0 && !finished { FlushedNow(); }
      }
      CaughtNow(flush);
    }

    /** What a flush in the midst of the stream comes to. */
    ghost predicate Caught(flush: Flush)
      reads this`done, this`mark, this`finished, dic`before, dic`input, dic`lookahead_size, dic`dict_size
      reads output`out, output`flush_ofs, output`flush_remaining, output.output_buf, output.w
    {
      flush in {SyncFlush, FullFlush} ==> Flushed() && (flush == FullFlush ==> Forgotten())
    }

    lemma CaughtGives(flush: Flush)
      requires Caught(flush)
      ensures flush in {SyncFlush, FullFlush} ==>
                !finished && dic.lookahead_size == 0 && done == dic.input && output.w.bits_in == 0 &&
                output.flush_remaining == 0
      ensures flush == FullFlush ==>
                dic.input == [] && dic.dict_size == 0 && output.flush_ofs <= output.output_buf.Length &&
                mark == output.out + output.Pending()
    {
    }

    lemma CaughtStill(flush: Flush)
      requires output.Valid()
      requires flush in {SyncFlush, FullFlush} ==>
                 !finished && dic.lookahead_size == 0 && done == dic.input && output.w.bits_in == 0 &&
                 output.flush_remaining == 0
      requires flush == FullFlush ==>
                 dic.input == [] && dic.dict_size == 0 && mark == output.out + output.Pending()
      ensures Caught(flush)
    {
    }

    lemma CaughtNow(flush: Flush)
      requires flush in {SyncFlush, FullFlush} && output.flush_remaining == 0 ==>
                 Flushed() && (flush == FullFlush ==> Forgotten())
      ensures output.flush_remaining == 0 ==> Caught(flush)
    {
    }

    /** The work of a call that is in order. */
    method Work(src: seq<byte>, out_buf: array<byte>, flush: Flush, ghost out0: seq<byte>, ghost input0: seq<byte>)
      returns (status: Status, in_used: nat)
      requires Valid() && Foreign(out_buf) && output.Given(out0, out_buf) && dic.All() == input0
      modifies Repr(), out_buf
      ensures Valid() && in_used <= |src| && output.Given(out0, out_buf) && dic.All() == input0 + Upto(src, in_used)
      ensures status == Okay && old(output.flush_remaining) == 0 && output.flush_remaining == 0 ==>
                in_used == |src| && Caught(flush)
      ensures flush != FullFlush ==> mark == old(mark) && dic.before == old(dic.before)
      ensures wants_to_finish == old(wants_to_finish)
      ensures status == if finished && output.flush_remaining == 0 then Done else Okay
      ensures output.flush_remaining > 0 ==> output.out_buf_ofs == out_buf.Length
      ensures (old(finished) ==> finished) && (finished && !old(finished) ==> flush == Finish && in_used == |src|)
      ensures status == Okay && flush == Finish && old(output.flush_remaining) == 0 ==>
                output.out_buf_ofs == out_buf.Length
      ensures status == Okay && output.out_buf_ofs < out_buf.Length && old(output.flush_remaining) == 0 ==>
                in_used == |src|
      ensures old(output.out_buf_ofs) < out_buf.Length && (flush == Finish || |src| > 0) &&
              !(old(finished) && old(output.flush_remaining) == 0) ==>
                Closer(|src|, in_used, old(dic.lookahead_size), old(finished), old(output.flush_remaining))
    {
      hide *;
      ReprGives();
      UptoNone(src, input0);
      in_used := 0;
      ghost var la, fin, pending, ofs := dic.lookahead_size, finished, output.flush_remaining, output.out_buf_ofs;
      if output.flush_remaining == 0 && !finished {
        in_used := TakeIn(src, out_buf, flush, out0, input0);
      }
      SplitAll(dic);
      status := Serve(out_buf, flush, out0);
      SplitAll(dic);
      if ofs < out_buf.Length && (flush == Finish || |src| > 0) && !(fin && pending == 0) {
        IsCloser(|src|, in_used, la, fin, pending, ofs, out_buf.Length, flush);
      }
    }

    static lemma JoinInput(a: seq<byte>, b: seq<byte>, c: seq<byte>)
      ensures a + (b + c) == (a + b) + c
    {
    }

    lemma LessGives(size: nat, p: nat, la: nat, flush: Flush)
      requires Less(size, p, la, flush)
      ensures 2 * (size - p) + dic.lookahead_size <= 2 * size + la
      ensures size > 0 || (flush != NoFlush && la > 0) ==> 2 * (size - p) + dic.lookahead_size < 2 * size + la
    {
    }

    lemma LessNow(size: nat, p: nat, la: nat, flush: Flush)
      requires 2 * (size - p) + dic.lookahead_size <= 2 * size + la
      requires size > 0 || (flush != NoFlush && la > 0) ==> 2 * (size - p) + dic.lookahead_size < 2 * size + la
      ensures Less(size, p, la, flush)
    {
    }

    lemma IsCloser(size: nat, in_used: nat, la: nat, fin: bool, pending: nat, ofs: nat, room: nat, flush: Flush)
      requires in_used <= size && ofs < room && (flush == Finish || size > 0)
      requires !(fin && pending == 0)
      requires if pending == 0 && !fin then
                 Less(size, in_used, la, flush) && (size == 0 && la == 0 ==> finished)
               else in_used == 0 && dic.lookahead_size == la && finished == fin &&
                    output.flush_remaining <= pending && (pending > 0 ==> output.flush_remaining < pending)
      ensures Closer(size, in_used, la, fin, pending)
    {
    }

    /** A call that is in order, and what its answer means. */
    method Answer(src: seq<byte>, out_buf: array<byte>, flush: Flush)
      returns (status: Status, in_used: nat, out_used: nat)
      requires Valid() && Foreign(out_buf) && output.out_buf_ofs == 0
      modifies Repr(), out_buf
      ensures Valid() && in_used <= |src| && out_used <= out_buf.Length && prev_return_status == status
      ensures wants_to_finish == old(wants_to_finish)
      ensures dic.All() == old(dic.All()) + src[..in_used] && output.out == old(output.out) + out_buf[..out_used]
      ensures status == if finished && output.flush_remaining == 0 then Done else Okay
      ensures status == Okay && flush == Finish && old(output.flush_remaining) == 0 ==> out_used == out_buf.Length
      ensures status == Okay && out_used < out_buf.Length && old(output.flush_remaining) == 0 ==> in_used == |src|
      ensures status == Done ==> Decompress(output.out) == Some(dic.All())
      ensures status == Done ==> mark <= output.out && Decompress(output.out[|mark|..]) == Some(dic.input)
      ensures status == Okay && flush in {SyncFlush, FullFlush} && old(output.flush_remaining) == 0 &&
              output.flush_remaining == 0 ==>
                in_used == |src| && dic.lookahead_size == 0 && Prefix(BytesToBits(output.out), dic.All())
      ensures status == Okay && flush == FullFlush && old(output.flush_remaining) == 0 &&
              output.flush_remaining == 0 ==>
                mark == output.out && dic.input == [] && dic.dict_size == 0
      ensures flush != FullFlush ==> mark == old(mark) && dic.before == old(dic.before)
      ensures output.flush_remaining > 0 ==> out_used == out_buf.Length
      ensures (old(finished) ==> finished) && (finished && !old(finished) ==> flush == Finish && in_used == |src|)
      ensures out_buf.Length > 0 && (flush == Finish || |src| > 0) &&
              !(old(finished) && old(output.flush_remaining) == 0) ==>
                Closer(|src|, in_used, old(dic.lookahead_size), old(finished), old(output.flush_remaining))
    {
      hide *;
      ReprGives();
      ghost var out0, input0, pending := output.out, dic.All(), output.flush_remaining;
      NoneYet(src, out_buf, out0, input0);
      status, in_used := Work(src, out_buf, flush, out0, input0);
      out_used := output.out_buf_ofs;
      prev_return_status := status;
      CallDone(src, in_used, out_buf, out0);
      if status == Okay && pending == 0 && output.flush_remaining == 0 { CaughtMeans(flush); }
    }

    /** Takes input from src and puts output in out_buf, as much of either as it can. */
    method Compress(src: seq<byte>, out_buf: array<byte>, flush: Flush)
      returns (status: Status, in_used: nat, out_used: nat)
      requires Valid() && Foreign(out_buf)
      modifies Repr(), out_buf
      ensures Valid() && in_used <= |src| && out_used <= out_buf.Length && prev_return_status == status
      ensures status == BadParam <==> (old(prev_return_status) != Okay || (old(wants_to_finish) && flush != Finish))
      ensures status == BadParam ==> in_used == out_used == 0
      ensures dic.All() == old(dic.All()) + src[..in_used] && output.out == old(output.out) + out_buf[..out_used]
      ensures status != BadParam ==> wants_to_finish == (old(wants_to_finish) || flush == Finish)
      ensures status == Done <==> status != BadParam && finished && output.flush_remaining == 0
      ensures status == Okay && flush == Finish && old(output.flush_remaining) == 0 ==> out_used == out_buf.Length
      ensures status == Okay && out_used < out_buf.Length && old(output.flush_remaining) == 0 ==> in_used == |src|
      ensures status == Done ==> Decompress(output.out) == Some(dic.All())
      ensures status == Done ==> mark <= output.out && Decompress(output.out[|mark|..]) == Some(dic.input)
      ensures status == Okay && flush in {SyncFlush, FullFlush} && old(output.flush_remaining) == 0 &&
              output.flush_remaining == 0 ==>
                in_used == |src| && dic.lookahead_size == 0 && Prefix(BytesToBits(output.out), dic.All())
      ensures status == Okay && flush == FullFlush && old(output.flush_remaining) == 0 &&
              output.flush_remaining == 0 ==>
                mark == output.out && dic.input == [] && dic.dict_size == 0
      ensures flush != FullFlush || status == BadParam ==> mark == old(mark) && dic.before == old(dic.before)
      ensures output.flush_remaining > 0 ==> status == BadParam || out_used == out_buf.Length
      ensures (old(finished) ==> finished) && (finished && !old(finished) ==> flush == Finish && in_used == |src|)
      ensures status != BadParam && out_buf.Length > 0 && (flush == Finish || |src| > 0) &&
              !(old(finished) && old(output.flush_remaining) == 0) ==>
                Closer(|src|, in_used, old(dic.lookahead_size), old(finished), old(output.flush_remaining))
    {
      hide *;
      ReprGives();
      in_used, out_used := 0, 0;
      output.out_buf_ofs := 0;
      NoneYet(src, out_buf, output.out, dic.All());
      if prev_return_status != Okay || (wants_to_finish && flush != Finish) {
        status, prev_return_status := BadParam, BadParam;
      } else {
        wants_to_finish := wants_to_finish || flush == Finish;
        status, in_used, out_used := Answer(src, out_buf, flush);
      }
    }

    lemma NoneYet(src: seq<byte>, out_buf: array<byte>, out0: seq<byte>, input0: seq<byte>)
      requires output.out == out0 && output.out_buf_ofs == 0
      ensures output.Given(out0, out_buf) && input0 + src[..0] == input0 && out0 + out_buf[..0] == out0
    {
    }

    lemma CallDone(src: seq<byte>, in_used: nat, out_buf: array<byte>, out0: seq<byte>)
      requires Valid() && output.Given(out0, out_buf) && in_used <= |src|
      ensures Upto(src, in_used) == src[..in_used] && output.out_buf_ofs <= out_buf.Length
      ensures output.out == out0 + out_buf[..output.out_buf_ofs]
      ensures finished && output.flush_remaining == 0 ==>
                Decompress(output.out) == Some(dic.All()) && mark <= output.out &&
                Decompress(output.out[|mark|..]) == Some(dic.input)
    {
      if finished && output.flush_remaining == 0 {
        hide *;
        AllOut();
      }
    }

    /** Once all is out, it stands for all of the input, and what is behind the mark for what came since. */
    lemma AllOut()
      requires Valid() && finished && output.flush_remaining == 0
      ensures Decompress(output.out) == Some(dic.All()) && mark <= output.out
      ensures Decompress(output.out[|mark|..]) == Some(dic.input)
    {
      ValidGives();
      hide *;
      StreamedIs(true);
      NothingPending();
      SplitAll(dic);
      BehindEnds(output.out, mark, dic.before, output.w.bit_buffer, output.w.bits_in, dic.input);
    }

    lemma NothingPending()
      requires output.Valid() && output.flush_remaining == 0
      ensures output.out + output.Pending() == output.out
    {
    }
  }

  /** Nothing is shared between the parts. */
  ghost predicate Distinct(d: D.Dictionary, l: LzBuffer, c: HuffTable, o: Output)
  {
    d.Shaped() && o.output_buf.Length == OUT_BUF_SIZE && Inputs(l, c, o.output_buf, d.dict) &&
    OffChain(d.next, d, l, c, o) && OffChain(d.hash, d, l, c, o)
  }

  ghost predicate OffChain(chain: array<u16>, d: D.Dictionary, l: LzBuffer, c: HuffTable, o: Output)
  {
    chain != l.lits.count && chain != l.dists.count && chain != l.lits.codes && chain != l.dists.codes &&
    chain != c.count && chain != c.codes && chain as object != l.lits.sizes && chain as object != l.dists.sizes &&
    chain as object != c.sizes && chain as object != l.code_buf &&
    chain as object != o.output_buf && chain as object != d.dict
  }

  /** The parts of a compressor. */
  method NewParts(clear: bool) returns (d: D.Dictionary, l: LzBuffer, c: HuffTable, o: Output)
    ensures Distinct(d, l, c, o) && d.Valid() && l.Valid() && o.Valid()
    ensures l.code_pos == 1 && l.recs == [] && l.total_lz_bytes == 0 && d.before == d.input == [] && d.chained == clear
    ensures d.lookahead_size == 0
    ensures o.out == [] && o.flush_remaining == 0 && o.w.bits_in == 0 && o.w.bit_buffer == 0
    ensures fresh(d) && fresh(l) && fresh(o) && fresh(o.w) && fresh(d.dict) && fresh(d.next) && fresh(d.hash)
    ensures fresh(o.output_buf)
    ensures fresh(l.code_buf) && fresh(l.lits.count) && fresh(l.lits.codes) && fresh(l.lits.sizes)
    ensures fresh(l.dists.count) && fresh(l.dists.codes) && fresh(l.dists.sizes)
    ensures fresh(c.count) && fresh(c.codes) && fresh(c.sizes)
  {
    hide D.Window, Tallied, Recorded, Pow2;
    d := new D.Dictionary(clear);
    l := new LzBuffer();
    c := new HuffTable();
    o := new Output();
  }
}
