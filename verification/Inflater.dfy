/**
  The decompressor: a coroutine that stops when it runs out of input or of room for output, at
  whatever point it has come to, and goes on from there.
 */
module Inflater {
  import opened Wrappers
  import opened Bits
  import opened CanonicalCode
  import opened Deflate
  import opened InflateTables
  import opened BitReader
  import opened HuffDecode
  import opened OutWindow
  import opened Resume
  import opened Halting
  import opened Points
  import opened BlockWriter
  import opened Adler
  import opened Growth
  import opened BrokenOff

  const LEN_CODES: nat := 288 + 32 + 137

  /** m_state, by what is waited for. */
  datatype State =
    | AtHead | AtAlign | AtRawHeader | AtStored | AtStoredOut | AtSizes | AtCodeLens | AtLens | AtRepeat
    | AtSymbol | AtLiteral | AtLenExtra | AtDist | AtDistExtra | AtCopy | AtEnd | AtDone | AtFailed

  datatype Status = CannotMakeProgress | BadParam | Failed | Done | NeedsMoreInput | HasMoreOutput

  /** What a step comes to: going on, more input wanted, no room for output, or the end. */
  datatype Outcome = Go | WantInput | WantRoom | Finished | Stuck

  class Inflater {
    const t0: Table
    const t1: Table
    const t2: Table
    const len_codes: array<byte>
    const table_sizes: array<nat>
    const raw_header: array<byte>
    const reader: BitReader
    const win: OutWindow
    var state: State
    var m_final: nat
    var dist: nat
    var counter: nat
    var num_extra: nat
    var dist_from_out_buf_start: int
    /** The symbol at hand is decoded byte by byte since the input ran out in it. */
    var resumed: bool
    /** The checksum, and the bytes it has been carried over. */
    var m_check_adler32: nat
    ghost var checked: seq<byte>
    ghost var point: Point
    ghost var whole: Result
    /** The bits of the stream. */
    ghost const all: Bits
    /** Whether the output goes to a ring. */
    ghost const ring: bool

    /** None of the arrays are the same. */
    ghost predicate Apart()
    {
      ApartParts(t0, t1, t2, len_codes, table_sizes, raw_header)
    }

    ghost function Arrays(): (r: set<object>)
    {
      {t0.look_up as object, t0.tree as object, t0.code_size as object, t1.look_up as object, t1.tree as object,
       t1.code_size as object,
       t2.look_up as object, t2.tree as object, t2.code_size as object, len_codes as object, table_sizes as object,
       raw_header as object}
    }

    ghost function Repr(): (r: set<object>)
    {
      Arrays() + {this, t0, t1, t2, reader, win}
    }

    /** The output goes to a buffer of its own. */
    ghost predicate Foreign(buf: array<byte>)
    {
      buf !in Arrays()
    }

    /** Both codes of a block are ready for use. */
    ghost predicate CodesReady(lits: seq<nat>, dists: seq<nat>)
      reads t0, t0.look_up, t0.tree, t1, t1.look_up, t1.tree
    {
      t0.Ready() && t1.Ready() && t0.lens == lits && t1.lens == dists
    }

    ghost predicate Final(f: bool)
      reads this`m_final
    {
      f == (m_final % 2 == 1)
    }

    /** The fields say that the coroutine is at this point. */
    ghost predicate At(p: Point)
      reads this`state, this`m_final, this`dist, this`counter, this`num_extra, this`dist_from_out_buf_start
      reads table_sizes, raw_header, len_codes, t2, t2.look_up, t2.tree, t2.code_size
      reads t0, t0.look_up, t0.tree, t1, t1.look_up, t1.tree, win`out, win`end, win`wrap
    {
      AtFields(p) && Counted(p)
    }

    /** The place in the output is right, and what is copied from there is in it. */
    ghost predicate Counted(p: Point)
      reads this`dist_from_out_buf_start, win`out, win`end, win`wrap
    {
      p.Copy? ==>
        Counts(dist_from_out_buf_start, |win.out|, win.end, win.wrap) && (win.wrap || 1 <= p.dist <= |win.out|)
    }

    ghost predicate AtFields(p: Point)
      reads this`state, this`m_final, this`dist, this`counter, this`num_extra
      reads table_sizes, raw_header, len_codes, t2, t2.look_up, t2.tree, t2.code_size
      reads t0, t0.look_up, t0.tree, t1, t1.look_up, t1.tree
    {
      raw_header.Length == 4 && table_sizes.Length == 3 && len_codes.Length == LEN_CODES &&
      match p
      case Head => state == AtHead
      case Aligning(f) => state == AtAlign && Final(f)
      case RawHeader(f, hdr) => state == AtRawHeader && Final(f) && counter == |hdr| < 4 && raw_header[..counter] == hdr
      case Stored(f, left) => state == AtStored && Final(f) && counter == left
      case StoredOut(f, left, b) => state == AtStoredOut && Final(f) && counter == left > 0 && dist == b
      case Sizes(f, sizes) =>
        state == AtSizes && Final(f) && counter == |sizes| < 3 && table_sizes[..counter] == sizes && SizesFit(sizes)
      case CodeLens(f, hlit, hdist, n, i, code) =>
        state == AtCodeLens && Final(f) && table_sizes[..] == [hlit, hdist, n] && SizesFit([hlit, hdist]) &&
        counter == i < n <= 19 &&
        t2.code_size[..] == code && |code| == 19 && forall k :: 0 <= k < 19 ==> code[k] < 8
      case Lens(f, hlit, hdist, code, acc) =>
        state == AtLens && Final(f) && LensKnown(hlit, hdist, code, acc)
      case Repeated(f, hlit, hdist, code, acc, sym) =>
        state == AtRepeat && Final(f) && LensKnown(hlit, hdist, code, acc) && dist == sym && 16 <= sym < 19 &&
        num_extra == ExtraBits(sym) &&
        (sym == 16 ==> acc != [])
      case Codes(f, lits, dists) => state == AtSymbol && Final(f) && CodesReady(lits, dists)
      case Lit(f, lits, dists, b) => state == AtLiteral && Final(f) && CodesReady(lits, dists) && counter == b
      case LenExtra(f, lits, dists, base, extra) =>
        state == AtLenExtra && Final(f) && CodesReady(lits, dists) && counter == base && num_extra == extra &&
        0 < extra <= 5
      case Dist(f, lits, dists, len) => state == AtDist && Final(f) && CodesReady(lits, dists) && counter == len
      case DistExtra(f, lits, dists, len, base, extra) =>
        state == AtDistExtra && Final(f) && CodesReady(lits, dists) && counter == len && dist == base &&
        num_extra == extra && 0 < extra <= 13 && base + Pow2(extra) <= WINDOW + 1
      case Copy(f, lits, dists, d, len) =>
        state == AtCopy && Final(f) && CodesReady(lits, dists) && counter + 1 == len && dist == d <= WINDOW
      case Last => state == AtEnd
      case Ended(skipped) => state == AtDone
      case Broken => state == AtFailed
    }

    /** The code of the code lengths, and the code lengths read so far. */
    ghost predicate LensPart(hlit: nat, hdist: nat, code: seq<nat>, acc: seq<nat>)
      reads this`counter, table_sizes, len_codes, t2, t2.look_up, t2.tree
    {
      table_sizes.Length == 3 && len_codes.Length == LEN_CODES && t2.Ready() && t2.lens == code && |code| == 19 &&
      table_sizes[0] == hlit && table_sizes[1] == hdist && SizesFit([hlit, hdist]) &&
      counter == |acc| <= LEN_CODES && len_codes[..counter] == acc && forall k :: 0 <= k < counter ==> len_codes[k] < 16
    }

    ghost predicate LensKnown(hlit: nat, hdist: nat, code: seq<nat>, acc: seq<nat>)
      reads this`counter, table_sizes, len_codes, t2, t2.look_up, t2.tree
    {
      LensPart(hlit, hdist, code, acc) && |acc| < hlit + hdist
    }

    /** Everything that holds between calls. */
    ghost predicate Core()
      reads this`state, this`m_final, this`dist, this`counter, this`num_extra, this`dist_from_out_buf_start
      reads this`resumed, this`point, this`whole
      reads reader, win`out, win`end, win`wrap, table_sizes, raw_header, len_codes, t2, t2.look_up, t2.tree
      reads t2.code_size
      reads t0, t0.look_up, t0.tree, t1, t1.look_up, t1.tree
    {
      Apart() && reader.Valid() && At(point) && OnTrack(ring, whole, all, point, reader.todo, win.out) && Anchored() &&
      (whole.Some? ==> Slack(point, reader.todo, reader.num_bits)) && ResumeOk()
    }

    /** The whole is what the format says the stream stands for. */
    ghost predicate Anchored()
      reads this`whole, reader`stream
    {
      whole == Inflate(all, []) && all == BytesToBits(reader.stream)
    }

    /** Everything that holds during a call. */
    ghost predicate Good()
      reads this, reader, win, win.buf, table_sizes, raw_header, len_codes, t2, t2.look_up, t2.tree, t2.code_size
      reads t0, t0.look_up, t0.tree, t1, t1.look_up, t1.tree
    {
      Apart() && reader.Valid() && At(point) && OnTrack(ring, whole, all, point, reader.todo, win.out) &&
      (whole.Some? ==> Slack(point, reader.todo, reader.num_bits - 8 * reader.cur)) && ResumeOk() && win.Valid() &&
      win.wrap == ring && Foreign(win.buf)
    }

    /** Having stopped in the middle of a symbol. */
    ghost predicate ResumeOk()
      reads this`resumed, this`point, reader`num_bits, reader`todo
    {
      resumed ==> reader.num_bits < 15 && HalfWay(point, reader.todo, reader.num_bits)
    }

    constructor (wide: bool, ghost ring: bool, ghost stream: seq<byte>)
      ensures Core() && CheckOk() && checked == [] && fresh(Repr()) && whole == Inflate(BytesToBits(stream), [])
      ensures reader.stream == stream && this.ring == ring && win.out == []
      ensures state == AtHead && reader.Taken() == 0
    {
      hide *;
      var a, b, c, codes, sizes, header := NewParts();
      t0, t1, t2, len_codes, table_sizes, raw_header := a, b, c, codes, sizes, header;
      reader := new BitReader(wide, stream);
      var none := new byte[0];
      win := new OutWindow(none);
      state, m_final, dist, counter, num_extra, dist_from_out_buf_start, resumed := AtHead, 0, 0, 0, 0, 0, false;
      m_check_adler32, checked := 1, [];
      point, whole, all := Head, Inflate(BytesToBits(stream), []), BytesToBits(stream);
      this.ring := ring;
      new;
      AtStart();
      ReprIs();
      TakenIs();
      reader.ValidGives();
    }

    lemma ReprIs()
      ensures Repr() == {t0.look_up as object, t0.tree as object, t0.code_size as object, t1.look_up as object,
                         t1.tree as object, t1.code_size as object,
                         t2.look_up as object, t2.tree as object, t2.code_size as object,
                         len_codes as object, table_sizes as object, raw_header as object,
                         this as object, t0 as object, t1 as object, t2 as object, reader as object, win as object}
    {
    }

    lemma AtStart()
      requires ApartParts(t0, t1, t2, len_codes, table_sizes, raw_header) && state == AtHead && !resumed
      requires point == Head
      requires reader.Valid() && whole == Inflate(all, []) && all == BytesToBits(reader.stream)
      requires reader.todo == all && win.out == []
      requires reader.num_bits == 0 && m_check_adler32 == 1 && checked == []
      ensures Core() && CheckOk()
    {
      hide *;
      ApartIs();
      AtHeadNow();
      FirstSlack();
      NoneChecked();
      HeadStarts(ring, whole, all);
      CoreStarts();
    }

    lemma ApartIs()
      ensures Apart() <==> ApartParts(t0, t1, t2, len_codes, table_sizes, raw_header)
    {
      hide ApartParts;
    }

    lemma AtHeadNow()
      requires Apart() && state == AtHead
      ensures At(Head)
    {
      PartsGive(t0, t1, t2, len_codes, table_sizes, raw_header);
      hide ApartParts;
    }

    lemma FirstSlack()
      requires !resumed && reader.num_bits == 0 && whole == Inflate(all, []) && all == BytesToBits(reader.stream)
      ensures Slack(Head, reader.todo, reader.num_bits) && ResumeOk() && Anchored()
    {
      hide Inflate, BytesToBits;
    }

    lemma NoneChecked()
      requires m_check_adler32 == 1 && checked == []
      ensures CheckOk()
    {
    }

    lemma CoreStarts()
      requires Apart() && reader.Valid() && At(point) && OnTrack(ring, whole, all, point, reader.todo, win.out)
      requires Anchored()
      requires ResumeOk()
      requires whole.Some? ==> Slack(point, reader.todo, reader.num_bits)
      ensures Core()
    {
      hide Apart, At, OnTrack, Slack, ResumeOk, Anchored;
    }

    lemma GoodGives()
      requires Good()
      ensures Apart() && reader.Valid() && win.Valid() && win.wrap == ring && Foreign(win.buf) && At(point)
      ensures OnTrack(ring, whole, all, point, reader.todo, win.out)
      ensures (whole.Some? ==> Slack(point, reader.todo, reader.num_bits - 8 * reader.cur)) && ResumeOk()
    {
      hide Apart, At, OnTrack, Slack;
    }

    lemma GoodNow()
      requires Apart() && reader.Valid() && win.Valid() && win.wrap == ring && Foreign(win.buf) && At(point)
      requires OnTrack(ring, whole, all, point, reader.todo, win.out)
      requires (whole.Some? ==> Slack(point, reader.todo, reader.num_bits - 8 * reader.cur)) && !resumed
      ensures Good()
    {
      hide Apart, At, OnTrack, Slack;
    }

    /** Fewer bits to be decoded, or less room for output, or a point of lower rank. */
    ghost predicate Nearer(bits: nat, cur: nat, rank: nat)
      reads reader`todo, win`cur, this`point
    {
      |reader.todo| < bits || (|reader.todo| == bits && (win.cur > cur || (win.cur == cur && Rank(point) < rank)))
    }

    /** What is so when a step does not go on. */
    ghost predicate Stopped(st: Outcome)
      reads this`point, this`whole, this`resumed, reader, win`cur, win`end
    {
      match st
      case Go => true
      case WantInput => reader.cur == |reader.in_buf| && Wants(point, reader.todo, reader.num_bits)
      case WantRoom => win.cur == win.end && !resumed && MoreToCome(point)
      case Finished => point.Ended? && !resumed
      case Stuck => point == Broken && !resumed
    }

    lemma NotResumed()
      requires ResumeOk() && !point.Lens? && !point.Codes? && !point.Dist?
      ensures !resumed
    {
    }

    /** The next point, when k bits that were wanted have been taken. */
    lemma Arrive(p: Point, todo0: Bits, out0: seq<byte>, old0: int, k: nat)
      requires Apart() && reader.Valid() && win.Valid() && win.wrap == ring && Foreign(win.buf) && At(point) && !resumed
      requires OnTrack(ring, whole, all, p, todo0, out0) && Leads(ring, p, todo0, out0, point, reader.todo, win.out)
      requires whole.Some? ==>
                 Slack(p, todo0, old0) && reader.num_bits - 8 * reader.cur == old0 - k &&
                 (Wants(p, todo0, old0) ==> k > old0)
      ensures Good()
    {
      hide *;
      LeadsTracks(ring, p, todo0, out0, point, reader.todo, win.out);
      ArriveBy(p, todo0, out0, old0, k);
    }

    /** And when it is more than one step away. */
    lemma ArriveBy(p: Point, todo0: Bits, out0: seq<byte>, old0: int, k: nat)
      requires Apart() && reader.Valid() && win.Valid() && win.wrap == ring && Foreign(win.buf) && At(point) && !resumed
      requires OnTrack(ring, whole, all, p, todo0, out0) && Tracks(ring, p, todo0, out0, point, reader.todo, win.out)
      requires whole.Some? ==>
                 Slack(p, todo0, old0) && reader.num_bits - 8 * reader.cur == old0 - k &&
                 (Wants(p, todo0, old0) ==> k > old0)
      ensures Good()
    {
      hide *;
      TrackStep(ring, whole, all, p, todo0, out0, point, reader.todo, win.out);
      if whole.Some? { SlackTaken(p, todo0, old0, k, point, reader.todo); }
      GoodNow();
    }

    /** The lengths of the fixed codes, and tables for them. */
    method BuildFixed()
      requires Apart()
      modifies t0, t0.look_up, t0.tree, t0.code_size, t1, t1.look_up, t1.tree, t1.code_size
      ensures CodesReady(FixedLiterals(), FixedDistances())
    {
      hide *;
      ApartIs();
      TablesGive(t0, t1, t2, len_codes, table_sizes, raw_header);
      FixedSizes(t0.code_size, t1.code_size);
      FixedFits();
      ghost var c0 := t0.code_size[..];
      var ok := t1.Build(32, 32);
      assert t0.code_size[..] == c0 == FixedLiterals();
      ok := t0.Build(288, 288);
      ReadyCodes(FixedLiterals(), FixedDistances());
    }

    lemma ReadyCodes(lits: seq<nat>, dists: seq<nat>)
      requires t0.Ready() && t1.Ready() && t0.lens == lits && t1.lens == dists
      ensures CodesReady(lits, dists)
    {
    }

    /** The first three bits of a block: whether it is the last, and its type. */
    method StepHead() returns (st: Outcome)
      requires Good() && point == Head
      modifies this`state, this`m_final, this`counter, this`point, reader`bit_buf, reader`num_bits, reader`cur
      modifies reader`todo
      modifies t0, t0.look_up, t0.tree, t0.code_size, t1, t1.look_up, t1.tree, t1.code_size
      ensures Good() && Stopped(st) && reader.cur >= old(reader.cur)
      ensures (st == Go ==> |reader.todo| < |old(reader.todo)|) && st != WantRoom && st != Finished
    {
      hide *;
      GoodGives();
      ghost var todo0, out0, old0 := reader.todo, win.out, reader.num_bits - 8 * reader.cur;
      NotResumed();
      WantsHead(todo0, old0);
      var ok, v := reader.GetBits(3);
      if !ok {
        WantsHead(todo0, reader.num_bits);
        GoodNow();
        MoreWanted();
        return WantInput;
      }
      ThreeBits(todo0, v);
      HeadLeads(ring, todo0, out0);
      ForeignGives(win.buf);
      m_final := v;
      FinalNow();
      point := ByKind(todo0[0], v / 2);
      ByType(v / 2, todo0[0]);
      Arrive(Head, todo0, out0, old0, 3);
      st := Go;
      Went(st);
    }

    /** What each type of block begins with. */
    method ByType(m_type: nat, ghost f: bool)
      requires Apart() && m_type < 4 && Final(f)
      modifies this`state, this`counter, t0, t0.look_up, t0.tree, t0.code_size, t1, t1.look_up, t1.tree, t1.code_size
      ensures At(ByKind(f, m_type))
    {
      hide *;
      if m_type == 0 {
        state := AtAlign;
      } else if m_type == 1 {
        BuildFixed();
        state := AtSymbol;
      } else if m_type == 2 {
        counter := 0;
        state := AtSizes;
      } else {
        state := AtFailed;
      }
      AtByKind(f, m_type);
    }

    lemma FinalNow()
      ensures Final(m_final % 2 == 1)
    {
    }

    lemma ForeignGives(buf: array<byte>)
      requires Foreign(buf)
      ensures buf as object != t0.look_up && buf as object != t0.tree && buf as object != t0.code_size
      ensures buf as object != t1.look_up && buf as object != t1.tree && buf as object != t1.code_size
      ensures buf as object != t2.look_up && buf as object != t2.tree && buf as object != t2.code_size
      ensures buf as object != len_codes && buf as object != table_sizes && buf as object != raw_header
    {
    }

    lemma AtByKind(f: bool, kind: nat)
      requires Apart() && Final(f) && kind < 4
      requires state == (if kind == 0 then AtAlign else if kind == 1 then AtSymbol else if kind == 2 then AtSizes
                         else AtFailed)
      requires kind == 1 ==> CodesReady(FixedLiterals(), FixedDistances())
      requires kind == 2 ==> counter == 0
      ensures At(ByKind(f, kind))
    {
      hide *;
      ByKindIs(f, kind);
      if kind == 0 {
        AtAlignNow(f);
      } else if kind == 1 {
        AtCodesNow(f, FixedLiterals(), FixedDistances());
      } else if kind == 2 {
        AtSizesFirst(f);
      } else {
        AtBroken();
      }
    }

    lemma AtAlignNow(f: bool)
      requires Apart() && Final(f) && state == AtAlign
      ensures At(Aligning(f))
    {
      PartsGive(t0, t1, t2, len_codes, table_sizes, raw_header);
      hide ApartParts, Final;
    }

    lemma AtSizesFirst(f: bool)
      requires Apart() && Final(f) && state == AtSizes && counter == 0
      ensures At(Sizes(f, []))
    {
      PartsGive(t0, t1, t2, len_codes, table_sizes, raw_header);
      hide ApartParts, Final;
      assert table_sizes[..0] == [];
    }

    lemma MoreWanted()
      requires reader.cur == |reader.in_buf| && Wants(point, reader.todo, reader.num_bits)
      ensures Stopped(WantInput)
    {
      hide Wants;
    }

    lemma Went(st: Outcome)
      requires st == Go
      ensures Stopped(st)
    {
    }

    /** To the next byte boundary. */
    method StepAlign() returns (st: Outcome)
      requires Good() && point.Aligning?
      modifies this`state, this`counter, this`point, reader`bit_buf, reader`num_bits, reader`todo
      ensures Good() && st == Go && |reader.todo| <= |old(reader.todo)| && point.RawHeader?
    {
      hide *;
      GoodGives();
      ghost var p, todo0, out0, old0 := point, reader.todo, win.out, reader.num_bits - 8 * reader.cur;
      NotResumed();
      AlignBits(reader);
      AtFinal(p);
      NoWants(p, todo0, old0);
      AlignLeads(ring, p.final, todo0, out0);
      var k: nat := reader.num_bits % 8;
      reader.Drop(k);
      counter := 0;
      state := AtRawHeader;
      point := RawHeader(p.final, []);
      AtHeader(p, []);
      Arrive(p, todo0, out0, old0, k);
      st := Go;
    }

    lemma AtFinal(p: Point)
      requires At(p) && !p.Head? && !p.Last? && !p.Ended? && !p.Broken?
      ensures Final(p.final)
    {
      hide Final, CodesReady, LensKnown;
    }

    lemma AtHeader(p: Point, hdr: seq<byte>)
      requires Apart() && state == AtRawHeader && |hdr| < 4 && counter == |hdr|
      requires raw_header[..] == hdr + raw_header[..][|hdr|..]
      requires (p.Aligning? || p.RawHeader?) && Final(p.final)
      ensures At(RawHeader(p.final, hdr))
    {
      PartsGive(t0, t1, t2, len_codes, table_sizes, raw_header);
      hide ApartParts;
    }

    /** One byte of the two lengths of a stored block: from the buffer if there is anything in it. */
    method HeaderByte() returns (ok: bool, v: nat)
      requires reader.Valid()
      modifies reader`bit_buf, reader`num_bits, reader`cur, reader`todo
      ensures reader.Valid() && reader.cur >= old(reader.cur)
      ensures ok ==> 8 <= |old(reader.todo)| && v == FromBits(old(reader.todo)[..8]) % 256
      ensures ok ==> reader.todo == old(reader.todo)[8..] && v < 256
      ensures ok ==> reader.num_bits - 8 * reader.cur == old(reader.num_bits) - 8 * old(reader.cur) - 8
      ensures !ok ==> reader.todo == old(reader.todo) && reader.num_bits < 8 && reader.cur == |reader.in_buf|
      ensures !ok ==> reader.num_bits - 8 * reader.cur == old(reader.num_bits) - 8 * old(reader.cur)
    {
      EightFits();
      reader.ValidGives();
      hide *;
      if reader.num_bits > 0 {
        ok, v := reader.GetBits(8);
        if ok { SmallByte(v); }
      } else if reader.cur < |reader.in_buf| {
        ok := true;
        v := reader.TakeByte();
      } else {
        ok, v := false, 0;
      }
    }

    /** The lengths of a stored block, byte by byte. */
    method StepRawHeader() returns (st: Outcome)
      requires Good() && point.RawHeader?
      modifies this`state, this`counter, this`point, raw_header, reader`bit_buf, reader`num_bits, reader`cur
      modifies reader`todo
      ensures Good() && Stopped(st) && reader.cur >= old(reader.cur)
      ensures (st == Go ==> |reader.todo| < |old(reader.todo)|) && st != WantRoom && st != Finished
    {
      hide *;
      GoodGives();
      ghost var p, todo0, out0, old0 := point, reader.todo, win.out, reader.num_bits - 8 * reader.cur;
      NotResumed();
      AtFinal(p);
      AtHeaderGives(p);
      WantsByte(p, todo0, old0);
      var ok, v := HeaderByte();
      if !ok {
        WantsByte(p, todo0, reader.num_bits);
        GoodNow();
        MoreWanted();
        return WantInput;
      }
      ForeignGives(win.buf);
      HeaderPutByte(p, v);
      point := AfterByte(p, v);
      AfterByteLeads(ring, p, v, todo0, out0);
      Arrive(p, todo0, out0, old0, 8);
      st := Go;
      Went(st);
    }

    /** Another byte of the lengths, and after the last of them a look at them. */
    method HeaderPutByte(ghost p: Point, v: byte)
      requires Apart() && p.RawHeader? && counter == |p.hdr| < 4 == raw_header.Length && raw_header[..counter] == p.hdr
      requires Final(p.final) && state == AtRawHeader
      modifies this`state, this`counter, raw_header
      ensures At(AfterByte(p, v))
    {
      hide *;
      ghost var h0, k := raw_header[..], counter;
      raw_header[counter] := v;
      ghost var hdr := p.hdr + [v];
      HeaderPut(h0, raw_header[..], p.hdr, v, k);
      counter := counter + 1;
      AfterByteIs(p, v);
      if counter < 4 {
        AtHeader(p, hdr);
      } else {
        FourBytes(raw_header[..], hdr);
        CheckLengths();
        if state == AtStored { AtStoredNow(p.final, counter); } else { AtBroken(); }
      }
    }

    method CheckLengths()
      requires raw_header.Length == 4
      modifies this`state, this`counter
      ensures counter == Number16(raw_header[0], raw_header[1])
      ensures state == if counter + Number16(raw_header[2], raw_header[3]) != 0xFFFF then AtFailed else AtStored
    {
      counter := Number16(raw_header[0], raw_header[1]);
      state := if counter != 0xFFFF - Number16(raw_header[2], raw_header[3]) then AtFailed else AtStored;
    }

    lemma AtHeaderGives(p: Point)
      requires At(p) && p.RawHeader?
      ensures state == AtRawHeader && counter == |p.hdr| < 4 && raw_header.Length == 4 && raw_header[..counter] == p.hdr
    {
      hide Final;
    }

    lemma AtStoredNow(f: bool, left: nat)
      requires Apart() && state == AtStored && counter == left && Final(f)
      ensures At(Stored(f, left))
    {
      PartsGive(t0, t1, t2, len_codes, table_sizes, raw_header);
      hide ApartParts, Final;
    }

    lemma AtBroken()
      requires Apart() && state == AtFailed
      ensures At(Broken)
    {
      PartsGive(t0, t1, t2, len_codes, table_sizes, raw_header);
      hide ApartParts, Final;
    }

    /** The bytes of a stored block: first those in the bit buffer, then the input's. */
    method StepStored() returns (st: Outcome)
      requires Good() && point.Stored?
      modifies this`state, this`dist, this`counter, this`point, reader`bit_buf, reader`num_bits, reader`cur, reader`todo
      modifies win`cur, win`out, win.buf
      ensures Good() && Stopped(st) && reader.cur >= old(reader.cur) && win.cur >= old(win.cur)
      ensures Appended(old(win.out), win.out, win.cur - old(win.cur))
      ensures st == Go ==> Nearer(|old(reader.todo)|, old(win.cur), old(Rank(point)))
      ensures st != Finished && st != Stuck
    {
      hide *;
      GoodGives();
      ghost var p := point;
      AtStoredGives(p);
      if counter == 0 {
        EndStored();
        AppendedNone(win.out);
        st := Go;
        Went(st);
      } else {
        ghost var bits, cur, rank, o := |reader.todo|, win.cur, Rank(point), win.out;
        if reader.num_bits > 0 {
          st := StoredBit();
          AppendedNone(o);
        } else {
          st := StoredCopy();
        }
        if st == Go { FewerBits(bits, cur, rank); }
      }
    }

    lemma AtStoredGives(p: Point)
      requires At(p)
      ensures p.Stored? ==> state == AtStored && counter == p.left
      ensures p.StoredOut? ==> state == AtStoredOut && counter == p.left > 0 && dist == p.b
    {
      hide Final;
    }

    lemma AtAfter(f: bool)
      requires Apart() && state == (if f then AtEnd else AtHead)
      ensures At(After(f))
    {
      PartsGive(t0, t1, t2, len_codes, table_sizes, raw_header);
      hide ApartParts, Final;
    }

    /** After a block: the next, or the end if it was the last. */
    method EndBlock()
      modifies this`state
      ensures state == if m_final % 2 == 1 then AtEnd else AtHead
    {
      state := if m_final % 2 == 1 then AtEnd else AtHead;
    }

    lemma FinalIs(f: bool)
      requires Final(f)
      ensures f == (m_final % 2 == 1)
    {
    }

    method EndStored()
      requires Good() && point.Stored? && counter == 0
      modifies this`state, this`point
      ensures Good() && Nearer(|reader.todo|, win.cur, old(Rank(point)))
    {
      hide *;
      GoodGives();
      ghost var p, todo0, out0, old0 := point, reader.todo, win.out, reader.num_bits - 8 * reader.cur;
      NotResumed();
      AtFinal(p);
      FinalIs(p.final);
      AtStoredGives(p);
      NoWantsStored(p, todo0, old0);
      EndBlock();
      point := After(p.final);
      AtAfter(p.final);
      StoredEnds(ring, p.final, todo0, out0);
      Arrive(p, todo0, out0, old0, 0);
      StoredRank(p);
      Lower(p, point);
    }

    lemma Lower(p: Point, p': Point)
      requires point == p' && Rank(p') < Rank(p)
      ensures Nearer(|reader.todo|, win.cur, Rank(p))
    {
      hide Rank;
    }

    lemma FewerBits(bits: nat, cur: nat, rank: nat)
      requires |reader.todo| < bits
      ensures Nearer(bits, cur, rank)
    {
      hide Rank;
    }

    /** A byte of a stored block out of the bit buffer. */
    method StoredBit() returns (st: Outcome)
      requires Good() && point.Stored? && counter > 0
      modifies this`state, this`dist, this`point, reader`bit_buf, reader`num_bits, reader`cur, reader`todo
      ensures Good() && Stopped(st) && reader.cur >= old(reader.cur)
      ensures (st == Go ==> |reader.todo| < |old(reader.todo)|) && (st == Go || st == WantInput)
    {
      hide *;
      GoodGives();
      ghost var p, todo0, out0, old0 := point, reader.todo, win.out, reader.num_bits - 8 * reader.cur;
      NotResumed();
      AtFinal(p);
      AtStoredGives(p);
      WantsByte(p, todo0, old0);
      EightFits();
      var ok, v := reader.GetBits(8);
      if !ok {
        WantsByte(p, todo0, reader.num_bits);
        GoodNow();
        MoreWanted();
        return WantInput;
      }
      SmallByte(v);
      dist := v;
      state := AtStoredOut;
      point := StoredOut(p.final, p.left, v);
      StoredLeads(ring, p.final, p.left, todo0, out0);
      AtStoredOutNow(p.final, p.left, v);
      Arrive(p, todo0, out0, old0, 8);
      st := Go;
      Went(st);
    }

    lemma AtStoredOutNow(f: bool, left: nat, b: byte)
      requires Apart() && state == AtStoredOut && counter == left > 0 && dist == b && Final(f)
      ensures At(StoredOut(f, left, b))
    {
      PartsGive(t0, t1, t2, len_codes, table_sizes, raw_header);
      hide ApartParts, Final;
    }

    /** The byte goes out when there is room for it. */
    method StepStoredOut() returns (st: Outcome)
      requires Good() && point.StoredOut?
      modifies this`state, this`counter, this`point, win`cur, win`out, win.buf
      ensures Good() && Stopped(st) && win.cur >= old(win.cur)
      ensures Appended(old(win.out), win.out, win.cur - old(win.cur))
      ensures (st == Go ==> win.cur > old(win.cur)) && (st == Go || st == WantRoom)
    {
      hide *;
      GoodGives();
      ghost var p, todo0, out0, old0 := point, reader.todo, win.out, reader.num_bits - 8 * reader.cur;
      NotResumed();
      AtFinal(p);
      AtStoredGives(p);
      NoWants(p, todo0, old0);
      win.ValidGives();
      ForeignGives(win.buf);
      if win.cur >= win.end {
        ToCome(point);
        NoRoom();
        AppendedNone(out0);
        return WantRoom;
      }
      win.Put(dist);
      counter := counter - 1;
      state := AtStored;
      point := Stored(p.final, p.left - 1);
      StoredOutLeads(ring, p.final, p.left, p.b, todo0, out0);
      AtStoredNow(p.final, p.left - 1);
      Arrive(p, todo0, out0, old0, 0);
      AppendedOne(out0, p.b);
      st := Go;
      Went(st);
    }

    lemma NoRoom()
      requires win.cur == win.end && !resumed && MoreToCome(point)
      ensures Stopped(WantRoom)
    {
    }

    /** Bytes straight from the input to the output, as many as there are and there is room for. */
    method StoredCopy() returns (st: Outcome)
      requires Good() && point.Stored? && counter > 0 && reader.num_bits == 0
      modifies this`state, this`counter, this`point, reader`cur, reader`todo, win`cur, win`out, win.buf
      ensures Good() && Stopped(st) && reader.cur >= old(reader.cur) && win.cur >= old(win.cur)
      ensures Appended(old(win.out), win.out, win.cur - old(win.cur))
      ensures (st == Go ==> |reader.todo| < |old(reader.todo)|) && (st == Go || st == WantInput || st == WantRoom)
    {
      hide *;
      GoodGives();
      win.ValidGives();
      reader.ValidGives();
      ghost var out0, cur0, todo0 := win.out, win.cur, reader.todo;
      AppendedNone(out0);
      if win.cur >= win.end {
        NotResumed();
        AtStoredGives(point);
        ToCome(point);
        NoRoom();
        return WantRoom;
      }
      if reader.cur >= |reader.in_buf| {
        AtStoredGives(point);
        WantsByte(point, reader.todo, reader.num_bits);
        MoreWanted();
        return WantInput;
      }
      var n := Least(win.end - win.cur, |reader.in_buf| - reader.cur, counter);
      var i := 0;
      while i < n
        invariant 0 <= i <= n && Good() && point.Stored? && reader.num_bits == 0 && counter == old(counter) - i
        invariant n <= old(counter)
        invariant win.cur == cur0 + i <= win.end && reader.cur == old(reader.cur) + i
        invariant n <= |reader.in_buf| - old(reader.cur) && n <= win.end - cur0
        invariant Appended(out0, win.out, i) && |reader.todo| <= |todo0| && (i > 0 ==> |reader.todo| < |todo0|)
      {
        ghost var out1 := win.out;
        CopyOne();
        AppendedMore(out0, out1, win.out, i);
        i := i + 1;
      }
      st := Go;
      Went(st);
    }

    /** One byte of the copy. */
    method CopyOne()
      requires Good() && point.Stored? && counter > 0 && reader.num_bits == 0 && reader.cur < |reader.in_buf|
      requires win.cur < win.end
      modifies this`counter, this`point, reader`cur, reader`todo, win`cur, win`out, win.buf
      ensures Good() && point.Stored? && counter == old(counter) - 1 && reader.cur == old(reader.cur) + 1
      ensures win.cur == old(win.cur) + 1
      ensures |reader.todo| < |old(reader.todo)| && Appended(old(win.out), win.out, 1)
    {
      hide *;
      GoodGives();
      ghost var p, todo0, out0, old0 := point, reader.todo, win.out, reader.num_bits - 8 * reader.cur;
      NotResumed();
      AtFinal(p);
      AtStoredGives(p);
      WantsByte(p, todo0, old0);
      ForeignGives(win.buf);
      var c := reader.TakeByte();
      win.Put(c);
      counter := counter - 1;
      point := Stored(p.final, p.left - 1);
      StoredThrough(ring, p.final, p.left, todo0, out0, c);
      AtStoredNow(p.final, p.left - 1);
      ArriveBy(p, todo0, out0, old0, 8);
      AppendedOne(out0, c);
    }

    lemma SlackNow(p: Point, todo: Bits, old_bits: int)
      requires whole.Some? ==> Slack(p, todo, old_bits)
      requires !Wants(p, todo, old_bits)
      ensures whole.Some? ==> old_bits < 8
    {
      hide Wants;
    }

    // ------------------------------------------------------------------------------ what is wanted

    /** Having taken k bits from what was to be done at p, on the way to the next point. */
    ghost predicate Held(p: Point, todo0: Bits, out0: seq<byte>, old0: int, k: nat)
      reads this`whole, this`resumed, reader, win, win.buf
    {
      Apart() && reader.Valid() && win.Valid() && win.wrap == ring && Foreign(win.buf) && !resumed &&
      OnTrack(ring, whole, all, p, todo0, out0) &&
      win.out == out0 &&
      (whole.Some? ==>
         Slack(p, todo0, old0) && reader.num_bits - 8 * reader.cur == old0 - k && (Wants(p, todo0, old0) ==> k > old0))
    }

    lemma HeldNow(p: Point, todo0: Bits, out0: seq<byte>, old0: int, k: nat)
      requires Apart() && reader.Valid() && win.Valid() && win.wrap == ring && Foreign(win.buf) && !resumed
      requires OnTrack(ring, whole, all, p, todo0, out0) && win.out == out0
      requires whole.Some? ==> Slack(p, todo0, old0) && (Wants(p, todo0, old0) ==> k > old0)
      requires reader.num_bits - 8 * reader.cur == old0 - k
      ensures Held(p, todo0, out0, old0, k)
    {
      hide Apart, OnTrack, Slack, Wants;
    }

    lemma HeldGives(p: Point, todo0: Bits, out0: seq<byte>, old0: int, k: nat)
      requires Held(p, todo0, out0, old0, k)
      ensures Apart() && reader.Valid() && win.Valid() && win.wrap == ring && Foreign(win.buf) && !resumed
      ensures OnTrack(ring, whole, all, p, todo0, out0)
      ensures win.out == out0
      ensures whole.Some? ==>
                Slack(p, todo0, old0) && reader.num_bits - 8 * reader.cur == old0 - k &&
                (Wants(p, todo0, old0) ==> k > old0)
    {
      hide Apart, OnTrack, Slack, Wants;
    }

    lemma Land(p: Point, todo0: Bits, out0: seq<byte>, old0: int, k: nat)
      requires Held(p, todo0, out0, old0, k) && At(point) && Leads(ring, p, todo0, out0, point, reader.todo, win.out)
      ensures Good()
    {
      hide *;
      HeldGives(p, todo0, out0, old0, k);
      Arrive(p, todo0, out0, old0, k);
    }

    /** The n bits that are wanted here, or a stop for want of them. */
    method WantBits(n: nat) returns (ok: bool, v: nat)
      requires Good() && Needs(point) == Some(n) && n <= 16
      modifies reader`bit_buf, reader`num_bits, reader`cur, reader`todo
      ensures !ok ==> Good() && Stopped(WantInput)
      ensures ok ==> n <= |old(reader.todo)| && reader.todo == old(reader.todo)[n..]
      ensures ok ==> v == FromBits(old(reader.todo)[..n]) && v < Pow2(n)
      ensures ok ==> Held(point, old(reader.todo), win.out, old(reader.num_bits - 8 * reader.cur), n)
    {
      hide *;
      GoodGives();
      NeedsMeans(point, reader.todo, reader.num_bits - 8 * reader.cur);
      NotResumed();
      ghost var todo0, old0 := reader.todo, reader.num_bits - 8 * reader.cur;
      ok, v := reader.GetBits(n);
      if ok {
        HeldNow(point, todo0, win.out, old0, n);
      } else {
        NeedsMeans(point, reader.todo, reader.num_bits);
        GoodNow();
        MoreWanted();
      }
    }

    /** The symbol that is wanted here, or a stop for want of input. */
    method WantSymbol(t: Table) returns (ok: bool, sym: nat)
      requires Good() && (point.Lens? || point.Codes? || point.Dist?) && t.Ready() && t.lens == CodeAt(point)
      modifies this`resumed, reader`bit_buf, reader`num_bits, reader`cur, reader`todo
      ensures !ok ==> Good() && Stopped(WantInput)
      ensures ok ==> sym < 512 && (sym < |t.lens| || sym == 0)
      ensures ok ==> Decoded(t.lens, old(reader.todo), sym, reader.todo) && |reader.todo| <= |old(reader.todo)|
      ensures ok ==> Held(point, old(reader.todo), win.out, old(reader.num_bits - 8 * reader.cur),
                          |old(reader.todo)| - |reader.todo|)
    {
      hide *;
      GoodGives();
      ghost var p, todo0, old0 := point, reader.todo, reader.num_bits - 8 * reader.cur;
      ResumedGives(p, todo0);
      ok, sym := HuffDecode.HuffDecode(reader, t, resumed);
      resumed := !ok;
      if ok {
        SymbolTakes(ring, whole, all, p, todo0, win.out, old0, sym, reader.todo);
        HeldNow(p, todo0, win.out, old0, |todo0| - |reader.todo|);
      } else {
        WantsSymbol(p, todo0, reader.num_bits);
        GoodHalfWay();
        MoreWanted();
      }
    }

    lemma ResumedGives(p: Point, todo: Bits)
      requires ResumeOk() && point == p && reader.todo == todo && (p.Lens? || p.Codes? || p.Dist?)
      ensures resumed ==> reader.num_bits < 15 && Unfinished(CodeAt(p), todo, reader.num_bits)
    {
      WantsSymbol(p, todo, reader.num_bits);
      hide Wants, Unfinished;
    }

    lemma GoodHalfWay()
      requires Apart() && reader.Valid() && win.Valid() && win.wrap == ring && Foreign(win.buf) && At(point)
      requires OnTrack(ring, whole, all, point, reader.todo, win.out)
      requires whole.Some? ==> Slack(point, reader.todo, reader.num_bits - 8 * reader.cur)
      requires (point.Lens? || point.Codes? || point.Dist?) && reader.num_bits < 15
      requires Wants(point, reader.todo, reader.num_bits)
      ensures Good()
    {
      hide Apart, At, OnTrack, Slack, Wants;
    }

    // ------------------------------------------------------------------------------ the tables of a dynamic block

    /** The numbers of codes. */
    method StepSizes() returns (st: Outcome)
      requires Good() && point.Sizes?
      modifies this`state, this`counter, this`point, table_sizes, t2.code_size, reader`bit_buf, reader`num_bits
      modifies reader`cur, reader`todo
      ensures Good() && Stopped(st) && (st == Go ==> |reader.todo| < |old(reader.todo)|)
      ensures st == Go || st == WantInput
    {
      hide *;
      GoodGives();
      ghost var p, todo0, out0, old0 := point, reader.todo, win.out, reader.num_bits - 8 * reader.cur;
      AtFinal(p);
      AtSizesGives(p);
      SizesNeed(p);
      var n := SizeBits(counter);
      var ok, v := WantBits(n);
      if !ok {
        return WantInput;
      }
      ForeignGives(win.buf);
      PutSize(p, v);
      point := AfterSize(p, v);
      AfterSizeLeads(ring, p, v, todo0, out0);
      Land(p, todo0, out0, old0, n);
      st := Go;
      Went(st);
    }

    lemma AtSizesGives(p: Point)
      requires At(p) && p.Sizes?
      ensures state == AtSizes && counter == |p.sizes| < 3 && table_sizes.Length == 3
      ensures table_sizes[..counter] == p.sizes && SizesFit(p.sizes)
    {
      hide Final;
    }

    method PutSize(ghost p: Point, v: nat)
      requires Apart() && p.Sizes? && state == AtSizes && counter == |p.sizes| < 3 && table_sizes.Length == 3
      requires table_sizes[..counter] == p.sizes
      requires SizesFit(p.sizes) && v < Pow2(SizeBits(|p.sizes|)) && Final(p.final)
      modifies this`state, this`counter, table_sizes, t2.code_size
      ensures At(AfterSize(p, v))
    {
      hide *;
      ghost var s0, k := table_sizes[..], counter;
      SizesAreFew(p.sizes, v);
      table_sizes[counter] := v + LeastSize(counter);
      counter := counter + 1;
      ghost var sizes := p.sizes + [v + LeastSize(|p.sizes|)];
      SizePut(s0, table_sizes[..], p.sizes, v + LeastSize(k), k);
      AfterSizeIs(p, v);
      if counter == 3 {
        ClearCodeSizes();
        counter := 0;
        state := AtCodeLens;
        AtCodeLensFirst(p.final, sizes);
      } else {
        AtSizesNow(p.final, sizes);
      }
    }

    /** No code lengths of the code of the code lengths yet. */
    method ClearCodeSizes()
      requires Apart()
      modifies t2.code_size
      ensures t2.code_size.Length == 19 && t2.code_size[..] == Repeat(0, 19)
    {
      TablesGive(t0, t1, t2, len_codes, table_sizes, raw_header);
      forall i | 0 <= i < t2.code_size.Length { t2.code_size[i] := 0; }
      assert t2.code_size[..] == Repeat(0, 19);
    }

    lemma AtSizesNow(f: bool, sizes: seq<nat>)
      requires Apart() && state == AtSizes && counter == |sizes| < 3 && table_sizes.Length == 3
      requires table_sizes[..counter] == sizes && SizesFit(sizes) && Final(f)
      ensures At(Sizes(f, sizes))
    {
      PartsGive(t0, t1, t2, len_codes, table_sizes, raw_header);
      hide ApartParts, Final, SizesFit;
    }

    lemma AtCodeLensFirst(f: bool, sizes: seq<nat>)
      requires Apart() && state == AtCodeLens && counter == 0 && table_sizes.Length == 3 && |sizes| == 3
      requires table_sizes[..3] == sizes && SizesFit(sizes) && Final(f)
      requires 4 <= sizes[2] <= 19 && t2.code_size.Length == 19 && t2.code_size[..] == Repeat(0, 19)
      ensures At(CodeLens(f, sizes[0], sizes[1], sizes[2], 0, Repeat(0, 19)))
    {
      PartsGive(t0, t1, t2, len_codes, table_sizes, raw_header);
      hide ApartParts, Final;
      assert table_sizes[..] == [sizes[0], sizes[1], sizes[2]];
    }

    /** The lengths of the code of the code lengths. */
    method StepCodeLens() returns (st: Outcome)
      requires Good() && point.CodeLens?
      modifies this`state, this`counter, this`point, table_sizes, t2, t2.code_size, t2.look_up, t2.tree
      modifies reader`bit_buf, reader`num_bits, reader`cur, reader`todo
      ensures Good() && Stopped(st) && (st == Go ==> |reader.todo| < |old(reader.todo)|)
      ensures st == Go || st == WantInput
    {
      hide *;
      GoodGives();
      ghost var p, todo0, out0, old0 := point, reader.todo, win.out, reader.num_bits - 8 * reader.cur;
      AtFinal(p);
      AtCodeLensGives(p);
      CodeLensAtGives(p);
      CodeLensNeed(p);
      var ok, v := WantBits(3);
      if !ok {
        return WantInput;
      }
      ForeignGives(win.buf);
      PutCodeLen(p, v);
      point := AfterCodeLen(p, v);
      AfterCodeLenLeads(ring, p, v, todo0, out0);
      Land(p, todo0, out0, old0, 3);
      st := Go;
      Went(st);
    }

    lemma AtCodeLensGives(p: Point)
      requires At(p) && p.CodeLens?
      ensures CodeLensAt(p)
    {
      hide Final;
    }

    ghost predicate CodeLensAt(p: Point)
      requires p.CodeLens?
      reads this`state, this`counter, table_sizes, t2.code_size
    {
      state == AtCodeLens && table_sizes.Length == 3 && table_sizes[..] == [p.hlit, p.hdist, p.n] &&
      SizesFit([p.hlit, p.hdist]) && counter == p.i < p.n <= 19 &&
      t2.code_size[..] == p.code && |p.code| == 19 && forall k :: 0 <= k < 19 ==> p.code[k] < 8
    }

    lemma CodeLensAtGives(p: Point)
      requires p.CodeLens? && CodeLensAt(p)
      ensures table_sizes.Length == 3 && table_sizes[2] == p.n && t2.code_size.Length == 19
      ensures counter == p.i < p.n <= 19 && t2.code_size[..] == p.code && |p.code| == 19
      ensures SizesFit([p.hlit, p.hdist])
    {
      assert table_sizes[..][2] == p.n;
    }

    method PutCodeLen(ghost p: Point, v: nat)
      requires Apart() && p.CodeLens? && CodeLensAt(p) && v < Pow2(3) && Final(p.final)
      modifies this`state, this`counter, table_sizes, t2, t2.code_size, t2.look_up, t2.tree
      ensures At(AfterCodeLen(p, v))
    {
      hide *;
      CodeLensAtGives(p);
      SwizzleSize();
      SmallLen(v);
      ghost var p' := CodeLens(p.final, p.hlit, p.hdist, p.n, p.i + 1, p.code[SWIZZLE[p.i] := v]);
      LengthTableApart();
      PutCodeSize(p, p', v);
      if counter == table_sizes[2] {
        AllCodeLens(p');
        EnterLens(p');
      } else {
        AtMoreCodeLens(p');
      }
      AfterCodeLenIs(p, v);
    }

    lemma LengthTableApart()
      requires Apart()
      ensures table_sizes as object != t2.code_size && t2.Shaped(19)
      ensures table_sizes as object != t2.look_up && table_sizes as object != t2.tree && table_sizes.Length == 3
    {
    }

    /** Like CodeLensAt, when all of the lengths may have been read. */
    ghost predicate CodeLensPut(p: Point)
      requires p.CodeLens?
      reads this`state, this`counter, table_sizes, t2.code_size
    {
      state == AtCodeLens && table_sizes.Length == 3 && table_sizes[..] == [p.hlit, p.hdist, p.n] &&
      SizesFit([p.hlit, p.hdist]) && counter == p.i <= p.n <= 19 &&
      t2.code_size[..] == p.code && |p.code| == 19 && forall k :: 0 <= k < 19 ==> p.code[k] < 8
    }

    method PutCodeSize(ghost p: Point, ghost p': Point, v: nat)
      requires p.CodeLens? && CodeLensAt(p) && v < 8 && table_sizes as object != t2.code_size && |SWIZZLE| == 19
      requires SWIZZLE[p.i] < 19
      requires p' == CodeLens(p.final, p.hlit, p.hdist, p.n, p.i + 1, p.code[SWIZZLE[p.i] := v])
      modifies this`counter, t2.code_size
      ensures CodeLensPut(p') && counter == p.i + 1 && table_sizes.Length == 3 && table_sizes[2] == p.n
    {
      CodeLensAtGives(p);
      ghost var c0: seq<nat>, s0 := t2.code_size[..], table_sizes[..];
      t2.code_size[SWIZZLE[counter]] := v;
      counter := counter + 1;
      assert t2.code_size[..] == c0[SWIZZLE[p.i] := v];
      assert table_sizes[..] == s0;
    }

    lemma AtMoreCodeLens(p: Point)
      requires Apart() && p.CodeLens? && CodeLensPut(p) && p.i < p.n && Final(p.final)
      ensures At(p)
    {
      PartsGive(t0, t1, t2, len_codes, table_sizes, raw_header);
      hide ApartParts, Final, SizesFit;
    }

    lemma AllCodeLens(p: Point)
      requires p.CodeLens? && CodeLensPut(p)
      ensures table_sizes.Length == 3 && table_sizes[0] == p.hlit && table_sizes[1] == p.hdist
      ensures SizesFit([p.hlit, p.hdist]) && t2.code_size[..] == p.code
      ensures |p.code| == 19 && t2.code_size.Length == 19 && t2.code_size[..19] == p.code
      ensures forall s :: 0 <= s < 19 ==> t2.code_size[s] <= MAX_BITS
    {
      hide SizesFit;
      assert table_sizes[..][0] == p.hlit && table_sizes[..][1] == p.hdist;
      forall s | 0 <= s < 19 ensures t2.code_size[s] <= MAX_BITS { assert t2.code_size[..][s] < 8; }
    }

    /** The tables for the code of the code lengths. */
    method EnterLens(ghost p: Point)
      requires Apart() && p.CodeLens? && Final(p.final) && t2.Shaped(19) && |p.code| == 19 && t2.code_size.Length == 19
      requires table_sizes.Length == 3 && table_sizes[0] == p.hlit && table_sizes[1] == p.hdist
      requires SizesFit([p.hlit, p.hdist])
      requires t2.code_size[..19] == p.code && forall s :: 0 <= s < 19 ==> t2.code_size[s] <= MAX_BITS
      requires table_sizes as object != t2.look_up && table_sizes as object != t2.tree
      requires table_sizes as object != t2.code_size
      modifies this`state, this`counter, table_sizes, t2, t2.look_up, t2.tree
      ensures At(if Acceptable(p.code) then Lens(p.final, p.hlit, p.hdist, p.code, []) else Broken)
    {
      hide *;
      table_sizes[2] := 19;
      var ok := t2.Build(19, 19);
      counter := 0;
      if ok {
        state := AtLens;
        AtLensFirst(p);
      } else {
        state := AtFailed;
        AtBroken();
      }
    }

    lemma AtLensFirst(p: Point)
      requires Apart() && p.CodeLens? && Final(p.final) && state == AtLens && counter == 0 && t2.Ready()
      requires t2.lens == p.code && |p.code| == 19
      requires table_sizes.Length == 3 && table_sizes[0] == p.hlit && table_sizes[1] == p.hdist
      requires SizesFit([p.hlit, p.hdist])
      ensures At(Lens(p.final, p.hlit, p.hdist, p.code, []))
    {
      PartsGive(t0, t1, t2, len_codes, table_sizes, raw_header);
      hide ApartParts, Final, Table.Ready;
    }

    // ------------------------------------------------------------------------------ code lengths

    /** A code length, or a repetition of one. */
    method StepLens() returns (st: Outcome)
      requires Good() && point.Lens?
      modifies this`state, this`counter, this`dist, this`num_extra, this`resumed, this`point, len_codes
      modifies t0, t0.look_up, t0.tree, t0.code_size, t1, t1.look_up, t1.tree, t1.code_size
      modifies reader`bit_buf, reader`num_bits, reader`cur, reader`todo
      ensures Good() && Stopped(st) && (st == Go ==> Nearer(|old(reader.todo)|, win.cur, old(Rank(point))))
      ensures st == Go || st == WantInput
    {
      hide *;
      GoodGives();
      ghost var p, todo0, out0, old0 := point, reader.todo, win.out, reader.num_bits - 8 * reader.cur;
      AtFinal(p);
      AtLensGives(p);
      LensGives(p.hlit, p.hdist, p.code, p.acc);
      LensCode(p);
      var ok, sym := WantSymbol(t2);
      if !ok {
        return WantInput;
      }
      ForeignGives(win.buf);
      CodeAtLens(p);
      PutLen(p, sym);
      point := BySym(p.final, p.hlit, p.hdist, p.code, p.acc, sym);
      LensLeads(ring, p.final, p.hlit, p.hdist, p.code, p.acc, sym, todo0, reader.todo, out0);
      Land(p, todo0, out0, old0, |todo0| - |reader.todo|);
      LensNearer(p, sym, todo0);
      st := Go;
      Went(st);
    }

    lemma AtLensGives(p: Point)
      requires At(p)
      ensures p.Lens? ==> LensKnown(p.hlit, p.hdist, p.code, p.acc)
      ensures p.Repeated? ==>
                LensKnown(p.hlit, p.hdist, p.code, p.acc) && dist == p.sym && 16 <= p.sym < 19 &&
                num_extra == ExtraBits(p.sym) && (p.sym == 16 ==> p.acc != [])
    {
      hide Final, LensKnown;
    }

    lemma LensGives(hlit: nat, hdist: nat, code: seq<nat>, acc: seq<nat>)
      requires LensKnown(hlit, hdist, code, acc)
      ensures LensPart(hlit, hdist, code, acc) && t2.Ready() && t2.lens == code && |code| == 19
      ensures counter == |acc| < hlit + hdist
      ensures len_codes.Length == LEN_CODES && LEN_CODES == 457 && SizesFit([hlit, hdist])
      ensures counter < 320 && (acc != [] ==> counter > 0 && len_codes[counter - 1] == acc[|acc| - 1])
    {
      hide Table.Ready;
      SomeCodes(hlit, hdist);
    }

    lemma CodeAtLens(p: Point)
      requires p.Lens?
      ensures CodeAt(p) == p.code
    {
    }

    lemma LensCode(p: Point)
      requires p.Lens? && t2.lens == p.code
      ensures t2.lens == CodeAt(p)
    {
    }

    lemma LensNearer(p: Point, sym: nat, todo0: Bits)
      requires p.Lens? && |p.acc| < p.hlit + p.hdist && SizesFit([p.hlit, p.hdist])
      requires Decoded(p.code, todo0, sym, reader.todo)
      requires point == BySym(p.final, p.hlit, p.hdist, p.code, p.acc, sym)
      ensures Nearer(|todo0|, win.cur, Rank(p))
    {
      hide DecodeSym, Acceptable;
    }

    /** What a symbol of the code of the code lengths says. */
    method PutLen(ghost p: Point, sym: nat)
      requires Apart() && p.Lens? && LensKnown(p.hlit, p.hdist, p.code, p.acc) && Final(p.final)
      requires sym < |p.code| || sym == 0
      modifies this`state, this`counter, this`dist, this`num_extra, len_codes
      modifies t0, t0.look_up, t0.tree, t0.code_size, t1, t1.look_up, t1.tree, t1.code_size
      ensures At(BySym(p.final, p.hlit, p.hdist, p.code, p.acc, sym))
    {
      hide *;
      LensGives(p.hlit, p.hdist, p.code, p.acc);
      BySymIs(p.final, p.hlit, p.hdist, p.code, p.acc, sym);
      if sym < 16 {
        ghost var l0, k := len_codes[..], counter;
        LensApart();
        LensUnchanged(p.hlit, p.hdist, p.code, p.acc);
        len_codes[counter] := sym;
        counter := counter + 1;
        LensPut(p.hlit, p.hdist, p.code, p.acc, sym, l0, k);
        FinishLens(p, p.acc + [sym]);
      } else if sym == 16 && counter == 0 {
        state := AtFailed;
        AtBroken();
      } else {
        dist := sym;
        num_extra := ExtraBits(sym);
        state := AtRepeat;
        AtRepeatNow(p, sym);
      }
    }

    lemma LensApart()
      requires Apart()
      ensures len_codes as object != t2.look_up && len_codes as object != t2.tree && len_codes as object != table_sizes
      ensures len_codes != t0.code_size && len_codes != t1.code_size && len_codes != t2.code_size && t0.Shaped(288)
      ensures t1.Shaped(32) && Disjoint(t0, t1)
    {
    }

    lemma AtRepeatNow(p: Point, sym: nat)
      requires Apart() && p.Lens? && LensKnown(p.hlit, p.hdist, p.code, p.acc) && Final(p.final) && state == AtRepeat
      requires dist == sym
      requires 16 <= sym < 19 && num_extra == ExtraBits(sym) && (sym == 16 ==> p.acc != [])
      ensures At(Repeated(p.final, p.hlit, p.hdist, p.code, p.acc, sym))
    {
      PartsGive(t0, t1, t2, len_codes, table_sizes, raw_header);
      hide ApartParts, Final, LensKnown;
    }

    /** All of what LensPart says about what the code lengths are not part of. */
    ghost predicate LensCore(hlit: nat, hdist: nat, code: seq<nat>)
      reads table_sizes, t2, t2.look_up, t2.tree
    {
      table_sizes.Length == 3 && len_codes.Length == LEN_CODES && t2.Ready() && t2.lens == code && |code| == 19 &&
      table_sizes[0] == hlit && table_sizes[1] == hdist && SizesFit([hlit, hdist])
    }

    lemma LensUnchanged(hlit: nat, hdist: nat, code: seq<nat>, acc: seq<nat>)
      requires LensPart(hlit, hdist, code, acc)
      ensures LensCore(hlit, hdist, code) && LEN_CODES == len_codes.Length == 457
      ensures counter == |acc| <= LEN_CODES && len_codes[..counter] == acc
      ensures forall k :: 0 <= k < counter ==> len_codes[k] < 16
    {
      hide Table.Ready, SizesFit;
    }

    lemma LensPut(hlit: nat, hdist: nat, code: seq<nat>, acc: seq<nat>, x: nat, l0: seq<nat>, k: nat)
      requires LensCore(hlit, hdist, code) && k == |acc| < LEN_CODES && |l0| == LEN_CODES && l0[..k] == acc
      requires forall i :: 0 <= i < k ==> l0[i] < 16
      requires x < 16 && len_codes[..] == l0[k := x] && counter == k + 1
      ensures LensPart(hlit, hdist, code, acc + [x])
    {
      hide Table.Ready, SizesFit;
      forall i | 0 <= i < counter ensures len_codes[i] < 16 { assert len_codes[..][i] == l0[k := x][i]; }
      assert len_codes[..counter] == len_codes[..][..counter] == l0[k := x][..k + 1] == acc + [x];
    }

    /** The code lengths are used when there are enough of them. */
    method FinishLens(ghost p: Point, ghost acc: seq<nat>)
      requires Apart() && (p.Lens? || p.Repeated?) && LensPart(p.hlit, p.hdist, p.code, acc) && Final(p.final)
      modifies this`state, t0, t0.look_up, t0.tree, t0.code_size, t1, t1.look_up, t1.tree, t1.code_size
      ensures At(MoreLens(p.final, p.hlit, p.hdist, p.code, acc))
    {
      hide *;
      MoreLensIs(p.final, p.hlit, p.hdist, p.code, acc);
      LensPartGives(p.hlit, p.hdist, p.code, acc);
      if counter < table_sizes[0] + table_sizes[1] {
        state := AtLens;
        AtLensNow(p, acc);
      } else if counter != table_sizes[0] + table_sizes[1] {
        state := AtFailed;
        AtBroken();
      } else {
        WithLensIs(p.final, p.hlit, acc);
        LensApart();
        CopySizes(p.hlit, p.hdist, acc);
        var ok := BuildBoth(p.hlit, p.hdist, acc);
        if ok {
          state := AtSymbol;
          AtCodesNow(p.final, acc[..p.hlit], acc[p.hlit..]);
        } else {
          state := AtFailed;
          AtBroken();
        }
      }
    }

    lemma LensPartGives(hlit: nat, hdist: nat, code: seq<nat>, acc: seq<nat>)
      requires LensPart(hlit, hdist, code, acc)
      ensures table_sizes.Length == 3 && table_sizes[0] == hlit && table_sizes[1] == hdist
      ensures counter == |acc| <= LEN_CODES && 257 <= hlit <= 288 && 1 <= hdist <= 32
      ensures len_codes.Length == LEN_CODES && len_codes[..counter] == acc
      ensures forall k :: 0 <= k < counter ==> len_codes[k] < 16
    {
      SomeCodes(hlit, hdist);
      hide Table.Ready, SizesFit;
    }

    lemma AtLensNow(p: Point, acc: seq<nat>)
      requires Apart() && (p.Lens? || p.Repeated?) && LensPart(p.hlit, p.hdist, p.code, acc) && Final(p.final)
      requires state == AtLens && |acc| < p.hlit + p.hdist
      ensures At(Lens(p.final, p.hlit, p.hdist, p.code, acc))
    {
      PartsGive(t0, t1, t2, len_codes, table_sizes, raw_header);
      hide ApartParts, Final, LensPart;
    }

    lemma AtCodesNow(f: bool, lits: seq<nat>, dists: seq<nat>)
      requires Apart() && Final(f) && CodesReady(lits, dists) && state == AtSymbol
      ensures At(Codes(f, lits, dists))
    {
      PartsGive(t0, t1, t2, len_codes, table_sizes, raw_header);
      hide ApartParts, Final, CodesReady;
    }

    /** The code lengths of both codes to where their tables are built from. */
    method CopySizes(ghost hlit: nat, ghost hdist: nat, ghost acc: seq<nat>)
      requires table_sizes.Length == 3 && table_sizes[0] == hlit && table_sizes[1] == hdist && hlit <= 288
      requires hdist <= 32 && |acc| == hlit + hdist <= len_codes.Length
      requires len_codes[..|acc|] == acc && t0.Shaped(288) && t1.Shaped(32) && Disjoint(t0, t1)
      requires forall k :: 0 <= k < |acc| ==> len_codes[k] < 16
      requires len_codes != t0.code_size && len_codes != t1.code_size && Apart()
      modifies t0.code_size, t1.code_size
      ensures t0.code_size[..hlit] == acc[..hlit] && t1.code_size[..hdist] == acc[hlit..]
      ensures forall s :: 0 <= s < hlit ==> t0.code_size[s] <= MAX_BITS
      ensures forall s :: 0 <= s < hdist ==> t1.code_size[s] <= MAX_BITS
    {
      SizesApart();
      hide Apart;
      var a, b := table_sizes[0], table_sizes[1];
      ghost var l := len_codes[..];
      assert forall k :: 0 <= k < |acc| ==> len_codes[k] == acc[k];
      forall i | 0 <= i < a { t0.code_size[i] := len_codes[i]; }
      forall i | 0 <= i < b { t1.code_size[i] := len_codes[a + i]; }
      assert t0.code_size[..hlit] == acc[..hlit];
      assert t1.code_size[..hdist] == acc[hlit..];
    }

    lemma SizesApart()
      requires Apart()
      ensures table_sizes as object != t0.code_size && table_sizes as object != t1.code_size
      ensures t0.code_size != t1.code_size
      ensures t0.code_size.Length == 288 && t1.code_size.Length == 32
    {
    }

    /** Tables for both codes, if they are codes. */
    method BuildBoth(ghost hlit: nat, ghost hdist: nat, ghost acc: seq<nat>) returns (ok: bool)
      requires Apart() && table_sizes.Length == 3 && table_sizes[0] == hlit && table_sizes[1] == hdist && hlit <= 288
      requires hdist <= 32
      requires |acc| == hlit + hdist && t0.Shaped(288) && t1.Shaped(32) && t0.code_size.Length == 288
      requires t1.code_size.Length == 32
      requires t0.code_size[..hlit] == acc[..hlit] && t1.code_size[..hdist] == acc[hlit..]
      requires forall s :: 0 <= s < hlit ==> t0.code_size[s] <= MAX_BITS
      requires forall s :: 0 <= s < hdist ==> t1.code_size[s] <= MAX_BITS
      modifies t0, t0.look_up, t0.tree, t1, t1.look_up, t1.tree
      ensures ok <==> Acceptable(acc[..hlit]) && Acceptable(acc[hlit..])
      ensures ok ==> CodesReady(acc[..hlit], acc[hlit..])
    {
      TablesGive(t0, t1, t2, len_codes, table_sizes, raw_header);
      TableSizesApart();
      hide *;
      ghost var c := t0.code_size[..];
      var n := table_sizes[0];
      ok := t1.Build(table_sizes[1], 32);
      if ok {
        assert t0.code_size[..] == c;
        ok := t0.Build(n, 288);
        if ok { ReadyCodes(acc[..hlit], acc[hlit..]); }
      }
    }

    lemma TableSizesApart()
      requires Apart()
      ensures table_sizes as object != t0.look_up && table_sizes as object != t0.tree
      ensures table_sizes as object != t1.look_up && table_sizes as object != t1.tree
    {
    }

    /** The extra bits of a repetition. */
    method StepRepeat() returns (st: Outcome)
      requires Good() && point.Repeated?
      modifies this`state, this`counter, this`point, len_codes
      modifies t0, t0.look_up, t0.tree, t0.code_size, t1, t1.look_up, t1.tree, t1.code_size
      modifies reader`bit_buf, reader`num_bits, reader`cur, reader`todo
      ensures Good() && Stopped(st) && (st == Go ==> |reader.todo| < |old(reader.todo)|)
      ensures st == Go || st == WantInput
    {
      hide *;
      GoodGives();
      ghost var p, todo0, out0, old0 := point, reader.todo, win.out, reader.num_bits - 8 * reader.cur;
      AtFinal(p);
      AtLensGives(p);
      LensGives(p.hlit, p.hdist, p.code, p.acc);
      RepeatNeeds(p);
      ghost var k := ExtraBits(p.sym);
      var ok, v := WantBits(num_extra);
      if !ok {
        return WantInput;
      }
      ForeignGives(win.buf);
      PutRepeat(p, v);
      point := MoreLens(p.final, p.hlit, p.hdist, p.code, WithRepeat(p.acc, p.sym, v));
      RepeatLeads(ring, p.final, p.hlit, p.hdist, p.code, p.acc, p.sym, todo0, out0);
      Land(p, todo0, out0, old0, k);
      st := Go;
      Went(st);
    }

    method PutRepeat(ghost p: Point, v: nat)
      requires Apart() && p.Repeated? && LensKnown(p.hlit, p.hdist, p.code, p.acc) && Final(p.final) && dist == p.sym
      requires 16 <= p.sym < 19
      requires v < Pow2(ExtraBits(p.sym)) && (p.sym == 16 ==> p.acc != [])
      modifies this`state, this`counter, len_codes, t0, t0.look_up, t0.tree, t0.code_size, t1, t1.look_up, t1.tree
      modifies t1.code_size
      ensures At(MoreLens(p.final, p.hlit, p.hdist, p.code, WithRepeat(p.acc, p.sym, v)))
    {
      hide *;
      LensGives(p.hlit, p.hdist, p.code, p.acc);
      FewRepeats(p.sym, v);
      LensUnchanged(p.hlit, p.hdist, p.code, p.acc);
      LensApart();
      var s := v + (if dist == 18 then 11 else 3);
      var c: byte := if dist == 16 then len_codes[counter - 1] else 0;
      FillLens(p, s, c);
      WithRepeatIs(p.acc, p.sym, v, c, s);
      FinishLens(p, WithRepeat(p.acc, p.sym, v));
    }

    /** s copies of c after the code lengths so far. */
    method FillLens(ghost p: Point, s: nat, c: byte)
      requires Apart() && p.Repeated? && LensPart(p.hlit, p.hdist, p.code, p.acc) && c < 16 && |p.acc| + s <= LEN_CODES
      modifies this`counter, len_codes
      ensures LensPart(p.hlit, p.hdist, p.code, p.acc + Repeat(c, s))
    {
      hide *;
      LensApart();
      ghost var acc: seq<nat> := p.acc;
      NoRepeat(p.acc, c);
      var i := 0;
      while i < s
        invariant 0 <= i <= s && LensPart(p.hlit, p.hdist, p.code, acc) && acc == p.acc + Repeat(c, i)
        invariant |acc| == |p.acc| + i
      {
        LensUnchanged(p.hlit, p.hdist, p.code, acc);
        ghost var l0, k := len_codes[..], counter;
        len_codes[counter] := c;
        counter := counter + 1;
        LensPut(p.hlit, p.hdist, p.code, acc, c, l0, k);
        OneMore(p.acc, acc, c, i);
        acc := acc + [c];
        i := i + 1;
      }
    }

    // ------------------------------------------------------------------------------ the symbols of a block

    lemma AtCodesGives(p: Point)
      requires At(p) && (p.Codes? || p.Lit? || p.LenExtra? || p.Dist? || p.DistExtra? || p.Copy?)
      ensures CodesReady(p.lits, p.dists)
      ensures p.Codes? ==> state == AtSymbol
      ensures p.Lit? ==> state == AtLiteral && counter == p.b
      ensures p.LenExtra? ==> state == AtLenExtra && counter == p.base && num_extra == p.extra && 0 < p.extra <= 5
      ensures p.Dist? ==> state == AtDist && counter == p.len
      ensures p.DistExtra? ==>
                state == AtDistExtra && counter == p.len && dist == p.base && num_extra == p.extra &&
                0 < p.extra <= 13 &&
                               p.base + Pow2(p.extra) <= WINDOW + 1
      ensures p.Copy? ==> state == AtCopy && CopyAt(p)
    {
      hide Final, CodesReady, Pow2;
    }

    lemma ReadyGives(lits: seq<nat>, dists: seq<nat>)
      requires CodesReady(lits, dists)
      ensures t0.Ready() && t1.Ready() && t0.lens == lits && t1.lens == dists
    {
      hide Table.Ready;
    }

    /** A literal, the end of the block or the length of a match. */
    method StepSymbol() returns (st: Outcome)
      requires Good() && point.Codes?
      modifies this`state, this`counter, this`num_extra, this`resumed, this`point, reader`bit_buf, reader`num_bits
      modifies reader`cur, reader`todo
      modifies win`cur, win`out, win.buf
      ensures Good() && Stopped(st) && win.cur >= old(win.cur)
      ensures Appended(old(win.out), win.out, win.cur - old(win.cur))
      ensures (st == Go ==> Nearer(|old(reader.todo)|, old(win.cur), old(Rank(point)))) && (st == Go || st == WantInput)
    {
      hide *;
      GoodGives();
      reader.ValidGives();
      win.ValidGives();
      if resumed || |reader.in_buf| - reader.cur < 4 || win.end - win.cur < 2 {
        AppendedNone(win.out);
        st := SlowSymbol();
      } else {
        FastSymbols();
        st := Go;
        Went(st);
      }
    }

    /** One symbol, reading no further than it. */
    method SlowSymbol() returns (st: Outcome)
      requires Good() && point.Codes?
      modifies this`state, this`counter, this`num_extra, this`resumed, this`point, reader`bit_buf, reader`num_bits
      modifies reader`cur, reader`todo
      ensures Good() && Stopped(st) && (st == Go ==> Nearer(|old(reader.todo)|, win.cur, old(Rank(point))))
      ensures st == Go || st == WantInput
    {
      hide *;
      GoodGives();
      ghost var p, todo0, out0, old0 := point, reader.todo, win.out, reader.num_bits - 8 * reader.cur;
      AtFinal(p);
      AtCodesGives(p);
      ReadyGives(p.lits, p.dists);
      CodesCode(p);
      var ok, sym := WantSymbol(t0);
      if !ok {
        return WantInput;
      }
      SymbolNearer(p, sym, todo0);
      TakeSymbol(p, sym);
      CodesLeads(ring, p.final, p.lits, p.dists, sym, todo0, reader.todo, out0);
      Land(p, todo0, out0, old0, |todo0| - |reader.todo|);
      NearerBy(|todo0|, win.cur, Rank(p));
      st := Go;
      Went(st);
    }

    lemma SymbolNearer(p: Point, sym: nat, todo0: Bits)
      requires p.Codes? && Decoded(p.lits, todo0, sym, reader.todo)
      ensures |reader.todo| < |todo0| ||
              (|reader.todo| == |todo0| && Rank(BySymbol(p.final, p.lits, p.dists, sym)) < Rank(p))
    {
      hide DecodeSym;
    }

    /** What a symbol of the first code says. */
    method TakeSymbol(ghost p: Point, sym: nat)
      requires Apart() && p.Codes? && CodesReady(p.lits, p.dists) && Final(p.final) && sym < 512
      modifies this`state, this`counter, this`num_extra, this`point
      ensures point == BySymbol(p.final, p.lits, p.dists, sym) && At(point)
    {
      hide *;
      FinalIs(p.final);
      SetSymbol(sym);
      AtBySymbol(p, sym);
      point := BySymbol(p.final, p.lits, p.dists, sym);
    }

    method SetSymbol(sym: nat)
      modifies this`state, this`counter, this`num_extra
      ensures sym < 256 ==> counter == sym && state == AtLiteral
      ensures sym == 256 ==> state == if m_final % 2 == 1 then AtEnd else AtHead
      ensures sym > 256 ==> num_extra == LengthExtra(sym - 257) && counter == LengthBase(sym - 257)
      ensures sym > 256 ==> state == if num_extra > 0 then AtLenExtra else AtDist
    {
      hide *;
      if sym < 256 {
        counter := sym;
        state := AtLiteral;
      } else if sym == 256 {
        EndBlock();
      } else {
        num_extra := LengthExtra(sym - 257);
        counter := LengthBase(sym - 257);
        state := if num_extra > 0 then AtLenExtra else AtDist;
      }
    }

    lemma NearerBy(bits: nat, cur: nat, rank: nat)
      requires |reader.todo| < bits || (|reader.todo| == bits && win.cur == cur && Rank(point) < rank)
      ensures Nearer(bits, cur, rank)
    {
      hide Rank;
    }

    lemma AtBySymbol(p: Point, sym: nat)
      requires Apart() && p.Codes? && CodesReady(p.lits, p.dists) && Final(p.final)
      requires sym < 256 ==> counter == sym && state == AtLiteral
      requires sym == 256 ==> state == if p.final then AtEnd else AtHead
      requires sym > 256 ==> num_extra == LengthExtra(sym - 257) && counter == LengthBase(sym - 257)
      requires sym > 256 ==> state == if num_extra > 0 then AtLenExtra else AtDist
      ensures At(BySymbol(p.final, p.lits, p.dists, sym))
    {
      hide *;
      BySymbolIs(p, sym);
      if sym < 256 {
        AtLiteralNow(p.final, p.lits, p.dists, sym);
      } else if sym == 256 {
        AtAfter(p.final);
      } else {
        MatchAtIs(p, sym, counter, num_extra);
        if num_extra > 0 {
          AtLenExtraNow(p.final, p.lits, p.dists);
        } else {
          AtDistNow(p.final, p.lits, p.dists, counter);
        }
      }
    }

    lemma AtLiteralNow(f: bool, lits: seq<nat>, dists: seq<nat>, b: byte)
      requires Apart() && Final(f) && CodesReady(lits, dists) && state == AtLiteral && counter == b
      ensures At(Lit(f, lits, dists, b))
    {
      PartsGive(t0, t1, t2, len_codes, table_sizes, raw_header);
      hide ApartParts, Final, CodesReady;
    }

    lemma AtLenExtraNow(f: bool, lits: seq<nat>, dists: seq<nat>)
      requires Apart() && Final(f) && CodesReady(lits, dists) && state == AtLenExtra && 0 < num_extra <= 5
      ensures At(LenExtra(f, lits, dists, counter, num_extra))
    {
      PartsGive(t0, t1, t2, len_codes, table_sizes, raw_header);
      hide ApartParts, Final, CodesReady;
    }

    /** Two symbols, or one if it is not a literal, reading ahead. */
    method FastSymbols()
      requires Good() && point.Codes? && !resumed && |reader.in_buf| - reader.cur >= 4 && win.end - win.cur >= 2
      modifies this`state, this`counter, this`num_extra, this`point, reader`bit_buf, reader`num_bits, reader`cur
      modifies reader`todo
      modifies win`cur, win`out, win.buf
      ensures Good() && win.cur >= old(win.cur) && Appended(old(win.out), win.out, win.cur - old(win.cur))
      ensures Nearer(|old(reader.todo)|, old(win.cur), old(Rank(point)))
    {
      hide *;
      ghost var o, bits, cur, rank := win.out, |reader.todo|, win.cur, Rank(point);
      AppendedNone(o);
      ReadAhead();
      var going := FastSymbol(bits, cur, rank);
      if going {
        FastAgain(o, bits, cur, rank);
      }
    }

    /** The second of two symbols. */
    method FastAgain(ghost o: seq<byte>, ghost bits: nat, ghost cur: nat, ghost rank: nat)
      requires Good() && point.Codes? && !resumed && (reader.wide || |reader.in_buf| - reader.cur >= 2)
      requires reader.wide ==> reader.num_bits >= 15
      requires win.cur == cur + 1 < win.end && Appended(o, win.out, 1) && |reader.todo| <= bits
      modifies this`state, this`counter, this`num_extra, this`point, reader`bit_buf, reader`num_bits, reader`cur
      modifies reader`todo
      modifies win`cur, win`out, win.buf
      ensures Good() && win.cur >= cur && Appended(o, win.out, win.cur - cur) && Nearer(bits, cur, rank)
    {
      hide *;
      ghost var o1, c1, r1 := win.out, win.cur, Rank(point);
      if !reader.wide {
        ReadAhead();
      }
      var going := FastSymbol(|reader.todo|, c1, r1);
      if going { AppendedMore(o, o1, win.out, 1); }
      NearerStill(bits, cur, rank);
    }

    lemma NearerStill(bits: nat, cur: nat, rank: nat)
      requires |reader.todo| <= bits && win.cur > cur
      ensures Nearer(bits, cur, rank)
    {
      hide Rank;
    }

    /** Bytes into the bit buffer, for a symbol or two. */
    method ReadAhead()
      requires Good() && point.Codes? && !resumed && |reader.in_buf| - reader.cur >= (if reader.wide then 4 else 2)
      modifies reader`bit_buf, reader`num_bits, reader`cur
      ensures Good() && reader.num_bits >= (if reader.wide then 30 else 15)
      ensures !reader.wide ==> reader.cur <= old(reader.cur) + 2
    {
      hide *;
      GoodGives();
      reader.Refill();
      GoodNow();
    }

    /** One symbol out of the bit buffer; a literal goes out at once. */
    method FastSymbol(ghost bits: nat, ghost cur: nat, ghost rank: nat) returns (going: bool)
      requires Good() && point.Codes? && !resumed && reader.num_bits >= 15 && win.cur < win.end
      requires bits == |reader.todo| && cur == win.cur && rank == Rank(point)
      modifies this`state, this`counter, this`num_extra, this`point, reader`bit_buf, reader`num_bits, reader`todo
      modifies win`cur, win`out, win.buf
      ensures Good() && |reader.todo| <= bits && reader.num_bits >= old(reader.num_bits) - 15
      ensures going ==> point.Codes? && !resumed && win.cur == old(win.cur) + 1 && Appended(old(win.out), win.out, 1)
      ensures !going ==> win.cur == old(win.cur) && win.out == old(win.out)
      ensures Nearer(bits, cur, rank)
    {
      hide *;
      GoodGives();
      ghost var p, todo0, out0, old0 := point, reader.todo, win.out, reader.num_bits - 8 * reader.cur;
      AtFinal(p);
      AtCodesGives(p);
      ReadyGives(p.lits, p.dists);
      CodesCode(p);
      var sym := DecodeBuffered(reader, t0);
      ghost var k: nat := |todo0| - |reader.todo|;
      SymbolTakes(ring, whole, all, p, todo0, win.out, old0, sym, reader.todo);
      HeldNow(p, todo0, out0, old0, k);
      CodesLeads(ring, p.final, p.lits, p.dists, sym, todo0, reader.todo, out0);
      going := sym < 256;
      if going {
        BySymbolLit(p, sym);
        FastLiteral(p, sym, todo0, old0, k);
        NearerStill(bits, cur, rank);
      } else {
        SymbolNearer(p, sym, todo0);
        TakeSymbol(p, sym);
        Land(p, todo0, out0, old0, k);
        NearerBy(bits, cur, rank);
      }
    }

    method FastLiteral(ghost p: Point, b: byte, ghost todo0: Bits, ghost old0: int, ghost k: nat)
      requires Held(p, todo0, win.out, old0, k) && At(p) && p.Codes? && point == p && win.cur < win.end
      requires Leads(ring, p, todo0, win.out, Lit(p.final, p.lits, p.dists, b), reader.todo, win.out)
      modifies win`cur, win`out, win.buf
      ensures Good() && win.cur == old(win.cur) + 1 && Appended(old(win.out), win.out, 1) && !resumed
    {
      hide *;
      ghost var out0 := win.out;
      HeldGives(p, todo0, out0, old0, k);
      ForeignGives(win.buf);
      AtCodesGives(p);
      AtFinal(p);
      win.Put(b);
      LitLeads(ring, p.final, p.lits, p.dists, b, reader.todo, out0);
      CodesAgain(p);
      LeadsOn(ring, p, todo0, out0, Lit(p.final, p.lits, p.dists, b), reader.todo, out0, p, reader.todo, win.out);
      AtCodesNow(p.final, p.lits, p.dists);
      ArriveBy(p, todo0, out0, old0, k);
      AppendedOne(out0, b);
    }

    /** The byte goes out when there is room for it. */
    method StepLiteral() returns (st: Outcome)
      requires Good() && point.Lit?
      modifies this`state, this`point, win`cur, win`out, win.buf
      ensures Good() && Stopped(st) && win.cur >= old(win.cur)
      ensures Appended(old(win.out), win.out, win.cur - old(win.cur))
      ensures (st == Go ==> win.cur > old(win.cur)) && (st == Go || st == WantRoom)
    {
      hide *;
      GoodGives();
      ghost var p, todo0, out0, old0 := point, reader.todo, win.out, reader.num_bits - 8 * reader.cur;
      NotResumed();
      AtFinal(p);
      AtCodesGives(p);
      NoWants(p, todo0, old0);
      win.ValidGives();
      ForeignGives(win.buf);
      if win.cur >= win.end {
        ToCome(point);
        NoRoom();
        AppendedNone(out0);
        return WantRoom;
      }
      win.Put(counter);
      state := AtSymbol;
      point := Codes(p.final, p.lits, p.dists);
      LitLeads(ring, p.final, p.lits, p.dists, p.b, todo0, out0);
      AtCodesNow(p.final, p.lits, p.dists);
      Arrive(p, todo0, out0, old0, 0);
      AppendedOne(out0, p.b);
      st := Go;
      Went(st);
    }

    /** The extra bits of a length. */
    method StepLenExtra() returns (st: Outcome)
      requires Good() && point.LenExtra?
      modifies this`state, this`counter, this`point, reader`bit_buf, reader`num_bits, reader`cur, reader`todo
      ensures Good() && Stopped(st) && (st == Go ==> |reader.todo| < |old(reader.todo)|)
      ensures st == Go || st == WantInput
    {
      hide *;
      GoodGives();
      ghost var p, todo0, out0, old0 := point, reader.todo, win.out, reader.num_bits - 8 * reader.cur;
      AtFinal(p);
      AtCodesGives(p);
      ExtraNeeds(p);
      var ok, v := WantBits(num_extra);
      if !ok {
        return WantInput;
      }
      counter := counter + v;
      state := AtDist;
      point := Dist(p.final, p.lits, p.dists, p.base + v);
      AtDistNow(p.final, p.lits, p.dists, p.base + v);
      LenExtraLeads(ring, p.final, p.lits, p.dists, p.base, p.extra, todo0, out0);
      Land(p, todo0, out0, old0, p.extra);
      st := Go;
      Went(st);
    }

    lemma AtDistNow(f: bool, lits: seq<nat>, dists: seq<nat>, len: nat)
      requires Apart() && Final(f) && CodesReady(lits, dists) && state == AtDist && counter == len
      ensures At(Dist(f, lits, dists, len))
    {
      PartsGive(t0, t1, t2, len_codes, table_sizes, raw_header);
      hide ApartParts, Final, CodesReady;
    }

    /** The distance of a match. */
    method StepDist() returns (st: Outcome)
      requires Good() && point.Dist?
      modifies this`state, this`dist, this`counter, this`num_extra, this`resumed, this`point
      modifies this`dist_from_out_buf_start
      modifies reader`bit_buf, reader`num_bits, reader`cur, reader`todo, win`cur, win`out, win.buf
      ensures Good() && Stopped(st) && win.cur >= old(win.cur)
      ensures Appended(old(win.out), win.out, win.cur - old(win.cur))
      ensures (st == Go ==> Nearer(|old(reader.todo)|, old(win.cur), old(Rank(point)))) && (st == Go || st == WantInput)
    {
      hide *;
      GoodGives();
      ghost var p, todo0, out0, old0 := point, reader.todo, win.out, reader.num_bits - 8 * reader.cur;
      AtFinal(p);
      AtCodesGives(p);
      ReadyGives(p.lits, p.dists);
      DistCode(p);
      AppendedNone(out0);
      var ok, sym := WantSymbol(t1);
      if !ok {
        return WantInput;
      }
      TakeDist(p, sym, todo0, old0);
      st := Go;
      Went(st);
    }

    /** What a distance symbol says. */
    method TakeDist(ghost p: Point, sym: nat, ghost todo0: Bits, ghost old0: int)
      requires p.Dist? && point == p && |reader.todo| <= |todo0| && Decoded(p.dists, todo0, sym, reader.todo)
      requires Held(p, todo0, win.out, old0, |todo0| - |reader.todo|)
      requires Final(p.final) && CodesReady(p.lits, p.dists) && counter == p.len
      modifies this`state, this`dist, this`counter, this`num_extra, this`point, this`dist_from_out_buf_start
      modifies win`cur, win`out, win.buf
      ensures Good() && win.cur >= old(win.cur) && Appended(old(win.out), win.out, win.cur - old(win.cur))
      ensures Nearer(|todo0|, old(win.cur), Rank(p))
    {
      hide *;
      ghost var out0 := win.out;
      HeldGives(p, todo0, out0, old0, |todo0| - |reader.todo|);
      AppendedNone(out0);
      num_extra := DistExtraBits(sym);
      dist := DistBase(sym);
      DistLeads(ring, p.final, p.lits, p.dists, p.len, sym, todo0, reader.todo, out0);
      DistFits(p, sym);
      DistRanks(p);
      if num_extra > 0 {
        state := AtDistExtra;
        point := DistExtra(p.final, p.lits, p.dists, p.len, dist, num_extra);
        AtDistExtraNow(p);
        Land(p, todo0, out0, old0, |todo0| - |reader.todo|);
      } else {
        StartCopy(p, Copy(p.final, p.lits, p.dists, dist, p.len), todo0, old0, |todo0| - |reader.todo|);
      }
      NearerDist(|todo0|, old(win.cur), Rank(p));
    }

    lemma NearerDist(bits: nat, cur: nat, rank: nat)
      requires |reader.todo| <= bits && win.cur >= cur && (win.cur == cur ==> Rank(point) < rank)
      ensures Nearer(bits, cur, rank)
    {
      hide Rank;
    }

    lemma AtDistExtraNow(p: Point)
      requires Apart() && p.Dist? && Final(p.final) && CodesReady(p.lits, p.dists) && state == AtDistExtra
      requires counter == p.len
      requires 0 < num_extra <= 13 && dist + Pow2(num_extra) <= WINDOW + 1
      ensures At(DistExtra(p.final, p.lits, p.dists, p.len, dist, num_extra))
    {
      PartsGive(t0, t1, t2, len_codes, table_sizes, raw_header);
      hide ApartParts, Final, CodesReady, Pow2;
    }

    /** The extra bits of a distance. */
    method StepDistExtra() returns (st: Outcome)
      requires Good() && point.DistExtra?
      modifies this`state, this`dist, this`counter, this`point, this`dist_from_out_buf_start
      modifies reader`bit_buf, reader`num_bits, reader`cur, reader`todo, win`cur, win`out, win.buf
      ensures Good() && Stopped(st) && win.cur >= old(win.cur)
      ensures Appended(old(win.out), win.out, win.cur - old(win.cur))
      ensures (st == Go ==> |reader.todo| < |old(reader.todo)|) && (st == Go || st == WantInput)
    {
      hide *;
      GoodGives();
      ghost var p, todo0, out0, old0 := point, reader.todo, win.out, reader.num_bits - 8 * reader.cur;
      AtFinal(p);
      AtCodesGives(p);
      ExtraNeeds(p);
      AppendedNone(out0);
      var ok, v := WantBits(num_extra);
      if !ok {
        return WantInput;
      }
      dist := dist + v;
      DistExtraLeads(ring, p.final, p.lits, p.dists, p.len, p.base, p.extra, todo0, out0);
      StartCopy(p, Copy(p.final, p.lits, p.dists, dist, p.len), todo0, old0, p.extra);
      st := Go;
      Went(st);
    }

    // ------------------------------------------------------------------------------ matches

    /** What is known while a match is copied. */
    ghost predicate CopyAt(p: Point)
      requires p.Copy?
      reads this`dist, this`counter, this`dist_from_out_buf_start, win`out, win`end, win`wrap
    {
      counter + 1 == p.len && dist == p.dist && Counts(dist_from_out_buf_start, |win.out|, win.end, win.wrap) &&
      (win.wrap || 1 <= p.dist <= |win.out|) && p.dist <= WINDOW
    }

    /** Checks the distance of a match, and copies it at once if it does not run over the end of the buffer. */
    method StartCopy(ghost p: Point, ghost c: Point, ghost todo0: Bits, ghost old0: int, ghost k: nat)
      requires Held(p, todo0, win.out, old0, k) && c.Copy? && Final(c.final) && CodesReady(c.lits, c.dists)
      requires dist == c.dist <= WINDOW && counter == c.len
      requires Leads(ring, p, todo0, win.out, c, reader.todo, win.out)
      modifies this`state, this`counter, this`point, this`dist_from_out_buf_start, win`cur, win`out, win.buf
      ensures Good() && win.cur >= old(win.cur) && Appended(old(win.out), win.out, win.cur - old(win.cur))
      ensures point == Broken || point == c || point == Codes(c.final, c.lits, c.dists)
      ensures point == Broken <==> !win.wrap && !(1 <= c.dist <= |old(win.out)|)
    {
      hide *;
      ghost var out0 := win.out;
      HeldGives(p, todo0, out0, old0, k);
      win.ValidGives();
      AppendedNone(out0);
      dist_from_out_buf_start := win.cur;
      CurCounts();
      if (dist == 0 || dist > dist_from_out_buf_start || dist_from_out_buf_start == 0) && !win.wrap {
        RefuseCopy(p, c, todo0, old0, k);
      } else {
        var src := Masked(dist_from_out_buf_start - dist, win.end, win.wrap);
        CopySource(dist_from_out_buf_start, |win.out|, win.end, win.wrap, dist);
        if (if win.cur > src then win.cur else src) + counter > win.end {
          SomeToCopy(win.cur, src, counter, win.end);
          CopyLater(p, c, todo0, old0, k);
        } else {
          CopyNow(p, c, src, todo0, old0, k);
        }
      }
    }

    /** There is nothing as far back as this. */
    method RefuseCopy(ghost p: Point, ghost c: Point, ghost todo0: Bits, ghost old0: int, ghost k: nat)
      requires Held(p, todo0, win.out, old0, k) && c.Copy? && (c.dist == 0 || c.dist > |win.out|)
      requires Leads(ring, p, todo0, win.out, c, reader.todo, win.out)
      modifies this`state, this`point
      ensures Good() && point == Broken
    {
      hide *;
      HeldGives(p, todo0, win.out, old0, k);
      state := AtFailed;
      point := Broken;
      AtBroken();
      CopyIs(c);
      CopyBreaks(ring, c.final, c.lits, c.dists, c.dist, c.len, reader.todo, win.out);
      LeadsOn(ring, p, todo0, win.out, c, reader.todo, win.out, point, reader.todo, win.out);
      ArriveBy(p, todo0, win.out, old0, k);
    }

    /** The match runs over the end of the buffer: byte by byte. */
    method CopyLater(ghost p: Point, ghost c: Point, ghost todo0: Bits, ghost old0: int, ghost k: nat)
      requires Held(p, todo0, win.out, old0, k) && c.Copy? && Final(c.final) && CodesReady(c.lits, c.dists)
      requires dist == c.dist <= WINDOW
      requires 0 < counter == c.len && Counts(dist_from_out_buf_start, |win.out|, win.end, win.wrap)
      requires win.wrap || 1 <= c.dist <= |win.out|
      requires Leads(ring, p, todo0, win.out, c, reader.todo, win.out)
      modifies this`state, this`counter, this`point
      ensures Good() && point == c
    {
      hide *;
      HeldGives(p, todo0, win.out, old0, k);
      counter := counter - 1;
      state := AtCopy;
      point := c;
      AtCopyNow(c);
      Land(p, todo0, win.out, old0, k);
    }

    lemma CurCounts()
      requires win.Valid() && dist_from_out_buf_start == win.cur
      ensures Counts(dist_from_out_buf_start, |win.out|, win.end, win.wrap) && (win.wrap ==> win.end >= WINDOW > 0)
      ensures !win.wrap ==> win.cur == |win.out|
    {
      win.ValidGives();
      hide OutWindow.Valid;
    }

    lemma AtCopyNow(c: Point)
      requires Apart() && c.Copy? && Final(c.final) && CodesReady(c.lits, c.dists) && state == AtCopy
      requires counter + 1 == c.len && dist == c.dist <= WINDOW
      requires Counts(dist_from_out_buf_start, |win.out|, win.end, win.wrap) && (win.wrap || 1 <= c.dist <= |win.out|)
      ensures At(c)
    {
      PartsGive(t0, t1, t2, len_codes, table_sizes, raw_header);
      hide ApartParts, Final, CodesReady, Counts;
    }

    /** All of a match. */
    method CopyNow(ghost p: Point, ghost c: Point, src: nat, ghost todo0: Bits, ghost old0: int, ghost k: nat)
      requires Held(p, todo0, win.out, old0, k) && c.Copy? && Final(c.final) && CodesReady(c.lits, c.dists)
      requires c.dist <= WINDOW && counter == c.len
      requires Leads(ring, p, todo0, win.out, c, reader.todo, win.out) && win.cur + counter <= win.end
      requires src + counter <= win.end
      requires win.wrap || 1 <= c.dist <= |win.out|
      requires 1 <= c.dist <= |win.out| ==> src == Masked(|win.out| - c.dist, win.end, win.wrap)
      modifies this`state, this`point, win`cur, win`out, win.buf
      ensures Good() && win.cur >= old(win.cur) && Appended(old(win.out), win.out, win.cur - old(win.cur))
      ensures point == Codes(c.final, c.lits, c.dists)
    {
      hide *;
      ghost var out0 := win.out;
      HeldGives(p, todo0, out0, old0, k);
      ForeignGives(win.buf);
      WithinReach(c.dist);
      win.CopyFast(src, counter, c.dist);
      AppendedIf(out0, win.out, c.len);
      state := AtSymbol;
      point := Codes(c.final, c.lits, c.dists);
      AtCodesNow(c.final, c.lits, c.dists);
      CopyAll(ring, c.final, c.lits, c.dists, c.dist, c.len, reader.todo, out0, win.out);
      LeadsOn(ring, p, todo0, out0, c, reader.todo, out0, point, reader.todo, win.out);
      ArriveBy(p, todo0, out0, old0, k);
    }

    lemma WithinReach(d: nat)
      requires win.Valid() && d <= WINDOW
      ensures win.Reaches(d) <==> 1 <= d <= |win.out|
    {
      win.ValidGives();
      hide OutWindow.Valid;
    }

    /** One byte of a match that runs over the end of the buffer, when there is room for it. */
    method StepCopy() returns (st: Outcome)
      requires Good() && point.Copy?
      modifies this`state, this`counter, this`point, this`dist_from_out_buf_start, win`cur, win`out, win.buf
      ensures Good() && Stopped(st) && win.cur >= old(win.cur)
      ensures Appended(old(win.out), win.out, win.cur - old(win.cur))
      ensures (st == Go ==> win.cur > old(win.cur)) && (st == Go || st == WantRoom)
    {
      hide *;
      GoodGives();
      ghost var p, todo0, out0, old0 := point, reader.todo, win.out, reader.num_bits - 8 * reader.cur;
      NotResumed();
      AtFinal(p);
      AtCodesGives(p);
      NoWants(p, todo0, old0);
      win.ValidGives();
      ForeignGives(win.buf);
      CopyAtGives(p);
      if win.cur >= win.end {
        ToCome(point);
        NoRoom();
        AppendedNone(out0);
        return WantRoom;
      }
      CopySource(dist_from_out_buf_start, |win.out|, win.end, win.wrap, dist);
      WithinReach(dist);
      var src := Masked(dist_from_out_buf_start - dist, win.end, win.wrap);
      dist_from_out_buf_start := dist_from_out_buf_start + 1;
      win.CopyFrom(src, dist);
      CopiedOne(p, todo0, out0, old0);
      AppendedIf(out0, win.out, 1);
      st := Go;
      Went(st);
    }

    lemma CopyAtGives(p: Point)
      requires p.Copy? && CopyAt(p)
      ensures counter + 1 == p.len && dist == p.dist <= WINDOW
      ensures Counts(dist_from_out_buf_start, |win.out|, win.end, win.wrap)
      ensures win.wrap || 1 <= p.dist <= |win.out|
    {
      hide Counts;
    }

    /** Another byte of the match has been copied. */
    method CopiedOne(ghost p: Point, ghost todo0: Bits, ghost out0: seq<byte>, ghost old0: int)
      requires Apart() && reader.Valid() && win.Valid() && win.wrap == ring && Foreign(win.buf) && !resumed
      requires OnTrack(ring, whole, all, p, todo0, out0) && reader.todo == todo0
      requires (whole.Some? ==> Slack(p, todo0, old0)) && reader.num_bits - 8 * reader.cur == old0
      requires !Wants(p, todo0, old0)
      requires p.Copy? && point == p && Final(p.final) && CodesReady(p.lits, p.dists) && state == AtCopy
      requires counter + 1 == p.len && dist == p.dist <= WINDOW
      requires Counts(dist_from_out_buf_start - 1, |out0|, win.end, win.wrap) && |win.out| == |out0| + 1
      requires win.wrap || 1 <= p.dist <= |out0|
      requires 1 <= p.dist <= |out0| ==> win.out == out0 + [out0[|out0| - p.dist]]
      modifies this`state, this`counter, this`point
      ensures Good()
    {
      hide *;
      ghost var c := Copy(p.final, p.lits, p.dists, p.dist, p.len - 1);
      CopyLeads(ring, p.final, p.lits, p.dists, p.dist, p.len, todo0, out0, win.out);
      if counter == 0 {
        state := AtSymbol;
        point := Codes(p.final, p.lits, p.dists);
        AtCodesNow(p.final, p.lits, p.dists);
        CopyEnd(ring, p.final, p.lits, p.dists, p.dist, todo0, win.out);
        LeadsOn(ring, p, todo0, out0, c, todo0, win.out, point, todo0, win.out);
      } else {
        counter := counter - 1;
        point := c;
        LeadsTracks(ring, p, todo0, out0, c, todo0, win.out);
        NextCounts(dist_from_out_buf_start - 1, |out0|, win.end, win.wrap);
        AtCopyNow(c);
      }
      ArriveBy(p, todo0, out0, old0, 0);
    }

    // ------------------------------------------------------------------------------ the end

    /** To the byte boundary; what was read ahead goes back, and nothing is left in the bit buffer. */
    method StepEnd() returns (st: Outcome)
      requires Good() && point.Last?
      modifies this`state, this`point, reader`bit_buf, reader`num_bits, reader`cur, reader`todo
      ensures Good() && Stopped(st) && st == Finished && (whole.Some? ==> reader.num_bits == 0)
    {
      hide *;
      GoodGives();
      ghost var p, todo0, out0, old0 := point, reader.todo, win.out, reader.num_bits - 8 * reader.cur;
      NotResumed();
      NoWants(p, todo0, old0);
      SlackNow(p, todo0, old0);
      var k := PastByte(reader.num_bits);
      ToBoundary(ring, reader, out0, k);
      reader.Drop(k);
      ghost var n, c := reader.num_bits, reader.cur;
      reader.PutBack();
      NoneLeft(old0, k, n, c);
      state := AtDone;
      point := Ended(todo0[..k]);
      AtEnded(point);
      Arrive(p, todo0, out0, old0, k);
      st := Finished;
      FinishedNow();
    }

    lemma NoneLeft(old0: int, k: nat, n: nat, c: nat)
      requires reader.Valid() && reader.num_bits - 8 * reader.cur == old0 - k && (whole.Some? ==> old0 < 8) && k < 8
      requires reader.num_bits < 8 || reader.cur == 0
      requires n - 8 * c == reader.num_bits - 8 * reader.cur && PastByte(n) == 0
      ensures whole.Some? ==> reader.num_bits == 0
    {
      hide BitReader.Valid;
    }

    lemma FinishedNow()
      requires point.Ended? && !resumed
      ensures Stopped(Finished)
    {
    }

    lemma AtEnded(p: Point)
      requires Apart() && p.Ended? && state == AtDone
      ensures At(p)
    {
      PartsGive(t0, t1, t2, len_codes, table_sizes, raw_header);
      hide ApartParts;
    }

    // ------------------------------------------------------------------------------ one step after the other

    lemma StateSays(p: Point)
      requires At(p)
      ensures state == StateOf(p)
    {
      hide Final, CodesReady, LensKnown, Counts, Pow2, SizesFit;
    }

    /** One step from where the coroutine stopped. */
    method Step() returns (st: Outcome)
      requires Good()
      modifies this`state, this`m_final, this`dist, this`counter, this`num_extra, this`dist_from_out_buf_start
      modifies this`resumed, this`point
      modifies t0, t0.look_up, t0.tree, t0.code_size, t1, t1.look_up, t1.tree, t1.code_size, t2, t2.look_up, t2.tree
      modifies t2.code_size
      modifies table_sizes, raw_header, len_codes, reader`bit_buf, reader`num_bits, reader`cur, reader`todo, win`cur
      modifies win`out, win.buf
      ensures Good() && Stopped(st) && win.cur >= old(win.cur)
      ensures Appended(old(win.out), win.out, win.cur - old(win.cur))
      ensures st == Go ==> Nearer(|old(reader.todo)|, old(win.cur), old(Rank(point)))
    {
      hide *;
      GoodGives();
      StateSays(point);
      StateMeans(point);
      match state {
        case AtHead | AtAlign | AtRawHeader | AtStored | AtStoredOut =>
          st := StepBlock();
        case AtSizes | AtCodeLens | AtLens | AtRepeat =>
          AppendedNone(win.out);
          st := StepTables();
        case AtSymbol | AtLiteral | AtLenExtra | AtDist | AtDistExtra | AtCopy =>
          st := StepCodes();
        case AtEnd =>
          AppendedNone(win.out);
          st := StepEnd();
        case AtDone =>
          AppendedNone(win.out);
          NotResumed();
          FinishedNow();
          st := Finished;
        case AtFailed =>
          AppendedNone(win.out);
          NotResumed();
          StuckNow();
          st := Stuck;
      }
    }

    lemma StuckNow()
      requires point == Broken && !resumed
      ensures Stopped(Stuck)
    {
    }

    /** A step in the head of a block, or in a stored block. */
    method StepBlock() returns (st: Outcome)
      requires Good() && (point.Head? || point.Aligning? || point.RawHeader? || point.Stored? || point.StoredOut?)
      requires state == StateOf(point)
      modifies this`state, this`m_final, this`dist, this`counter, this`point
      modifies t0, t0.look_up, t0.tree, t0.code_size, t1, t1.look_up, t1.tree, t1.code_size
      modifies raw_header, reader`bit_buf, reader`num_bits, reader`cur, reader`todo, win`cur, win`out, win.buf
      ensures Good() && Stopped(st) && win.cur >= old(win.cur)
      ensures Appended(old(win.out), win.out, win.cur - old(win.cur))
      ensures st == Go ==> Nearer(|old(reader.todo)|, old(win.cur), old(Rank(point)))
    {
      hide *;
      ghost var bits, c, rank := |reader.todo|, win.cur, Rank(point);
      AppendedNone(win.out);
      StateMeans(point);
      if state == AtHead {
        st := StepHead();
        if st == Go { FewerBits(bits, c, rank); }
      } else if state == AtAlign {
        AlignRank(point);
        st := StepAlign();
        HeaderRank(point);
        NearerDist(bits, c, rank);
        Went(st);
      } else if state == AtRawHeader {
        st := StepRawHeader();
        if st == Go { FewerBits(bits, c, rank); }
      } else if state == AtStored {
        st := StepStored();
      } else {
        st := StepStoredOut();
        if st == Go { NearerStill(bits, c, rank); }
      }
    }

    /** A step in the tables of a dynamic block. */
    method StepTables() returns (st: Outcome)
      requires Good() && (point.Sizes? || point.CodeLens? || point.Lens? || point.Repeated?) && state == StateOf(point)
      modifies this`state, this`dist, this`counter, this`num_extra, this`resumed, this`point
      modifies t0, t0.look_up, t0.tree, t0.code_size, t1, t1.look_up, t1.tree, t1.code_size, t2, t2.look_up, t2.tree
      modifies t2.code_size
      modifies table_sizes, len_codes, reader`bit_buf, reader`num_bits, reader`cur, reader`todo
      ensures Good() && Stopped(st)
      ensures st == Go ==> Nearer(|old(reader.todo)|, win.cur, old(Rank(point)))
    {
      hide *;
      ghost var bits, c, rank := |reader.todo|, win.cur, Rank(point);
      StateMeans(point);
      if state == AtSizes {
        st := StepSizes();
        if st == Go { FewerBits(bits, c, rank); }
      } else if state == AtCodeLens {
        st := StepCodeLens();
        if st == Go { FewerBits(bits, c, rank); }
      } else if state == AtLens {
        st := StepLens();
      } else {
        st := StepRepeat();
        if st == Go { FewerBits(bits, c, rank); }
      }
    }

    /** A step in the literals and matches of a block. */
    method StepCodes() returns (st: Outcome)
      requires Good()
      requires point.Codes? || point.Lit? || point.LenExtra? || point.Dist? || point.DistExtra? || point.Copy?
      requires state == StateOf(point)
      modifies this`state, this`dist, this`counter, this`num_extra, this`dist_from_out_buf_start, this`resumed
      modifies this`point
      modifies reader`bit_buf, reader`num_bits, reader`cur, reader`todo, win`cur, win`out, win.buf
      ensures Good() && Stopped(st) && win.cur >= old(win.cur)
      ensures Appended(old(win.out), win.out, win.cur - old(win.cur))
      ensures st == Go ==> Nearer(|old(reader.todo)|, old(win.cur), old(Rank(point)))
    {
      hide *;
      ghost var bits, c, rank := |reader.todo|, win.cur, Rank(point);
      AppendedNone(win.out);
      StateMeans(point);
      if state == AtSymbol {
        st := StepSymbol();
      } else if state == AtLiteral {
        st := StepLiteral();
        if st == Go { NearerStill(bits, c, rank); }
      } else if state == AtLenExtra {
        st := StepLenExtra();
        if st == Go { FewerBits(bits, c, rank); }
      } else if state == AtDist {
        st := StepDist();
      } else if state == AtDistExtra {
        st := StepDistExtra();
        if st == Go { FewerBits(bits, c, rank); }
      } else {
        st := StepCopy();
        if st == Go { NearerStill(bits, c, rank); }
      }
    }

    /** Steps until one stops. */
    method Run() returns (st: Outcome)
      requires Good()
      modifies this`state, this`m_final, this`dist, this`counter, this`num_extra, this`dist_from_out_buf_start
      modifies this`resumed, this`point
      modifies t0, t0.look_up, t0.tree, t0.code_size, t1, t1.look_up, t1.tree, t1.code_size, t2, t2.look_up, t2.tree
      modifies t2.code_size
      modifies table_sizes, raw_header, len_codes, reader`bit_buf, reader`num_bits, reader`cur, reader`todo, win`cur
      modifies win`out, win.buf
      ensures Good() && Stopped(st) && st != Go && win.cur >= old(win.cur)
      ensures Appended(old(win.out), win.out, win.cur - old(win.cur))
    {
      hide *;
      ghost var out0, cur0 := win.out, win.cur;
      AppendedNone(out0);
      InRoom();
      st := Go;
      Went(st);
      while st == Go
        invariant Good() && Stopped(st) && win.cur >= cur0 && Appended(out0, win.out, win.cur - cur0)
        invariant win.cur <= win.end
        decreases |reader.todo|, win.end - win.cur, Rank(point), if st == Go then 1 else 0
      {
        ghost var bits, c, rank, o := |reader.todo|, win.cur, Rank(point), win.out;
        st := Step();
        AppendedThen(out0, o, win.out);
        InRoom();
        if st == Go { NearerGives(bits, c, rank); } else { break; }
      }
    }

    lemma InRoom()
      requires Good()
      ensures win.cur <= win.end
    {
      GoodGives();
      win.ValidGives();
    }

    lemma NearerGives(bits: nat, cur: nat, rank: nat)
      requires Nearer(bits, cur, rank)
      ensures |reader.todo| < bits ||
              (|reader.todo| == bits && (win.cur > cur || (win.cur == cur && Rank(point) < rank)))
    {
      hide Rank;
    }

    // ------------------------------------------------------------------------------ a call

    /** The output buffer is as it was left, or nothing has been done yet. */
    ghost predicate SameBuffer(end: nat, wrap: bool)
      reads this`state, win`out, win`wrap, win`end
    {
      wrap == ring && ((state == AtHead && win.out == []) || (wrap == win.wrap && (wrap ==> end == win.end)))
    }

    /** The checksum is that of the bytes it has been carried over. */
    ghost predicate CheckOk()
      reads this`m_check_adler32, this`checked
    {
      m_check_adler32 == Packed(Checksum(Sums(1, 0), checked))
    }

    /** Decompresses what input has of the stream into buf, from next on, up to size bytes of it. */
    method Decompress(input: seq<byte>, buf: array<byte>, next: nat, size: nat, wrap: bool, has_more_input: bool,
                      compute_adler32: bool)
      returns (status: Status, in_used: nat, out_used: nat)
      requires Core() && CheckOk() && Foreign(buf) && Chunk(reader.stream, reader.Taken(), input)
      requires Shows(buf[..], win.out, next + size, wrap, next) && SameBuffer(next + size, wrap)
      modifies Repr(), buf
      ensures Core() && CheckOk() && reader.stream == old(reader.stream) && whole == old(whole)
      ensures in_used <= |input| && reader.Taken() == old(reader.Taken()) + in_used
      ensures out_used <= size && next + out_used <= buf.Length && win.out == old(win.out) + buf[next..next + out_used]
      ensures Shows(buf[..], win.out, next + size, wrap, next + out_used) && SameBuffer(next + size, wrap)
      ensures status == BadParam <==> wrap && !PowerOfTwo(next + size)
      ensures status == BadParam ==> in_used == 0 && out_used == 0
      ensures checked == old(checked) + (if compute_adler32 &&
                                         NotFailed(status) then buf[next..next + out_used] else [])
      ensures Ends(status, |input|, size, has_more_input, in_used, out_used)
      ensures !Astray(ring, BytesToBits(reader.stream)) && status != BadParam ==>
                Came(Reach(old(reader.Taken()) + |input|), status, win.out, out_used, size) &&
                (status == Done ==> whole.Some? || HasForeign(ring, Head, all, []))
      ensures !Astray(ring, BytesToBits(reader.stream)) && status != BadParam && compute_adler32 &&
              old(Checks(|input|, has_more_input)) ==>
                checked == old(checked) + buf[next..next + out_used]
      ensures !Astray(ring, BytesToBits(reader.stream)) && status != BadParam &&
              !old(Checks(|input|, has_more_input)) &&
              size > |Reach(old(reader.Taken()) + |input|).2| - |old(win.out)| ==>
                checked == old(checked) && out_used > 0
    {
      hide *;
      TakenIs();
      ShowsGives(buf[..], win.out, next + size, wrap, next);
      Apartness();
      if wrap && !PowerOfTwo(next + size) {
        NotFailedIs(BadParam);
        NothingNew(buf, win.out, next);
        EndsBadly(|input|, size, has_more_input);
        return BadParam, 0, 0;
      }
      status, in_used, out_used := GoodCall(input, buf, next, size, wrap, has_more_input, compute_adler32);
    }

    /** The call, when its parameters are in order. */
    method GoodCall(input: seq<byte>, buf: array<byte>, next: nat, size: nat, wrap: bool, has_more_input: bool,
                    compute_adler32: bool)
      returns (status: Status, in_used: nat, out_used: nat)
      requires Core() && CheckOk() && Foreign(buf) && Chunk(reader.stream, reader.Taken(), input)
      requires Shows(buf[..], win.out, next + size, wrap, next) && SameBuffer(next + size, wrap)
      modifies Repr(), buf
      ensures Core() && CheckOk() && reader.stream == old(reader.stream) && whole == old(whole) && status != BadParam
      ensures in_used <= |input| && reader.Taken() == old(reader.Taken()) + in_used
      ensures out_used <= size && next + out_used <= buf.Length && win.out == old(win.out) + buf[next..next + out_used]
      ensures Shows(buf[..], win.out, next + size, wrap, next + out_used) && SameBuffer(next + size, wrap)
      ensures checked == old(checked) + (if compute_adler32 &&
                                         NotFailed(status) then buf[next..next + out_used] else [])
      ensures Ends(status, |input|, size, has_more_input, in_used, out_used)
      ensures !Astray(ring, BytesToBits(reader.stream)) ==>
                Came(Reach(old(reader.Taken()) + |input|), status, win.out, out_used, size) &&
                (status == Done ==> whole.Some? || HasForeign(ring, Head, all, []))
      ensures !Astray(ring, BytesToBits(reader.stream)) && old(Checks(|input|, has_more_input)) ==>
                NotFailed(status) || out_used == 0
      ensures !Astray(ring, BytesToBits(reader.stream)) && !old(Checks(|input|, has_more_input)) &&
              size > |Reach(old(reader.Taken()) + |input|).2| - |old(win.out)| ==>
                !NotFailed(status) && out_used > 0
    {
      hide *;
      ghost var out0, n := win.out, reader.Taken() + |input|;
      ghost var checks := Checks(|input|, has_more_input);
      ChecksIs(|input|, has_more_input);
      Apartness();
      status, in_used, out_used := Serve(input, buf, next, size, wrap, has_more_input);
      CheckCall(compute_adler32, status, buf, next, next + out_used);
      CoreGives();
      AnchoredGives();
      if !Astray(ring, all) { ChecksMean(out0, n, status, |input|, size, has_more_input, in_used, out_used, checks); }
    }

    /**
      What can be known before a call: the checksum goes on over all that comes out of it, whatever
      room there is, if nothing comes out of what there is, or the stream's end is reached, or more
      input is announced and nothing is wrong with this.
     */
    ghost predicate Checks(input: nat, has_more_input: bool)
      reads win`out, reader`stream, reader`base, reader`cur
    {
      var y := Reach(reader.Taken() + input);
      y.2 == win.out || y.0.Ended? || (has_more_input && !y.0.Broken?)
    }

    lemma ChecksIs(input: nat, has_more_input: bool)
      ensures var y := Reach(reader.Taken() + input);
              Checks(input, has_more_input) <==> y.2 == win.out || y.0.Ended? || (has_more_input && !y.0.Broken?)
    {
      hide Reach, BitReader.Taken;
    }

    /** Of a stream: if more input is announced, or there is all that its end needs, or nothing comes out. */
    lemma ChecksOfStream(input: nat, has_more_input: bool)
      requires Core() && whole.Some? && reader.Taken() + input <= |reader.stream|
      ensures Checks(input, has_more_input) <==>
                has_more_input || reader.Taken() + input >= |reader.stream| - |whole.value.1| / 8 ||
                Reach(reader.Taken() + input).2 == win.out
    {
      hide *;
      CoreGives();
      AnchoredGives();
      ChecksIs(input, has_more_input);
      UptoEnd(ring, reader.stream, reader.Taken() + input);
      ReachUpto(reader.Taken() + input);
    }

    lemma ReachUpto(n: nat)
      requires n <= |reader.stream|
      ensures Reach(n) == Upto(ring, reader.stream[..n])
    {
      hide Upto;
    }

    lemma ChecksMean(out0: seq<byte>, n: nat, status: Status, input: nat, size: nat, has_more_input: bool, in_used: nat,
                     out_used: nat, checks: bool)
      requires status != BadParam && Came(Reach(n), status, win.out, out_used, size)
      requires checks <==>
                 Reach(n).2 == out0 || Reach(n).0.Ended? || (has_more_input && !Reach(n).0.Broken?)
      requires Ends(status, input, size, has_more_input, in_used, out_used)
      requires |win.out| == |out0| + out_used && out0 <= win.out
      ensures checks ==> NotFailed(status) || out_used == 0
      ensures !checks && size > |Reach(n).2| - |out0| ==> !NotFailed(status) && out_used > 0
    {
      hide Reach;
    }

    /** The checksum goes on, if it is asked for and the call did not fail. */
    method CheckCall(compute_adler32: bool, status: Status, buf: array<byte>, from: nat, to: nat)
      requires CheckOk() && from <= to <= buf.Length
      modifies this`m_check_adler32, this`checked
      ensures CheckOk()
      ensures checked == old(checked) + (if compute_adler32 && NotFailed(status) then buf[from..to] else [])
    {
      hide *;
      NotFailedIs(status);
      if compute_adler32 && (status == Done || status == NeedsMoreInput || status == HasMoreOutput) {
        UpdateCheck(buf, from, to);
      }
    }

    /** The call without the checksum. */
    method Serve(input: seq<byte>, buf: array<byte>, next: nat, size: nat, wrap: bool, has_more_input: bool)
      returns (status: Status, in_used: nat, out_used: nat)
      requires Core() && Foreign(buf) && Chunk(reader.stream, reader.Taken(), input)
      requires Shows(buf[..], win.out, next + size, wrap, next) && SameBuffer(next + size, wrap)
      modifies this`state, this`m_final, this`dist, this`counter, this`num_extra, this`dist_from_out_buf_start
      modifies this`resumed, this`point
      modifies t0, t0.look_up, t0.tree, t0.code_size, t1, t1.look_up, t1.tree, t1.code_size, t2, t2.look_up, t2.tree
      modifies t2.code_size
      modifies table_sizes, raw_header, len_codes, win, buf
      modifies reader`bit_buf, reader`num_bits, reader`cur, reader`todo, reader`in_buf, reader`base
      ensures Core() && in_used <= |input| && reader.Taken() == old(reader.Taken()) + in_used && status != BadParam
      ensures out_used <= size && next + out_used <= buf.Length && win.out == old(win.out) + buf[next..next + out_used]
      ensures Shows(buf[..], win.out, next + size, wrap, next + out_used) && SameBuffer(next + size, wrap)
      ensures Ends(status, |input|, size, has_more_input, in_used, out_used)
      ensures !Astray(ring, all) ==>
                Came(Reach(old(reader.Taken()) + |input|), status, win.out, out_used, size) &&
                (status == Done ==> whole.Some? || HasForeign(ring, Head, all, []))
    {
      hide *;
      ghost var out0, upto := win.out, reader.Taken() + |input|;
      TakenIs();
      CoreGives();
      ShowsGives(buf[..], out0, next + size, wrap, next);
      BeginCall(input, buf, next, next + size, wrap);
      var st := Run();
      status := Finish(st, has_more_input);
      CallEnds(st, status, out0, next, size, wrap, has_more_input, upto);
      in_used, out_used := reader.cur, win.cur - next;
    }

    lemma CallEnds(st: Outcome, status: Status, out0: seq<byte>, next: nat, size: nat, wrap: bool, has_more_input: bool,
                   upto: nat)
      requires Good() && Stopped(st) && st != Go && status == StatusOf(st, has_more_input) && Anchored()
      requires (whole.Some? ==> Slack(point, reader.todo, reader.num_bits)) && win.wrap == wrap
      requires win.end == next + size
      requires next <= win.cur && Appended(out0, win.out, win.cur - next) && InPlace(out0, win.end, win.wrap, next)
      requires upto == reader.base + |reader.in_buf|
      requires st != WantInput ==> reader.num_bits < 8 || reader.cur == 0
      ensures Core() && reader.cur <= |reader.in_buf| && reader.Taken() == reader.base + reader.cur
      ensures status != BadParam && win.cur <= win.end <= win.buf.Length && win.out == out0 + win.buf[next..win.cur]
      ensures Shows(win.buf[..], win.out, win.end, win.wrap, win.cur) && SameBuffer(next + size, wrap)
      ensures Ends(status, |reader.in_buf|, size, has_more_input, reader.cur, win.cur - next)
      ensures !Astray(ring, all) ==>
                Came(Reach(upto), status, win.out, win.cur - next, size) &&
                (status == Done ==> whole.Some? || HasForeign(ring, Head, all, []))
    {
      hide *;
      GoodGives();
      reader.ValidGives();
      TakenIs();
      StatusIs(st, has_more_input);
      EndsNow(st, status, next, size, has_more_input);
      if !Astray(ring, all) { CameNow(st, status, next, size, has_more_input, upto); }
      CoreAgain();
      SameNow(next + size, wrap);
      AllNew(out0, next);
    }

    /** What a call comes to. */
    ghost predicate Ends(status: Status, input: nat, size: nat, has_more_input: bool, in_used: nat, out_used: nat)
      reads this`whole, win`out, reader`num_bits, reader`stream, reader`base, reader`cur
    {
      (whole.Some? ==> status != Failed && win.out <= whole.value.0) &&
      (whole.Some? && status == Done ==>
         win.out == whole.value.0 && reader.num_bits == 0 && reader.Taken() == |reader.stream| - |whole.value.1| / 8) &&
      (status == NeedsMoreInput || status == CannotMakeProgress ==>
         in_used == input && (status == NeedsMoreInput <==> has_more_input) &&
         (whole.Some? ==> reader.Taken() < |reader.stream|)) &&
      (status == HasMoreOutput ==> out_used == size && (whole.Some? ==> |win.out| < |whole.value.0|)) &&
      (status == Done || status == Failed || status == HasMoreOutput ==> reader.num_bits < 8 || in_used == 0)
    }

    lemma CoreGives()
      requires Core()
      ensures Apart() && reader.Valid() && At(point) && OnTrack(ring, whole, all, point, reader.todo, win.out)
      ensures Anchored()
      ensures ResumeOk()
      ensures whole.Some? ==> Slack(point, reader.todo, reader.num_bits)
    {
      hide Apart, At, OnTrack, Slack, ResumeOk;
    }

    /** The parts of the decompressor are its own. */
    lemma Apartness()
      ensures this in Repr() && reader in Repr() && win in Repr() && t0 in Repr() && t1 in Repr() && t2 in Repr()
      ensures t0.look_up in Repr() && t0.tree in Repr() && t0.code_size in Repr() && t1.look_up in Repr()
      ensures t1.tree in Repr() && t1.code_size in Repr()
      ensures t2.look_up in Repr() && t2.tree in Repr() && t2.code_size in Repr() && len_codes in Repr()
      ensures table_sizes in Repr() && raw_header in Repr()
    {
    }

    /** The input and the output of a call. */
    method BeginCall(input: seq<byte>, buf: array<byte>, next: nat, end: nat, wrap: bool)
      requires Core() && Foreign(buf) && Chunk(reader.stream, reader.Taken(), input)
      requires Shows(buf[..], win.out, end, wrap, next) && SameBuffer(end, wrap)
      modifies reader`in_buf, reader`cur, reader`base, win`buf, win`cur, win`end, win`wrap
      ensures Good() && reader.in_buf == input && reader.cur == 0 && reader.base == old(reader.Taken())
      ensures win.buf == buf && win.cur == next && win.end == end && win.wrap == wrap
    {
      hide *;
      CoreGives();
      AtParts(point);
      TakenIs();
      SameGives(end, wrap);
      ghost var from, n, old_end := dist_from_out_buf_start, |win.out|, win.end;
      if point.Copy? {
        CopyState(point);
        CountedGives(point);
      }
      reader.Begin(input);
      win.Begin(buf, next, end, wrap);
      if point.Copy? { CountsOn(from, n, old_end, end, wrap); }
      CountedNow(point);
      AtWhole(point);
      GoodBegins();
    }

    lemma TakenIs()
      ensures reader.Taken() == reader.base + reader.cur
    {
    }

    lemma AtParts(p: Point)
      requires At(p)
      ensures AtFields(p) && Counted(p)
    {
      hide AtFields, Counted;
    }

    lemma AtWhole(p: Point)
      requires AtFields(p) && Counted(p)
      ensures At(p)
    {
      hide AtFields, Counted;
    }

    lemma SameGives(end: nat, wrap: bool)
      requires SameBuffer(end, wrap)
      ensures wrap == ring && (state != AtHead ==> wrap == win.wrap && (wrap ==> end == win.end))
    {
    }

    lemma CopyState(p: Point)
      requires AtFields(p) && p.Copy?
      ensures state == AtCopy
    {
      hide Final, CodesReady;
    }

    lemma CountedGives(p: Point)
      requires Counted(p) && p.Copy?
      ensures Counts(dist_from_out_buf_start, |win.out|, win.end, win.wrap) && (win.wrap || 1 <= p.dist <= |win.out|)
    {
      hide Counts;
    }

    lemma CountedNow(p: Point)
      requires p.Copy? ==>
                 Counts(dist_from_out_buf_start, |win.out|, win.end, win.wrap) && (win.wrap || 1 <= p.dist <= |win.out|)
      ensures Counted(p)
    {
      hide Counts;
    }

    lemma GoodBegins()
      requires Apart() && reader.Valid() && win.Valid() && win.wrap == ring && Foreign(win.buf) && At(point)
      requires OnTrack(ring, whole, all, point, reader.todo, win.out)
      requires (whole.Some? ==> Slack(point, reader.todo, reader.num_bits)) && reader.cur == 0 && ResumeOk()
      ensures Good()
    {
      hide Apart, At, OnTrack, Slack, ResumeOk;
    }

    lemma SameNow(end: nat, wrap: bool)
      requires win.end == end && win.wrap == wrap == ring
      ensures SameBuffer(end, wrap)
    {
    }

    /** Puts back what was read ahead, unless there was not even enough. */
    method Finish(st: Outcome, has_more_input: bool) returns (status: Status)
      requires Good() && Stopped(st) && st != Go
      modifies reader`bit_buf, reader`num_bits, reader`cur
      ensures Good() && Stopped(st) && (whole.Some? ==> Slack(point, reader.todo, reader.num_bits))
      ensures status == StatusOf(st, has_more_input) && (st != WantInput ==> reader.num_bits < 8 || reader.cur == 0)
    {
      hide *;
      GoodGives();
      if st == WantInput {
        WantGives();
        WantSlack(point, reader.todo, reader.num_bits);
        status := if has_more_input then NeedsMoreInput else CannotMakeProgress;
      } else {
        StopGives(st);
        reader.PutBack();
        BackSlack(point, reader.todo, reader.num_bits, reader.cur, whole);
        GoodNow();
        StopsStill(st);
        status := if st == WantRoom then HasMoreOutput else if st == Finished then Done else Failed;
      }
      StatusIs(st, has_more_input);
    }

    lemma WantGives()
      requires Stopped(WantInput)
      ensures reader.cur == |reader.in_buf| && Wants(point, reader.todo, reader.num_bits)
    {
      hide Wants;
    }

    lemma StopGives(st: Outcome)
      requires Stopped(st) && st != Go && st != WantInput
      ensures !resumed && (st == WantRoom ==> win.cur == win.end && MoreToCome(point))
      ensures (st == Finished ==> point.Ended?) && (st == Stuck ==> point == Broken)
    {
    }

    lemma StopsStill(st: Outcome)
      requires st != Go && st != WantInput
      requires !resumed && (st == WantRoom ==> win.cur == win.end && MoreToCome(point))
      requires (st == Finished ==> point.Ended?) && (st == Stuck ==> point == Broken)
      ensures Stopped(st)
    {
    }

    lemma EndsNow(st: Outcome, status: Status, next: nat, size: nat, has_more_input: bool)
      requires Good() && Stopped(st) && st != Go && status == StatusOf(st, has_more_input)
      requires (whole.Some? ==> Slack(point, reader.todo, reader.num_bits)) && win.end == next + size && win.cur >= next
      requires st != WantInput ==> reader.num_bits < 8 || reader.cur == 0
      ensures Ends(status, |reader.in_buf|, size, has_more_input, reader.cur, win.cur - next)
    {
      hide *;
      GoodGives();
      reader.ValidGives();
      TakenIs();
      StatusIs(st, has_more_input);
      if whole.Some? { OutBegins(ring, whole, all, point, reader.todo, win.out); }
      if st == WantInput {
        WantGives();
        if whole.Some? && reader.Taken() == |reader.stream| { NeverTooMuch(ring, whole, all, point, reader.todo,
            win.out); }
      } else {
        StopGives(st);
        if st == WantRoom && whole.Some? { OutLess(ring, whole, all, point, reader.todo, win.out); }
        if st == Stuck { BrokenNone(ring, whole, all, reader.todo, win.out); }
        if st == Finished && whole.Some? {
          EndedWhole(ring, whole, all, point, reader.todo, win.out);
          EndedSlack(point, reader.todo, reader.num_bits);
          EndCount(|point.skipped|, |reader.todo|, |reader.stream|, reader.Taken(), reader.num_bits);
        }
      }
      EndsSo(status, next, size, has_more_input);
    }

    /** How far the first n bytes of the stream take it, with room for all that comes out. */
    ghost function Reach(n: nat): (r: Place)
      reads reader`stream
    {
      if n <= |reader.stream| then Upto(ring, reader.stream[..n]) else (Head, [], [])
    }

    lemma ReachIs(n: nat)
      requires Anchored() && n <= |reader.stream|
      ensures 8 * (|reader.stream| - n) <= |all|
      ensures Reach(n) == Halt(ring, Head, Short(all, |reader.stream| - n), [])
    {
      hide Halt, Inflate;
      ShortBytes(reader.stream, n);
    }

    lemma AnchoredGives()
      requires Anchored()
      ensures whole == Inflate(all, []) && whole == Inflate(BytesToBits(reader.stream), [])
      ensures all == BytesToBits(reader.stream)
    {
      hide Inflate, BytesToBits;
    }

    lemma CameNow(st: Outcome, status: Status, next: nat, size: nat, has_more_input: bool, upto: nat)
      requires Good() && Stopped(st) && st != Go && status == StatusOf(st, has_more_input) && !Astray(ring, all)
      requires Anchored() && win.end == next + size && win.cur >= next && upto == reader.base + |reader.in_buf|
      ensures Came(Reach(upto), status, win.out, win.cur - next, size)
      ensures status == Done ==> whole.Some? || HasForeign(ring, Head, all, [])
    {
      hide *;
      GoodGives();
      reader.ValidGives();
      ChunkGives(reader.stream, reader.base, reader.in_buf);
      StatusIs(st, has_more_input);
      ghost var j: nat := |reader.stream| - upto;
      ReachIs(upto);
      TrackHalt(ring, whole, all, point, reader.todo, win.out, j);
      if st == WantInput {
        WantGives();
        WantsStops(ring, point, reader.todo, win.out, j);
        WantsNotEnd(point, reader.todo, reader.num_bits);
      } else {
        StopGives(st);
        if st == WantRoom {
          AtParts(point);
          if point.Copy? { CountedGives(point); }
          MoreComes(ring, point, Short(reader.todo, j), win.out);
        } else {
          EndHalts(ring, point, Short(reader.todo, j), win.out);
          AnchoredGives();
          if st == Finished { EndedSome(ring, whole, all, point, reader.todo, win.out); }
        }
      }
      CameSo(Reach(upto), status, win.out, win.cur - next, size);
    }

    lemma EndsSo(status: Status, next: nat, size: nat, has_more_input: bool)
      requires win.cur >= next
      requires whole.Some? ==> status != Failed && win.out <= whole.value.0
      requires whole.Some? && status == Done ==>
                 win.out == whole.value.0 && reader.num_bits == 0 &&
                 reader.Taken() == |reader.stream| - |whole.value.1| / 8
      requires status == NeedsMoreInput || status == CannotMakeProgress ==>
                 reader.cur == |reader.in_buf| && (status == NeedsMoreInput <==> has_more_input) &&
                 (whole.Some? ==> reader.Taken() < |reader.stream|)
      requires status == HasMoreOutput ==> win.cur - next == size && (whole.Some? ==> |win.out| < |whole.value.0|)
      requires status == Done || status == Failed || status == HasMoreOutput ==> reader.num_bits < 8 || reader.cur == 0
      ensures Ends(status, |reader.in_buf|, size, has_more_input, reader.cur, win.cur - next)
    {
    }

    lemma EndsBadly(input: nat, size: nat, has_more_input: bool)
      requires Core()
      ensures Ends(BadParam, input, size, has_more_input, 0, 0)
    {
      CoreGives();
      hide *;
      TakenIs();
      if whole.Some? { OutBegins(ring, whole, all, point, reader.todo, win.out); }
      BadEnds(input, size, has_more_input);
    }

    lemma BadEnds(input: nat, size: nat, has_more_input: bool)
      requires whole.Some? ==> win.out <= whole.value.0
      ensures Ends(BadParam, input, size, has_more_input, 0, 0)
    {
      hide BitReader.Taken;
    }

    lemma CoreAgain()
      requires Good() && Anchored() && (whole.Some? ==> Slack(point, reader.todo, reader.num_bits))
      ensures Core()
    {
      GoodGives();
      hide *;
      CoreStarts();
    }

    /** What has come out in this call is what is in the buffer now. */
    lemma AllNew(out0: seq<byte>, next: nat)
      requires Good() && next <= win.cur && Appended(out0, win.out, win.cur - next)
      requires InPlace(out0, win.end, win.wrap, next)
      ensures win.cur <= win.end <= win.buf.Length && win.out == out0 + win.buf[next..win.cur]
      ensures Shows(win.buf[..], win.out, win.end, win.wrap, win.cur)
    {
      GoodGives();
      win.ValidGives();
      ShowsNew(win.buf[..], out0, win.out, win.end, win.wrap, next, win.cur);
      hide Good, Shows, Appended;
      assert win.buf[..][next..win.cur] == win.buf[next..win.cur];
    }

    /** The checksum over the bytes of this call. */
    method UpdateCheck(buf: array<byte>, from: nat, to: nat)
      requires CheckOk() && from <= to <= buf.Length
      modifies this`m_check_adler32, this`checked
      ensures CheckOk() && checked == old(checked) + buf[from..to]
    {
      hide *;
      CheckGives();
      ghost var c0, s := checked, buf[from..to];
      SmallSums(c0);
      Continued(Sums(1, 0), c0, s);
      m_check_adler32 := Update(m_check_adler32, buf[from..to], Checksum(Sums(1, 0), c0));
      checked := c0 + s;
      CheckNow();
    }

    lemma CheckGives()
      requires CheckOk()
      ensures m_check_adler32 == Packed(Checksum(Sums(1, 0), checked))
    {
    }

    lemma CheckNow()
      requires m_check_adler32 == Packed(Checksum(Sums(1, 0), checked))
      ensures CheckOk()
    {
    }
  }

  /** What a call makes of what there is: all of the output that comes of it, or as much as there is room for. */
  ghost predicate Came(y: Place, status: Status, out: seq<byte>, out_used: nat, size: nat)
  {
    out <= y.2 && (out == y.2 || out_used == size) && (status == Done <==> y.0.Ended? && out == y.2) &&
    (status == Failed <==> y.0.Broken? && out == y.2) && (status == HasMoreOutput ==> out_used == size) &&
    (status == NeedsMoreInput || status == CannotMakeProgress ==> out == y.2 && !y.0.Ended? && !y.0.Broken?)
  }

  lemma CameSo(y: Place, status: Status, out: seq<byte>, out_used: nat, size: nat)
    requires out <= y.2 && (out == y.2 || out_used == size) && (status == Done <==> y.0.Ended? && out == y.2)
    requires (status == Failed <==> y.0.Broken? && out == y.2) && (status == HasMoreOutput ==> out_used == size)
    requires status == NeedsMoreInput || status == CannotMakeProgress ==> out == y.2 && !y.0.Ended? && !y.0.Broken?
    ensures Came(y, status, out, out_used, size)
  {
  }

  /** As far as it goes from here, it goes with all the bits. */
  lemma TrackHalt(ring: bool, whole: Result, all: Bits, p: Point, todo: Bits, out: seq<byte>, j: nat)
    requires OnTrack(ring, whole, all, p, todo, out) && !Astray(ring, all) && 8 * j <= |todo|
    ensures WellFormed(p) && 8 * j <= |all| && Halt(ring, Head, Short(all, j), []) == Halt(ring, p, Short(todo, j), out)
    ensures out <= Halt(ring, p, Short(todo, j), out).2
  {
    hide *;
    TrackSame(ring, whole, all, p, todo, out);
    SameGives(ring, Head, all, [], p, todo, out, j);
    HaltGrows(ring, p, Short(todo, j), out);
  }

  lemma WantsNotEnd(p: Point, todo: Bits, n: int)
    requires Wants(p, todo, n)
    ensures !p.Ended? && !p.Broken?
  {
  }

  lemma TrackSame(ring: bool, whole: Result, all: Bits, p: Point, todo: Bits, out: seq<byte>)
    requires OnTrack(ring, whole, all, p, todo, out) && !Astray(ring, all)
    ensures WellFormed(p) && SameHalt(ring, Head, all, [], p, todo, out)
  {
    hide WellFormed, RestAt, SameHalt, Astray;
  }

  /** The end of what is no stream is reached only over a symbol that the format does not have. */
  lemma EndedSome(ring: bool, whole: Result, all: Bits, p: Point, todo: Bits, out: seq<byte>)
    requires OnTrack(ring, whole, all, p, todo, out) && !Astray(ring, all) && p.Ended? && whole == Inflate(all, [])
    ensures whole.Some? || HasForeign(ring, Head, all, [])
  {
    hide *;
    TrackHalt(ring, whole, all, p, todo, out, 0);
    ShortNone(all);
    EndHalts(ring, p, Short(todo, 0), out);
    HeadRest(all);
    if !HasForeign(ring, Head, all, []) { EndIsWhole(ring, Head, all, []); }
  }

  lemma HeadStarts(ring: bool, whole: Result, all: Bits)
    requires whole == Inflate(all, [])
    ensures OnTrack(ring, whole, all, Head, all, [])
  {
    hide Inflate, SameHalt;
    SameAtOnce(ring, Head, all, []);
  }

  lemma ByKindIs(f: bool, kind: nat)
    ensures ByKind(f, kind) ==
            if kind == 0 then Aligning(f) else if kind == 1 then Codes(f, FixedLiterals(), FixedDistances())
              else if kind == 2 then Sizes(f, []) else Broken
  {
    hide FixedLiterals, FixedDistances;
  }

  lemma WantsHead(todo: Bits, n: int)
    ensures Wants(Head, todo, n) <==> n < 3
  {
  }

  lemma NoWants(p: Point, todo: Bits, n: int)
    requires p.Aligning? || p.StoredOut? || p.Lit? || p.Copy? || p.Last? || p.Broken?
    ensures !Wants(p, todo, n)
  {
  }

  /** The first bit and the other two. */
  lemma ThreeBits(todo: Bits, v: nat)
    requires |todo| >= 3 && v == FromBits(todo[..3]) && v < Pow2(3)
    ensures v < 8 && 0 <= v / 2 < 4 && todo[0] == (v % 2 == 1) && v / 2 == FromBits(todo[1..3])
  {
    Powers();
    assert todo[..3][1..] == todo[1..3];
  }

  /** What is left is as far from a byte boundary as the bits in the buffer are. */
  lemma AlignBits(r: BitReader)
    requires r.Valid()
    ensures 0 <= r.num_bits % 8 <= r.num_bits && |r.todo| % 8 == r.num_bits % 8
  {
    r.ValidGives();
    SamePlaceInByte(|r.stream|, r.base + r.cur, r.num_bits);
  }

  lemma SamePlaceInByte(a: nat, b: nat, n: nat)
    requires 8 * a - (8 * b - n) >= 0
    ensures (8 * a - (8 * b - n)) % 8 == n % 8
  {
  }

  lemma EightFits()
    ensures Pow2(8) == 256
  {
    Powers();
  }

  lemma SmallByte(v: nat)
    requires v < Pow2(8)
    ensures v == v % 256 < 256
  {
    Powers();
  }

  lemma WantsByte(p: Point, todo: Bits, n: int)
    requires p.RawHeader? || (p.Stored? && p.left > 0)
    ensures Wants(p, todo, n) <==> n < 8
  {
  }

  lemma HeaderPut(h0: seq<byte>, h: seq<byte>, hdr: seq<byte>, v: byte, k: nat)
    requires |h0| == 4 && k < 4 && h == h0[k := v] && h0[..k] == hdr
    ensures h == (hdr + [v]) + h[|hdr + [v]|..]
  {
  }

  lemma FourBytes(h: seq<byte>, hdr: seq<byte>)
    requires |hdr| == 4 && |h| == 4 && h == hdr + h[|hdr|..]
    ensures h[0] == hdr[0] && h[1] == hdr[1] && h[2] == hdr[2] && h[3] == hdr[3]
  {
  }

  /** n more bytes have been put out. */
  ghost predicate Appended(o: seq<byte>, o': seq<byte>, n: int)
  {
    |o'| == |o| + n && o <= o'
  }

  lemma AppendedNone(o: seq<byte>)
    ensures Appended(o, o, 0)
  {
  }

  lemma AppendedOne(o: seq<byte>, b: byte)
    ensures Appended(o, o + [b], 1)
  {
  }

  lemma AppendedMore(o: seq<byte>, o1: seq<byte>, o2: seq<byte>, i: nat)
    requires Appended(o, o1, i) && Appended(o1, o2, 1)
    ensures Appended(o, o2, i + 1)
  {
  }

  lemma NoWantsStored(p: Point, todo: Bits, n: int)
    requires p.Stored? && p.left == 0
    ensures !Wants(p, todo, n)
  {
  }

  lemma StoredRank(p: Point)
    requires p.Stored?
    ensures Rank(After(p.final)) < Rank(p)
  {
  }

  function Least(a: nat, b: nat, c: nat): (r: nat)
    ensures r <= a && r <= b && r <= c && (r == a || r == b || r == c)
  {
    var m := if a < b then a else b;
    if m < c then m else c
  }

  lemma StoredThrough(ring: bool, f: bool, left: nat, todo: Bits, out: seq<byte>, c: byte)
    requires left > 0 && |todo| >= 8 && c == FromBits(todo[..8]) % 256
    ensures Tracks(ring, Stored(f, left), todo, out, Stored(f, left - 1), todo[8..], out + [c])
  {
    StoredLeads(ring, f, left, todo, out);
    StoredOutLeads(ring, f, left, c, todo[8..], out);
    LeadsOn(ring, Stored(f, left), todo, out, StoredOut(f, left, c), todo[8..], out, Stored(f, left - 1), todo[8..],
            out + [c]);
    hide *;
  }

  lemma SizesNeed(p: Point)
    requires p.Sizes?
    ensures Needs(p) == Some(SizeBits(|p.sizes|)) && 0 < SizeBits(|p.sizes|) <= 16
  {
  }

  lemma CodeLensNeed(p: Point)
    requires p.CodeLens?
    ensures Needs(p) == Some(3)
  {
  }

  lemma SizePut(s0: seq<nat>, s: seq<nat>, sizes: seq<nat>, x: nat, k: nat)
    requires |s0| == 3 && k < 3 && s == s0[k := x] && s0[..k] == sizes
    ensures s[..k + 1] == sizes + [x]
  {
  }

  lemma SmallLen(v: nat)
    requires v < Pow2(3)
    ensures v < 8
  {
    Powers();
  }

  lemma NoRepeat(acc: seq<nat>, c: nat)
    ensures acc == acc + Repeat(c, 0)
  {
  }

  lemma OneMore(acc0: seq<nat>, acc: seq<nat>, c: nat, i: nat)
    requires acc == acc0 + Repeat(c, i)
    ensures acc + [c] == acc0 + Repeat(c, i + 1)
  {
    assert Repeat(c, i) + [c] == Repeat(c, i + 1);
  }

  lemma FewRepeats(sym: nat, v: nat)
    requires 16 <= sym < 19 && v < Pow2(ExtraBits(sym))
    ensures v + (if sym == 18 then 11 else 3) <= 138 - (if sym == 18 then 0 else 120)
  {
    Powers();
  }

  lemma WithRepeatIs(acc: seq<nat>, sym: nat, x: nat, c: nat, s: nat)
    requires s == x + (if sym == 18 then 11 else 3) && c == if sym == 16 && acc != [] then acc[|acc| - 1] else 0
    ensures WithRepeat(acc, sym, x) == acc + Repeat(c, s)
  {
  }

  lemma RepeatNeeds(p: Point)
    requires p.Repeated? && 16 <= p.sym < 19
    ensures Needs(p) == Some(ExtraBits(p.sym)) && 0 < ExtraBits(p.sym) <= 16
  {
  }

  lemma WithLensIs(f: bool, hlit: nat, lens: seq<nat>)
    requires hlit <= |lens|
    ensures WithLens(f, hlit, lens) == if Acceptable(lens[..hlit]) &&
            Acceptable(lens[hlit..]) then Codes(f, lens[..hlit], lens[hlit..]) else Broken
  {
    hide Acceptable;
  }

  lemma CodesCode(p: Point)
    requires p.Codes?
    ensures CodeAt(p) == p.lits
  {
  }

  lemma DistCode(p: Point)
    requires p.Dist?
    ensures CodeAt(p) == p.dists
  {
  }

  /** After the symbol of a length. */
  ghost function MatchAt(p: Point, sym: nat): (r: Point)
    requires p.Codes? && sym > 256
  {
    var base, extra := LengthBase(sym - 257), LengthExtra(sym - 257);
    if extra > 0 then LenExtra(p.final, p.lits, p.dists, base, extra) else Dist(p.final, p.lits, p.dists, base)
  }

  lemma MatchAtIs(p: Point, sym: nat, base: nat, extra: nat)
    requires p.Codes? && sym > 256 && base == LengthBase(sym - 257) && extra == LengthExtra(sym - 257)
    ensures MatchAt(p, sym) == if extra > 0 then LenExtra(p.final, p.lits, p.dists, base, extra)
            else Dist(p.final, p.lits, p.dists, base)
  {
    hide LengthBase, LengthExtra;
  }

  lemma BySymbolIs(p: Point, sym: nat)
    requires p.Codes?
    ensures sym < 256 ==> BySymbol(p.final, p.lits, p.dists, sym) == Lit(p.final, p.lits, p.dists, sym)
    ensures sym == 256 ==> BySymbol(p.final, p.lits, p.dists, sym) == After(p.final)
    ensures sym > 256 ==> LengthExtra(sym - 257) <= 5 && BySymbol(p.final, p.lits, p.dists, sym) == MatchAt(p, sym)
  {
    hide LengthBase;
  }

  lemma BySymbolLit(p: Point, b: byte)
    requires p.Codes?
    ensures BySymbol(p.final, p.lits, p.dists, b) == Lit(p.final, p.lits, p.dists, b)
  {
  }

  lemma CopyIs(p: Point)
    requires p.Copy?
    ensures p == Copy(p.final, p.lits, p.dists, p.dist, p.len)
  {
  }

  lemma CodesAgain(p: Point)
    requires p.Codes?
    ensures p == Codes(p.final, p.lits, p.dists)
  {
  }

  lemma LeadsOn(ring: bool, p: Point, todo: Bits, out: seq<byte>, p1: Point, todo1: Bits, out1: seq<byte>, p2: Point,
                todo2: Bits, out2: seq<byte>)
    requires Leads(ring, p, todo, out, p1, todo1, out1) && Leads(ring, p1, todo1, out1, p2, todo2, out2)
    ensures Tracks(ring, p, todo, out, p2, todo2, out2)
  {
    LeadsTracks(ring, p, todo, out, p1, todo1, out1);
    LeadsTracks(ring, p1, todo1, out1, p2, todo2, out2);
    hide Leads, OnTrack;
  }

  lemma ExtraNeeds(p: Point)
    requires (p.LenExtra? || p.DistExtra?) && 0 < p.extra <= 13
    ensures Needs(p) == Some(p.extra)
  {
  }

  /** No distance symbol stands for more than the window. */
  lemma DistFits(p: Point, sym: nat)
    requires p.Dist?
    ensures DistBase(sym) <= WINDOW && DistExtraBits(sym) <= 13
    ensures DistBase(sym) + Pow2(DistExtraBits(sym)) <= WINDOW + 1
    ensures ByDist(p.final, p.lits, p.dists, p.len, sym) ==
            if DistExtraBits(sym) > 0 then DistExtra(p.final, p.lits, p.dists, p.len, DistBase(sym), DistExtraBits(sym))
            else Copy(p.final, p.lits, p.dists, DistBase(sym), p.len)
  {
    Powers();
    MorePowers();
  }

  lemma DistRanks(p: Point)
    requires p.Dist?
    ensures Rank(p) == 300
    ensures forall q: Point {:trigger Rank(q)} :: (q.DistExtra? || q.Copy? || q.Codes? || q.Broken?) ==> Rank(q) < 300
  {
  }

  /** Where a match is copied from. */
  lemma CopySource(from: int, n: nat, size: nat, wrap: bool, dist: nat)
    requires Counts(from, n, size, wrap) && (wrap || 1 <= dist <= n)
    ensures (wrap ==> size > 0) && Masked(from - dist, size, wrap) == Masked(n - dist, size, wrap) >= 0
    ensures if wrap then Masked(from - dist, size, wrap) < size else Masked(from - dist, size, wrap) == n - dist
  {
    CountsBack(from, n, size, wrap, dist);
  }

  lemma NextCounts(from: int, n: nat, size: nat, wrap: bool)
    requires Counts(from, n, size, wrap)
    ensures Counts(from + 1, n + 1, size, wrap)
  {
    CountsBack(from, n, size, wrap, 0);
  }

  lemma SomeToCopy(cur: nat, src: nat, counter: nat, end: nat)
    requires cur <= end && src <= end && (if cur > src then cur else src) + counter > end
    ensures counter > 0
  {
  }

  lemma AppendedIf(o: seq<byte>, o': seq<byte>, n: nat)
    requires |o'| == |o| + n && o'[..|o|] == o
    ensures Appended(o, o', n)
  {
  }

  /** How many of n bits are past the last byte boundary. */
  function PastByte(n: nat): (r: nat)
  {
    n % 8
  }

  /** Those bits are what is left up to the next boundary of the stream. */
  lemma ToBoundary(ring: bool, r: BitReader, out: seq<byte>, k: nat)
    requires r.Valid() && k == PastByte(r.num_bits)
    ensures k < 8 && k <= r.num_bits && k <= |r.todo| && PastByte(r.num_bits - k) == 0
    ensures Leads(ring, Last, r.todo, out, Ended(r.todo[..k]), r.todo[k..], out)
  {
    hide *;
    AlignBits(r);
    r.ValidGives();
    PastBoth(r.num_bits, |r.todo|, k);
    LastLeads(ring, r.todo, out, k);
  }

  lemma PastBoth(n: nat, len: nat, k: nat)
    requires k == PastByte(n) && n % 8 == len % 8 && n <= len
    ensures k < 8 && k <= n && (len - k) % 8 == 0 && PastByte(n - k) == 0
  {
  }

  /** m_state by the point it stands for. */
  function StateOf(p: Point): (r: State)
  {
    match p
    case Head => AtHead
    case Aligning(_) => AtAlign
    case RawHeader(_, _) => AtRawHeader
    case Stored(_, _) => AtStored
    case StoredOut(_, _, _) => AtStoredOut
    case Sizes(_, _) => AtSizes
    case CodeLens(_, _, _, _, _, _) => AtCodeLens
    case Lens(_, _, _, _, _) => AtLens
    case Repeated(_, _, _, _, _, _) => AtRepeat
    case Codes(_, _, _) => AtSymbol
    case Lit(_, _, _, _) => AtLiteral
    case LenExtra(_, _, _, _, _) => AtLenExtra
    case Dist(_, _, _, _) => AtDist
    case DistExtra(_, _, _, _, _, _) => AtDistExtra
    case Copy(_, _, _, _, _) => AtCopy
    case Last => AtEnd
    case Ended(_) => AtDone
    case Broken => AtFailed
  }

  lemma StateMeans(p: Point)
    ensures StateOf(p) == AtHead <==> p.Head?
    ensures StateOf(p) == AtAlign <==> p.Aligning?
    ensures StateOf(p) == AtRawHeader <==> p.RawHeader?
    ensures StateOf(p) == AtStored <==> p.Stored?
    ensures StateOf(p) == AtStoredOut <==> p.StoredOut?
    ensures StateOf(p) == AtSizes <==> p.Sizes?
    ensures StateOf(p) == AtCodeLens <==> p.CodeLens?
    ensures StateOf(p) == AtLens <==> p.Lens?
    ensures StateOf(p) == AtRepeat <==> p.Repeated?
    ensures StateOf(p) == AtSymbol <==> p.Codes?
    ensures StateOf(p) == AtLiteral <==> p.Lit?
    ensures StateOf(p) == AtLenExtra <==> p.LenExtra?
    ensures StateOf(p) == AtDist <==> p.Dist?
    ensures StateOf(p) == AtDistExtra <==> p.DistExtra?
    ensures StateOf(p) == AtCopy <==> p.Copy?
    ensures StateOf(p) == AtEnd <==> p.Last?
    ensures StateOf(p) == AtDone <==> p.Ended?
    ensures StateOf(p) == AtFailed <==> p.Broken?
  {
  }

  lemma AlignRank(p: Point)
    requires p.Aligning?
    ensures Rank(p) == 350
  {
  }

  lemma HeaderRank(p: Point)
    requires p.RawHeader?
    ensures Rank(p) == 340
  {
  }

  lemma EndedSlack(p: Point, todo: Bits, n: int)
    requires p.Ended? && Slack(p, todo, n)
    ensures n < 8
  {
  }

  lemma AppendedThen(o: seq<byte>, o1: seq<byte>, o2: seq<byte>)
    ensures forall i: int, j: int {:trigger Appended(o, o1, i), Appended(o1, o2, j)} ::
              Appended(o, o1, i) && Appended(o1, o2, j) ==> Appended(o, o2, i + j)
  {
  }

  /** A call that did not fail: its output is checked. */
  function NotFailed(status: Status): (r: bool)
  {
    status == Done || status == NeedsMoreInput || status == HasMoreOutput
  }

  lemma NotFailedIs(status: Status)
    ensures NotFailed(status) <==> status == Done || status == NeedsMoreInput || status == HasMoreOutput
  {
  }

  function StatusOf(st: Outcome, has_more_input: bool): (r: Status)
    requires st != Go
  {
    match st
    case WantInput => if has_more_input then NeedsMoreInput else CannotMakeProgress
    case WantRoom => HasMoreOutput
    case Finished => Done
    case Stuck => Failed
  }

  lemma StatusIs(st: Outcome, has_more_input: bool)
    requires st != Go
    ensures StatusOf(st, has_more_input) ==
            if st == WantInput then (if has_more_input then NeedsMoreInput else CannotMakeProgress)
            else if st == WantRoom then HasMoreOutput else if st == Finished then Done else Failed
  {
  }

  function PowerOfTwo(n: nat): (r: bool)
  {
    n == 1 || (n > 1 && n % 2 == 0 && PowerOfTwo(n / 2))
  }

  lemma CountsOn(from: int, n: nat, old_end: nat, end: nat, wrap: bool)
    requires Counts(from, n, old_end, wrap) && (wrap ==> end == old_end)
    ensures Counts(from, n, end, wrap)
  {
  }

  lemma WantSlack(p: Point, todo: Bits, n: int)
    requires Wants(p, todo, n)
    ensures Slack(p, todo, n)
  {
    hide Wants;
  }

  /** With whole bytes put back, less than a byte is left from before. */
  lemma BackSlack(p: Point, todo: Bits, n: nat, cur: nat, whole: Result)
    requires (whole.Some? ==> Slack(p, todo, n - 8 * cur)) && (n < 8 || cur == 0)
    ensures whole.Some? ==> Slack(p, todo, n)
  {
    hide Wants;
  }

  lemma OutBegins(ring: bool, whole: Result, all: Bits, p: Point, todo: Bits, out: seq<byte>)
    requires OnTrack(ring, whole, all, p, todo, out) && whole.Some?
    ensures out <= whole.value.0
  {
    RestGrows(p, todo, out);
    hide RestAt, WellFormed;
  }

  lemma OutLess(ring: bool, whole: Result, all: Bits, p: Point, todo: Bits, out: seq<byte>)
    requires OnTrack(ring, whole, all, p, todo, out) && whole.Some? && MoreToCome(p)
    ensures |out| < |whole.value.0|
  {
    RestLonger(p, todo, out);
    hide RestAt, WellFormed, MoreToCome;
  }

  lemma ToCome(p: Point)
    requires p.StoredOut? || p.Lit? || (p.Stored? && p.left > 0) || (p.Copy? && p.len > 0)
    ensures MoreToCome(p)
  {
  }

  lemma NeverTooMuch(ring: bool, whole: Result, all: Bits, p: Point, todo: Bits, out: seq<byte>)
    requires OnTrack(ring, whole, all, p, todo, out) && Wants(p, todo, |todo|)
    ensures whole.None?
  {
    hide RestAt, WellFormed, Wants;
    WantsTooMuch(p, todo, out);
  }

  lemma BrokenNone(ring: bool, whole: Result, all: Bits, todo: Bits, out: seq<byte>)
    requires OnTrack(ring, whole, all, Broken, todo, out)
    ensures whole.None?
  {
  }

  /** A whole number of bytes is left, and none of it is in the bit buffer. */
  lemma EndCount(skipped: nat, todo: nat, stream: nat, taken: nat, n: nat)
    requires skipped < 8 && todo % 8 == 0 && n < 8 && todo == 8 * stream - (8 * taken - n)
    ensures n == 0 && taken == stream - (skipped + todo) / 8
  {
  }

  lemma SmallSums(s: seq<byte>)
    ensures Adler.Small(Checksum(Sums(1, 0), s))
  {
    LateRemainder(Sums(1, 0), s);
  }

  lemma NothingNew(buf: array<byte>, out: seq<byte>, next: nat)
    requires next <= buf.Length
    ensures out == out + buf[next..next]
  {
  }

  lemma TablesGive(t0: Table, t1: Table, t2: Table, len_codes: array<byte>, table_sizes: array<nat>,
                   raw_header: array<byte>)
    requires ApartParts(t0, t1, t2, len_codes, table_sizes, raw_header)
    ensures t0.Shaped(288) && t1.Shaped(32) && t2.Shaped(19) && Disjoint(t0, t1) && Disjoint(t0, t2) && Disjoint(t1, t2)
    ensures t0 != t1 && t0 != t2 && t1 != t2
    ensures t0.code_size.Length == 288 && t1.code_size.Length == 32 && t2.code_size.Length == 19
    ensures t0.code_size != t1.code_size && t0.look_up != t1.look_up && t0.tree != t1.tree && t0.look_up != t1.tree
    ensures t0.tree != t1.look_up
    ensures t0.code_size as object != t1.look_up && t0.code_size as object != t1.tree
    ensures t1.code_size as object != t0.look_up && t1.code_size as object != t0.tree
  {
  }

  lemma FixedFits()
    ensures |FixedLiterals()| == 288 && |FixedDistances()| == 32 && Acceptable(FixedLiterals())
    ensures Acceptable(FixedDistances())
    ensures forall s :: 0 <= s < 288 ==> FixedLiterals()[s] <= MAX_BITS
    ensures forall s :: 0 <= s < 32 ==> FixedDistances()[s] <= MAX_BITS
  {
    FixedComplete();
    hide Complete, Valid;
    FixedAccepted();
  }

  lemma FixedAccepted()
    requires Complete(FixedLiterals()) && Complete(FixedDistances())
    ensures Acceptable(FixedLiterals()) && Acceptable(FixedDistances())
  {
    hide Valid, FilledBy;
  }

  /** The lengths of the fixed codes. */
  method FixedSizes(lits: array<byte>, dists: array<byte>)
    requires lits.Length == 288 && dists.Length == 32 && lits != dists
    modifies lits, dists
    ensures lits[..] == FixedLiterals() && dists[..] == FixedDistances()
    ensures lits[..288] == FixedLiterals() && dists[..32] == FixedDistances()
    ensures forall s :: 0 <= s < 288 ==> lits[s] <= MAX_BITS
    ensures forall s :: 0 <= s < 32 ==> dists[s] <= MAX_BITS
  {
    forall s | 0 <= s < 32 { dists[s] := 5; }
    var i := 0;
    while i <= 143
      invariant 0 <= i <= 144 && forall s :: 0 <= s < i ==> lits[s] == 8
      invariant forall s :: 0 <= s < 32 ==> dists[s] == 5
    {
      lits[i] := 8;
      i := i + 1;
    }
    while i <= 255
      invariant 144 <= i <= 256 && forall s :: 0 <= s < i ==> lits[s] == if s < 144 then 8 else 9
      invariant forall s :: 0 <= s < 32 ==> dists[s] == 5
    {
      lits[i] := 9;
      i := i + 1;
    }
    while i <= 279
      invariant 256 <= i <= 280 && forall s :: 0 <= s < i ==> lits[s] == if s < 144 then 8 else if s < 256 then 9 else 7
      invariant forall s :: 0 <= s < 32 ==> dists[s] == 5
    {
      lits[i] := 7;
      i := i + 1;
    }
    while i <= 287
      invariant 280 <= i <= 288
      invariant forall s :: 0 <= s < i ==>
                  lits[s] == if s < 144 then 8 else if s < 256 then 9 else if s < 280 then 7 else 8
      invariant forall s :: 0 <= s < 32 ==> dists[s] == 5
    {
      lits[i] := 8;
      i := i + 1;
    }
    assert lits[..288] == lits[..] && dists[..32] == dists[..];
  }

  /** None of the arrays are the same. */
  ghost predicate ApartParts(t0: Table, t1: Table, t2: Table, len_codes: array<byte>, table_sizes: array<nat>,
                             raw_header: array<byte>)
  {
    t0.Shaped(288) && t1.Shaped(32) && t2.Shaped(19) && len_codes.Length == LEN_CODES && table_sizes.Length == 3 &&
    raw_header.Length == 4 &&
    t0 != t1 && t0 != t2 && t1 != t2 && Disjoint(t0, t1) && Disjoint(t0, t2) && Disjoint(t1, t2) &&
    Away(t0, len_codes, table_sizes, raw_header) && Away(t1, len_codes, table_sizes, raw_header) &&
    Away(t2, len_codes, table_sizes, raw_header) &&
    len_codes != raw_header && table_sizes as object != len_codes && table_sizes as object != raw_header
  }

  ghost predicate Disjoint(a: Table, b: Table)
  {
    a.look_up != b.look_up && a.look_up != b.tree && a.tree != b.look_up && a.tree != b.tree &&
    a.code_size != b.code_size &&
    a.code_size as object != b.look_up && a.code_size as object != b.tree && b.code_size as object != a.look_up &&
    b.code_size as object != a.tree
  }

  ghost predicate Away(t: Table, len_codes: array<byte>, table_sizes: array<nat>, raw_header: array<byte>)
  {
    t.code_size != len_codes && t.code_size != raw_header && t.look_up as object != len_codes &&
    t.look_up as object != raw_header &&
    t.tree as object != len_codes && t.tree as object != raw_header && t.look_up as object != table_sizes &&
    t.tree as object != table_sizes &&
    t.code_size as object != table_sizes
  }

  lemma PartsGive(t0: Table, t1: Table, t2: Table, len_codes: array<byte>, table_sizes: array<nat>,
                  raw_header: array<byte>)
    requires ApartParts(t0, t1, t2, len_codes, table_sizes, raw_header)
    ensures len_codes.Length == LEN_CODES && table_sizes.Length == 3 && raw_header.Length == 4
  {
  }

  /** The arrays of a decompressor. */
  method NewParts()
    returns (t0: Table, t1: Table, t2: Table, len_codes: array<byte>, table_sizes: array<nat>, raw_header: array<byte>)
    ensures ApartParts(t0, t1, t2, len_codes, table_sizes, raw_header)
    ensures fresh(t0) && fresh(t0.look_up) && fresh(t0.tree) && fresh(t0.code_size)
    ensures fresh(t1) && fresh(t1.look_up) && fresh(t1.tree) && fresh(t1.code_size)
    ensures fresh(t2) && fresh(t2.look_up) && fresh(t2.tree) && fresh(t2.code_size)
    ensures fresh(len_codes) && fresh(table_sizes) && fresh(raw_header)
  {
    t0 := new Table(288);
    t1 := new Table(32);
    t2 := new Table(19);
    len_codes := new byte[LEN_CODES];
    table_sizes := new nat[3];
    raw_header := new byte[4];
  }

  /** A symbol is wanted at p that is not all in the next n bits. */
  ghost predicate HalfWay(p: Point, todo: Bits, n: nat)
  {
    (p.Lens? || p.Codes? || p.Dist?) && Wants(p, todo, n)
  }

}
