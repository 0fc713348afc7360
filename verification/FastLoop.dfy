/** inflate_fast of inffast.c: the loop that decodes without checking for input or room, and at
    the end gives back the bytes it read ahead. It takes the reference decoder's steps. */
module FastLoop {
  import opened Machine
  import opened BitStrings
  import opened Canonical
  import opened DecodeTable
  import opened InfTrees
  import opened BitWriter
  import opened DeflateSpec
  import opened DeflateRuns
  import opened InflateState
  import opened TableLookup
  import opened InflateModes
  import opened InflateTables
  import opened InflateCodes
  import opened FastSteps

  /** What the loop started from. */
  datatype Start = Start(ll: seq<nat>, dl: seq<nat>, c0: Config, fed0: seq<byte>, next0: nat,
                         before: seq<byte>, put0: nat, hist0: seq<byte>)

  /** The loop's state: as much of the run is known as the bits consumed determine. */
  ghost predicate Running(s: Inflater, f: Start)
    reads s, s.window, s.output, s.fixedCodes, s.lencode, s.distcode
  {
    s.BitsOk() && s.OutOk() && s.Sized() && s.FixedTables() && Reserved(s) &&
    GoodCodes(f.ll, f.dl) && s.LenTable(LENS, f.ll) && s.DistTable(f.dl) &&
    Fed(s, f.fed0, f.next0) && Wrote(s, f.before, f.put0, f.hist0) && GoodPhase(s.phase) && GoodPhase(f.c0.phase) &&
    s.pos <= 8 * |s.fed| && Reaches(Upto(s.fed, s.pos), f.c0, s.Cfg())
  }

  lemma RunningParts(s: Inflater, f: Start)
    requires Running(s, f)
    ensures s.BitsOk() && s.OutOk() && s.Sized() && s.FixedTables() && Reserved(s)
    ensures GoodCodes(f.ll, f.dl) && s.LenTable(LENS, f.ll) && s.DistTable(f.dl)
    ensures Fed(s, f.fed0, f.next0) && Wrote(s, f.before, f.put0, f.hist0) && GoodPhase(s.phase) && GoodPhase(f.c0.phase)
    ensures s.pos <= 8 * |s.fed| && Reaches(Upto(s.fed, s.pos), f.c0, s.Cfg())
  {
    hide GoodPhase, GoodCodes, DecodesCode, WindowHolds, WindowFull, Reaches, Upto;
  }

  lemma IsRunning(s: Inflater, f: Start)
    requires s.BitsOk() && s.OutOk() && s.Sized() && s.FixedTables() && Reserved(s)
    requires GoodCodes(f.ll, f.dl) && s.LenTable(LENS, f.ll) && s.DistTable(f.dl)
    requires Fed(s, f.fed0, f.next0) && Wrote(s, f.before, f.put0, f.hist0) && GoodPhase(s.phase) && GoodPhase(f.c0.phase)
    requires s.pos <= 8 * |s.fed| && Reaches(Upto(s.fed, s.pos), f.c0, s.Cfg())
    ensures Running(s, f)
  {
    hide GoodPhase, GoodCodes, DecodesCode, WindowHolds, WindowFull, Reaches, Upto;
  }

  /** hold += *in++ << bits */
  method PullFast(s: Inflater, ghost f: Start)
    requires Running(s, f) && s.next < |s.input| && s.bits <= 24
    modifies s`hold, s`bits, s`next, s`fed
    ensures Running(s, f) && s.bits == old(s.bits) + 8 && s.next == old(s.next) + 1
  {
    hide *;
    RunningParts(s, f);
    FedFacts(s, f.fed0, f.next0);
    CfgIs(s);
    ghost var fed1, next1 := s.fed, s.next;
    PullByte(s);
    FedMore(s, f.fed0, f.next0, fed1, next1);
    UptoMore(fed1, [s.input[next1]], s.pos);
    CfgIs(s);
    IsRunning(s, f);
  }

  /** Fifteen bits, enough for any code: two more bytes if there are fewer. */
  method Refill(s: Inflater, ghost f: Start, ghost end: nat)
    requires Running(s, f) && s.next <= end <= |s.input| && 8 * (end - s.next) + s.bits >= 28
    modifies s`hold, s`bits, s`next, s`fed
    ensures Running(s, f) && s.bits >= 15 && old(s.next) <= s.next <= end <= |s.input|
    ensures s.bits == old(s.bits) + 8 * (s.next - old(s.next))
  {
    hide *;
    if s.bits < 15 {
      PullFast(s, f);
      PullFast(s, f);
    }
  }

  /** The run goes on by the step that the fields now describe. */
  lemma StepRuns(s: Inflater, f: Start, c: Config)
    requires s.BitsOk() && s.OutOk() && s.Sized() && s.FixedTables() && Reserved(s)
    requires GoodCodes(f.ll, f.dl) && s.LenTable(LENS, f.ll) && s.DistTable(f.dl)
    requires Fed(s, f.fed0, f.next0) && Wrote(s, f.before, f.put0, f.hist0) && GoodPhase(f.c0.phase)
    requires c.pos <= 8 * |s.fed| && CodePhase(c.phase) && GoodPhase(c.phase) && Reaches(Upto(s.fed, c.pos), f.c0, c)
    requires Step(ByteBits(s.fed), c) == Some(Config(s.phase, s.hist, s.pos))
    ensures Running(s, f) && s.pos >= c.pos
  {
    hide *;
    CfgIs(s);
    AdvanceRun(s.fed, f.c0, c, Config(s.phase, s.hist, s.pos));
    IsRunning(s, f);
  }

  lemma RunningBits(s: Inflater, f: Start)
    requires Running(s, f)
    ensures s.next <= |s.input| && s.bits <= 32 && s.pos + s.bits == 8 * |s.fed| == |ByteBits(s.fed)| && s.hold < Pow2(s.bits)
    ensures ByteBits(s.fed)[s.pos..] == Bits(s.hold, s.bits) && s.Cfg() == Config(s.phase, s.hist, s.pos)
    ensures |s.fed| == |f.fed0| + s.next - f.next0 && f.next0 <= s.next
  {
    hide *;
    RunningParts(s, f);
    BitsFacts(s);
    FedFacts(s, f.fed0, f.next0);
    ByteBitsSize(s.fed);
    CfgIs(s);
  }

  /** The look-up, through a second table if need be; the bits of the code are dropped. */
  method FastLookup(s: Inflater, t: CodeType, table: array<Entry>, at: nat, root: nat, ghost code: seq<nat>)
    returns (here: Entry, ghost drop: nat)
    requires s.BitsOk() && s.bits >= 15 && Accepts(t, code) && !Rejected(t, code) && root <= MAXBITS
    requires DecodesCode(t, code, table[..], at, root)
    modifies s`hold, s`bits, s`pos
    ensures s.BitsOk() && drop <= old(s.bits) && s.bits == old(s.bits) - drop && s.pos == old(s.pos) + drop
    ensures old(s.pos) <= |ByteBits(s.fed)|
    ensures Outcome(t, code, here.op, here.val, drop, ReadSymbol(code, ByteBits(s.fed)[old(s.pos)..]))
  {
    hide *;
    ReadAt(s);
    MaxBits();
    FirstEntry(t, code, table[..], at, root, s.hold);
    EntryMeans(t, code, s.hold, s.bits);
    ghost var w := s.hold;
    here := table[at + Low(s.hold, root)];
    LinkMeans(here);
    drop := here.bits;
    DropBits(s, here.bits);
    if 0 < here.op < 16 {
      here := table[at + here.val + Low(s.hold, here.op)];
      drop := drop + here.bits;
      DropBits(s, here.bits);
    }
  }

  // ---- The parts of an iteration

  lemma LengthCanStep(f: Start, B: seq<bool>, c: Config, drop: nat, op: nat, val: nat, r: Read)
    requires c.pos <= |B| && c.phase.Length? && c.phase.ll == f.ll && c.phase.dl == f.dl && Accepts(LENS, f.ll) && GoodCodes(f.ll, f.dl)
    requires r == ReadSymbol(f.ll, B[c.pos..]) && Outcome(LENS, f.ll, op, val, drop, r)
    ensures !r.Short? && 1 <= drop <= 15 && GoodPhase(AfterRead(c.phase.last, f.ll, f.dl, r))
    ensures Step(B, c) == Some(Config(AfterRead(c.phase.last, f.ll, f.dl, r), c.out, c.pos + drop))
  {
    hide *;
    OutcomeDrop(LENS, f.ll, op, val, drop, r);
    LengthReadStep(B, c, drop, r);
    AfterReadGood(c.phase.last, f.ll, f.dl, r);
  }

  lemma LengthIsCode(p: Phase)
    ensures p.Length? || p.LengthExtra? || p.Distance? || p.DistanceExtra? || p.Match? || p.Literal? ==> CodePhase(p)
  {
  }

  /** The literal/length code. */
  method FastLen(s: Inflater, ghost f: Start, ghost end: nat) returns (here: Entry, ghost r: Read, ghost drop: nat)
    requires Running(s, f) && s.phase == Length(s.last, f.ll, f.dl)
    requires s.next <= end <= |s.input| && 8 * (end - s.next) + s.bits >= 28
    modifies s`hold, s`bits, s`next, s`fed, s`pos, s`phase
    ensures Running(s, f) && Accepts(LENS, f.ll) && Outcome(LENS, f.ll, here.op, here.val, drop, r) && !r.Short? && 1 <= drop <= 15
    ensures s.phase == AfterRead(s.last, f.ll, f.dl, r) && old(s.next) <= s.next <= end
    ensures 8 * (end - s.next) + s.bits == old(8 * (end - s.next) + s.bits) - drop
  {
    hide *;
    Refill(s, f, end);
    RunningParts(s, f);
    RunningBits(s, f);
    GoodCodesAre(f.ll, f.dl);
    LenTableFacts(s, LENS, f.ll);
    ghost var c := s.Cfg();
    LengthIsCode(c.phase);
    here, drop := FastLookup(s, LENS, s.lencode, s.lenAt, s.lenbits, f.ll);
    r := ReadSymbol(f.ll, ByteBits(s.fed)[c.pos..]);
    LengthCanStep(f, ByteBits(s.fed), c, drop, here.op, here.val, r);
    s.phase := AfterRead(s.last, f.ll, f.dl, r);
    StepRuns(s, f, c);
  }

  lemma ExtraRange(p: Phase)
    requires p.LengthExtra? && GoodPhase(p)
    ensures p.extra <= 5
  {
    hide GoodCodes;
  }

  lemma DistExtraRange(p: Phase)
    requires p.DistanceExtra? && GoodPhase(p)
    ensures p.extra <= 13
  {
    hide GoodCodes;
  }

  /** The extra bits of a length. */
  method FastLenExtra(s: Inflater, ghost f: Start, ghost end: nat, base: nat, op: nat) returns (len: nat)
    requires Running(s, f) && s.phase == LengthExtra(s.last, f.ll, f.dl, base, op)
    requires s.next <= end <= |s.input| && 8 * (end - s.next) + s.bits >= 33
    modifies s`hold, s`bits, s`next, s`fed, s`pos, s`phase
    ensures Running(s, f) && s.phase == Distance(s.last, f.ll, f.dl, len) && old(s.next) <= s.next <= end
    ensures 8 * (end - s.next) + s.bits == old(8 * (end - s.next) + s.bits) - op && op <= 5
  {
    hide *;
    RunningParts(s, f);
    ExtraRange(s.phase);
    len := base;
    if s.bits < op {
      PullFast(s, f);
    }
    RunningParts(s, f);
    RunningBits(s, f);
    ghost var c := s.Cfg();
    LengthIsCode(c.phase);
    ExtraStep(ByteBits(s.fed), c, op);
    BitsAreNumber(s, op);
    if op != 0 {
      len := len + Low(s.hold, op);
      DropBits(s, op);
    } else {
      LowNothing(s.hold);
    }
    s.phase := Distance(s.last, f.ll, f.dl, len);
    StepRuns(s, f, c);
  }

  lemma LowNothing(hold: nat)
    ensures Low(hold, 0) == 0
  {
  }

  lemma DistanceCanStep(f: Start, B: seq<bool>, c: Config, drop: nat, op: nat, val: nat, r: Read)
    requires c.pos <= |B| && c.phase.Distance? && c.phase.ll == f.ll && c.phase.dl == f.dl && Accepts(DISTS, f.dl) && GoodCodes(f.ll, f.dl)
    requires r == ReadSymbol(f.dl, B[c.pos..]) && Outcome(DISTS, f.dl, op, val, drop, r) && GoodPhase(c.phase)
    ensures !r.Short? && 1 <= drop <= 15
    ensures Step(B, c) == Some(Config(AfterDistRead(c.phase.last, f.ll, f.dl, c.phase.length, r), c.out, c.pos + drop))
  {
    hide *;
    OutcomeDrop(DISTS, f.dl, op, val, drop, r);
    DistanceReadStep(B, c, drop, r);
  }

  /** The distance code. */
  method FastDist(s: Inflater, ghost f: Start, ghost end: nat, ghost len: nat) returns (here: Entry, ghost r: Read, ghost drop: nat)
    requires Running(s, f) && s.phase == Distance(s.last, f.ll, f.dl, len)
    requires s.next <= end <= |s.input| && 8 * (end - s.next) + s.bits >= 28
    modifies s`hold, s`bits, s`next, s`fed, s`pos, s`phase
    ensures Running(s, f) && Accepts(DISTS, f.dl) && Outcome(DISTS, f.dl, here.op, here.val, drop, r) && !r.Short? && 1 <= drop <= 15
    ensures s.phase == AfterDistRead(s.last, f.ll, f.dl, len, r) && old(s.next) <= s.next <= end
    ensures 8 * (end - s.next) + s.bits == old(8 * (end - s.next) + s.bits) - drop
  {
    hide *;
    Refill(s, f, end);
    RunningParts(s, f);
    RunningBits(s, f);
    GoodCodesAre(f.ll, f.dl);
    DistTableFacts(s, f.dl);
    ghost var c := s.Cfg();
    LengthIsCode(c.phase);
    here, drop := FastLookup(s, DISTS, s.distcode, s.distAt, s.distbits, f.dl);
    r := ReadSymbol(f.dl, ByteBits(s.fed)[c.pos..]);
    DistanceCanStep(f, ByteBits(s.fed), c, drop, here.op, here.val, r);
    s.phase := AfterDistRead(s.last, f.ll, f.dl, len, r);
    StepRuns(s, f, c);
  }

  /** The extra bits of a distance. */
  method FastDistExtra(s: Inflater, ghost f: Start, ghost end: nat, ghost len: nat, base: nat, op: nat) returns (dist: nat)
    requires Running(s, f) && s.phase == DistanceExtra(s.last, f.ll, f.dl, len, base, op)
    requires s.next <= end <= |s.input| && 8 * (end - s.next) + s.bits >= 13
    modifies s`hold, s`bits, s`next, s`fed, s`pos, s`phase
    ensures Running(s, f) && s.phase == Match(s.last, f.ll, f.dl, len, dist) && old(s.next) <= s.next <= end
    ensures 8 * (end - s.next) + s.bits == old(8 * (end - s.next) + s.bits) - op && op <= 13
  {
    hide *;
    RunningParts(s, f);
    DistExtraRange(s.phase);
    if s.bits < op {
      PullFast(s, f);
      if s.bits < op {
        PullFast(s, f);
      }
    }
    RunningParts(s, f);
    RunningBits(s, f);
    ghost var c := s.Cfg();
    LengthIsCode(c.phase);
    DistExtraStep(ByteBits(s.fed), c, op);
    BitsAreNumber(s, op);
    dist := base + Low(s.hold, op);
    DropBits(s, op);
    s.phase := Match(s.last, f.ll, f.dl, len, dist);
    StepRuns(s, f, c);
  }

  /** A literal. */
  method FastLiteral(s: Inflater, ghost f: Start, val: nat)
    requires Running(s, f) && val < 256 && s.phase == Literal(s.last, f.ll, f.dl, val as byte) && s.left > 0
    modifies s`phase, s`put, s`left, s`hist, s.output
    ensures Running(s, f) && s.phase == Length(s.last, f.ll, f.dl) && s.left == old(s.left) - 1 && s.put == old(s.put) + 1
  {
    hide *;
    RunningParts(s, f);
    RunningBits(s, f);
    OutFacts(s);
    ghost var c := s.Cfg();
    LengthIsCode(c.phase);
    ghost var mid, put1, hist1 := s.output[..], s.put, s.hist;
    WroteFacts(s, f.before, f.put0, f.hist0);
    LitStep(ByteBits(s.fed), s.last, f.ll, f.dl, s.hist, s.pos, val as byte);
    PutOut(s, val as byte);
    s.phase := Length(s.last, f.ll, f.dl);
    WroteMore(s, f.before, f.put0, f.hist0, mid, put1, hist1, val as byte);
    StepRuns(s, f, c);
  }

  // ---- Copying a match

  /** while (len > 2), three bytes a turn, and the one or two that remain; from = out - dist all along. */
  method TailFromOutput(s: Inflater, ghost f: Start, ghost B: seq<bool>)
    requires s.BitsOk() && s.OutOk() && 0 < s.length <= s.left && s.phase == Match(s.last, f.ll, f.dl, s.length, s.offset)
    requires 1 <= s.offset && s.start <= s.put && s.offset <= s.put - s.start
    requires s.pos <= |B| && Reaches(B, f.c0, s.Cfg()) && Wrote(s, f.before, f.put0, f.hist0)
    modifies s`length, s`phase, s`put, s`left, s`hist, s.output
    ensures s.BitsOk() && s.OutOk() && s.length == 0 && s.left == old(s.left) - old(s.length) && s.put == old(s.put) + old(s.length)
    ensures s.phase == Length(s.last, f.ll, f.dl)
    ensures Reaches(B, f.c0, s.Cfg()) && Wrote(s, f.before, f.put0, f.hist0)
  {
    hide *;
    CopyingIs(s.last, f.ll, f.dl, s.length, s.offset);
    while s.length > 2
      invariant s.BitsOk() && s.OutOk() && s.phase == Copying(s.last, f.ll, f.dl, s.length, s.offset)
      invariant s.length <= s.left && s.put >= old(s.put) && s.length <= old(s.length)
      invariant s.put + s.length == old(s.put) + old(s.length) && s.left - s.length == old(s.left) - old(s.length)
      invariant Reaches(B, f.c0, s.Cfg()) && Wrote(s, f.before, f.put0, f.hist0)
      decreases s.length
    {
      CopyingIs(s.last, f.ll, f.dl, s.length, s.offset);
      CopyFromOutput(s, 3, f.ll, f.dl, B, f.c0, f.before, f.put0, f.hist0);
    }
    CopyingIs(s.last, f.ll, f.dl, s.length, s.offset);
    if s.length > 0 {
      CopyFromOutput(s, 1, f.ll, f.dl, B, f.c0, f.before, f.put0, f.hist0);
      CopyingIs(s.last, f.ll, f.dl, s.length, s.offset);
      if s.length > 0 {
        CopyFromOutput(s, 1, f.ll, f.dl, B, f.c0, f.before, f.put0, f.hist0);
        CopyingIs(s.last, f.ll, f.dl, s.length, s.offset);
      }
    }
  }

  /** The same, with from in the window. */
  method TailFromWindow(s: Inflater, from0: nat, ghost f: Start, ghost B: seq<bool>)
    requires s.BitsOk() && s.OutOk() && 0 < s.length <= s.left && s.phase == Match(s.last, f.ll, f.dl, s.length, s.offset)
    requires s.start <= s.put && s.length <= s.offset - (s.put - s.start) <= s.whave
    requires InWindow(s.wnext, from0, s.offset - (s.put - s.start), s.length)
    requires s.pos <= |B| && Reaches(B, f.c0, s.Cfg()) && Wrote(s, f.before, f.put0, f.hist0)
    modifies s`length, s`phase, s`put, s`left, s`hist, s.output
    ensures s.BitsOk() && s.OutOk() && s.length == 0 && s.left == old(s.left) - old(s.length) && s.put == old(s.put) + old(s.length)
    ensures s.phase == Length(s.last, f.ll, f.dl)
    ensures Reaches(B, f.c0, s.Cfg()) && Wrote(s, f.before, f.put0, f.hist0)
  {
    hide *;
    ghost var k, length0 := s.offset - (s.put - s.start), s.length;
    var from := from0;
    CopyingIs(s.last, f.ll, f.dl, s.length, s.offset);
    while s.length > 2
      invariant s.BitsOk() && s.OutOk() && s.phase == Copying(s.last, f.ll, f.dl, s.length, s.offset)
      invariant s.length <= s.left && s.put >= old(s.put) && s.length <= length0 && from == from0 + (length0 - s.length)
      invariant s.put + s.length == old(s.put) + length0 && s.left - s.length == old(s.left) - length0
      invariant Reaches(B, f.c0, s.Cfg()) && Wrote(s, f.before, f.put0, f.hist0)
      decreases s.length
    {
      CopyingIs(s.last, f.ll, f.dl, s.length, s.offset);
      InWindowOn(s.wnext, from0, k, length0, length0 - s.length, 3);
      CopyFromWindow(s, from, 3, k - (length0 - s.length), f.ll, f.dl, B, f.c0, f.before, f.put0, f.hist0);
      from := from + 3;
    }
    CopyingIs(s.last, f.ll, f.dl, s.length, s.offset);
    if s.length > 0 {
      InWindowOn(s.wnext, from0, k, length0, length0 - s.length, 1);
      CopyFromWindow(s, from, 1, k - (length0 - s.length), f.ll, f.dl, B, f.c0, f.before, f.put0, f.hist0);
      from := from + 1;
      CopyingIs(s.last, f.ll, f.dl, s.length, s.offset);
      if s.length > 0 {
        InWindowOn(s.wnext, from0, k, length0, length0 - s.length, 1);
        CopyFromWindow(s, from, 1, k - (length0 - s.length), f.ll, f.dl, B, f.c0, f.before, f.put0, f.hist0);
        CopyingIs(s.last, f.ll, f.dl, s.length, s.offset);
      }
    }
  }

  /** n bytes from k back before this call's output are in one stretch of the window, at from. */
  predicate InWindow(wnext: nat, from: nat, k: int, n: nat) {
    if k <= wnext then from == wnext - k else from == wnext + WSIZE - k && n <= k - wnext
  }

  lemma InWindowOn(wnext: nat, from: nat, k: int, n: nat, done: nat, m: nat)
    requires InWindow(wnext, from, k, n) && done + m <= n <= k && 0 < m
    ensures if k - done <= wnext then from + done == wnext - (k - done)
            else from + done == wnext + WSIZE - (k - done) && m <= (k - done) - wnext
  {
  }

  lemma IsInWindow(wnext: nat, from: nat, k: int, n: nat)
    requires if k <= wnext then from == wnext - k else from == wnext + WSIZE - k && n <= k - wnext
    ensures InWindow(wnext, from, k, n)
  {
  }

  /** From the window, and what it does not have from the output: op bytes back there, in up to three stretches. */
  method FastFromWindow(s: Inflater, op0: nat, ghost f: Start, ghost B: seq<bool>)
    requires s.BitsOk() && s.OutOk() && 0 < s.length <= s.left && s.phase == Match(s.last, f.ll, f.dl, s.length, s.offset)
    requires s.start <= s.put && 1 <= op0 == s.offset - (s.put - s.start) <= s.whave
    requires s.pos <= |B| && Reaches(B, f.c0, s.Cfg()) && Wrote(s, f.before, f.put0, f.hist0)
    modifies s`length, s`phase, s`put, s`left, s`hist, s.output
    ensures s.BitsOk() && s.OutOk() && s.length == 0 && s.left == old(s.left) - old(s.length) && s.put == old(s.put) + old(s.length)
    ensures s.phase == Length(s.last, f.ll, f.dl)
    ensures Reaches(B, f.c0, s.Cfg()) && Wrote(s, f.before, f.put0, f.hist0)
  {
    hide *;
    WindowAt(s, op0);
    var op: nat, from: nat := op0, 0;
    if s.wnext == 0 {
      from := from + (s.wsize - op);
    } else if s.wnext < op {
      from := from + (s.wsize + s.wnext - op);
      op := op - s.wnext;
      if op < s.length {
        CopyFromWindow(s, from, op, op0, f.ll, f.dl, B, f.c0, f.before, f.put0, f.hist0);
        CopyingIs(s.last, f.ll, f.dl, s.length, s.offset);
        from := 0;
        op := s.wnext;
      }
    } else {
      from := from + (s.wnext - op);
    }
    if op < s.length {
      CopyFromWindow(s, from, op, s.offset - (s.put - s.start), f.ll, f.dl, B, f.c0, f.before, f.put0, f.hist0);
      CopyingIs(s.last, f.ll, f.dl, s.length, s.offset);
      TailFromOutput(s, f, B);
    } else {
      IsInWindow(s.wnext, from, s.offset - (s.put - s.start), s.length);
      TailFromWindow(s, from, f, B);
    }
  }

  /** The run has gone on without reading. */
  lemma CopiedRuns(s: Inflater, f: Start)
    requires s.BitsOk() && s.OutOk() && s.Sized() && s.FixedTables() && Reserved(s)
    requires GoodCodes(f.ll, f.dl) && s.LenTable(LENS, f.ll) && s.DistTable(f.dl) && s.phase == Length(s.last, f.ll, f.dl)
    requires Fed(s, f.fed0, f.next0) && Wrote(s, f.before, f.put0, f.hist0) && GoodPhase(f.c0.phase)
    requires s.pos <= 8 * |s.fed| && Reaches(Upto(s.fed, s.pos), f.c0, s.Cfg())
    ensures Running(s, f)
  {
    hide *;
    LengthIsGood(s.last, f.ll, f.dl);
    IsRunning(s, f);
  }

  /** The distance is known: copy the match, or give up if it reaches too far back. */
  method FastCopy(s: Inflater, ghost f: Start, len: nat, dist: nat)
    requires Running(s, f) && s.phase == Match(s.last, f.ll, f.dl, len, dist) && s.left >= 258 && len >= 3
    modifies s`mode, s`length, s`offset, s`phase, s`put, s`left, s`hist, s.output
    ensures Running(s, f) && s.put + s.left == old(s.put + s.left) && old(s.left) - 258 <= s.left <= old(s.left)
    ensures if s.phase.Bad? then s.mode == BAD else s.phase == Length(s.last, f.ll, f.dl) && s.mode == old(s.mode)
  {
    hide *;
    RunningParts(s, f);
    RunningBits(s, f);
    MatchBounds(s.phase);
    OutFacts(s);
    ghost var c, B := s.Cfg(), Upto(s.fed, s.pos);
    UptoFacts(s.fed, s.pos, s.pos);
    s.length, s.offset := len, dist;
    ReachOfWindow(s);
    if dist > s.put - s.start && dist - (s.put - s.start) > s.whave {
      MatchStep(ByteBits(s.fed), c, 0);
      LengthIsCode(c.phase);
      s.mode := BAD;
      s.phase := Bad;
      StepRuns(s, f, c);
      return;
    }
    FastSource(s, f, B);
    CopiedRuns(s, f);
  }

  /** The whole match, from the window or from the output. */
  method FastSource(s: Inflater, ghost f: Start, ghost B: seq<bool>)
    requires s.BitsOk() && s.OutOk() && 3 <= s.length <= s.left && s.phase == Match(s.last, f.ll, f.dl, s.length, s.offset)
    requires 1 <= s.offset && s.start <= s.put && s.offset - (s.put - s.start) <= s.whave
    requires s.pos <= |B| && Reaches(B, f.c0, s.Cfg()) && Wrote(s, f.before, f.put0, f.hist0)
    modifies s`length, s`phase, s`put, s`left, s`hist, s.output
    ensures s.BitsOk() && s.OutOk() && s.length == 0 && s.left == old(s.left) - old(s.length) && s.put == old(s.put) + old(s.length)
    ensures s.phase == Length(s.last, f.ll, f.dl)
    ensures Reaches(B, f.c0, s.Cfg()) && Wrote(s, f.before, f.put0, f.hist0)
  {
    hide *;
    var op: nat := s.put - s.start;
    if s.offset > op {
      op := s.offset - op;
      FastFromWindow(s, op, f, B);
    } else {
      CopyFromOutput(s, 3, f.ll, f.dl, B, f.c0, f.before, f.put0, f.hist0);
      CopyingIs(s.last, f.ll, f.dl, s.length, s.offset);
      if s.length > 0 {
        TailFromOutput(s, f, B);
      }
    }
  }

  // ---- The loop

  /** A length has been read: the rest of the pair, and the copy. */
  method FastPair(s: Inflater, ghost f: Start, ghost end: nat, base: nat, extra: nat)
    requires Running(s, f) && s.phase == LengthExtra(s.last, f.ll, f.dl, base, extra) && s.left >= 258
    requires s.next <= end <= |s.input| && 8 * (end - s.next) + s.bits >= 33
    modifies s`mode, s`length, s`offset, s`hold, s`bits, s`next, s`fed, s`pos, s`phase, s`put, s`left, s`hist, s.output
    ensures Running(s, f) && s.put + s.left == old(s.put + s.left) && old(s.left) - 258 <= s.left <= old(s.left)
    ensures old(s.next) <= s.next <= end <= |s.input| && 8 * (end - s.next) + s.bits <= old(8 * (end - s.next) + s.bits)
    ensures if s.phase.Bad? then s.mode == BAD else s.phase == Length(s.last, f.ll, f.dl) && s.mode == old(s.mode)
  {
    hide *;
    var len := FastLenExtra(s, f, end, base, extra);
    RunningParts(s, f);
    DistanceLength(s.phase);
    var here: Entry;
    ghost var r, drop;
    here, r, drop := FastDist(s, f, end, len);
    DistOutcome(s.last, f.ll, f.dl, len, here.op, here.val, drop, r);
    if Flag(here.op, 16) {
      var dist := FastDistExtra(s, f, end, len, here.val, here.op % 16);
      MatchIsNotBad(s.phase);
      FastCopy(s, f, len, dist);
    } else {
      BadIs(s.phase);
      SetMode(s, BAD, f);
    }
  }

  lemma MatchIsNotBad(p: Phase)
    ensures p.Match? ==> !p.Bad?
  {
  }

  lemma BadIs(p: Phase)
    ensures p == Bad ==> p.Bad?
  {
  }

  /** The mode is not part of the run. */
  method SetMode(s: Inflater, m: Mode, ghost f: Start)
    requires Running(s, f)
    modifies s`mode
    ensures Running(s, f) && s.mode == m
  {
    hide *;
    RunningParts(s, f);
    CfgIs(s);
    s.mode := m;
    CfgIs(s);
    IsRunning(s, f);
  }

  /** The modes that a turn ends in. */
  ghost predicate Turned(s: Inflater, f: Start)
    reads s`mode, s`phase, s`last
  {
    match s.mode
    case LEN => s.phase == Length(s.last, f.ll, f.dl)
    case TYPE => s.phase == Header(s.last)
    case BAD => s.phase == Bad
    case _ => false
  }

  lemma IsTurned(s: Inflater, f: Start)
    requires s.mode == LEN ==> s.phase == Length(s.last, f.ll, f.dl)
    requires s.mode == TYPE ==> s.phase == Header(s.last)
    requires s.mode == BAD ==> s.phase == Bad
    requires s.mode in {LEN, TYPE, BAD}
    ensures Turned(s, f)
  {
  }

  /** One turn of the loop: at most six bytes read, at most 258 written. */
  method FastTurn(s: Inflater, ghost f: Start)
    requires Running(s, f) && s.mode == LEN && s.phase == Length(s.last, f.ll, f.dl)
    requires s.next + 6 <= |s.input| && s.left >= 258
    modifies s`mode, s`length, s`offset, s`hold, s`bits, s`next, s`fed, s`pos, s`phase, s`put, s`left, s`hist, s.output
    ensures Running(s, f) && s.put + s.left == old(s.put + s.left) && old(s.left) - 258 <= s.left <= old(s.left)
    ensures old(s.next) <= s.next <= old(s.next) + 6 && s.next <= |s.input|
    ensures 8 * (|s.input| - s.next) + s.bits < old(8 * (|s.input| - s.next) + s.bits)
    ensures Turned(s, f)
  {
    hide *;
    ghost var end := s.next + 6;
    var here: Entry;
    ghost var r, drop;
    here, r, drop := FastLen(s, f, end);
    LenOutcome(s.last, f.ll, f.dl, here.op, here.val, drop, r);
    PhaseShapes(s);
    if here.op == 0 {
      FastLiteral(s, f, here.val);
    } else if Flag(here.op, 16) {
      FastPair(s, f, end, here.val, here.op % 16);
      PhaseShapes(s);
    } else if Flag(here.op, 32) {
      SetMode(s, TYPE, f);
    } else {
      SetMode(s, BAD, f);
    }
    IsTurned(s, f);
  }

  lemma PhaseShapes(s: Inflater)
    ensures s.phase.Bad? <==> s.phase == Bad
  {
  }

  /** The bytes read but not used are given back. */
  lemma GaveBack(s: Inflater, fed: seq<byte>, next: nat, hold: nat, bits: nat, fed0: seq<byte>, next0: nat)
    requires next0 <= next <= |s.input| && fed == fed0 + s.input[next0..next] && hold < Pow2(bits) && bits <= 32
    requires s.pos + bits == 8 * |fed| == |ByteBits(fed)| && ByteBits(fed)[s.pos..] == Bits(hold, bits)
    requires |fed0| <= |fed| - bits / 8 && s.next == next - bits / 8 && s.bits == bits % 8 && s.hold == Low(hold, s.bits)
    requires s.fed == fed[..|fed| - bits / 8]
    ensures s.BitsOk() && Fed(s, fed0, next0) && ByteBits(s.fed) == Upto(fed, s.pos)
  {
    hide Bits, ByteBits, Upto;
    UptoIsPrefix(fed, s.pos, bits);
    UptoFacts(fed, s.pos, s.pos);
    LowBound(hold, s.bits);
    BitsLow(hold, s.bits, s.bits);
    BitsPrefix(hold, s.bits, bits);
    ByteBitsSize(s.fed);
    assert ByteBits(s.fed)[s.pos..] == ByteBits(fed)[s.pos..][..s.bits];
    assert s.fed == fed0 + s.input[next0..s.next];
    PrefixBytes(fed0, s.fed);
  }

  method GiveBack(s: Inflater, ghost f: Start, ghost bits0: nat)
    requires Running(s, f) && f.c0.pos + bits0 == 8 * |f.fed0| && s.pos > f.c0.pos
    requires bits0 < 8 || Step(ByteBits(f.fed0), f.c0) == None
    modifies s`hold, s`bits, s`next, s`fed
    ensures s.BitsOk() && Fed(s, f.fed0, f.next0) && Reaches(ByteBits(s.fed), f.c0, s.Cfg()) && s.bits < 8
    ensures 8 * (|s.input| - s.next) + s.bits == old(8 * (|s.input| - s.next) + s.bits)
  {
    hide *;
    RunningParts(s, f);
    RunningBits(s, f);
    FedFacts(s, f.fed0, f.next0);
    KeepsWhatWasRead(f.fed0, bits0, f.c0, s.fed, s.Cfg(), s.bits);
    ghost var fed, next, hold, bits := s.fed, s.next, s.hold, s.bits;
    var len := s.bits / 8;
    s.next := s.next - len;
    s.bits := s.bits - 8 * len;
    s.hold := Low(s.hold, s.bits);
    s.fed := s.fed[..|s.fed| - len];
    GaveBack(s, fed, next, hold, bits, f.fed0, f.next0);
    CfgIs(s);
  }

  lemma FastPhases(s: Inflater, f: Start)
    requires Turned(s, f) && s.Sized() && GoodCodes(f.ll, f.dl) && s.LenTable(LENS, f.ll) && s.DistTable(f.dl) && GoodPhase(s.phase)
    ensures s.PhaseOk() && s.mode in {LEN, TYPE, BAD}
  {
    hide GoodCodes, GoodPhase;
    CodePhases(s, f.ll, f.dl);
  }

  lemma TurnedAtLen(s: Inflater, f: Start)
    requires Turned(s, f) && s.mode == LEN
    ensures s.phase == Length(s.last, f.ll, f.dl)
  {
  }

  /** inflate_fast: it comes out where the slow modes would, having read no more than they need to the end of a byte. */
  method InflateFast(s: Inflater)
    requires Ready(s) && s.mode == LEN && s.next + 6 <= |s.input| && s.left >= 258
    modifies s`mode, s`length, s`offset, s`hold, s`bits, s`next, s`fed, s`pos, s`phase, s`put, s`left, s`hist, s.output
    ensures Ready(s) && Fed(s, old(s.fed), old(s.next)) && Reaches(ByteBits(s.fed), old(s.Cfg()), s.Cfg())
    ensures Wrote(s, old(s.output[..]), old(s.put), old(s.hist)) && s.mode in {LEN, TYPE, BAD} && s.bits < 8
    ensures s.next <= |s.input| && Unread(s) < old(Unread(s)) && s.left <= old(s.left) && s.put + s.left == old(s.put + s.left)
  {
    hide *;
    ReadyParts(s);
    ghost var ll, dl := PhaseAtLen(s);
    BitsFacts(s);
    OutFacts(s);
    CfgIs(s);
    UnreadIs(s);
    TightIs(s);
    ghost var f := Start(ll, dl, s.Cfg(), s.fed, s.next, s.output[..], s.put, s.hist);
    ghost var bits0 := s.bits;
    ReachesSelf(Upto(s.fed, s.pos), s.Cfg());
    PulledNothing(s);
    PulledIsFed(s, s.fed, s.next, s.bits);
    WroteNothing(s);
    IsTurned(s, f);
    IsRunning(s, f);
    var more := true;
    while more
      invariant Running(s, f) && Turned(s, f) && s.next <= |s.input|
      invariant s.put + s.left == old(s.put + s.left) && s.left <= old(s.left)
      invariant more ==> s.mode == LEN && s.next + 6 <= |s.input| && s.left >= 258
      invariant more || 8 * (|s.input| - s.next) + s.bits < old(8 * (|s.input| - s.next) + s.bits)
      invariant 8 * (|s.input| - s.next) + s.bits <= old(8 * (|s.input| - s.next) + s.bits)
      decreases more, 8 * (|s.input| - s.next) + s.bits
    {
      TurnedAtLen(s, f);
      FastTurn(s, f);
      more := s.mode == LEN && s.next + 6 <= |s.input| && s.left >= 258;
    }
    RunningBits(s, f);
    RunningParts(s, f);
    GiveBack(s, f, bits0);
    FastPhases(s, f);
    UnreadIs(s);
    IsReady(s);
  }
}
