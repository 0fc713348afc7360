/** Properties of the reference decoder: what its configurations always satisfy, and
    that bits arriving later never change a step already taken. */
module DeflateRuns {
  import opened Machine
  import opened BitStrings
  import opened Canonical
  import opened CodeWords
  import opened SymbolOrder
  import opened DecodeTable
  import opened InfTrees
  import opened DeflateSpec

  // ---- Invariants of the phases

  ghost predicate GoodCodes(ll: seq<nat>, dl: seq<nat>) {
    Accepts(LENS, ll) && Accepts(DISTS, dl) && !Rejected(LENS, ll) && !Rejected(DISTS, dl)
  }

  ghost predicate GoodPhase(p: Phase) {
    match p
    case StoredCopy(_, left) => left < 65536
    case ClLengths(_, nlen, ndist, ncode, got) =>
      257 <= nlen <= 286 && 1 <= ndist <= 30 && 4 <= ncode <= 19 && |got| <= ncode &&
      forall i :: 0 <= i < |got| ==> got[i] <= 7
    case CodeLengths(_, nlen, ndist, cl, lens) =>
      257 <= nlen <= 286 && 1 <= ndist <= 30 && Accepts(CODES, cl) && |cl| == 19 && !Rejected(CODES, cl) &&
      |lens| <= nlen + ndist && ValidLens(lens)
    case Length(_, ll, dl) => GoodCodes(ll, dl)
    case LengthExtra(_, ll, dl, base, extra) => GoodCodes(ll, dl) && 3 <= base && extra <= 5 && base + Pow2(extra) <= 259
    case Distance(_, ll, dl, length) => GoodCodes(ll, dl) && 3 <= length <= 258
    case DistanceExtra(_, ll, dl, length, base, extra) =>
      GoodCodes(ll, dl) && 3 <= length <= 258 && 1 <= base && extra <= 13 && base + Pow2(extra) <= 32769
    case Match(_, ll, dl, length, offset) => GoodCodes(ll, dl) && 1 <= length <= 258 && 1 <= offset <= 32768
    case Literal(_, ll, dl, _) => GoodCodes(ll, dl)
    case _ => true
  }

  lemma LengthRange(s: nat)
    requires 257 <= s < 286
    ensures 3 <= LBASE[s - 257] && 16 <= LEXT[s - 257] <= 21 && LBASE[s - 257] + Pow2(LEXT[s - 257] - 16) <= 259
  {
    PowersUpTo5();
  }

  lemma PowersUpTo5()
    ensures Pow2(0) == 1 && Pow2(1) == 2 && Pow2(2) == 4 && Pow2(3) == 8 && Pow2(4) == 16 && Pow2(5) == 32
  {
  }

  lemma PowersUpTo13()
    ensures Pow2(6) == 64 && Pow2(7) == 128 && Pow2(8) == 256 && Pow2(9) == 512 && Pow2(10) == 1024
    ensures Pow2(11) == 2048 && Pow2(12) == 4096 && Pow2(13) == 8192
  {
  }

  lemma DistanceRange(s: nat)
    requires s < 30
    ensures 1 <= DBASE[s] && 16 <= DEXT[s] <= 29 && DBASE[s] + Pow2(DEXT[s] - 16) <= 32769
  {
    PowersUpTo5();
    PowersUpTo13();
  }

  lemma NumberBound(B: seq<bool>, pos: nat, n: nat)
    requires pos + n <= |B|
    ensures Number(B, pos, n) < Pow2(n)
  {
    ValBound(B[pos..pos + n]);
  }

  lemma {:induction false} NothingTaken(lens: seq<nat>, n: nat, l: nat, s: nat)
    requires n <= |lens| && forall x :: 0 <= x < n ==> lens[x] == 0
    ensures Taken(lens, n, l, s) == 0
  {
    if n > 0 {
      NothingTaken(lens, n - 1, l, s);
    }
  }

  /** Accepted lengths always leave room for a prefix code. */
  lemma NotRejectedFits(t: CodeType, lens: seq<nat>)
    requires ValidLens(lens) && !Rejected(t, lens)
    ensures Fits(lens)
  {
    if Used(lens) == 0 {
      NoneUsed(lens);
      NothingTaken(lens, |lens|, MAXBITS, |lens|);
    }
  }

  lemma NoneUsed(lens: seq<nat>)
    requires ValidLens(lens) && Used(lens) == 0
    ensures forall s :: 0 <= s < |lens| ==> lens[s] == 0
  {
    forall s | 0 <= s < |lens|
      ensures lens[s] == 0
    {
      if lens[s] > 0 {
        SortedComplete(lens, Order(lens), s);
      }
    }
  }

  // ---- The fixed codes are complete

  lemma {:induction false} FixedLitTaken(n: nat)
    requires n <= 288
    ensures Taken(FixedLitLens(), n, MAXBITS, 288) ==
            if n <= 144 then n * 128 else if n <= 256 then 18432 + (n - 144) * 64
            else if n <= 280 then 25600 + (n - 256) * 256 else 31744 + (n - 280) * 128
    decreases n
  {
    if n > 0 {
      FixedLitTaken(n - 1);
      PowersUpTo13();
    }
  }

  lemma {:induction false} FixedDistTaken(n: nat)
    requires n <= 32
    ensures Taken(FixedDistLens(32), n, MAXBITS, 32) == n * 1024
    decreases n
  {
    if n > 0 {
      FixedDistTaken(n - 1);
      PowersUpTo13();
    }
  }

  lemma FixedCodesGood()
    ensures Complete(FixedLitLens()) && Complete(FixedDistLens(32)) && GoodCodes(FixedLitLens(), FixedDistLens(32))
  {
    FixedLitTaken(288);
    FixedDistTaken(32);
    PowersUpTo13();
    assert Pow2(MAXBITS) == 4 * Pow2(MAXBITS - 2);
  }

  // ---- Every step keeps the invariants

  lemma SymbolInRange(lens: seq<nat>, bs: seq<bool>)
    ensures ReadSymbol(lens, bs).Symbol? ==> ReadSymbol(lens, bs).s < |lens| && 0 < lens[ReadSymbol(lens, bs).s] <= |bs|
  {
  }

  lemma HeaderGood(B: seq<bool>, c: Config, last: bool)
    requires StepHeader(B, c, last).Some?
    ensures GoodPhase(StepHeader(B, c, last).value.phase)
  {
    hide GoodCodes, FixedLitLens, FixedDistLens, Number, Align, Complete;
    FixedCodesGood();
  }

  lemma StoredLengthGood(B: seq<bool>, c: Config, last: bool)
    requires c.phase == StoredLength(last) && StepStoredLength(B, c, last).Some?
    ensures GoodPhase(StepStoredLength(B, c, last).value.phase)
  {
  }

  lemma TableSizesGood(B: seq<bool>, c: Config, last: bool)
    requires StepTableSizes(B, c, last).Some?
    ensures GoodPhase(StepTableSizes(B, c, last).value.phase)
  {
    PowersUpTo5();
    NumberBound(B, c.pos, 5);
    NumberBound(B, c.pos + 5, 5);
    NumberBound(B, c.pos + 10, 4);
  }

  lemma ClLengthsGood(B: seq<bool>, c: Config)
    requires c.phase.ClLengths? && GoodPhase(c.phase) && StepClLengths(B, c).Some?
    ensures GoodPhase(StepClLengths(B, c).value.phase)
  {
    hide Rejected;
    PowersUpTo5();
    if |c.phase.got| < c.phase.ncode {
      NumberBound(B, c.pos, 3);
    }
  }

  lemma AfterLengthsGood(p: Phase)
    requires p.CodeLengths? && |p.lens| == p.nlen + p.ndist && GoodPhase(p)
    ensures GoodPhase(AfterLengths(p))
  {
    hide Rejected, Entries;
  }

  lemma CodeLengthsGood(B: seq<bool>, c: Config)
    requires c.phase.CodeLengths? && c.pos <= |B| && GoodPhase(c.phase) && StepCodeLengths(B, c).Some?
    ensures GoodPhase(StepCodeLengths(B, c).value.phase)
  {
    hide Rejected, ReadSymbol, AfterLengths;
    SymbolInRange(c.phase.cl, B[c.pos..]);
    if |c.phase.lens| == c.phase.nlen + c.phase.ndist {
      AfterLengthsGood(c.phase);
    }
  }

  lemma AfterSymbolGood(last: bool, ll: seq<nat>, dl: seq<nat>, s: nat)
    requires GoodCodes(ll, dl)
    ensures GoodPhase(AfterSymbol(last, ll, dl, s))
  {
    hide GoodCodes;
    if 257 <= s < 286 {
      LengthRange(s);
    }
  }

  lemma AfterDistanceGood(last: bool, ll: seq<nat>, dl: seq<nat>, length: nat, s: nat)
    requires GoodCodes(ll, dl) && 3 <= length <= 258
    ensures GoodPhase(AfterDistance(last, ll, dl, length, s))
  {
    hide GoodCodes;
    if s < 30 {
      DistanceRange(s);
    }
  }

  /** Whatever the stream says, decoding stays within the limits of the format. */
  lemma StepGood(B: seq<bool>, c: Config)
    requires GoodPhase(c.phase) && Step(B, c).Some?
    ensures GoodPhase(Step(B, c).value.phase) && Step(B, c).value.pos <= |B|
  {
    hide GoodCodes, ReadSymbol, Rejected, Entries, AfterLengths, Number, Pow2, AfterSymbol, AfterDistance,
      FixedLitLens, FixedDistLens, Arrange, Align, ToByte, ValidLens, Accepts;
    match c.phase
    case Header(last) => HeaderGood(B, c, last);
    case StoredLength(last) => StoredLengthGood(B, c, last);
    case TableSizes(last) => TableSizesGood(B, c, last);
    case ClLengths(_, _, _, _, _) => ClLengthsGood(B, c);
    case CodeLengths(_, _, _, _, _) =>
      CodeLengthsGood(B, c);
      SymbolInRange(c.phase.cl, B[c.pos..]);
      ShortIfEmpty(c.phase.cl, B[c.pos..]);
    case Length(last, ll, dl) =>
      SymbolInRange(ll, B[c.pos..]);
      ShortIfEmpty(ll, B[c.pos..]);
      if ReadSymbol(ll, B[c.pos..]).Symbol? {
        AfterSymbolGood(last, ll, dl, ReadSymbol(ll, B[c.pos..]).s);
      }
    case LengthExtra(_, _, _, _, extra) =>
      if c.pos + extra <= |B| {
        NumberBound(B, c.pos, extra);
      }
    case Distance(last, ll, dl, length) =>
      SymbolInRange(dl, B[c.pos..]);
      ShortIfEmpty(dl, B[c.pos..]);
      if ReadSymbol(dl, B[c.pos..]).Symbol? {
        AfterDistanceGood(last, ll, dl, length, ReadSymbol(dl, B[c.pos..]).s);
      }
    case DistanceExtra(_, _, _, _, _, extra) =>
      if c.pos + extra <= |B| {
        NumberBound(B, c.pos, extra);
      }
    case _ =>
  }

  lemma ShortIfEmpty(lens: seq<nat>, bs: seq<bool>)
    ensures ReadSymbol(lens, bs).Invalid? ==> bs != []
  {
  }

  // ---- Bits that arrive later

  lemma PrefixesCompare(a: seq<bool>, b: seq<bool>, c: seq<bool>)
    requires a <= c && b <= c
    ensures a <= b || b <= a
  {
  }

  lemma ReadFound(lens: seq<nat>, s: nat, bs: seq<bool>)
    requires Fits(lens) && Codes(lens, s, bs)
    ensures ReadSymbol(lens, bs) == Symbol(s)
  {
    PrefixFree(lens, s, ReadSymbol(lens, bs).s, bs);
  }

  lemma ReadExtends(lens: seq<nat>, bs: seq<bool>, bs': seq<bool>)
    requires Fits(lens) && bs <= bs' && !ReadSymbol(lens, bs).Short?
    ensures ReadSymbol(lens, bs') == ReadSymbol(lens, bs)
  {
    hide Fits, CodeWord;
    if ReadSymbol(lens, bs).Symbol? {
      var s := ReadSymbol(lens, bs).s;
      assert Codes(lens, s, bs');
      ReadFound(lens, s, bs');
    } else {
      forall s | 0 <= s < |lens|
        ensures !Compatible(lens, s, bs') && !Codes(lens, s, bs')
      {
        assert !Compatible(lens, s, bs);
        if 0 < lens[s] && CodeWord(lens, s) <= bs' {
          PrefixesCompare(CodeWord(lens, s), bs, bs');
        }
      }
    }
  }

  lemma NumberExtends(B: seq<bool>, B': seq<bool>, pos: nat, n: nat)
    requires B <= B' && pos + n <= |B|
    ensures Number(B', pos, n) == Number(B, pos, n)
  {
    assert B'[pos..pos + n] == B[pos..pos + n];
  }

  lemma RestExtends(B: seq<bool>, B': seq<bool>, pos: nat)
    requires B <= B' && pos <= |B|
    ensures B[pos..] <= B'[pos..]
  {
  }

  lemma HeaderExtends(B: seq<bool>, B': seq<bool>, c: Config, last: bool)
    requires B <= B' && StepHeader(B, c, last).Some?
    ensures StepHeader(B', c, last) == StepHeader(B, c, last)
  {
    hide Number;
    if !last {
      NumberExtends(B, B', c.pos + 1, 2);
    }
  }

  lemma TableSizesExtends(B: seq<bool>, B': seq<bool>, c: Config, last: bool)
    requires B <= B' && StepTableSizes(B, c, last).Some?
    ensures StepTableSizes(B', c, last) == StepTableSizes(B, c, last)
  {
    hide Number;
    NumberExtends(B, B', c.pos, 5);
    NumberExtends(B, B', c.pos + 5, 5);
    NumberExtends(B, B', c.pos + 10, 4);
  }

  lemma CodeLengthsExtends(B: seq<bool>, B': seq<bool>, c: Config)
    requires B <= B' && c.phase.CodeLengths? && c.pos <= |B| && GoodPhase(c.phase) && StepCodeLengths(B, c).Some?
    ensures StepCodeLengths(B', c) == StepCodeLengths(B, c)
  {
    hide Number, ReadSymbol, AfterLengths, Rejected, Fits;
    var p := c.phase;
    if |p.lens| < p.nlen + p.ndist {
      NotRejectedFits(CODES, p.cl);
      RestExtends(B, B', c.pos);
      ReadExtends(p.cl, B[c.pos..], B'[c.pos..]);
      var r := ReadSymbol(p.cl, B[c.pos..]);
      SymbolInRange(p.cl, B[c.pos..]);
      if r.Symbol? {
        NumberExtends(B, B', c.pos + p.cl[r.s], RepeatBits(r.s));
      }
    }
  }

  /** A step that the bits so far allow stays the same whatever bits follow. */
  lemma StepExtends(B: seq<bool>, B': seq<bool>, c: Config)
    requires B <= B' && GoodPhase(c.phase) && Step(B, c).Some?
    ensures Step(B', c) == Step(B, c)
  {
    hide ReadSymbol, Rejected, Fits, Entries, AfterLengths, Number, Pow2, AfterSymbol, AfterDistance,
      FixedLitLens, FixedDistLens, Arrange, Align, ToByte, StepCodeLengths, StepHeader, StepTableSizes;
    RestExtends(B, B', c.pos);
    match c.phase
    case Header(last) => HeaderExtends(B, B', c, last);
    case StoredLength(last) =>
      if c.pos + 32 <= |B| {
        NumberExtends(B, B', c.pos, 16);
        NumberExtends(B, B', c.pos + 16, 16);
      }
    case StoredCopy(last, left) =>
      if c.pos + 8 <= |B| {
        NumberExtends(B, B', c.pos, 8);
      }
    case TableSizes(last) => TableSizesExtends(B, B', c, last);
    case ClLengths(_, _, _, _, _) =>
      if c.pos + 3 <= |B| {
        NumberExtends(B, B', c.pos, 3);
      }
    case CodeLengths(_, _, _, _, _) => CodeLengthsExtends(B, B', c);
    case Length(last, ll, dl) =>
      NotRejectedFits(LENS, ll);
      ReadExtends(ll, B[c.pos..], B'[c.pos..]);
    case LengthExtra(_, _, _, _, extra) =>
      NumberExtends(B, B', c.pos, extra);
    case Distance(last, ll, dl, length) =>
      NotRejectedFits(DISTS, dl);
      ReadExtends(dl, B[c.pos..], B'[c.pos..]);
    case DistanceExtra(_, _, _, _, _, extra) =>
      NumberExtends(B, B', c.pos, extra);
    case _ =>
  }

  lemma {:induction false} RunExtends(B: seq<bool>, B': seq<bool>, c: Config, n: nat)
    requires B <= B' && GoodPhase(c.phase) && Run(B, c, n).Some?
    ensures Run(B', c, n) == Run(B, c, n) && GoodPhase(Run(B, c, n).value.phase)
    decreases n
  {
    hide Step, GoodPhase;
    if n > 0 {
      StepGood(B, c);
      StepExtends(B, B', c);
      RunExtends(B, B', Step(B, c).value, n - 1);
    }
  }

  /** A run on the first bits is a run on all of them. */
  lemma ReachesExtends(B: seq<bool>, B': seq<bool>, c: Config, c': Config)
    requires B <= B' && GoodPhase(c.phase) && Reaches(B, c, c')
    ensures Reaches(B', c, c') && GoodPhase(c'.phase)
  {
    hide Run, GoodPhase;
    var n: nat :| Run(B, c, n) == Some(c');
    RunExtends(B, B', c, n);
  }

  // ---- Along a run

  /** What a run comes past it goes on from. */
  lemma PastOnTheWay(B: seq<bool>, c: Config, a: Config, b: Config)
    requires Reaches(B, c, a) && Reaches(B, c, b) && Step(B, b) == None
    ensures Reaches(B, a, b)
  {
    hide Step, Run;
    var m: nat :| Run(B, c, m) == Some(a);
    var n: nat :| Run(B, c, n) == Some(b);
    if m <= n {
      RunAdd(B, c, m, n - m);
      assert Run(B, a, n - m) == Some(b);
    } else {
      RunAdd(B, c, n, m - n);
      StuckRun(B, b, m - n);
    }
  }

  lemma StepWrites(B: seq<bool>, c: Config)
    requires Step(B, c).Some?
    ensures c.out <= Step(B, c).value.out
  {
    hide ReadSymbol, Rejected, Fits, Entries, AfterLengths, Number, Pow2, AfterSymbol, AfterDistance,
      FixedLitLens, FixedDistLens, Arrange, Align, ToByte;
  }

  lemma {:induction false} RunWrites(B: seq<bool>, c: Config, n: nat)
    requires Run(B, c, n).Some?
    ensures c.out <= Run(B, c, n).value.out
    decreases n
  {
    hide Step;
    if n > 0 {
      StepWrites(B, c);
      RunWrites(B, Step(B, c).value, n - 1);
    }
  }

  /** What has been written stays. */
  lemma OutputStays(B: seq<bool>, a: Config, b: Config)
    requires Reaches(B, a, b)
    ensures a.out <= b.out
  {
    hide Run;
    var n: nat :| Run(B, a, n) == Some(b);
    RunWrites(B, a, n);
  }

  // ---- Where the stream begins

  lemma NumberMoves(B: seq<bool>, k: nat, pos: nat, n: nat)
    requires k + pos + n <= |B|
    ensures Number(B[k..], pos, n) == Number(B, k + pos, n)
  {
    assert B[k..][pos..pos + n] == B[k + pos..k + pos + n];
  }

  lemma RestMoves(B: seq<bool>, k: nat, pos: nat)
    requires k + pos <= |B|
    ensures B[k..][pos..] == B[k + pos..]
  {
  }

  lemma AlignMoves(m: nat, pos: nat)
    ensures Align(8 * m + pos) == 8 * m + Align(pos) && (8 * m + pos) % 8 == pos % 8
  {
  }

  /** A configuration of a stream that begins m bytes later. */
  function Moved(c: Config, m: nat): Config {
    c.(pos := 8 * m + c.pos)
  }

  function MovedStep(o: Option<Config>, m: nat): Option<Config> {
    if o.None? then None else Some(Moved(o.value, m))
  }

  lemma HeaderMoves(B: seq<bool>, m: nat, c: Config, last: bool)
    requires 8 * m + c.pos <= |B|
    ensures StepHeader(B, Moved(c, m), last) == MovedStep(StepHeader(B[8 * m..], c, last), m)
  {
    hide Number, Align, FixedLitLens, FixedDistLens;
    AlignMoves(m, c.pos);
    if !last && 8 * m + c.pos + 3 <= |B| {
      NumberMoves(B, 8 * m, c.pos + 1, 2);
    }
  }

  lemma StoredLengthMoves(B: seq<bool>, m: nat, c: Config, last: bool)
    requires 8 * m + c.pos <= |B|
    ensures StepStoredLength(B, Moved(c, m), last) == MovedStep(StepStoredLength(B[8 * m..], c, last), m)
  {
    hide Number, Align;
    AlignMoves(m, c.pos);
    if 8 * m + c.pos + 32 <= |B| {
      NumberMoves(B, 8 * m, c.pos, 16);
      NumberMoves(B, 8 * m, c.pos + 16, 16);
    }
  }

  lemma TableSizesMoves(B: seq<bool>, m: nat, c: Config, last: bool)
    requires 8 * m + c.pos <= |B|
    ensures StepTableSizes(B, Moved(c, m), last) == MovedStep(StepTableSizes(B[8 * m..], c, last), m)
  {
    hide Number;
    if 8 * m + c.pos + 14 <= |B| {
      NumberMoves(B, 8 * m, c.pos, 5);
      NumberMoves(B, 8 * m, c.pos + 5, 5);
      NumberMoves(B, 8 * m, c.pos + 10, 4);
    }
  }

  lemma CodeLengthsMoves(B: seq<bool>, m: nat, c: Config)
    requires 8 * m + c.pos <= |B| && c.phase.CodeLengths?
    ensures StepCodeLengths(B, Moved(c, m)) == MovedStep(StepCodeLengths(B[8 * m..], c), m)
  {
    hide Number, ReadSymbol, AfterLengths;
    var p := c.phase;
    RestMoves(B, 8 * m, c.pos);
    var r := ReadSymbol(p.cl, B[8 * m + c.pos..]);
    SymbolInRange(p.cl, B[8 * m + c.pos..]);
    if r.Symbol? && 8 * m + c.pos + p.cl[r.s] + RepeatBits(r.s) <= |B| {
      NumberMoves(B, 8 * m, c.pos + p.cl[r.s], RepeatBits(r.s));
    }
  }

  /** The decoder goes by whole bytes from where the stream begins, and by nothing else before. */
  lemma StepMoves(B: seq<bool>, m: nat, c: Config)
    requires 8 * m <= |B|
    ensures Step(B, Moved(c, m)) == MovedStep(Step(B[8 * m..], c), m)
  {
    hide ReadSymbol, Number, AfterSymbol, AfterDistance, Arrange, ToByte, StepCodeLengths, StepHeader, StepTableSizes,
      StepStoredLength, Rejected;
    if 8 * m + c.pos <= |B| {
      RestMoves(B, 8 * m, c.pos);
      match c.phase
      case Header(last) => HeaderMoves(B, m, c, last);
      case StoredLength(last) => StoredLengthMoves(B, m, c, last);
      case StoredCopy(last, left) =>
        if 8 * m + c.pos + 8 <= |B| {
          NumberMoves(B, 8 * m, c.pos, 8);
        }
      case TableSizes(last) => TableSizesMoves(B, m, c, last);
      case ClLengths(_, _, _, _, _) =>
        if 8 * m + c.pos + 3 <= |B| {
          NumberMoves(B, 8 * m, c.pos, 3);
        }
      case CodeLengths(_, _, _, _, _) => CodeLengthsMoves(B, m, c);
      case LengthExtra(_, _, _, _, extra) =>
        if 8 * m + c.pos + extra <= |B| {
          NumberMoves(B, 8 * m, c.pos, extra);
        }
      case DistanceExtra(_, _, _, _, _, extra) =>
        if 8 * m + c.pos + extra <= |B| {
          NumberMoves(B, 8 * m, c.pos, extra);
        }
      case _ =>
    }
  }

  lemma {:induction false} RunMoves(B: seq<bool>, m: nat, c: Config, n: nat)
    requires 8 * m <= |B|
    ensures Run(B, Moved(c, m), n) == MovedStep(Run(B[8 * m..], c, n), m)
    decreases n
  {
    hide Step, Moved;
    if n > 0 {
      StepMoves(B, m, c);
      if Step(B[8 * m..], c).Some? {
        RunMoves(B, m, Step(B[8 * m..], c).value, n - 1);
      }
    }
  }

  /** Dropping whole bytes before the place where decoding begins changes nothing. */
  lemma ReachesMoves(B: seq<bool>, m: nat, c: Config, c': Config)
    requires 8 * m <= |B|
    ensures Reaches(B, Moved(c, m), Moved(c', m)) <==> Reaches(B[8 * m..], c, c')
  {
    hide Run;
    if Reaches(B, Moved(c, m), Moved(c', m)) {
      var n: nat :| Run(B, Moved(c, m), n) == Some(Moved(c', m));
      RunMoves(B, m, c, n);
      assert Run(B[8 * m..], c, n) == Some(c');
    }
    if Reaches(B[8 * m..], c, c') {
      var n: nat :| Run(B[8 * m..], c, n) == Some(c');
      RunMoves(B, m, c, n);
      assert Run(B, Moved(c, m), n) == Some(Moved(c', m));
    }
  }
}
