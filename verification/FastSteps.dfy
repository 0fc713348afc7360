/** Steps of the decoder that read codes look no further than the bits they consume, so
    input read ahead of need can be given back. */
module FastSteps {
  import opened Machine
  import opened BitStrings
  import opened Canonical
  import opened DecodeTable
  import opened InfTrees
  import opened BitWriter
  import opened DeflateSpec
  import opened DeflateRuns
  import opened InflateState
  import opened TableLookup

  lemma ReadBack(t: CodeType, code: seq<nat>, bs: seq<bool>, bs': seq<bool>)
    requires Accepts(t, code) && !Rejected(t, code) && ValidLens(code) && bs' <= bs
    requires ReadSymbol(code, bs).Symbol? ==> code[ReadSymbol(code, bs).s] <= |bs'|
    requires ReadSymbol(code, bs).Invalid? ==> 1 <= |bs'|
    requires !ReadSymbol(code, bs).Short?
    ensures ReadSymbol(code, bs') == ReadSymbol(code, bs)
  {
    hide Rejected, Accepts, ReadSymbol, Fits;
    var r := ReadSymbol(code, bs);
    if ReadSymbol(code, bs').Short? {
      BitsVal(bs);
      ValBound(bs);
      AcceptsValid(t, code);
      SymbolInRange(code, bs);
      if r.Symbol? {
        var e := SymbolEntry(t, r.s, code[r.s]);
        SymbolEntryIsNoLink(t, r.s, code[r.s]);
        NeededTheLast(t, code, Val(bs), |bs|, bs', e.op, e.val, e.bits);
      } else {
        NeededTheLast(t, code, Val(bs), |bs|, bs', 64, 0, 1);
      }
    } else {
      NotRejectedFits(t, code);
      ReadExtends(code, bs', bs);
    }
  }

  predicate CodePhase(p: Phase) {
    p.Length? || p.LengthExtra? || p.Distance? || p.DistanceExtra? || p.Match? || p.Literal?
  }

  lemma RestBack(B: seq<bool>, B': seq<bool>, pos: nat)
    requires B' <= B && pos <= |B'|
    ensures B'[pos..] <= B[pos..] && |B'[pos..]| == |B'| - pos
  {
  }

  lemma LengthStepBack(B: seq<bool>, B': seq<bool>, c: Config, ll: seq<nat>, dl: seq<nat>)
    requires c.phase.Length? && c.phase.ll == ll && GoodCodes(ll, c.phase.dl) && B' <= B && c.pos <= |B'|
    requires Step(B, c).Some? && Step(B, c).value.pos <= |B'|
    ensures Step(B', c) == Step(B, c)
  {
    hide ReadSymbol, Rejected, AfterSymbol, Accepts;
    RestBack(B, B', c.pos);
    AcceptsValid(LENS, ll);
    SymbolInRange(ll, B[c.pos..]);
    ReadBack(LENS, ll, B[c.pos..], B'[c.pos..]);
  }

  lemma DistanceStepBack(B: seq<bool>, B': seq<bool>, c: Config, ll: seq<nat>, dl: seq<nat>)
    requires c.phase.Distance? && c.phase.dl == dl && GoodCodes(c.phase.ll, dl) && B' <= B && c.pos <= |B'|
    requires Step(B, c).Some? && Step(B, c).value.pos <= |B'|
    ensures Step(B', c) == Step(B, c)
  {
    hide ReadSymbol, Rejected, AfterDistance, Accepts;
    RestBack(B, B', c.pos);
    AcceptsValid(DISTS, dl);
    SymbolInRange(dl, B[c.pos..]);
    ReadBack(DISTS, dl, B[c.pos..], B'[c.pos..]);
  }

  /** A step is the same on any part of the stream that has the bits it consumes. */
  lemma CodeStepBack(B: seq<bool>, B': seq<bool>, c: Config)
    requires CodePhase(c.phase) && GoodPhase(c.phase) && B' <= B && c.pos <= |B'|
    requires Step(B, c).Some? && Step(B, c).value.pos <= |B'|
    ensures Step(B', c) == Step(B, c)
  {
    hide GoodCodes, ReadSymbol, Number;
    match c.phase
    case Length(_, ll, dl) => LengthStepBack(B, B', c, ll, dl);
    case Distance(_, ll, dl, _) => DistanceStepBack(B, B', c, ll, dl);
    case LengthExtra(_, _, _, _, extra) => NumberExtends(B', B, c.pos, extra);
    case DistanceExtra(_, _, _, _, _, extra) => NumberExtends(B', B, c.pos, extra);
    case _ =>
  }

  lemma CodeStepForward(B: seq<bool>, c: Config)
    requires CodePhase(c.phase) && GoodPhase(c.phase) && Step(B, c).Some?
    ensures c.pos <= Step(B, c).value.pos <= |B| && GoodPhase(Step(B, c).value.phase)
  {
    hide GoodCodes, ReadSymbol, Number, GoodPhase;
    StepGood(B, c);
  }

  /** The stream up to the end of the byte that pos is in. */
  ghost function Upto(fed: seq<byte>, pos: nat): seq<bool>
    requires pos <= 8 * |fed|
  {
    ByteBits(fed)[..Align(pos)]
  }

  lemma UptoMore(fed: seq<byte>, more: seq<byte>, pos: nat)
    requires pos <= 8 * |fed|
    ensures Upto(fed + more, pos) == Upto(fed, pos)
  {
    hide ByteBits;
    ByteBitsAppend(fed, more);
  }

  lemma PrefixBytes(a: seq<byte>, b: seq<byte>)
    requires a <= b
    ensures ByteBits(a) <= ByteBits(b)
  {
    hide ByteBits;
    assert b == a + b[|a|..];
    ByteBitsAppend(a, b[|a|..]);
  }

  /** The bytes that remain after giving back what is not needed. */
  lemma UptoIsPrefix(fed: seq<byte>, pos: nat, bits: nat)
    requires pos + bits == 8 * |fed|
    ensures var n := |fed| - bits / 8;
            0 <= n <= |fed| && Upto(fed, pos) == ByteBits(fed[..n]) && pos + bits % 8 == 8 * n
  {
    hide ByteBits;
    var n := |fed| - bits / 8;
    assert fed == fed[..n] + fed[n..];
    ByteBitsAppend(fed[..n], fed[n..]);
  }

  lemma UptoFacts(fed: seq<byte>, a: nat, b: nat)
    requires a <= b <= 8 * |fed|
    ensures Upto(fed, a) <= Upto(fed, b) <= ByteBits(fed) && b <= |Upto(fed, b)| && |ByteBits(fed)| == 8 * |fed|
  {
    hide ByteBits;
  }

  /** Runs that need no more of the stream than they have consumed. */
  lemma AdvanceRun(fed: seq<byte>, c0: Config, c: Config, c1: Config)
    requires c.pos <= 8 * |fed| && CodePhase(c.phase) && GoodPhase(c.phase) && GoodPhase(c0.phase)
    requires Reaches(Upto(fed, c.pos), c0, c) && Step(ByteBits(fed), c) == Some(c1)
    ensures c.pos <= c1.pos <= 8 * |fed| && GoodPhase(c1.phase) && Reaches(Upto(fed, c1.pos), c0, c1)
  {
    hide *;
    CodeStepForward(ByteBits(fed), c);
    UptoFacts(fed, c.pos, c.pos);
    UptoFacts(fed, c.pos, c1.pos);
    var B := Upto(fed, c1.pos);
    CodeStepBack(ByteBits(fed), B, c);
    ReachesExtends(Upto(fed, c.pos), B, c0, c);
    ReachesThen(B, c0, c, c1);
  }

  /** No byte from before the start is given back: what was held then was less than a byte, or not enough for a step. */
  lemma KeepsWhatWasRead(fed0: seq<byte>, bits0: nat, c0: Config, fed: seq<byte>, c: Config, bits: nat)
    requires c0.pos + bits0 == 8 * |fed0| && c.pos + bits == 8 * |fed| && fed0 <= fed && GoodPhase(c0.phase)
    requires Reaches(Upto(fed, c.pos), c0, c) && c.pos > c0.pos
    requires bits0 < 8 || Step(ByteBits(fed0), c0) == None
    ensures |fed0| <= |fed| - bits / 8
  {
    hide *;
    UptoIsPrefix(fed, c.pos, bits);
    var n := |fed| - bits / 8;
    if n < |fed0| {
      assert fed[..n] <= fed0;
      PrefixBytes(fed[..n], fed0);
      ReachesExtends(ByteBits(fed[..n]), ByteBits(fed0), c0, c);
      ReachesSelf(ByteBits(fed0), c0);
      if bits0 >= 8 {
        StuckStays(ByteBits(fed0), c0, c);
      }
    }
  }

  lemma StuckStays(B: seq<bool>, c0: Config, c: Config)
    requires Reaches(B, c0, c) && Step(B, c0) == None
    ensures c == c0
  {
    hide Step;
    var n: nat :| Run(B, c0, n) == Some(c);
    if n > 0 {
      StuckRun(B, c0, n);
    }
  }
}
