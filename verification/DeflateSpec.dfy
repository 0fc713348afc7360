/** What a DEFLATE stream means: a decoder that reads the stream one bit string at a
    time and writes one byte at a time (RFC 1951, with the checks that inflate makes). */
module DeflateSpec {
  import opened Machine
  import opened BitStrings
  import opened Canonical
  import opened CodeWords
  import opened DecodeTable
  import opened InfTrees

  datatype Phase =
    | Header(last: bool)
    | StoredLength(last: bool)
    | StoredCopy(last: bool, left: nat)
    | TableSizes(last: bool)
    | ClLengths(last: bool, nlen: nat, ndist: nat, ncode: nat, got: seq<nat>)
    | CodeLengths(last: bool, nlen: nat, ndist: nat, cl: seq<nat>, lens: seq<nat>)
    | Length(last: bool, ll: seq<nat>, dl: seq<nat>)
    | LengthExtra(last: bool, ll: seq<nat>, dl: seq<nat>, base: nat, extra: nat)
    | Distance(last: bool, ll: seq<nat>, dl: seq<nat>, length: nat)
    | DistanceExtra(last: bool, ll: seq<nat>, dl: seq<nat>, length: nat, base: nat, extra: nat)
    | Match(last: bool, ll: seq<nat>, dl: seq<nat>, length: nat, offset: nat)
    | Literal(last: bool, ll: seq<nat>, dl: seq<nat>, value: byte)
    | Done
    | Bad

  /** Where decoding stands: what comes next, the output so far, and the stream position in bits. */
  datatype Config = Config(phase: Phase, out: seq<byte>, pos: nat)

  /** The decoder at the start of a stream. */
  function START(): Config {
    Config(Header(false), [], 0)
  }

  // ---- Reading

  datatype Read = Symbol(s: nat) | Invalid | Short

  /** The code word of s and the bits agree as far as both go. */
  ghost predicate Compatible(lens: seq<nat>, s: nat, bs: seq<bool>) {
    s < |lens| && 0 < lens[s] && (CodeWord(lens, s) <= bs || bs <= CodeWord(lens, s))
  }

  /** The symbol whose code word comes next. */
  ghost function ReadSymbol(lens: seq<nat>, bs: seq<bool>): (r: Read)
    ensures r.Symbol? ==> Codes(lens, r.s, bs)
  {
    if exists s :: Codes(lens, s, bs) then
      var s: nat :| Codes(lens, s, bs);
      Symbol(s)
    else if bs != [] && forall s :: 0 <= s < |lens| ==> !Compatible(lens, s, bs) then Invalid
    else Short
  }

  /** The next n bits as a number. */
  function Number(B: seq<bool>, pos: nat, n: nat): nat
    requires pos + n <= |B|
  {
    Val(B[pos..pos + n])
  }

  function Align(pos: nat): (r: nat)
    ensures pos <= r < pos + 8 && r % 8 == 0
  {
    (pos + 7) / 8 * 8
  }

  // ---- The fixed codes of section 3.2.6, and the code length order of section 3.2.7

  function FixedLitLens(): (r: seq<nat>)
    ensures |r| == 288
  {
    seq(288, i => if i < 144 then 8 else if i < 256 then 9 else if i < 280 then 7 else 8)
  }

  function FixedDistLens(n: nat): (r: seq<nat>)
    ensures |r| == n
  {
    seq(n, i => 5)
  }

  const ORDER: seq<nat> := [16, 17, 18, 0, 8, 7, 9, 6, 10, 5, 11, 4, 12, 3, 13, 2, 14, 1, 15]
  const PLACE: seq<nat> := [3, 17, 15, 13, 11, 9, 7, 5, 4, 6, 8, 10, 12, 14, 16, 18, 0, 1, 2]

  lemma OrderIsPermutation(i: nat)
    requires i < 19
    ensures ORDER[i] < 19 && PLACE[ORDER[i]] == i && PLACE[i] < 19 && ORDER[PLACE[i]] == i
  {
  }

  /** The lengths of the code length code, from the order they are sent in. */
  function Arrange(got: seq<nat>): (r: seq<nat>)
    ensures |r| == 19
  {
    seq(19, s requires 0 <= s < 19 => if PLACE[s] < |got| then got[PLACE[s]] else 0)
  }

  // ---- One step

  /** What inflate accepts as the two codes of a dynamic block. */
  ghost predicate AcceptedCodes(ll: seq<nat>, dl: seq<nat>)
    requires ValidLens(ll) && ValidLens(dl)
  {
    |ll| > 256 && ll[256] != 0 &&
    !Rejected(LENS, ll) && Entries(ll, 9) <= ENOUGH_LENS &&
    !Rejected(DISTS, dl) && Entries(dl, 6) <= ENOUGH_DISTS
  }

  ghost function StepHeader(B: seq<bool>, c: Config, last: bool): Option<Config> {
    if last then
      if Align(c.pos) <= |B| then Some(Config(Done, c.out, Align(c.pos))) else None
    else if c.pos + 3 > |B| then None
    else
      var last' := B[c.pos];
      var kind := Number(B, c.pos + 1, 2);
      Some(Config(if kind == 0 then StoredLength(last')
                  else if kind == 1 then Length(last', FixedLitLens(), FixedDistLens(32))
                  else if kind == 2 then TableSizes(last')
                  else Bad, c.out, c.pos + 3))
  }

  ghost function StepStoredLength(B: seq<bool>, c: Config, last: bool): Option<Config> {
    if c.pos % 8 != 0 then
      if Align(c.pos) <= |B| then Some(c.(pos := Align(c.pos))) else None
    else if c.pos + 32 > |B| then None
    else
      var len, nlen := Number(B, c.pos, 16), Number(B, c.pos + 16, 16);
      if len + nlen == 65535 then Some(Config(StoredCopy(last, len), c.out, c.pos + 32))
      else Some(c.(phase := Bad))
  }

  function ToByte(v: nat): byte {
    (v % 256) as byte
  }

  ghost function StepStoredCopy(B: seq<bool>, c: Config, last: bool, left: nat): Option<Config> {
    if left == 0 then Some(c.(phase := Header(last)))
    else if c.pos + 8 > |B| then None
    else Some(Config(StoredCopy(last, left - 1), c.out + [ToByte(Number(B, c.pos, 8))], c.pos + 8))
  }

  ghost function StepTableSizes(B: seq<bool>, c: Config, last: bool): Option<Config> {
    if c.pos + 14 > |B| then None
    else
      var nlen, ndist, ncode := Number(B, c.pos, 5) + 257, Number(B, c.pos + 5, 5) + 1, Number(B, c.pos + 10, 4) + 4;
      Some(Config(if nlen > 286 || ndist > 30 then Bad else ClLengths(last, nlen, ndist, ncode, []), c.out, c.pos + 14))
  }

  ghost function StepClLengths(B: seq<bool>, c: Config): Option<Config>
    requires c.phase.ClLengths?
  {
    var p := c.phase;
    if |p.got| < p.ncode then
      if c.pos + 3 > |B| then None
      else Some(Config(p.(got := p.got + [Number(B, c.pos, 3)]), c.out, c.pos + 3))
    else
      Some(c.(phase := if ValidLens(Arrange(p.got)) && !Rejected(CODES, Arrange(p.got))
                       then CodeLengths(p.last, p.nlen, p.ndist, Arrange(p.got), []) else Bad))
  }

  /** Base and number of bits of the repeat count of a code length symbol. */
  function RepeatBase(sym: nat): nat {
    if sym < 16 then 1 else if sym < 18 then 3 else 11
  }

  function RepeatBits(sym: nat): nat {
    if sym < 16 then 0 else if sym == 16 then 2 else if sym == 17 then 3 else 7
  }

  /** Section 3.2.7: a length, or a run of the previous length or of zeros. */
  function Repeated(lens: seq<nat>, sym: nat, count: nat): seq<nat>
    requires sym == 16 ==> lens != []
  {
    seq(count, i => if sym < 16 then sym else if sym == 16 then lens[|lens| - 1] else 0)
  }

  ghost function AfterLengths(p: Phase): Phase
    requires p.CodeLengths? && |p.lens| == p.nlen + p.ndist
  {
    var ll, dl := p.lens[..p.nlen], p.lens[p.nlen..];
    if ValidLens(ll) && ValidLens(dl) && AcceptedCodes(ll, dl) then Length(p.last, ll, dl) else Bad
  }

  /** With no code length code at all inflate reads single bits as length 0. */
  ghost function StepCodeLengths(B: seq<bool>, c: Config): Option<Config>
    requires c.phase.CodeLengths? && c.pos <= |B|
  {
    var p := c.phase;
    if |p.lens| >= p.nlen + p.ndist then
      Some(c.(phase := if |p.lens| == p.nlen + p.ndist then AfterLengths(p) else Bad))
    else
      match ReadSymbol(p.cl, B[c.pos..])
      case Short => None
      case Invalid => Some(Config(p.(lens := p.lens + [0]), c.out, c.pos + 1))
      case Symbol(s) =>
        var bits := p.cl[s];
        if c.pos + bits + RepeatBits(s) > |B| then None
        else if s == 16 && p.lens == [] then Some(Config(Bad, c.out, c.pos + bits))
        else
          var count := RepeatBase(s) + Number(B, c.pos + bits, RepeatBits(s));
          Some(Config(if |p.lens| + count > p.nlen + p.ndist then Bad
                      else p.(lens := p.lens + Repeated(p.lens, s, count)),
                      c.out, c.pos + bits + RepeatBits(s)))
  }

  function AfterSymbol(last: bool, ll: seq<nat>, dl: seq<nat>, s: nat): Phase {
    if s < 256 then Literal(last, ll, dl, s as byte)
    else if s == 256 then Header(last)
    else if s < 286 then LengthExtra(last, ll, dl, LBASE[s - 257], LEXT[s - 257] - 16)
    else Bad
  }

  ghost function StepLength(B: seq<bool>, c: Config, last: bool, ll: seq<nat>, dl: seq<nat>): Option<Config>
    requires c.pos <= |B|
  {
    match ReadSymbol(ll, B[c.pos..])
    case Short => None
    case Invalid => Some(Config(Bad, c.out, c.pos + 1))
    case Symbol(s) => Some(Config(AfterSymbol(last, ll, dl, s), c.out, c.pos + ll[s]))
  }

  ghost function StepLengthExtra(B: seq<bool>, c: Config): Option<Config>
    requires c.phase.LengthExtra?
  {
    var p := c.phase;
    if c.pos + p.extra > |B| then None
    else Some(Config(Distance(p.last, p.ll, p.dl, p.base + Number(B, c.pos, p.extra)), c.out, c.pos + p.extra))
  }

  function AfterDistance(last: bool, ll: seq<nat>, dl: seq<nat>, length: nat, s: nat): Phase {
    if s < 30 then DistanceExtra(last, ll, dl, length, DBASE[s], DEXT[s] - 16) else Bad
  }

  ghost function StepDistance(B: seq<bool>, c: Config): Option<Config>
    requires c.phase.Distance? && c.pos <= |B|
  {
    var p := c.phase;
    match ReadSymbol(p.dl, B[c.pos..])
    case Short => None
    case Invalid => Some(Config(Bad, c.out, c.pos + 1))
    case Symbol(s) => Some(Config(AfterDistance(p.last, p.ll, p.dl, p.length, s), c.out, c.pos + p.dl[s]))
  }

  ghost function StepDistanceExtra(B: seq<bool>, c: Config): Option<Config>
    requires c.phase.DistanceExtra?
  {
    var p := c.phase;
    if c.pos + p.extra > |B| then None
    else Some(Config(Match(p.last, p.ll, p.dl, p.length, p.base + Number(B, c.pos, p.extra)), c.out, c.pos + p.extra))
  }

  /** One byte of a match; offsets beyond the output are an error. */
  ghost function StepMatch(c: Config): Option<Config>
    requires c.phase.Match?
  {
    var p := c.phase;
    if p.length == 0 then Some(c.(phase := Length(p.last, p.ll, p.dl)))
    else if p.offset == 0 || p.offset > |c.out| then Some(c.(phase := Bad))
    else
      Some(Config(if p.length == 1 then Length(p.last, p.ll, p.dl) else p.(length := p.length - 1),
                  c.out + [c.out[|c.out| - p.offset]], c.pos))
  }

  /** The next configuration; None when the bits B do not reach far enough, or at the end. */
  ghost function Step(B: seq<bool>, c: Config): Option<Config> {
    if c.pos > |B| then None
    else
      match c.phase
      case Header(last) => StepHeader(B, c, last)
      case StoredLength(last) => StepStoredLength(B, c, last)
      case StoredCopy(last, left) => StepStoredCopy(B, c, last, left)
      case TableSizes(last) => StepTableSizes(B, c, last)
      case ClLengths(_, _, _, _, _) => StepClLengths(B, c)
      case CodeLengths(_, _, _, _, _) => StepCodeLengths(B, c)
      case Length(last, ll, dl) => StepLength(B, c, last, ll, dl)
      case LengthExtra(_, _, _, _, _) => StepLengthExtra(B, c)
      case Distance(_, _, _, _) => StepDistance(B, c)
      case DistanceExtra(_, _, _, _, _, _) => StepDistanceExtra(B, c)
      case Match(_, _, _, _, _) => StepMatch(c)
      case Literal(last, ll, dl, value) => Some(Config(Length(last, ll, dl), c.out + [value], c.pos))
      case Done => None
      case Bad => None
  }

  // ---- Runs

  ghost function Run(B: seq<bool>, c: Config, n: nat): Option<Config>
    decreases n
  {
    if n == 0 then Some(c)
    else
      match Step(B, c)
      case None => None
      case Some(next) => Run(B, next, n - 1)
  }

  ghost predicate Reaches(B: seq<bool>, c: Config, c': Config) {
    exists n: nat :: Run(B, c, n) == Some(c')
  }

  lemma ReachesSelf(B: seq<bool>, c: Config)
    ensures Reaches(B, c, c)
  {
    assert Run(B, c, 0) == Some(c);
  }

  lemma {:induction false} RunAdd(B: seq<bool>, c: Config, m: nat, n: nat)
    requires Run(B, c, m).Some?
    ensures Run(B, c, m + n) == Run(B, Run(B, c, m).value, n)
    decreases m
  {
    hide Step;
    if m > 0 {
      RunAdd(B, Step(B, c).value, m - 1, n);
    }
  }

  lemma ReachesTrans(B: seq<bool>, a: Config, b: Config, c: Config)
    requires Reaches(B, a, b) && Reaches(B, b, c)
    ensures Reaches(B, a, c)
  {
    hide Run;
    var m: nat :| Run(B, a, m) == Some(b);
    var n: nat :| Run(B, b, n) == Some(c);
    RunAdd(B, a, m, n);
    assert Run(B, a, m + n) == Some(c);
  }

  lemma ReachesStep(B: seq<bool>, a: Config, b: Config)
    requires Step(B, a) == Some(b)
    ensures Reaches(B, a, b)
  {
    hide Step;
    assert Run(B, b, 0) == Some(b);
    assert Run(B, a, 1) == Run(B, b, 0);
  }

  /** One more step at the end. */
  lemma ReachesThen(B: seq<bool>, a: Config, b: Config, c: Config)
    requires Reaches(B, a, b) && Step(B, b) == Some(c)
    ensures Reaches(B, a, c)
  {
    hide Step, Reaches;
    ReachesStep(B, b, c);
    ReachesTrans(B, a, b, c);
  }

  /** Two runs that cannot go on end in the same configuration. */
  lemma EndIsUnique(B: seq<bool>, c: Config, a: Config, b: Config)
    requires Reaches(B, c, a) && Reaches(B, c, b) && Step(B, a) == None && Step(B, b) == None
    ensures a == b
  {
    hide Step, Run;
    var m: nat :| Run(B, c, m) == Some(a);
    var n: nat :| Run(B, c, n) == Some(b);
    if m < n {
      RunAdd(B, c, m, n - m);
      StuckRun(B, a, n - m);
    } else if n < m {
      RunAdd(B, c, n, m - n);
      StuckRun(B, b, m - n);
    }
  }

  lemma StuckRun(B: seq<bool>, c: Config, n: nat)
    requires Step(B, c) == None && n > 0
    ensures Run(B, c, n) == None
  {
  }
}
