/** The state of inflate.c: the bit accumulator, the decoding tables, and the sliding window,
    with the configuration of the reference decoder that they stand for. */
module InflateState {
  import opened Machine
  import opened BitStrings
  import opened Canonical
  import opened DecodeTable
  import opened InfTrees
  import opened BitWriter
  import opened DeflateSpec
  import opened DeflateRuns
  import opened BlockHeaders

  datatype Mode = HEAD | TYPE | TYPEDO | STORED | COPY_ | COPY | TABLE | LENLENS | CODELENS
                | LEN_ | LEN | LENEXT | DIST | DISTEXT | MATCH | LIT | CHECK | DONE | BAD

  const WSIZE: nat := 32768

  /** The window has the byte k back from the end of the flushed output k places before wnext, around the end. */
  ghost predicate Held(window: seq<byte>, wnext: nat, flushed: seq<byte>, k: nat)
    requires |window| == WSIZE && wnext < WSIZE && 1 <= k <= WSIZE && k <= |flushed|
  {
    window[if k <= wnext then wnext - k else wnext + WSIZE - k] == flushed[|flushed| - k]
  }

  /** The window holds the last whave bytes of the output before the current call. */
  ghost predicate WindowHolds(window: seq<byte>, wsize: nat, whave: nat, wnext: nat, flushed: seq<byte>) {
    |window| == WSIZE && whave <= |flushed| && whave <= WSIZE && wnext < WSIZE && (whave < WSIZE ==> wnext == whave) &&
    (if wsize == 0 then whave == 0 else wsize == WSIZE) &&
    forall k :: 1 <= k <= whave ==> Held(window, wnext, flushed, k)
  }

  /** ... and all of them, or as many as distances can reach. */
  ghost predicate WindowFull(whave: nat, flushed: seq<byte>) {
    whave == if |flushed| < WSIZE then |flushed| else WSIZE
  }

  class Inflater {
    var mode: Mode
    var last: bool
    var length: nat
    var offset: nat
    var extra: nat
    var ncode: nat
    var nlen: nat
    var ndist: nat
    var have: nat
    const lens: array<nat>
    const work: array<nat>
    const codes: array<Entry>
    const fixedCodes: array<Entry>
    var fixedDistAt: nat
    var lencode: array<Entry>
    var lenAt: nat
    var lenbits: nat
    var distcode: array<Entry>
    var distAt: nat
    var distbits: nat
    var hold: nat
    var bits: nat
    const window: array<byte>
    var wsize: nat
    var whave: nat
    var wnext: nat
    // the stream interface of the current call
    var input: seq<byte>
    var next: nat
    var output: array<byte>
    var put: nat
    var left: nat
    var start: nat
    // what has been read and written so far, and the configuration reached
    ghost var fed: seq<byte>
    ghost var hist: seq<byte>
    ghost var pos: nat
    ghost var phase: Phase

    constructor (output: array<byte>)
      ensures Sized() && fresh(lens) && fresh(work) && fresh(codes) && fresh(fixedCodes) && fresh(window)
      ensures mode == HEAD && !last && hold == bits == wsize == whave == wnext == 0 && input == [] && next == 0
      ensures fed == [] && hist == [] && pos == 0 && phase == Header(false) && lencode == distcode == fixedCodes
      ensures this.output == output && put == left == start == 0
    {
      mode, last, length, offset, extra := HEAD, false, 0, 0, 0;
      ncode, nlen, ndist, have := 0, 0, 0, 0;
      lens := new nat[320](i => 0);
      work := new nat[320](i => 0);
      codes := new Entry[ENOUGH_LENS + ENOUGH_DISTS](i => INVALID);
      var fixedTable := new Entry[ENOUGH_LENS + ENOUGH_DISTS](i => INVALID);
      fixedCodes, fixedDistAt := fixedTable, 0;
      lencode, lenAt, lenbits := fixedTable, 0, 0;
      distcode, distAt, distbits := fixedTable, 0, 0;
      hold, bits := 0, 0;
      window := new byte[WSIZE](i => 0);
      wsize, whave, wnext := 0, 0, 0;
      input, next := [], 0;
      this.output, put, left, start := output, 0, 0, 0;
      fed, hist, pos, phase := [], [], 0, Header(false);
    }

    ghost predicate Sized() {
      lens.Length == 320 && work.Length == 320 && codes.Length == ENOUGH_LENS + ENOUGH_DISTS &&
      fixedCodes.Length == ENOUGH_LENS + ENOUGH_DISTS && window.Length == WSIZE &&
      lens != work && codes != fixedCodes
    }

    ghost function Cfg(): Config
      reads `phase, `hist, `pos
    {
      Config(phase, hist, pos)
    }

    /** The accumulator holds the bits between the decoder's position and the input's. */
    ghost predicate BitsOk()
      reads `hold, `bits, `fed, `pos, `input, `next
    {
      next <= |input| && bits <= 32 && hold < Pow2(bits) && pos + bits == 8 * |fed| && pos <= 8 * |fed| &&
      Bits(hold, bits) == ByteBits(fed)[pos..]
    }

    /** The output of this call is the end of all output; the window holds what was before it. */
    ghost predicate OutOk()
      reads `hist, `output, `put, `left, `start, `wsize, `whave, `wnext, window, output
    {
      output != window && start <= put && put + left <= output.Length && put - start <= |hist| &&
      hist[|hist| - (put - start)..] == output[start..put] &&
      WindowHolds(window[..], wsize, whave, wnext, hist[..|hist| - (put - start)]) &&
      WindowFull(whave, hist[..|hist| - (put - start)])
    }

    /** The table decodes this code. */
    ghost predicate LenTable(t: CodeType, code: seq<nat>)
      reads `lencode, `lenAt, `lenbits, lencode
    {
      Accepts(t, code) && lenbits <= MAXBITS && DecodesCode(t, code, lencode[..], lenAt, lenbits)
    }

    ghost predicate DistTable(code: seq<nat>)
      reads `distcode, `distAt, `distbits, distcode
    {
      Accepts(DISTS, code) && distbits <= MAXBITS && DecodesCode(DISTS, code, distcode[..], distAt, distbits)
    }

    ghost predicate FixedTables()
      reads `fixedDistAt, fixedCodes
    {
      DecodesCode(LENS, FixedLitLens(), fixedCodes[..], 0, 9) &&
      DecodesCode(DISTS, FixedDistLens(32), fixedCodes[..], fixedDistAt, 5)
    }

    /** The fields mean the decoder's phase. */
    ghost predicate PhaseOk()
      reads `mode, `last, `length, `offset, `extra, `ncode, `nlen, `ndist, `have, `phase, lens
      reads `lencode, `lenAt, `lenbits, lencode, `distcode, `distAt, `distbits, distcode
    {
      Sized() && GoodPhase(phase) &&
      match mode
      case HEAD => phase == Header(false) && !last
      case TYPE => phase == Header(last)
      case TYPEDO => phase == Header(last)
      case STORED => phase == StoredLength(last)
      case COPY_ => phase == StoredCopy(last, length)
      case COPY => phase == StoredCopy(last, length)
      case TABLE => phase == TableSizes(last)
      case LENLENS => have <= ncode <= 19 && phase == ClLengths(last, nlen, ndist, ncode, InOrder(lens[..19], have))
      case CODELENS =>
        phase.CodeLengths? && have <= 320 && phase == CodeLengths(last, nlen, ndist, phase.cl, lens[..have]) &&
        LenTable(CODES, phase.cl)
      case LEN_ => phase.Length? && phase == Length(last, phase.ll, phase.dl) && LenTable(LENS, phase.ll) && DistTable(phase.dl)
      case LEN => phase.Length? && phase == Length(last, phase.ll, phase.dl) && LenTable(LENS, phase.ll) && DistTable(phase.dl)
      case LENEXT =>
        phase.LengthExtra? && phase == LengthExtra(last, phase.ll, phase.dl, length, extra) &&
        LenTable(LENS, phase.ll) && DistTable(phase.dl)
      case DIST =>
        phase.Distance? && phase == Distance(last, phase.ll, phase.dl, length) &&
        LenTable(LENS, phase.ll) && DistTable(phase.dl)
      case DISTEXT =>
        phase.DistanceExtra? && phase == DistanceExtra(last, phase.ll, phase.dl, length, offset, extra) &&
        LenTable(LENS, phase.ll) && DistTable(phase.dl)
      case MATCH =>
        phase.Match? && phase == Match(last, phase.ll, phase.dl, length, offset) &&
        LenTable(LENS, phase.ll) && DistTable(phase.dl)
      case LIT =>
        phase.Literal? && length < 256 && phase == Literal(last, phase.ll, phase.dl, length as byte) &&
        LenTable(LENS, phase.ll) && DistTable(phase.dl)
      case CHECK => phase == Done
      case DONE => phase == Done
      case BAD => phase == Bad
    }
  }

  // ---- The bit accumulator

  lemma BitsFacts(s: Inflater)
    requires s.BitsOk()
    ensures s.next <= |s.input| && s.bits <= 32 && s.hold < Pow2(s.bits) && s.pos + s.bits == 8 * |s.fed|
    ensures s.pos <= 8 * |s.fed| == |ByteBits(s.fed)| && Bits(s.hold, s.bits) == ByteBits(s.fed)[s.pos..]
  {
  }

  lemma BitsHold(s: Inflater)
    requires s.next <= |s.input| && s.bits <= 32 && s.hold < Pow2(s.bits) && s.pos + s.bits == 8 * |s.fed|
    requires s.pos <= |ByteBits(s.fed)| && Bits(s.hold, s.bits) == ByteBits(s.fed)[s.pos..]
    ensures s.BitsOk()
  {
  }

  /** One more byte above the bits held. */
  lemma PullMath(hold: nat, bits: nat, b: byte, fed: seq<byte>, pos: nat)
    requires hold < Pow2(bits) && pos <= |ByteBits(fed)| && Bits(hold, bits) == ByteBits(fed)[pos..]
    ensures hold + Shl(b as nat, bits) < Pow2(bits + 8)
    ensures |ByteBits(fed + [b])| == |ByteBits(fed)| + 8 && ByteBits(fed) <= ByteBits(fed + [b])
    ensures Bits(hold + Shl(b as nat, bits), bits + 8) == ByteBits(fed + [b])[pos..]
  {
    hide Bits, ByteBits, Pow2;
    HighLowUnique(hold, b as nat, bits);
    BitsSplit(hold + Shl(b as nat, bits), bits, 8);
    BitsLow(hold + Shl(b as nat, bits), bits, bits);
    ByteBitsSnoc(fed, b);
    Pow2Of8();
    ShlMonotone(b as nat + 1, Pow2(8), bits);
    ShlAdd(b as nat, 1, bits);
    ShlPow2(0, bits);
    ShlPow2(8, bits);
    Pow2Zero();
  }

  lemma Pow2Zero()
    ensures Pow2(0) == 1
  {
  }

  /** PULLBYTE, when there is input. */
  method PullByte(s: Inflater)
    requires s.BitsOk() && s.next < |s.input| && s.bits <= 24
    modifies s`hold, s`bits, s`next, s`fed
    ensures s.BitsOk() && s.bits == old(s.bits) + 8 && s.next == old(s.next) + 1
    ensures s.fed == old(s.fed) + [s.input[old(s.next)]] && ByteBits(old(s.fed)) <= ByteBits(s.fed)
  {
    hide *;
    BitsFacts(s);
    var b := s.input[s.next];
    PullMath(s.hold, s.bits, b, s.fed, s.pos);
    s.next := s.next + 1;
    s.hold := s.hold + Shl(b as nat, s.bits);
    s.bits := s.bits + 8;
    s.fed := s.fed + [b];
    BitsHold(s);
  }

  /** Some input has been read since the state was fed0, next0, bits0. */
  ghost predicate Pulled(s: Inflater, fed0: seq<byte>, next0: nat, bits0: nat)
    reads s`fed, s`next, s`input, s`bits
  {
    next0 <= s.next <= |s.input| && s.fed == fed0 + s.input[next0..s.next] &&
    ByteBits(fed0) <= ByteBits(s.fed) && s.bits == bits0 + 8 * (s.next - next0)
  }

  lemma PulledNothing(s: Inflater)
    requires s.next <= |s.input|
    ensures Pulled(s, s.fed, s.next, s.bits)
  {
  }

  lemma PulledFacts(s: Inflater, fed0: seq<byte>, next0: nat, bits0: nat)
    requires Pulled(s, fed0, next0, bits0)
    ensures next0 <= s.next <= |s.input| && s.fed == fed0 + s.input[next0..s.next]
    ensures ByteBits(fed0) <= ByteBits(s.fed) && s.bits == bits0 + 8 * (s.next - next0)
  {
  }

  lemma PulledMore(s: Inflater, fed0: seq<byte>, next0: nat, bits0: nat, fed1: seq<byte>, next1: nat)
    requires next0 <= next1 < |s.input| && s.next == next1 + 1
    requires fed1 == fed0 + s.input[next0..next1] && ByteBits(fed0) <= ByteBits(fed1)
    requires s.fed == fed1 + [s.input[next1]] && ByteBits(fed1) <= ByteBits(s.fed)
    requires s.bits == bits0 + 8 * (next1 - next0) + 8
    ensures Pulled(s, fed0, next0, bits0)
  {
    hide ByteBits;
    assert s.input[next0..s.next] == s.input[next0..next1] + [s.input[next1]];
  }

  /** NEEDBITS: false when the input runs out first. */
  method NeedBits(s: Inflater, n: nat) returns (ok: bool)
    requires s.BitsOk() && n <= 32 && (s.bits % 8 == 0 || n <= 25)
    modifies s`hold, s`bits, s`next, s`fed
    ensures s.BitsOk() && Pulled(s, old(s.fed), old(s.next), old(s.bits))
    ensures ok <==> s.bits >= n
    ensures !ok ==> s.next == |s.input|
    ensures old(s.bits) >= n ==> s.bits == old(s.bits)
    ensures old(s.bits) < n ==> s.bits < n + 8
  {
    hide *;
    BitsFacts(s);
    ghost var fed0, next0, bits0 := s.fed, s.next, s.bits;
    PulledNothing(s);
    ok := true;
    while s.bits < n
      invariant s.BitsOk() && Pulled(s, fed0, next0, bits0) && s.bits <= 32
      invariant bits0 >= n ==> s.bits == bits0
      invariant bits0 < n ==> s.bits < n + 8
      decreases n - s.bits
    {
      BitsFacts(s);
      PulledFacts(s, fed0, next0, bits0);
      if s.next == |s.input| {
        ok := false;
        break;
      }
      ghost var fed1, next1 := s.fed, s.next;
      PullByte(s);
      PulledMore(s, fed0, next0, bits0, fed1, next1);
    }
  }

  /** DROPBITS */
  method DropBits(s: Inflater, n: nat)
    requires s.BitsOk() && n <= s.bits
    modifies s`hold, s`bits, s`pos
    ensures s.BitsOk() && s.bits == old(s.bits) - n && s.pos == old(s.pos) + n && s.hold == High(old(s.hold), n)
  {
    hide *;
    BitsFacts(s);
    DropMath(s.hold, s.bits, n, ByteBits(s.fed), s.pos);
    s.hold := High(s.hold, n);
    s.bits := s.bits - n;
    s.pos := s.pos + n;
    BitsHold(s);
  }

  lemma DropMath(hold: nat, bits: nat, n: nat, B: seq<bool>, pos: nat)
    requires hold < Pow2(bits) && n <= bits && pos + bits == |B| && Bits(hold, bits) == B[pos..]
    ensures High(hold, n) < Pow2(bits - n) && Bits(High(hold, n), bits - n) == B[pos + n..]
  {
    hide Bits;
    BitsSplit(hold, n, bits - n);
    HighBound(hold, n, bits - n);
    assert B[pos + n..] == B[pos..][n..];
  }

  /** BITS(n), when that many are there: the number that comes next in the stream. */
  lemma BitsAreNumber(s: Inflater, n: nat)
    requires s.BitsOk() && n <= s.bits
    ensures s.pos + n <= |ByteBits(s.fed)| && Low(s.hold, n) == Number(ByteBits(s.fed), s.pos, n) < Pow2(n)
  {
    hide ByteBits;
    BitsPrefix(s.hold, n, s.bits);
    ValBits(s.hold, n);
    LowBound(s.hold, n);
    assert ByteBits(s.fed)[s.pos..][..n] == ByteBits(s.fed)[s.pos..s.pos + n];
  }
}
