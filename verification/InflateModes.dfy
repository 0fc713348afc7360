/** The modes of inflate.c that read headers and stored blocks. Each takes the reference decoder's
    steps, or stops because the input or the room for output ran out. */
module InflateModes {
  import opened Machine
  import opened BitStrings
  import opened Canonical
  import opened DecodeTable
  import opened InfTrees
  import opened BitWriter
  import opened DeflateSpec
  import opened DeflateRuns
  import opened BlockHeaders
  import opened InflateState
  import opened TableLookup

  /** Less than a byte is held back, unless what is held is not enough for the next step. */
  ghost predicate Tight(s: Inflater)
    reads s`bits, s`fed, s`phase, s`hist, s`pos
  {
    s.bits < 8 || Step(ByteBits(s.fed), s.Cfg()) == None
  }

  ghost predicate Ready(s: Inflater)
    reads s, s.lens, s.window, s.output, s.fixedCodes, s.lencode, s.distcode
  {
    s.BitsOk() && s.OutOk() && s.PhaseOk() && s.FixedTables() && Tight(s) && Reserved(s) &&
    (s.mode.COPY_? || s.mode.COPY? ==> s.bits == 0)
  }

  /** The decoding tables in use are the fixed ones or lie in the table space. */
  ghost predicate Reserved(s: Inflater)
    reads s`lencode, s`distcode
  {
    s.lencode in {s.codes, s.fixedCodes} && s.distcode in {s.codes, s.fixedCodes}
  }

  /** The input read since fed0 and next0. */
  ghost predicate Fed(s: Inflater, fed0: seq<byte>, next0: nat)
    reads s`fed, s`next, s`input
  {
    next0 <= s.next <= |s.input| && s.fed == fed0 + s.input[next0..s.next] && ByteBits(fed0) <= ByteBits(s.fed)
  }

  lemma PulledIsFed(s: Inflater, fed0: seq<byte>, next0: nat, bits0: nat)
    requires Pulled(s, fed0, next0, bits0)
    ensures Fed(s, fed0, next0)
  {
    hide ByteBits;
  }

  /** Why inflate may stop early: the next step needs input that is not there, or the output is full. */
  ghost predicate Blocked(s: Inflater)
    reads s`fed, s`phase, s`hist, s`pos, s`next, s`input, s`left
  {
    !s.phase.Done? && !s.phase.Bad? &&
    ((s.next == |s.input| && Step(ByteBits(s.fed), s.Cfg()) == None) ||
     (s.left == 0 && (s.phase.Match? || s.phase.Literal? || s.phase.StoredCopy?)))
  }

  lemma ReadyParts(s: Inflater)
    requires Ready(s)
    ensures s.BitsOk() && s.OutOk() && s.PhaseOk() && s.FixedTables() && Tight(s) && Reserved(s)
    ensures s.mode.COPY_? || s.mode.COPY? ==> s.bits == 0
    ensures s.Sized()
  {
    hide DecodesCode, WindowHolds, Step, GoodPhase;
  }

  lemma TightIs(s: Inflater)
    requires Tight(s)
    ensures s.bits < 8 || Step(ByteBits(s.fed), s.Cfg()) == None
  {
    hide Step;
  }

  lemma IsReady(s: Inflater)
    requires s.BitsOk() && s.OutOk() && s.PhaseOk() && s.FixedTables() && Reserved(s)
    requires s.bits < 8 || Step(ByteBits(s.fed), s.Cfg()) == None
    requires s.mode.COPY_? || s.mode.COPY? ==> s.bits == 0
    ensures Ready(s)
  {
    hide DecodesCode, WindowHolds, Step, GoodPhase;
  }

  lemma FedFacts(s: Inflater, fed0: seq<byte>, next0: nat)
    requires Fed(s, fed0, next0)
    ensures next0 <= s.next <= |s.input| && s.fed == fed0 + s.input[next0..s.next] && ByteBits(fed0) <= ByteBits(s.fed)
  {
  }

  lemma PhaseIsGood(s: Inflater)
    requires s.PhaseOk()
    ensures GoodPhase(s.phase)
  {
    hide DecodesCode, GoodPhase;
  }

  lemma CfgIs(s: Inflater)
    ensures s.Cfg() == Config(s.phase, s.hist, s.pos)
  {
  }

  lemma IsBlocked(s: Inflater)
    requires !s.phase.Done? && !s.phase.Bad?
    requires (s.next == |s.input| && Step(ByteBits(s.fed), Config(s.phase, s.hist, s.pos)) == None) ||
             (s.left == 0 && (s.phase.Match? || s.phase.Literal? || s.phase.StoredCopy?))
    ensures Blocked(s)
  {
    hide Step;
  }

  /** Input still to be consumed, in bits. */
  ghost function Unread(s: Inflater): nat
    reads s`input, s`next, s`bits
    requires s.next <= |s.input|
  {
    8 * (|s.input| - s.next) + s.bits
  }

  lemma UnreadIs(s: Inflater)
    requires s.next <= |s.input|
    ensures Unread(s) == 8 * (|s.input| - s.next) + s.bits
  {
  }

  // ---- TYPE and TYPEDO

  lemma HeaderShort(B: seq<bool>, out: seq<byte>, pos: nat)
    requires pos + 3 > |B|
    ensures Step(B, Config(Header(false), out, pos)) == None
  {
  }

  lemma HeaderStep(B: seq<bool>, out: seq<byte>, pos: nat)
    requires pos + 3 <= |B|
    ensures Step(B, Config(Header(false), out, pos))
         == Some(Config(StartOf(Number(B, pos + 1, 2), Number(B, pos, 1) == 1), out, pos + 3))
  {
    hide Number;
    OneBit(B, pos);
  }

  lemma OneBit(B: seq<bool>, pos: nat)
    requires pos < |B|
    ensures Number(B, pos, 1) == if B[pos] then 1 else 0
  {
    var b := B[pos];
    assert B[pos..pos + 1] == [b];
    ValOfOne(b);
  }

  lemma ValOfOne(b: bool)
    ensures Val([b]) == if b then 1 else 0
  {
    assert [b][0] == b && [b][1..] == [];
    assert Val([b][1..]) == 0;
  }

  lemma EndStep(B: seq<bool>, out: seq<byte>, pos: nat, bits: nat)
    requires pos + bits == |B| && |B| % 8 == 0
    ensures Step(B, Config(Header(true), out, pos)) == Some(Config(Done, out, pos + bits % 8))
  {
  }

  lemma PhaseAtType(s: Inflater)
    requires s.PhaseOk() && (s.mode.TYPE? || s.mode.TYPEDO?)
    ensures s.phase == Header(s.last)
  {
    hide DecodesCode, GoodPhase;
  }

  /** Entering a block: the fields mean the phase. */
  lemma PhaseStarts(s: Inflater, kind: nat)
    requires s.Sized() && s.FixedTables() && kind < 4 && s.phase == StartOf(kind, s.last)
    requires kind == 0 ==> s.mode == STORED
    requires kind == 1 ==> s.mode == LEN_ && s.lencode == s.distcode == s.fixedCodes && s.lenAt == 0 && s.lenbits == 9
    requires kind == 1 ==> s.distAt == s.fixedDistAt && s.distbits == 5
    requires kind == 2 ==> s.mode == TABLE
    requires kind == 3 ==> s.mode == BAD
    ensures s.PhaseOk()
  {
    hide DecodesCode, Rejected, Complete, FixedLitLens, FixedDistLens;
    FixedCodesGood();
  }

  lemma PhaseEnds(s: Inflater)
    requires s.Sized() && s.phase == Done && s.mode in {CHECK, DONE}
    ensures s.PhaseOk()
  {
  }

  lemma ByteBitsSize(fed: seq<byte>)
    ensures |ByteBits(fed)| == 8 * |fed| && |ByteBits(fed)| % 8 == 0
  {
  }

  // ---- Taking a step

  /** NEEDBITS as a mode uses it. */
  method Need(s: Inflater, n: nat) returns (ok: bool)
    requires s.BitsOk() && n <= 32 && (s.bits % 8 == 0 || n <= 25)
    modifies s`hold, s`bits, s`next, s`fed
    ensures s.BitsOk() && Fed(s, old(s.fed), old(s.next)) && s.next <= |s.input| && Unread(s) == old(Unread(s))
    ensures s.pos + s.bits == |ByteBits(s.fed)|
    ensures if ok then s.bits >= n else s.bits < n && s.next == |s.input|
    ensures s.bits < n + 8 || (s.bits == old(s.bits) && s.fed == old(s.fed) && s.hold == old(s.hold))
  {
    hide *;
    BitsFacts(s);
    UnreadIs(s);
    ghost var fed0, next0, bits0, hold0 := s.fed, s.next, s.bits, s.hold;
    if s.bits >= n {
      PulledNothing(s);
      PulledIsFed(s, fed0, next0, bits0);
      ByteBitsSize(s.fed);
      return true;
    }
    ok := NeedBits(s, n);
    BitsFacts(s);
    PulledFacts(s, fed0, next0, bits0);
    PulledIsFed(s, fed0, next0, bits0);
    UnreadIs(s);
    ByteBitsSize(s.fed);
  }

  /** BITS(n) and DROPBITS(n). */
  method Take(s: Inflater, n: nat) returns (v: nat)
    requires s.BitsOk() && n <= s.bits
    modifies s`hold, s`bits, s`pos
    ensures s.BitsOk() && s.bits == old(s.bits) - n && s.pos == old(s.pos) + n && s.pos <= |ByteBits(s.fed)|
    ensures old(s.pos) + n <= |ByteBits(s.fed)| && v == Number(ByteBits(s.fed), old(s.pos), n) < Pow2(n)
  {
    hide *;
    BitsAreNumber(s, n);
    v := Low(s.hold, n);
    DropBits(s, n);
    BitsFacts(s);
  }

  /** The step that the fields describe has been taken. */
  lemma Stepped(s: Inflater, c: Config)
    requires s.BitsOk() && s.OutOk() && s.PhaseOk() && s.FixedTables() && Reserved(s)
    requires Step(ByteBits(s.fed), c) == Some(Config(s.phase, s.hist, s.pos))
    requires s.bits < 8 || s.phase.Bad? || s.phase.Done?
    requires s.mode.COPY_? || s.mode.COPY? ==> s.bits == 0
    ensures Ready(s) && Reaches(ByteBits(s.fed), c, s.Cfg())
  {
    hide *;
    CfgIs(s);
    ReachesStep(ByteBits(s.fed), c, s.Cfg());
    if s.phase.Bad? || s.phase.Done? {
      DoneStuck(ByteBits(s.fed), s.Cfg());
    }
    IsReady(s);
  }

  /** No step, for want of input. */
  lemma Starved(s: Inflater, c: Config)
    requires s.BitsOk() && s.OutOk() && s.PhaseOk() && s.FixedTables() && Reserved(s)
    requires c == s.Cfg() && s.next == |s.input| && Step(ByteBits(s.fed), c) == None && !(s.mode in {CHECK, DONE, BAD})
    requires s.mode.COPY_? || s.mode.COPY? ==> s.bits == 0
    ensures Ready(s) && Reaches(ByteBits(s.fed), c, s.Cfg()) && Blocked(s)
  {
    hide *;
    CfgIs(s);
    PhaseGoesOn(s);
    ReachesSelf(ByteBits(s.fed), c);
    IsReady(s);
    IsBlocked(s);
  }

  lemma PhaseGoesOn(s: Inflater)
    requires s.PhaseOk() && !(s.mode in {CHECK, DONE, BAD})
    ensures !s.phase.Done? && !s.phase.Bad?
  {
    hide DecodesCode, GoodPhase;
  }

  /** If a step can be taken with no new input, less than a byte was held. */
  lemma TightMeans(s: Inflater, B: seq<bool>)
    requires Tight(s) && B == ByteBits(s.fed) && Step(B, Config(s.phase, s.hist, s.pos)).Some?
    ensures s.bits < 8
  {
    hide Step;
  }

  // ---- TYPE and TYPEDO

  /** Past the last block. */
  method DoEnd(s: Inflater)
    requires Ready(s) && (s.mode.TYPE? || s.mode.TYPEDO?) && s.last
    modifies s`mode, s`hold, s`bits, s`pos, s`phase
    ensures Ready(s) && Reaches(ByteBits(s.fed), old(s.Cfg()), s.Cfg())
    ensures s.mode == CHECK && s.next <= |s.input| && Unread(s) <= old(Unread(s))
  {
    hide *;
    ReadyParts(s);
    PhaseAtType(s);
    BitsFacts(s);
    CfgIs(s);
    UnreadIs(s);
    ghost var c := s.Cfg();
    ByteBitsSize(s.fed);
    EndStep(ByteBits(s.fed), s.hist, s.pos, s.bits);
    DropBits(s, s.bits % 8);
    s.mode := CHECK;
    s.phase := Done;
    PhaseEnds(s);
    Stepped(s, c);
    UnreadIs(s);
  }

  /** fixedtables */
  method FixedTablesUsed(s: Inflater)
    modifies s`lencode, s`lenAt, s`lenbits, s`distcode, s`distAt, s`distbits
    ensures s.lencode == s.distcode == s.fixedCodes && s.lenAt == 0 && s.lenbits == 9
    ensures s.distAt == s.fixedDistAt && s.distbits == 5
  {
    s.lencode, s.lenAt, s.lenbits := s.fixedCodes, 0, 9;
    s.distcode, s.distAt, s.distbits := s.fixedCodes, s.fixedDistAt, 5;
  }

  lemma ReservedFixed(s: Inflater)
    requires s.lencode == s.distcode == s.fixedCodes
    ensures Reserved(s)
  {
  }

  /** The mode for a block of this kind. */
  method EnterBlock(s: Inflater, kind: nat)
    requires s.Sized() && s.FixedTables() && Reserved(s) && kind < 4
    modifies s`mode, s`lencode, s`lenAt, s`lenbits, s`distcode, s`distAt, s`distbits, s`phase
    ensures s.phase == StartOf(kind, s.last) && s.PhaseOk() && Reserved(s) && !s.mode.COPY? && !s.mode.COPY_?
  {
    hide *;
    s.phase := StartOf(kind, s.last);
    if kind == 0 {
      s.mode := STORED;
    } else if kind == 1 {
      FixedTablesUsed(s);
      ReservedFixed(s);
      s.mode := LEN_;
    } else if kind == 2 {
      s.mode := TABLE;
    } else {
      s.mode := BAD;
    }
    PhaseStarts(s, kind);
  }

  /** The three bits of a block's header. */
  method ReadHeader(s: Inflater, ghost c: Config)
    requires s.BitsOk() && s.OutOk() && s.Sized() && s.FixedTables() && Reserved(s) && !s.last
    requires c == Config(Header(false), s.hist, s.pos) && 3 <= s.bits < 11 && s.next <= |s.input|
    modifies s`mode, s`last, s`lencode, s`lenAt, s`lenbits, s`distcode, s`distAt, s`distbits, s`hold, s`bits, s`pos, s`phase
    ensures Ready(s) && Reaches(ByteBits(s.fed), c, s.Cfg()) && Unread(s) < old(Unread(s))
  {
    hide *;
    BitsFacts(s);
    HeaderStep(ByteBits(s.fed), s.hist, s.pos);
    UnreadIs(s);
    PowersUpTo5();
    var isLast := Take(s, 1);
    s.last := isLast == 1;
    var kind := Take(s, 2);
    EnterBlock(s, kind);
    UnreadIs(s);
    Stepped(s, c);
  }

  /** Modes TYPE and TYPEDO. */
  method DoType(s: Inflater) returns (leave: bool)
    requires Ready(s) && (s.mode.TYPE? || s.mode.TYPEDO?)
    modifies s`mode, s`last, s`lencode, s`lenAt, s`lenbits, s`distcode, s`distAt, s`distbits
    modifies s`hold, s`bits, s`next, s`fed, s`pos, s`phase
    ensures Ready(s) && Fed(s, old(s.fed), old(s.next)) && Reaches(ByteBits(s.fed), old(s.Cfg()), s.Cfg())
    ensures leave ==> Blocked(s)
    ensures s.next <= |s.input| && Unread(s) <= old(Unread(s)) && (!leave ==> s.mode == CHECK || Unread(s) < old(Unread(s)))
  {
    hide *;
    ReadyParts(s);
    PhaseAtType(s);
    BitsFacts(s);
    CfgIs(s);
    UnreadIs(s);
    PulledNothing(s);
    PulledIsFed(s, s.fed, s.next, s.bits);
    ghost var c := s.Cfg();
    leave := false;
    if s.last {
      DoEnd(s);
      UnreadIs(s);
      return;
    }
    ghost var fed0 := s.fed;
    var ok := Need(s, 3);
    ghost var B := ByteBits(s.fed);
    if !ok {
      HeaderShort(B, s.hist, s.pos);
      Starved(s, c);
      return true;
    }
    HeaderStep(B, s.hist, s.pos);
    if s.fed == fed0 {
      TightMeans(s, B);
    }
    ReadHeader(s, c);
  }

  lemma DoneStuck(B: seq<bool>, c: Config)
    requires c.phase.Done? || c.phase.Bad?
    ensures Step(B, c) == None
  {
  }

  // ---- Output

  /** Output bytes written since the place put0. */
  ghost predicate Wrote(s: Inflater, before: seq<byte>, put0: nat, hist0: seq<byte>)
    reads s`output, s`put, s`hist, s.output
  {
    put0 <= s.put <= s.output.Length == |before| && hist0 <= s.hist && |s.hist| - |hist0| == s.put - put0 &&
    forall j :: 0 <= j < |before| && !(put0 <= j < s.put) ==> s.output[j] == before[j]
  }

  lemma WroteNothing(s: Inflater)
    requires s.put <= s.output.Length
    ensures Wrote(s, s.output[..], s.put, s.hist)
  {
  }

  lemma WroteMore(s: Inflater, before: seq<byte>, put0: nat, hist0: seq<byte>, mid: seq<byte>, put1: nat, hist1: seq<byte>, b: byte)
    requires put0 <= put1 < |mid| == |before| == s.output.Length && hist0 <= hist1 && |hist1| - |hist0| == put1 - put0
    requires forall j :: 0 <= j < |before| && !(put0 <= j < put1) ==> mid[j] == before[j]
    requires s.output[..] == mid[put1 := b] && s.put == put1 + 1 && s.hist == hist1 + [b]
    ensures Wrote(s, before, put0, hist0)
  {
    forall j | 0 <= j < |before| && !(put0 <= j < s.put)
      ensures s.output[j] == before[j]
    {
      assert s.output[..][j] == mid[j];
    }
  }

  lemma WroteFacts(s: Inflater, before: seq<byte>, put0: nat, hist0: seq<byte>)
    requires Wrote(s, before, put0, hist0)
    ensures put0 <= s.put <= s.output.Length == |before| && hist0 <= s.hist && |s.hist| - |hist0| == s.put - put0
    ensures forall j :: 0 <= j < |before| && !(put0 <= j < s.put) ==> s.output[..][j] == before[j]
  {
  }

  lemma OutFacts(s: Inflater)
    requires s.OutOk()
    ensures s.start <= s.put && s.put + s.left <= s.output.Length && s.put - s.start <= |s.hist| && s.output != s.window
    ensures s.hist[|s.hist| - (s.put - s.start)..] == s.output[s.start..s.put]
    ensures WindowHolds(s.window[..], s.wsize, s.whave, s.wnext, s.hist[..|s.hist| - (s.put - s.start)])
    ensures WindowFull(s.whave, s.hist[..|s.hist| - (s.put - s.start)])
  {
  }

  lemma OutGrows(s: Inflater, hist0: seq<byte>, before: seq<byte>, put0: nat, left0: nat, b: byte)
    requires s.output != s.window && s.start <= put0 && put0 + left0 <= |before| == s.output.Length && 0 < left0
    requires put0 - s.start <= |hist0| && hist0[|hist0| - (put0 - s.start)..] == before[s.start..put0]
    requires WindowHolds(s.window[..], s.wsize, s.whave, s.wnext, hist0[..|hist0| - (put0 - s.start)])
    requires WindowFull(s.whave, hist0[..|hist0| - (put0 - s.start)])
    requires s.output[..] == before[put0 := b] && s.put == put0 + 1 && s.left == left0 - 1 && s.hist == hist0 + [b]
    ensures s.OutOk()
  {
    hide WindowHolds, WindowFull;
    var n := put0 - s.start;
    assert s.hist[|s.hist| - (n + 1)..] == hist0[|hist0| - n..] + [b];
    assert s.output[s.start..s.put] == before[s.start..put0] + [b] by {
      assert s.output[s.start..s.put] == before[put0 := b][s.start..s.put];
    }
    assert s.hist[..|s.hist| - (n + 1)] == hist0[..|hist0| - n];
  }

  /** *put++ = b */
  method PutOut(s: Inflater, b: byte)
    requires s.OutOk() && s.left > 0
    modifies s`put, s`left, s`hist, s.output
    ensures s.OutOk() && s.put == old(s.put) + 1 && s.left == old(s.left) - 1 && s.hist == old(s.hist) + [b]
    ensures old(s.put) < s.output.Length && s.output[..] == old(s.output[..])[old(s.put) := b]
  {
    hide *;
    OutFacts(s);
    ghost var hist0, before, put0, left0 := s.hist, s.output[..], s.put, s.left;
    s.output[s.put] := b;
    s.put := s.put + 1;
    s.left := s.left - 1;
    s.hist := s.hist + [b];
    OutGrows(s, hist0, before, put0, left0, b);
  }

  // ---- STORED and COPY

  lemma PhaseAtStored(s: Inflater)
    requires s.PhaseOk() && s.mode.STORED?
    ensures s.phase == StoredLength(s.last) && s.Sized()
  {
    hide DecodesCode, GoodPhase;
  }

  lemma StoredPhases(s: Inflater, n: nat)
    requires s.Sized() && n < 65536
    ensures s.mode == STORED && s.phase == StoredLength(s.last) ==> s.PhaseOk()
    ensures s.mode in {COPY_, COPY} && s.phase == StoredCopy(s.last, n) && s.length == n ==> s.PhaseOk()
    ensures s.mode == BAD && s.phase == Bad ==> s.PhaseOk()
    ensures s.mode == TYPE && s.phase == Header(s.last) ==> s.PhaseOk()
    ensures s.mode == TABLE && s.phase == TableSizes(s.last) ==> s.PhaseOk()
  {
  }

  lemma AlignStep(B: seq<bool>, last: bool, out: seq<byte>, pos: nat, bits: nat)
    requires pos + bits == |B| && |B| % 8 == 0
    ensures (pos + bits % 8) % 8 == 0 && (pos % 8 == 0 <==> bits % 8 == 0)
    ensures bits % 8 != 0 ==> Step(B, Config(StoredLength(last), out, pos)) == Some(Config(StoredLength(last), out, pos + bits % 8))
  {
    hide StepHeader, StepStoredCopy, StepTableSizes, StepClLengths, StepCodeLengths, StepLength,
      StepLengthExtra, StepDistance, StepDistanceExtra, StepMatch, Number;
  }

  ghost function AfterStoredLength(B: seq<bool>, last: bool, out: seq<byte>, pos: nat): Config
    requires pos + 32 <= |B|
  {
    if Number(B, pos, 16) + Number(B, pos + 16, 16) == 65535
    then Config(StoredCopy(last, Number(B, pos, 16)), out, pos + 32)
    else Config(Bad, out, pos)
  }

  lemma AfterStoredIs(B: seq<bool>, last: bool, out: seq<byte>, pos: nat)
    requires pos + 32 <= |B|
    ensures AfterStoredLength(B, last, out, pos) ==
            if Number(B, pos, 16) + Number(B, pos + 16, 16) == 65535
            then Config(StoredCopy(last, Number(B, pos, 16)), out, pos + 32)
            else Config(Bad, out, pos)
  {
  }

  lemma StoredStep(B: seq<bool>, last: bool, out: seq<byte>, pos: nat)
    requires pos % 8 == 0
    ensures pos <= |B| && pos + 32 > |B| ==> Step(B, Config(StoredLength(last), out, pos)) == None
    ensures pos + 32 <= |B| ==> Step(B, Config(StoredLength(last), out, pos)) == Some(AfterStoredLength(B, last, out, pos))
  {
    hide Number;
  }

  lemma LengthWords(s: Inflater)
    requires s.BitsOk() && s.bits == 32
    ensures s.pos + 32 <= |ByteBits(s.fed)|
    ensures Low(s.hold, 16) == Number(ByteBits(s.fed), s.pos, 16) < 65536
    ensures High(s.hold, 16) == Number(ByteBits(s.fed), s.pos + 16, 16) < 65536
  {
    hide ByteBits, Bits, Number;
    BitsFacts(s);
    BitsAreNumber(s, 16);
    Pow2Of16();
    DropMath(s.hold, 32, 16, ByteBits(s.fed), s.pos);
    SixteenMore(High(s.hold, 16), ByteBits(s.fed), s.pos + 16);
  }

  lemma SixteenMore(v: nat, B: seq<bool>, pos: nat)
    requires v < Pow2(16) && pos + 16 == |B| && Bits(v, 16) == B[pos..]
    ensures Number(B, pos, 16) == v < 65536
  {
    hide Bits;
    Pow2Of16();
    ValBits(v, 16);
    LowBound(v, 16);
    assert B[pos..pos + 16] == B[pos..];
  }

  /** BYTEBITS in mode STORED. */
  method AlignStored(s: Inflater)
    requires Ready(s) && s.mode.STORED?
    modifies s`hold, s`bits, s`pos
    ensures s.BitsOk() && s.bits % 8 == 0 && s.pos % 8 == 0 && s.next <= |s.input| && Unread(s) <= old(Unread(s))
    ensures Reaches(ByteBits(s.fed), old(s.Cfg()), s.Cfg())
    ensures s.bits < 8 || s.bits == old(s.bits)
    ensures s.bits == old(s.bits) ==> s.pos == old(s.pos)
  {
    hide *;
    ReadyParts(s);
    PhaseAtStored(s);
    BitsFacts(s);
    CfgIs(s);
    UnreadIs(s);
    ghost var c := s.Cfg();
    ByteBitsSize(s.fed);
    AlignStep(ByteBits(s.fed), s.last, s.hist, s.pos, s.bits);
    if s.bits % 8 != 0 {
      TightMeans(s, ByteBits(s.fed));
      DropBits(s, s.bits % 8);
      CfgIs(s);
      ReachesStep(ByteBits(s.fed), c, s.Cfg());
    } else {
      ReachesSelf(ByteBits(s.fed), c);
    }
    UnreadIs(s);
  }

  /** The length of a stored block and its complement are there. */
  method EnterStored(s: Inflater, ghost c: Config)
    requires s.BitsOk() && s.OutOk() && s.Sized() && s.FixedTables() && Reserved(s) && s.bits == 32 && s.pos % 8 == 0
    requires c == Config(StoredLength(s.last), s.hist, s.pos) && s.next <= |s.input|
    modifies s`mode, s`length, s`hold, s`bits, s`pos, s`phase
    ensures Ready(s) && Reaches(ByteBits(s.fed), c, s.Cfg()) && Unread(s) <= old(Unread(s))
    ensures Unread(s) < old(Unread(s)) || s.mode == BAD
  {
    hide *;
    BitsFacts(s);
    UnreadIs(s);
    LengthWords(s);
    StoredStep(ByteBits(s.fed), s.last, s.hist, s.pos);
    AfterStoredIs(ByteBits(s.fed), s.last, s.hist, s.pos);
    if Low(s.hold, 16) != 65535 - High(s.hold, 16) {
      s.mode := BAD;
      s.phase := Bad;
      StoredPhases(s, 0);
    } else {
      s.length := Low(s.hold, 16);
      DropBits(s, 32);
      s.mode := COPY_;
      s.phase := StoredCopy(s.last, s.length);
      StoredPhases(s, s.length);
    }
    UnreadIs(s);
    Stepped(s, c);
  }

  /** Mode STORED. */
  method DoStored(s: Inflater) returns (leave: bool)
    requires Ready(s) && s.mode.STORED?
    modifies s`mode, s`length, s`hold, s`bits, s`next, s`fed, s`pos, s`phase
    ensures Ready(s) && Fed(s, old(s.fed), old(s.next)) && Reaches(ByteBits(s.fed), old(s.Cfg()), s.Cfg())
    ensures leave ==> Blocked(s)
    ensures s.next <= |s.input| && Unread(s) <= old(Unread(s))
    ensures !leave ==> Unread(s) < old(Unread(s)) || s.mode == BAD
  {
    hide *;
    ReadyParts(s);
    PhaseAtStored(s);
    PhaseIsGood(s);
    BitsFacts(s);
    CfgIs(s);
    ghost var c0 := s.Cfg();
    AlignStored(s);
    CfgIs(s);
    UnreadIs(s);
    ghost var c := s.Cfg();
    ghost var fed0, next0 := s.fed, s.next;
    var ok := Need(s, 32);
    FedFacts(s, fed0, next0);
    ReachesLater(fed0, s, c0, c);
    StoredStep(ByteBits(s.fed), s.last, s.hist, s.pos);
    StoredPhases(s, 0);
    if !ok {
      Starved(s, c);
      ReachesTrans(ByteBits(s.fed), c0, c, s.Cfg());
      return true;
    }
    leave := false;
    EnterStored(s, c);
    ReachesTrans(ByteBits(s.fed), c0, c, s.Cfg());
  }

  /** What was reached stays reached as more input arrives. */
  lemma ReachesLater(fed0: seq<byte>, s: Inflater, a: Config, b: Config)
    requires Reaches(ByteBits(fed0), a, b) && ByteBits(fed0) <= ByteBits(s.fed) && GoodPhase(a.phase)
    ensures Reaches(ByteBits(s.fed), a, b) && GoodPhase(b.phase)
  {
    hide *;
    ReachesExtends(ByteBits(fed0), ByteBits(s.fed), a, b);
  }

  lemma PhaseAtCopy(s: Inflater)
    requires s.PhaseOk() && s.mode in {COPY_, COPY}
    ensures s.phase == StoredCopy(s.last, s.length) && s.Sized() && s.length < 65536
  {
    hide DecodesCode;
  }

  /** A byte straight from the input. */
  lemma ByteStep(fed: seq<byte>, b: byte, last: bool, left: nat, out: seq<byte>, pos: nat)
    requires pos == 8 * |fed| && left > 0
    ensures Step(ByteBits(fed + [b]), Config(StoredCopy(last, left), out, pos))
         == Some(Config(StoredCopy(last, left - 1), out + [b], pos + 8))
    ensures Step(ByteBits(fed), Config(StoredCopy(last, left), out, pos)) == None
  {
    hide ByteBits, Bits, Number, StepHeader, StepStoredLength, StepTableSizes, StepClLengths, StepCodeLengths, StepLength,
      StepLengthExtra, StepDistance, StepDistanceExtra, StepMatch;
    ByteBitsSize(fed);
    ByteBitsSnoc(fed, b);
    assert ByteBits(fed + [b])[pos..pos + 8] == Bits(b as nat, 8);
    Pow2Of8();
    AtNumberHere(ByteBits(fed + [b]), pos, b as nat);
  }

  lemma AtNumberHere(B: seq<bool>, pos: nat, v: nat)
    requires v < 256 && pos + 8 <= |B| && B[pos..pos + 8] == Bits(v, 8)
    ensures Number(B, pos, 8) == v
  {
    Pow2Of8();
    ValBits(v, 8);
    LowBound(v, 8);
  }

  lemma CopyEndStep(B: seq<bool>, last: bool, out: seq<byte>, pos: nat)
    requires pos <= |B|
    ensures Step(B, Config(StoredCopy(last, 0), out, pos)) == Some(Config(Header(last), out, pos))
  {
  }

  lemma EmptyHold(s: Inflater, fed0: seq<byte>, b: byte)
    requires s.hold == 0 && s.bits == 0 && s.next <= |s.input| && s.fed == fed0 + [b] && s.pos == 8 * |fed0| + 8
    ensures s.BitsOk()
  {
    Pow2Zero();
    NoBits(0);
    ByteBitsSize(s.fed);
    assert ByteBits(s.fed)[s.pos..] == [];
  }

  lemma NoHold(s: Inflater)
    requires s.BitsOk() && s.bits == 0
    ensures s.hold == 0 && s.pos == 8 * |s.fed| == |ByteBits(s.fed)| && s.next <= |s.input|
  {
    Pow2Zero();
    ByteBitsSize(s.fed);
  }

  lemma FedMore(s: Inflater, fed0: seq<byte>, next0: nat, fed1: seq<byte>, next1: nat)
    requires next0 <= next1 < |s.input| && fed1 == fed0 + s.input[next0..next1] && ByteBits(fed0) <= ByteBits(fed1)
    requires s.fed == fed1 + [s.input[next1]] && s.next == next1 + 1
    ensures Fed(s, fed0, next0) && ByteBits(fed1) <= ByteBits(s.fed)
  {
    hide ByteBits;
    ByteBitsSnoc(fed1, s.input[next1]);
    assert s.input[next0..s.next] == s.input[next0..next1] + [s.input[next1]];
  }

  /** The input moves on by a byte. */
  method PassByte(s: Inflater, ghost fed0: seq<byte>, ghost next0: nat)
    requires s.BitsOk() && s.bits == 0 && s.length > 0 && s.next < |s.input| && Fed(s, fed0, next0)
    modifies s`length, s`next, s`fed, s`pos, s`phase
    ensures s.BitsOk() && s.length == old(s.length) - 1 && s.next == old(s.next) + 1 && s.pos == old(s.pos) + 8
    ensures s.fed == old(s.fed) + [s.input[old(s.next)]] && s.phase == StoredCopy(s.last, s.length) && Fed(s, fed0, next0)
    ensures ByteBits(old(s.fed)) <= ByteBits(s.fed)
  {
    hide *;
    NoHold(s);
    FedFacts(s, fed0, next0);
    ghost var fed1, next1 := s.fed, s.next;
    s.next := s.next + 1;
    s.length := s.length - 1;
    s.fed := s.fed + [s.input[next1]];
    s.pos := s.pos + 8;
    s.phase := StoredCopy(s.last, s.length);
    EmptyHold(s, fed1, s.input[next1]);
    FedMore(s, fed0, next0, fed1, next1);
  }

  /** One byte of a stored block, from the input to the output. */
  method CopyByte(s: Inflater, ghost fed0: seq<byte>, ghost next0: nat, ghost before: seq<byte>, ghost put0: nat,
                  ghost hist0: seq<byte>, ghost c0: Config)
    requires s.BitsOk() && s.OutOk() && s.bits == 0 && s.phase == StoredCopy(s.last, s.length)
    requires s.length > 0 && s.left > 0 && s.next < |s.input|
    requires Fed(s, fed0, next0) && Wrote(s, before, put0, hist0)
    requires Reaches(ByteBits(s.fed), c0, s.Cfg()) && GoodPhase(c0.phase)
    modifies s`length, s`next, s`fed, s`pos, s`phase, s`put, s`left, s`hist, s.output
    ensures s.BitsOk() && s.OutOk() && s.bits == 0 && s.phase == StoredCopy(s.last, s.length)
    ensures s.length == old(s.length) - 1 && s.left == old(s.left) - 1 && s.next == old(s.next) + 1 && s.put == old(s.put) + 1
    ensures Fed(s, fed0, next0) && Wrote(s, before, put0, hist0) && Reaches(ByteBits(s.fed), c0, s.Cfg())
  {
    hide *;
    NoHold(s);
    FedFacts(s, fed0, next0);
    WroteFacts(s, before, put0, hist0);
    OutFacts(s);
    CfgIs(s);
    ghost var c, fed1, next1 := s.Cfg(), s.fed, s.next;
    ghost var mid, put1, hist1 := s.output[..], s.put, s.hist;
    var b := s.input[s.next];
    ByteStep(s.fed, b, s.last, s.length, s.hist, s.pos);
    PutOut(s, b);
    PassByte(s, fed0, next0);
    WroteMore(s, before, put0, hist0, mid, put1, hist1, b);
    CfgIs(s);
    ReachesLater(fed1, s, c0, c);
    ReachesThen(ByteBits(s.fed), c0, c, s.Cfg());
  }

  /** Mode COPY. */
  method DoCopy(s: Inflater) returns (leave: bool)
    requires Ready(s) && s.mode.COPY?
    modifies s`mode, s`length, s`next, s`fed, s`pos, s`phase, s`put, s`left, s`hist, s.output
    ensures Ready(s) && Fed(s, old(s.fed), old(s.next)) && Reaches(ByteBits(s.fed), old(s.Cfg()), s.Cfg())
    ensures Wrote(s, old(s.output[..]), old(s.put), old(s.hist))
    ensures leave ==> Blocked(s)
    ensures s.next <= |s.input| && Unread(s) <= old(Unread(s)) && s.left <= old(s.left) && s.put + s.left == old(s.put + s.left)
    ensures !leave ==> Unread(s) < old(Unread(s)) || s.mode == TYPE
  {
    hide *;
    ReadyParts(s);
    PhaseAtCopy(s);
    PhaseIsGood(s);
    NoHold(s);
    OutFacts(s);
    UnreadIs(s);
    CfgIs(s);
    ghost var c0, fed0, next0, before, put0, hist0 := s.Cfg(), s.fed, s.next, s.output[..], s.put, s.hist;
    PulledNothing(s);
    PulledIsFed(s, fed0, next0, 0);
    WroteNothing(s);
    leave := false;
    if s.length == 0 {
      CopyEndStep(ByteBits(s.fed), s.last, s.hist, s.pos);
      s.mode := TYPE;
      s.phase := Header(s.last);
      StoredPhases(s, 0);
      Stepped(s, c0);
      return;
    }
    var copy: nat := s.length;
    if copy > |s.input| - s.next {
      copy := |s.input| - s.next;
    }
    if copy > s.left {
      copy := s.left;
    }
    ReachesSelf(ByteBits(s.fed), c0);
    if copy == 0 {
      ByteStep(s.fed, 0, s.last, s.length, s.hist, s.pos);
      IsBlocked(s);
      return true;
    }
    while copy > 0
      invariant s.mode == COPY && s.left <= old(s.left) && s.put + s.left == old(s.put + s.left)
      invariant s.BitsOk() && s.OutOk() && s.bits == 0 && s.phase == StoredCopy(s.last, s.length)
      invariant copy <= s.length < 65536 && copy <= s.left && s.next + copy <= |s.input|
      invariant Fed(s, fed0, next0) && Wrote(s, before, put0, hist0) && Reaches(ByteBits(s.fed), c0, s.Cfg())
      invariant s.next > next0 || copy > 0
      decreases copy
    {
      FedFacts(s, fed0, next0);
      CopyByte(s, fed0, next0, before, put0, hist0, c0);
      FedFacts(s, fed0, next0);
      copy := copy - 1;
    }
    StoredPhases(s, s.length);
    UnreadIs(s);
    IsReady(s);
  }
}
