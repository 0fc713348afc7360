/** inflate of inflate.c: the loop over the modes, and what any sequence of calls amounts to. */
module InflateCalls {
  import opened Machine
  import opened BitStrings
  import opened Canonical
  import opened DecodeTable
  import opened InfTrees
  import opened BitWriter
  import opened DeflateSpec
  import opened DeflateRuns
  import opened InflateState
  import opened FastSteps
  import opened FastLoop
  import opened InflateModes
  import opened InflateTables
  import opened InflateCodes
  import opened InflateWindow

  /** How far the modes are from the end, when neither input nor output moves. */
  function Rank(m: Mode): nat {
    match m
    case HEAD => 18
    case COPY_ => 17
    case COPY => 16
    case STORED => 15
    case TYPE => 14
    case TYPEDO => 14
    case TABLE => 13
    case LENLENS => 12
    case CODELENS => 11
    case LEN_ => 10
    case LEN => 9
    case LENEXT => 8
    case DIST => 7
    case DISTEXT => 6
    case MATCH => 5
    case LIT => 4
    case CHECK => 2
    case DONE => 1
    case BAD => 0
  }

  /** The stream has come closer to its end. */
  ghost predicate Closer(unread0: nat, left0: nat, mode0: Mode, unread: nat, left: nat, mode: Mode) {
    unread < unread0 || (unread == unread0 && left < left0) ||
    (unread == unread0 && left == left0 && Rank(mode) < Rank(mode0))
  }

  lemma HeadPhase(s: Inflater)
    requires s.PhaseOk()
    ensures s.mode.HEAD? ==> s.phase == Header(s.last)
    ensures s.mode.CHECK? || s.mode.DONE? ==> s.phase == Done
    ensures s.mode.BAD? ==> s.phase == Bad
    ensures s.mode.COPY_? ==> s.phase == StoredCopy(s.last, s.length) && s.length < 65536
    ensures s.Sized()
  {
    hide DecodesCode;
  }

  lemma TypePhase(s: Inflater)
    requires s.Sized() && s.mode == TYPEDO && s.phase == Header(s.last)
    ensures s.PhaseOk()
  {
  }

  /** The modes that only pass on to the next one. */
  method PassOn(s: Inflater)
    requires Ready(s) && s.mode in {HEAD, COPY_, LEN_, CHECK}
    modifies s`mode
    ensures Ready(s) && Rank(s.mode) < Rank(old(s.mode))
  {
    hide *;
    ReadyParts(s);
    HeadPhase(s);
    TightIs(s);
    Ranks();
    if s.mode == HEAD {
      s.mode := TYPEDO;
      TypePhase(s);
    } else if s.mode == COPY_ {
      s.mode := COPY;
      StoredPhases(s, s.length);
    } else if s.mode == LEN_ {
      ghost var ll, dl := PhaseAtLen(s);
      s.mode := LEN;
      CodePhases(s, ll, dl);
    } else {
      s.mode := DONE;
      PhaseEnds(s);
    }
    IsReady(s);
  }

  lemma Ranks()
    ensures Rank(TYPEDO) < Rank(HEAD) && Rank(COPY) < Rank(COPY_) && Rank(LEN) < Rank(LEN_) && Rank(DONE) < Rank(CHECK)
    ensures forall m :: m in {TYPE, TYPEDO} ==> Rank(CHECK) < Rank(m)
    ensures forall m :: m != BAD ==> Rank(BAD) < Rank(m)
    ensures Rank(TYPE) < Rank(COPY) && Rank(CODELENS) < Rank(LENLENS) && Rank(LEN_) < Rank(CODELENS)
    ensures Rank(DIST) < Rank(LENEXT) && Rank(MATCH) < Rank(DISTEXT)
  {
  }

  lemma CloserIs(unread0: nat, left0: nat, mode0: Mode, unread: nat, left: nat, mode: Mode)
    requires unread <= unread0 && left <= left0
    requires unread < unread0 || left < left0 || Rank(mode) < Rank(mode0)
    ensures Closer(unread0, left0, mode0, unread, left, mode)
  {
  }

  lemma NothingFed(s: Inflater)
    requires s.next <= |s.input|
    ensures Fed(s, s.fed, s.next)
  {
    assert s.fed + s.input[s.next..s.next] == s.fed;
  }

  /** The modes that read headers and tables. */
  method DispatchHeader(s: Inflater) returns (leave: bool)
    requires Ready(s) && s.mode in {TYPE, TYPEDO, STORED, TABLE, LENLENS, CODELENS}
    modifies s`mode, s`last, s`length, s`nlen, s`ndist, s`ncode, s`have, s.lens, s.work, s.codes
    modifies s`lencode, s`lenAt, s`lenbits, s`distcode, s`distAt, s`distbits
    modifies s`hold, s`bits, s`next, s`fed, s`pos, s`phase
    ensures Ready(s) && Fed(s, old(s.fed), old(s.next)) && Reaches(ByteBits(s.fed), old(s.Cfg()), s.Cfg())
    ensures leave ==> Blocked(s)
    ensures s.next <= |s.input| && Unread(s) <= old(Unread(s))
    ensures !leave ==> Unread(s) < old(Unread(s)) || Rank(s.mode) < Rank(old(s.mode))
  {
    hide *;
    Ranks();
    if s.mode == TYPE || s.mode == TYPEDO {
      leave := DoType(s);
    } else if s.mode == STORED {
      leave := DoStored(s);
    } else if s.mode == TABLE {
      leave := DoTable(s);
    } else if s.mode == LENLENS {
      leave := DoLenLens(s);
    } else {
      leave := DoCodeLens(s);
    }
  }

  /** The modes that read codes. */
  method DispatchCode(s: Inflater) returns (leave: bool)
    requires Ready(s) && s.mode in {LEN, LENEXT, DIST, DISTEXT}
    modifies s`mode, s`length, s`offset, s`extra, s`hold, s`bits, s`next, s`fed, s`pos, s`phase
    ensures Ready(s) && Fed(s, old(s.fed), old(s.next)) && Reaches(ByteBits(s.fed), old(s.Cfg()), s.Cfg())
    ensures leave ==> Blocked(s)
    ensures s.next <= |s.input| && Unread(s) <= old(Unread(s))
    ensures !leave ==> Unread(s) < old(Unread(s)) || Rank(s.mode) < Rank(old(s.mode))
  {
    hide *;
    Ranks();
    if s.mode == LEN {
      leave := DoLen(s);
    } else if s.mode == LENEXT {
      leave := DoLenExt(s);
    } else if s.mode == DIST {
      leave := DoDist(s);
    } else {
      leave := DoDistExt(s);
    }
  }

  /** The modes that write output. */
  method DispatchOutput(s: Inflater) returns (leave: bool)
    requires Ready(s) && s.mode in {COPY, MATCH, LIT}
    modifies s`mode, s`length, s`next, s`fed, s`pos, s`phase, s`put, s`left, s`hist, s.output
    ensures Ready(s) && Fed(s, old(s.fed), old(s.next)) && Reaches(ByteBits(s.fed), old(s.Cfg()), s.Cfg())
    ensures Wrote(s, old(s.output[..]), old(s.put), old(s.hist))
    ensures leave ==> Blocked(s)
    ensures s.next <= |s.input| && Unread(s) <= old(Unread(s)) && s.left <= old(s.left) && s.put + s.left == old(s.put + s.left)
    ensures !leave ==> Unread(s) < old(Unread(s)) || s.left < old(s.left) || Rank(s.mode) < Rank(old(s.mode))
  {
    hide *;
    Ranks();
    ReadyParts(s);
    BitsFacts(s);
    NothingFed(s);
    OutFacts(s);
    if s.mode == COPY {
      leave := DoCopy(s);
      ReadyParts(s);
    } else if s.mode == MATCH {
      leave := DoMatch(s);
    } else {
      leave := DoLit(s);
    }
  }

  lemma WroteTrans(s: Inflater, before: seq<byte>, put0: nat, hist0: seq<byte>, mid: seq<byte>, put1: nat, hist1: seq<byte>)
    requires put0 <= put1 <= |mid| == |before| && hist0 <= hist1 && |hist1| - |hist0| == put1 - put0
    requires forall j :: 0 <= j < |before| && !(put0 <= j < put1) ==> mid[j] == before[j]
    requires Wrote(s, mid, put1, hist1)
    ensures Wrote(s, before, put0, hist0)
  {
    forall j | 0 <= j < |before| && !(put0 <= j < s.put)
      ensures s.output[j] == before[j]
    {
      assert s.output[j] == mid[j];
    }
  }

  /** One turn of the loop over the modes. */
  method Turn(s: Inflater, ghost c0: Config, ghost fed0: seq<byte>, ghost next0: nat,
              ghost before: seq<byte>, ghost put0: nat, ghost hist0: seq<byte>) returns (leave: bool)
    requires Ready(s) && s.mode != DONE && s.mode != BAD && GoodPhase(c0.phase)
    requires Fed(s, fed0, next0) && Wrote(s, before, put0, hist0) && Reaches(ByteBits(s.fed), c0, s.Cfg())
    modifies s`mode, s`last, s`length, s`offset, s`extra, s`nlen, s`ndist, s`ncode, s`have, s.lens, s.work, s.codes
    modifies s`lencode, s`lenAt, s`lenbits, s`distcode, s`distAt, s`distbits
    modifies s`hold, s`bits, s`next, s`fed, s`pos, s`phase, s`put, s`left, s`hist, s.output
    ensures Ready(s) && Fed(s, fed0, next0) && Wrote(s, before, put0, hist0) && Reaches(ByteBits(s.fed), c0, s.Cfg())
    ensures leave ==> Blocked(s)
    ensures s.next <= |s.input| && old(s.next) <= |s.input| && s.put + s.left == old(s.put + s.left)
    ensures !leave ==> Closer(old(Unread(s)), old(s.left), old(s.mode), Unread(s), s.left, s.mode)
  {
    hide *;
    ReadyParts(s);
    BitsFacts(s);
    OutFacts(s);
    FedFacts(s, fed0, next0);
    WroteFacts(s, before, put0, hist0);
    CfgIs(s);
    ghost var fed1, next1, c1, mid, put1, hist1 := s.fed, s.next, s.Cfg(), s.output[..], s.put, s.hist;
    ghost var unread1, left1, mode1 := Unread(s), s.left, s.mode;
    ModesSplit(s.mode);
    leave := false;
    if s.mode in {HEAD, COPY_, LEN_, CHECK} {
      PassOn(s);
      CfgIs(s);
    } else if s.mode in {COPY, MATCH, LIT} {
      leave := DispatchOutput(s);
      WroteTrans(s, before, put0, hist0, mid, put1, hist1);
      FedTrans(s, fed0, next0, fed1, next1);
      ReachesOn(s, fed1, c0, c1);
    } else if s.mode == LEN && |s.input| - s.next >= 6 && s.left >= 258 {
      InflateFast(s);
      WroteTrans(s, before, put0, hist0, mid, put1, hist1);
      FedTrans(s, fed0, next0, fed1, next1);
      ReachesOn(s, fed1, c0, c1);
    } else if s.mode in {LEN, LENEXT, DIST, DISTEXT} {
      leave := DispatchCode(s);
      FedTrans(s, fed0, next0, fed1, next1);
      ReachesOn(s, fed1, c0, c1);
    } else {
      leave := DispatchHeader(s);
      FedTrans(s, fed0, next0, fed1, next1);
      ReachesOn(s, fed1, c0, c1);
    }
    if !leave {
      CloserIs(unread1, left1, mode1, Unread(s), s.left, s.mode);
    }
  }

  lemma ModesSplit(m: Mode)
    ensures m in {DONE, BAD} || m in {HEAD, COPY_, LEN_, CHECK} || m in {COPY, MATCH, LIT} || m in {LEN, LENEXT, DIST, DISTEXT} ||
            m in {TYPE, TYPEDO, STORED, TABLE, LENLENS, CODELENS}
  {
  }

  // ---- Calls

  datatype Ret = Ok | StreamEnd | DataError | BufError

  ghost predicate FromStart(s: Inflater)
    reads s`fed, s`phase, s`hist, s`pos
  {
    Reaches(ByteBits(s.fed), START(), s.Cfg())
  }

  /** The state between calls: all input has been accounted for, and the window holds the output's end. */
  ghost predicate Resting(s: Inflater)
    reads s, s.lens, s.window, s.fixedCodes, s.lencode, s.distcode
  {
    s.BitsOk() && s.PhaseOk() && s.FixedTables() && Tight(s) && Reserved(s) && FromStart(s) &&
    (s.mode.COPY_? || s.mode.COPY? ==> s.bits == 0) &&
    (s.mode != BAD ==> WindowHolds(s.window[..], s.wsize, s.whave, s.wnext, s.hist) && WindowFull(s.whave, s.hist))
  }

  lemma RestingParts(s: Inflater)
    requires Resting(s)
    ensures s.BitsOk() && s.PhaseOk() && s.FixedTables() && Tight(s) && Reserved(s) && FromStart(s) && s.Sized()
    ensures s.mode.COPY_? || s.mode.COPY? ==> s.bits == 0
    ensures s.mode != BAD ==> WindowHolds(s.window[..], s.wsize, s.whave, s.wnext, s.hist) && WindowFull(s.whave, s.hist)
  {
    hide DecodesCode, WindowHolds, Step, GoodPhase, WindowFull;
  }

  lemma IsResting(s: Inflater)
    requires s.BitsOk() && s.PhaseOk() && s.FixedTables() && Tight(s) && Reserved(s) && FromStart(s)
    requires s.mode.COPY_? || s.mode.COPY? ==> s.bits == 0
    requires s.mode != BAD ==> WindowHolds(s.window[..], s.wsize, s.whave, s.wnext, s.hist) && WindowFull(s.whave, s.hist)
    ensures Resting(s)
  {
    hide DecodesCode, WindowHolds, Step, GoodPhase, WindowFull;
  }

  /** Why a call came to its end. */
  ghost predicate Ended(s: Inflater, ret: Ret, allRead: bool, full: bool)
    reads s`fed, s`phase, s`hist, s`pos
  {
    (ret.StreamEnd? <==> s.phase.Done?) && (ret.DataError? <==> s.phase.Bad?) &&
    (ret.Ok? || ret.BufError? ==>
       (allRead && Step(ByteBits(s.fed), s.Cfg()) == None) ||
       (full && (s.phase.Match? || s.phase.Literal? || s.phase.StoredCopy?)))
  }

  /** LOAD: the state takes up the buffers of a call. */
  method Load(s: Inflater, input: seq<byte>, output: array<byte>, outAt: nat, avail: nat)
    requires Resting(s) && s.mode != BAD && output != s.window && outAt + avail <= output.Length
    modifies s`mode, s`input, s`next, s`output, s`put, s`start, s`left
    ensures Ready(s) && s.input == input && s.next == 0 && s.output == output && s.put == s.start == outAt && s.left == avail
    ensures s.mode == if old(s.mode) == TYPE then TYPEDO else old(s.mode)
  {
    hide *;
    RestingParts(s);
    HeadPhase(s);
    TakeBuffers(s, input, output, outAt, avail);
    if s.mode == TYPE {
      PhaseAtType(s);
      s.mode := TYPEDO;
      TypePhase(s);
    }
    TightIs(s);
    IsReady(s);
  }

  /** The pointers and counts of the caller. */
  method TakeBuffers(s: Inflater, input: seq<byte>, output: array<byte>, outAt: nat, avail: nat)
    requires s.BitsOk() && output != s.window && outAt + avail <= output.Length
    requires WindowHolds(s.window[..], s.wsize, s.whave, s.wnext, s.hist) && WindowFull(s.whave, s.hist)
    modifies s`input, s`next, s`output, s`put, s`start, s`left
    ensures s.BitsOk() && s.OutOk()
    ensures s.input == input && s.next == 0 && s.output == output && s.put == s.start == outAt && s.left == avail
  {
    hide *;
    BitsFacts(s);
    s.input, s.next := input, 0;
    s.output, s.put, s.start, s.left := output, outAt, outAt, avail;
    BitsHold(s);
    OutRests(s);
  }

  lemma AtEnd(s: Inflater)
    requires Ready(s)
    ensures s.mode == DONE ==> s.phase.Done?
    ensures s.mode == BAD ==> s.phase.Bad?
    ensures s.phase.Bad? ==> s.mode == BAD
    ensures s.phase.Done? ==> s.mode in {CHECK, DONE}
  {
    hide DecodesCode, Step, GoodPhase;
  }

  /** inf_leave: the window takes up the output, if it will be needed. */
  method Leave(s: Inflater)
    requires Ready(s) && FromStart(s)
    modifies s.window, s`wsize, s`whave, s`wnext, s`start
    ensures Resting(s)
  {
    hide *;
    ReadyParts(s);
    OutFacts(s);
    TightIs(s);
    if s.wsize != 0 || (s.put != s.start && s.mode != BAD) {
      UpdateWindow(s);
      OutFacts(s);
      assert s.hist[..|s.hist|] == s.hist;
    } else if s.mode != BAD {
      assert s.hist[..|s.hist|] == s.hist;
    }
    TightAgain(s);
    IsResting(s);
  }

  lemma TightAgain(s: Inflater)
    requires s.bits < 8 || Step(ByteBits(s.fed), s.Cfg()) == None
    ensures Tight(s)
  {
    hide Step;
  }

  lemma HistTail(s: Inflater, hist0: seq<byte>, outAt: nat)
    requires s.OutOk() && s.start == outAt <= s.put && hist0 <= s.hist && |s.hist| - |hist0| == s.put - outAt
    ensures s.put <= s.output.Length && s.hist == hist0 + s.output[outAt..s.put]
  {
    hide WindowHolds, WindowFull;
    assert s.hist[|s.hist| - (s.put - s.start)..] == s.output[s.start..s.put];
    assert s.hist == hist0 + s.hist[|hist0|..];
  }

  lemma StartGood()
    ensures GoodPhase(START().phase)
  {
  }

  lemma BlockedMeans(s: Inflater)
    requires Blocked(s)
    ensures !s.phase.Done? && !s.phase.Bad?
    ensures (s.next == |s.input| && Step(ByteBits(s.fed), s.Cfg()) == None) ||
            (s.left == 0 && (s.phase.Match? || s.phase.Literal? || s.phase.StoredCopy?))
  {
    hide Step;
  }

  lemma EndedIs(s: Inflater, ret: Ret, allRead: bool, full: bool)
    requires ret.StreamEnd? <==> s.phase.Done?
    requires ret.DataError? <==> s.phase.Bad?
    requires (allRead && Step(ByteBits(s.fed), s.Cfg()) == None) ||
             (full && (s.phase.Match? || s.phase.Literal? || s.phase.StoredCopy?)) || s.phase.Done? || s.phase.Bad?
    ensures Ended(s, ret, allRead, full)
  {
    hide Step;
  }

  /** inflate, with raw deflate data and Z_NO_FLUSH: reads from input, and writes to output[outAt..outAt + avail]. */
  method Inflate(s: Inflater, input: seq<byte>, output: array<byte>, outAt: nat, avail: nat)
    returns (ret: Ret, consumed: nat, produced: nat)
    requires Resting(s) && output != s.window && outAt + avail <= output.Length
    modifies s, s.lens, s.work, s.codes, s.window, output
    ensures Resting(s) && consumed <= |input| && produced <= avail
    ensures s.fed == old(s.fed) + input[..consumed] && s.hist == old(s.hist) + output[outAt..outAt + produced]
    ensures forall j :: 0 <= j < output.Length && !(outAt <= j < outAt + produced) ==> output[j] == old(output[j])
    ensures Ended(s, ret, consumed == |input|, produced == avail)
    ensures ret.Ok? ==> consumed + produced > 0
    ensures ret.BufError? ==> consumed == produced == 0
  {
    hide *;
    RestingParts(s);
    HeadPhase(s);
    ghost var fed0, hist0, before := s.fed, s.hist, output[..];
    if s.mode == BAD {
      assert input[..0] == [] && output[outAt..outAt] == [];
      EndedIs(s, DataError, 0 == |input|, 0 == avail);
      return DataError, 0, 0;
    }
    Load(s, input, output, outAt, avail);
    StartGood();
    NothingFed(s);
    WroteNothing(s);
    ReadyParts(s);
    BitsFacts(s);
    OutFacts(s);
    CfgIs(s);
    FromStartIs(s);
    var leave := false;
    while !leave && s.mode != DONE && s.mode != BAD
      invariant Ready(s) && s.input == input && s.output == output && s.start == outAt && s.next <= |s.input|
      invariant Fed(s, fed0, 0) && Wrote(s, before, outAt, hist0) && Reaches(ByteBits(s.fed), START(), s.Cfg())
      invariant s.put + s.left == outAt + avail && output != s.window
      invariant leave ==> Blocked(s)
      decreases !leave, if s.next <= |s.input| then Unread(s) else 0, s.left, Rank(s.mode)
    {
      ghost var unread1, left1, mode1 := Unread(s), s.left, s.mode;
      leave := Turn(s, START(), fed0, 0, before, outAt, hist0);
      if !leave {
        CloserMeans(unread1, left1, mode1, Unread(s), s.left, s.mode);
      }
    }
    ret, consumed, produced := EndCall(s, fed0, hist0, before, outAt, avail, leave);
  }

  /** inf_leave: the window is brought up to date, and the result told. */
  method EndCall(s: Inflater, ghost fed0: seq<byte>, ghost hist0: seq<byte>, ghost before: seq<byte>, outAt: nat, avail: nat, ghost leave: bool)
    returns (ret: Ret, consumed: nat, produced: nat)
    requires Ready(s) && s.start == outAt && s.next <= |s.input| && s.put + s.left == outAt + avail
    requires Fed(s, fed0, 0) && Wrote(s, before, outAt, hist0) && Reaches(ByteBits(s.fed), START(), s.Cfg())
    requires if leave then Blocked(s) else s.mode == DONE || s.mode == BAD
    modifies s.window, s`wsize, s`whave, s`wnext, s`start
    ensures Resting(s) && consumed == s.next && produced == s.put - outAt && produced <= avail
    ensures s.fed == fed0 + s.input[..consumed] && outAt + produced <= s.output.Length
    ensures s.hist == hist0 + s.output[outAt..outAt + produced]
    ensures |before| == s.output.Length
    ensures forall j :: 0 <= j < s.output.Length && !(outAt <= j < outAt + produced) ==> s.output[j] == before[j]
    ensures Ended(s, ret, consumed == |s.input|, produced == avail)
    ensures ret.Ok? ==> consumed + produced > 0
    ensures ret.BufError? ==> consumed == produced == 0
  {
    hide *;
    AtEnd(s);
    ReadyParts(s);
    OutFacts(s);
    FedFacts(s, fed0, 0);
    WroteFacts(s, before, outAt, hist0);
    HistTail(s, hist0, outAt);
    if leave {
      BlockedMeans(s);
    }
    ret := if s.mode == DONE then StreamEnd else if s.mode == BAD then DataError else Ok;
    consumed, produced := s.next, s.put - outAt;
    IsFromStart(s);
    Leave(s);
    if consumed == 0 && produced == 0 && ret == Ok {
      ret := BufError;
    }
    EndedIs(s, ret, consumed == |s.input|, produced == avail);
  }

  lemma FromStartIs(s: Inflater)
    requires FromStart(s)
    ensures Reaches(ByteBits(s.fed), START(), s.Cfg())
  {
    hide Reaches;
  }

  lemma IsFromStart(s: Inflater)
    requires Reaches(ByteBits(s.fed), START(), s.Cfg())
    ensures FromStart(s)
  {
    hide Reaches;
  }

  lemma CloserMeans(unread0: nat, left0: nat, mode0: Mode, unread: nat, left: nat, mode: Mode)
    requires Closer(unread0, left0, mode0, unread, left, mode)
    ensures unread < unread0 || (unread == unread0 && left < left0) ||
            (unread == unread0 && left == left0 && Rank(mode) < Rank(mode0))
  {
    hide Rank;
  }

  // ---- The start of a stream

  lemma FixedEntries()
    ensures Accepts(LENS, FixedLitLens()) && Accepts(DISTS, FixedDistLens(32))
    ensures !Rejected(LENS, FixedLitLens()) && !Rejected(DISTS, FixedDistLens(32))
    ensures RootBits(FixedLitLens(), 9) == 9 && Entries(FixedLitLens(), 9) == 512
    ensures RootBits(FixedDistLens(32), 5) == 5 && Entries(FixedDistLens(32), 5) == 32
    ensures Limit(LENS) == 852 && Limit(DISTS) == 592 && ENOUGH_LENS == 852 && ENOUGH_DISTS == 592
  {
    hide Entries, RootBits, Rejected, Complete;
    FixedCodesGood();
    FixedAre();
    OneTable(FixedLitLens(), 9, 200);
    OneTable(FixedDistLens(32), 5, 0);
    PowersUpTo5();
    PowersUpTo13();
  }

  lemma FixedAre()
    ensures |FixedLitLens()| == 288 && FixedLitLens()[200] == 9 && forall m :: 0 <= m < 288 ==> FixedLitLens()[m] <= 9
    ensures |FixedDistLens(32)| == 32 && FixedDistLens(32)[0] == 5 && forall m :: 0 <= m < 32 ==> FixedDistLens(32)[m] <= 5
    ensures Accepts(LENS, FixedLitLens()) && Accepts(DISTS, FixedDistLens(32))
    ensures GoodCodes(FixedLitLens(), FixedDistLens(32)) ==> !Rejected(LENS, FixedLitLens()) && !Rejected(DISTS, FixedDistLens(32))
  {
    hide Rejected;
  }

  lemma FixedTablesAre(s: Inflater)
    requires Accepts(LENS, FixedLitLens()) && Accepts(DISTS, FixedDistLens(32))
    requires DecodesCode(LENS, FixedLitLens(), s.fixedCodes[..], 0, 9)
    requires DecodesCode(DISTS, FixedDistLens(32), s.fixedCodes[..], s.fixedDistAt, 5)
    ensures s.FixedTables()
  {
    hide DecodesCode;
  }

  /** fixedtables, the first time. */
  method BuildFixed(s: Inflater)
    requires s.Sized()
    modifies s.work, s.fixedCodes, s`fixedDistAt
    ensures s.FixedTables()
  {
    hide *;
    InflateTables.LensFacts(s);
    FixedSize(s);
    FixedEntries();
    MaxBits();
    var ret, at, root := InflateTable(LENS, FixedLitLens(), s.fixedCodes, 0, 9, s.work);
    ghost var T := s.fixedCodes[..][..at];
    s.fixedDistAt := at;
    var at';
    ret, at', root := InflateTable(DISTS, FixedDistLens(32), s.fixedCodes, at, 5, s.work);
    assert T == s.fixedCodes[..][..at];
    DecodesMore(LENS, FixedLitLens(), T, s.fixedCodes[..], 0, 9);
    DecodesMore(DISTS, FixedDistLens(32), s.fixedCodes[..][..at'], s.fixedCodes[..], at, 5);
    FixedTablesAre(s);
  }

  lemma FixedSize(s: Inflater)
    requires s.Sized()
    ensures s.fixedCodes.Length == ENOUGH_LENS + ENOUGH_DISTS
  {
  }

  lemma FreshState(s: Inflater)
    requires s.Sized() && s.mode == HEAD && !s.last && s.hold == s.bits == s.wsize == s.whave == s.wnext == 0 && s.input == [] && s.next == 0
    requires s.fed == [] && s.hist == [] && s.pos == 0 && s.phase == Header(false) && s.lencode == s.distcode == s.fixedCodes
    requires s.FixedTables()
    ensures Resting(s)
  {
    hide DecodesCode, Step, Reaches;
    assert s.Cfg() == START();
    ReachesSelf(ByteBits(s.fed), START());
    assert Bits(0, 0) == [] && ByteBits([])[0..] == [];
  }

  /** inflateInit2 for raw data, with a window of 32K. */
  method InflateInit() returns (s: Inflater)
    ensures fresh(s) && fresh(s.lens) && fresh(s.work) && fresh(s.codes) && fresh(s.fixedCodes) && fresh(s.window)
    ensures Resting(s) && s.fed == [] && s.hist == []
  {
    var none := new byte[0];
    s := new Inflater(none);
    BuildFixed(s);
    FreshState(s);
  }

  /** The window read from wnext on, and around to it. */
  lemma Unrolled(window: seq<byte>, wsize: nat, whave: nat, wnext: nat, hist: seq<byte>)
    requires WindowHolds(window, wsize, whave, wnext, hist) && WindowFull(whave, hist)
    ensures |window| == WSIZE && wnext <= whave <= |hist| && wnext + (whave - wnext) <= WSIZE
    ensures whave == if |hist| < WSIZE then |hist| else WSIZE
    ensures window[wnext..][..whave - wnext] + window[..wnext] == hist[|hist| - whave..]
  {
    hide WindowHolds;
    WindowMeans(window, wsize, whave, wnext, hist);
    var unrolled := window[wnext..][..whave - wnext] + window[..wnext];
    forall i | 0 <= i < whave
      ensures unrolled[i] == hist[|hist| - whave + i]
    {
      assert window[Back(wnext, whave - i)] == hist[|hist| - (whave - i)];
    }
    assert unrolled == hist[|hist| - whave..];
  }

  /** inflateGetDictionary: the last 32K of the output, in order. */
  method InflateGetDictionary(s: Inflater, dictionary: array<byte>) returns (length: nat)
    requires Resting(s) && s.mode != BAD && dictionary.Length >= WSIZE && dictionary != s.window
    modifies dictionary
    ensures length == (if |s.hist| < WSIZE then |s.hist| else WSIZE)
    ensures dictionary[..length] == s.hist[|s.hist| - length..]
    ensures dictionary[length..] == old(dictionary[length..])
  {
    hide *;
    RestingParts(s);
    Unrolled(s.window[..], s.wsize, s.whave, s.wnext, s.hist);
    length := s.whave;
    ghost var window, before := s.window[..], dictionary[..];
    CopyOut(dictionary, 0, s.window, s.wnext, s.whave - s.wnext);
    CopyOut(dictionary, s.whave - s.wnext, s.window, 0, s.wnext);
    BothParts(dictionary[..], before, window, s.wnext, s.whave);
  }

  /** zmemcpy */
  method CopyOut(dictionary: array<byte>, to: nat, window: array<byte>, from: nat, n: nat)
    requires dictionary != window && to + n <= dictionary.Length && from + n <= window.Length
    modifies dictionary
    ensures forall i :: 0 <= i < dictionary.Length ==>
              dictionary[i] == if to <= i < to + n then window[from + (i - to)] else old(dictionary[i])
  {
    for j := 0 to n
      invariant forall i :: 0 <= i < dictionary.Length ==>
                  dictionary[i] == if to <= i < to + j then window[from + (i - to)] else old(dictionary[i])
    {
      dictionary[to + j] := window[from + j];
    }
  }

  lemma BothParts(d: seq<byte>, before: seq<byte>, window: seq<byte>, wnext: nat, whave: nat)
    requires |d| == |before| && wnext <= whave <= |d| && whave <= |window|
    requires forall i :: 0 <= i < |d| ==>
               d[i] == if i < whave - wnext then window[wnext + i] else if i < whave then window[i - (whave - wnext)] else before[i]
    ensures d[..whave] == window[wnext..][..whave - wnext] + window[..wnext] && d[whave..] == before[whave..]
  {
  }

  // ---- Any sequence of calls

  /** A run from the start of the stream has come as far as `total` lets it. */
  ghost predicate RanOut(total: seq<byte>, fed: seq<byte>, c: Config) {
    fed <= total && Reaches(ByteBits(fed), START(), c) &&
    ((fed == total && Step(ByteBits(total), c) == None) || c.phase.Done? || c.phase.Bad?)
  }

  lemma IsRanOut(total: seq<byte>, fed: seq<byte>, c: Config)
    requires fed <= total && Reaches(ByteBits(fed), START(), c)
    requires (fed == total && Step(ByteBits(total), c) == None) || c.phase.Done? || c.phase.Bad?
    ensures RanOut(total, fed, c)
  {
    hide Reaches, ByteBits, Step;
  }

  /** Where calls have run out, decoding all of the stream ends. */
  lemma RanOutIsEnd(total: seq<byte>, fed: seq<byte>, c: Config)
    requires RanOut(total, fed, c)
    ensures Reaches(ByteBits(total), START(), c) && Step(ByteBits(total), c) == None
  {
    hide Reaches, ByteBits, Step;
    StartGood();
    PrefixBytes(fed, total);
    ReachesExtends(ByteBits(fed), ByteBits(total), START(), c);
    if c.phase.Done? || c.phase.Bad? {
      DoneStuck(ByteBits(total), c);
    }
  }

  /** Chunk independence: however the input is cut up, and whatever space each call had for output,
      the bytes decoded, the phase and the position in the stream come out the same. */
  lemma ChunksDoNotMatter(total: seq<byte>, fedA: seq<byte>, a: Config, fedB: seq<byte>, b: Config)
    requires RanOut(total, fedA, a) && RanOut(total, fedB, b)
    ensures a == b
  {
    hide Reaches, ByteBits, Step;
    RanOutIsEnd(total, fedA, a);
    RanOutIsEnd(total, fedB, b);
    EndIsUnique(ByteBits(total), START(), a, b);
  }

  /** A state that no call can take further, for all of `total` and any room for output. */
  lemma CallsRanOut(s: Inflater, total: seq<byte>, ret: Ret, full: bool)
    requires Resting(s) && s.fed <= total && Ended(s, ret, s.fed == total, full)
    requires full ==> !(s.phase.Match? || s.phase.Literal? || s.phase.StoredCopy?)
    ensures RanOut(total, s.fed, s.Cfg())
  {
    hide Reaches, ByteBits, Step, DecodesCode, WindowHolds;
  }

  /** Inflating what a compressor wrote gives back the data, in whatever pieces it arrives. */
  lemma InflateRecovers(s: Inflater, total: seq<byte>, data: seq<byte>)
    requires RanOut(total, s.fed, s.Cfg())
    requires Reaches(ByteBits(total), START(), Config(Done, data, |ByteBits(total)|))
    ensures s.hist == data && s.phase == Done
  {
    hide Reaches, ByteBits, Step;
    var end := Config(Done, data, |ByteBits(total)|);
    ChunksDoNotMatter(total, s.fed, s.Cfg(), total, end);
    CfgIs(s);
  }
}
