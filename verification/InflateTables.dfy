/** The modes of inflate.c that read the code descriptions of a dynamic block and build its tables. */
module InflateTables {
  import opened Machine
  import opened BitStrings
  import opened Canonical
  import opened DecodeTable
  import opened InfTrees
  import SymbolOrder
  import opened BitWriter
  import opened DeflateSpec
  import opened DeflateRuns
  import opened BlockHeaders
  import opened InflateState
  import opened TableLookup
  import opened InflateModes

  // ---- TABLE

  lemma PhaseAtTable(s: Inflater)
    requires s.PhaseOk() && s.mode.TABLE?
    ensures s.phase == TableSizes(s.last) && s.Sized()
  {
    hide DecodesCode, GoodPhase;
  }

  lemma SizesStep(B: seq<bool>, last: bool, out: seq<byte>, pos: nat, nlen: nat, ndist: nat, ncode: nat)
    ensures pos <= |B| < pos + 14 ==> Step(B, Config(TableSizes(last), out, pos)) == None
    ensures pos + 14 <= |B| && nlen == Number(B, pos, 5) + 257 && ndist == Number(B, pos + 5, 5) + 1 && ncode == Number(B, pos + 10, 4) + 4 ==>
              Step(B, Config(TableSizes(last), out, pos)) == Some(AfterSizes(last, nlen, ndist, ncode, out, pos))
  {
    hide Number;
  }

  ghost function AfterSizes(last: bool, nlen: nat, ndist: nat, ncode: nat, out: seq<byte>, pos: nat): Config {
    Config(if nlen > 286 || ndist > 30 then Bad else ClLengths(last, nlen, ndist, ncode, []), out, pos + 14)
  }

  lemma AfterSizesIs(last: bool, nlen: nat, ndist: nat, ncode: nat, out: seq<byte>, pos: nat)
    ensures AfterSizes(last, nlen, ndist, ncode, out, pos) ==
            Config(if nlen > 286 || ndist > 30 then Bad else ClLengths(last, nlen, ndist, ncode, []), out, pos + 14)
  {
  }

  lemma SizesPhase(s: Inflater)
    requires s.Sized()
    ensures s.mode == BAD && s.phase == Bad ==> s.PhaseOk()
    ensures (s.mode == LENLENS && s.have == 0 && 257 <= s.nlen <= 286 && 1 <= s.ndist <= 30 && 4 <= s.ncode <= 19 &&
             s.phase == ClLengths(s.last, s.nlen, s.ndist, s.ncode, [])) ==> s.PhaseOk()
  {
  }

  /** The three counts at the start of a dynamic block. */
  method ReadSizes(s: Inflater, ghost c: Config)
    requires s.BitsOk() && s.OutOk() && s.Sized() && s.FixedTables() && Reserved(s)
    requires c == Config(TableSizes(s.last), s.hist, s.pos) && 14 <= s.bits < 22 && s.next <= |s.input|
    modifies s`mode, s`nlen, s`ndist, s`ncode, s`have, s`hold, s`bits, s`pos, s`phase
    ensures Ready(s) && Reaches(ByteBits(s.fed), c, s.Cfg()) && Unread(s) < old(Unread(s))
  {
    hide *;
    BitsFacts(s);
    ghost var B := ByteBits(s.fed);
    SizesStep(B, s.last, s.hist, s.pos, Number(B, s.pos, 5) + 257, Number(B, s.pos + 5, 5) + 1, Number(B, s.pos + 10, 4) + 4);
    UnreadIs(s);
    PowersUpTo5();
    var nlen := Take(s, 5);
    var ndist := Take(s, 5);
    var ncode := Take(s, 4);
    EnterLenLens(s, nlen + 257, ndist + 1, ncode + 4);
    AfterSizesIs(s.last, s.nlen, s.ndist, s.ncode, s.hist, c.pos);
    UnreadIs(s);
    Stepped(s, c);
  }

  /** Mode TABLE. */
  method DoTable(s: Inflater) returns (leave: bool)
    requires Ready(s) && s.mode.TABLE?
    modifies s`mode, s`nlen, s`ndist, s`ncode, s`have, s`hold, s`bits, s`next, s`fed, s`pos, s`phase
    ensures Ready(s) && Fed(s, old(s.fed), old(s.next)) && Reaches(ByteBits(s.fed), old(s.Cfg()), s.Cfg())
    ensures leave ==> Blocked(s)
    ensures s.next <= |s.input| && Unread(s) <= old(Unread(s)) && (!leave ==> Unread(s) < old(Unread(s)))
  {
    hide *;
    ReadyParts(s);
    PhaseAtTable(s);
    BitsFacts(s);
    CfgIs(s);
    ghost var c, fed0 := s.Cfg(), s.fed;
    var ok := Need(s, 14);
    ghost var B := ByteBits(s.fed);
    leave := !ok;
    if !ok {
      SizesStep(B, s.last, s.hist, s.pos, 0, 0, 0);
      Starved(s, c);
      return;
    }
    SizesStep(B, s.last, s.hist, s.pos, Number(B, s.pos, 5) + 257, Number(B, s.pos + 5, 5) + 1, Number(B, s.pos + 10, 4) + 4);
    if s.fed == fed0 {
      TightMeans(s, B);
    }
    ReadSizes(s, c);
  }

  method EnterLenLens(s: Inflater, nlen: nat, ndist: nat, ncode: nat)
    requires s.Sized() && 257 <= nlen && 1 <= ndist && 4 <= ncode <= 19
    modifies s`mode, s`nlen, s`ndist, s`ncode, s`have, s`phase
    ensures s.nlen == nlen && s.ndist == ndist && s.ncode == ncode && s.PhaseOk() && !s.mode.COPY? && !s.mode.COPY_?
    ensures s.phase == if nlen > 286 || ndist > 30 then Bad else ClLengths(s.last, nlen, ndist, ncode, [])
  {
    hide *;
    s.nlen, s.ndist, s.ncode := nlen, ndist, ncode;
    if s.nlen > 286 || s.ndist > 30 {
      s.mode := BAD;
      s.phase := Bad;
    } else {
      s.have := 0;
      s.mode := LENLENS;
      s.phase := ClLengths(s.last, s.nlen, s.ndist, s.ncode, []);
    }
    SizesPhase(s);
  }

  // ---- LENLENS

  lemma PhaseAtLenLens(s: Inflater)
    requires s.PhaseOk() && s.mode.LENLENS?
    ensures s.Sized() && s.have <= s.ncode <= 19 && 4 <= s.ncode && 257 <= s.nlen <= 286 && 1 <= s.ndist <= 30 && s.lens.Length == 320
    ensures s.phase == ClLengths(s.last, s.nlen, s.ndist, s.ncode, InOrder(s.lens[..19], s.have))
    ensures forall i :: 0 <= i < s.have ==> InOrder(s.lens[..19], s.have)[i] <= 7
  {
    hide DecodesCode;
  }

  lemma LenLensPhase(s: Inflater)
    requires s.Sized() && s.lens.Length == 320 && s.mode == LENLENS && s.have <= s.ncode <= 19
    requires 4 <= s.ncode && 257 <= s.nlen <= 286 && 1 <= s.ndist <= 30
    requires s.phase == ClLengths(s.last, s.nlen, s.ndist, s.ncode, InOrder(s.lens[..19], s.have))
    requires forall i :: 0 <= i < s.have ==> InOrder(s.lens[..19], s.have)[i] <= 7
    ensures s.PhaseOk()
  {
    hide DecodesCode, InOrder;
  }

  /** Entering the next length does not disturb those before it. */
  lemma {:induction false} InOrderKept(cl: seq<nat>, k: nat, v: nat, n: nat)
    requires n <= k < 19 == |cl|
    ensures ORDER[k] < 19 && InOrder(cl[ORDER[k] := v], n) == InOrder(cl, n)
    decreases n
  {
    OrderIsPermutation(k);
    if n > 0 {
      OrderIsPermutation(n - 1);
      InOrderKept(cl, k, v, n - 1);
    }
  }

  lemma InOrderNext(cl: seq<nat>, k: nat, v: nat)
    requires k < 19 == |cl|
    ensures k < |ORDER| && ORDER[k] < 19 && InOrder(cl[ORDER[k] := v], k + 1) == InOrder(cl, k) + [v]
  {
    OrderIsPermutation(k);
    InOrderKept(cl, k, v, k);
  }

  lemma ClStep(B: seq<bool>, out: seq<byte>, pos: nat, last: bool, nlen: nat, ndist: nat, ncode: nat, got: seq<nat>)
    requires |got| < ncode
    ensures pos <= |B| < pos + 3 ==> Step(B, Config(ClLengths(last, nlen, ndist, ncode, got), out, pos)) == None
    ensures pos + 3 <= |B| ==>
              Step(B, Config(ClLengths(last, nlen, ndist, ncode, got), out, pos)) ==
              Some(Config(ClLengths(last, nlen, ndist, ncode, got + [Number(B, pos, 3)]), out, pos + 3))
  {
    hide Number;
  }

  lemma InOrderSize(cl: seq<nat>, n: nat)
    requires n <= 19 == |cl|
    ensures |InOrder(cl, n)| == n
  {
  }

  /** Three bits of it are there. */
  method ReadLenLen(s: Inflater, ghost c: Config)
    requires s.BitsOk() && s.OutOk() && s.PhaseOk() && s.FixedTables() && Reserved(s) && s.mode.LENLENS? && s.have < s.ncode
    requires c == s.Cfg() && 3 <= s.bits < 11 && s.next <= |s.input|
    modifies s`have, s.lens, s`hold, s`bits, s`pos, s`phase
    ensures Ready(s) && Reaches(ByteBits(s.fed), c, s.Cfg()) && Unread(s) < old(Unread(s)) && s.have == old(s.have) + 1
  {
    hide *;
    CfgIs(s);
    PhaseAtLenLens(s);
    BitsFacts(s);
    ghost var cl: seq<nat> := s.lens[..19];
    InOrderSize(cl, s.have);
    ClStep(ByteBits(s.fed), s.hist, s.pos, s.last, s.nlen, s.ndist, s.ncode, InOrder(cl, s.have));
    UnreadIs(s);
    PowersUpTo5();
    var v := Take(s, 3);
    AddLenLen(s, v);
    UnreadIs(s);
    Stepped(s, c);
  }

  method AddLenLen(s: Inflater, v: nat)
    requires s.PhaseOk() && s.mode.LENLENS? && s.have < s.ncode && v <= 7 && s.Sized()
    modifies s`have, s.lens, s`phase
    ensures s.PhaseOk() && s.have == old(s.have) + 1 && s.lens.Length >= 19 && old(s.have) < 19
    ensures s.phase == ClLengths(s.last, s.nlen, s.ndist, s.ncode, InOrder(old(s.lens[..19]), old(s.have)) + [v])
  {
    hide *;
    PhaseAtLenLens(s);
    ghost var cl: seq<nat> := s.lens[..19];
    InOrderNext(cl, s.have, v);
    s.lens[ORDER[s.have]] := v;
    assert s.lens[..19] == cl[ORDER[s.have] := v];
    s.have := s.have + 1;
    s.phase := ClLengths(s.last, s.nlen, s.ndist, s.ncode, InOrder(s.lens[..19], s.have));
    LenLensPhase(s);
  }

  /** One length of the code length code. */
  method OneLenLen(s: Inflater) returns (ok: bool)
    requires Ready(s) && s.mode.LENLENS? && s.have < s.ncode
    modifies s`have, s.lens, s`hold, s`bits, s`next, s`fed, s`pos, s`phase
    ensures Ready(s) && Fed(s, old(s.fed), old(s.next)) && Reaches(ByteBits(s.fed), old(s.Cfg()), s.Cfg())
    ensures !ok ==> Blocked(s)
    ensures s.next <= |s.input| && Unread(s) <= old(Unread(s))
    ensures ok ==> s.have == old(s.have) + 1 && Unread(s) < old(Unread(s))
  {
    hide *;
    ReadyParts(s);
    PhaseAtLenLens(s);
    BitsFacts(s);
    CfgIs(s);
    ghost var c, fed0 := s.Cfg(), s.fed;
    ghost var cl: seq<nat> := s.lens[..19];
    InOrderSize(cl, s.have);
    ok := Need(s, 3);
    ghost var B := ByteBits(s.fed);
    ClStep(B, s.hist, s.pos, s.last, s.nlen, s.ndist, s.ncode, InOrder(cl, s.have));
    if !ok {
      Starved(s, c);
      return;
    }
    if s.fed == fed0 {
      TightMeans(s, B);
    }
    ReadLenLen(s, c);
  }

  lemma LensFacts(s: Inflater)
    requires s.Sized()
    ensures s.lens.Length == 320 && s.work.Length == 320 && s.lens != s.work
    ensures s.codes.Length == ENOUGH_LENS + ENOUGH_DISTS && s.codes != s.fixedCodes && s.window.Length == WSIZE
    ensures Limit(CODES) == 128 && Limit(LENS) == ENOUGH_LENS == 852 && Limit(DISTS) == ENOUGH_DISTS == 592 && MAXBITS == 15
  {
  }

  /** All lengths of the code length code are in: the rest are 0. */
  method ZeroRest(s: Inflater)
    requires s.lens.Length == 320 && s.have <= 19
    modifies s`have, s.lens
    ensures s.have == 19
    ensures InOrder(s.lens[..19], old(s.have)) == old(InOrder(s.lens[..19], s.have))
    ensures forall i {:trigger ORDER[i]} :: old(s.have) <= i < 19 ==> i < |ORDER| && ORDER[i] < 19 && s.lens[..19][ORDER[i]] == 0
  {
    hide *;
    ghost var n, got := s.have, InOrder(s.lens[..19], s.have);
    while s.have < 19
      invariant n <= s.have <= 19 && InOrder(s.lens[..19], n) == got
      invariant forall i {:trigger ORDER[i]} :: n <= i < s.have ==> i < |ORDER| && ORDER[i] < 19 && s.lens[..19][ORDER[i]] == 0
      decreases 19 - s.have
    {
      ghost var cl: seq<nat> := s.lens[..19];
      InOrderKept(cl, s.have, 0, n);
      OrderHere(s.have);
      s.lens[ORDER[s.have]] := 0;
      assert s.lens[..19] == cl[ORDER[s.have] := 0];
      s.have := s.have + 1;
    }
  }

  lemma OrderSize()
    ensures |ORDER| == 19
  {
  }

  lemma OrderHere(k: nat)
    requires k < 19
    ensures k < |ORDER| && ORDER[k] < 19
  {
    OrderIsPermutation(k);
  }

  /** The code length code is all there. */
  lemma ClDone(B: seq<bool>, out: seq<byte>, pos: nat, last: bool, nlen: nat, ndist: nat, ncode: nat, cl: seq<nat>)
    requires pos <= |B| && ncode <= 19 == |cl| && forall i :: 0 <= i < ncode ==> InOrder(cl, ncode)[i] <= 7
    requires forall i {:trigger ORDER[i]} :: ncode <= i < 19 ==> i < |ORDER| && ORDER[i] < 19 && cl[ORDER[i]] == 0
    ensures Accepts(CODES, cl)
    ensures Step(B, Config(ClLengths(last, nlen, ndist, ncode, InOrder(cl, ncode)), out, pos))
         == Some(Config(if Rejected(CODES, cl) then Bad else CodeLengths(last, nlen, ndist, cl, []), out, pos))
  {
    hide Rejected, InOrder, Arrange;
    forall i | ncode <= i < 19
      ensures ORDER[i] < 19 && cl[ORDER[i]] == 0
    {
      OrderHere(i);
    }
    Arranged(cl, ncode);
    forall s | 0 <= s < 19
      ensures cl[s] <= 7
    {
      OrderIsPermutation(s);
      if PLACE[s] < ncode {
        InOrderAt(cl, ncode, PLACE[s]);
      } else {
        assert cl[ORDER[PLACE[s]]] == 0;
      }
    }
  }

  lemma DecodesMore(t: CodeType, code: seq<nat>, T: seq<Entry>, T': seq<Entry>, at: nat, root: nat)
    requires Accepts(t, code) && DecodesCode(t, code, T, at, root) && T <= T'
    ensures DecodesCode(t, code, T', at, root)
  {
    hide Accepts;
    forall w, e | 0 <= w && Finds(T, at, root, w, e)
      ensures Finds(T', at, root, w, e)
    {
    }
  }

  lemma CodeLensPhase(s: Inflater, cl: seq<nat>)
    requires s.Sized() && s.lens.Length == 320 && Accepts(CODES, cl) && |cl| == 19
    requires 257 <= s.nlen <= 286 && 1 <= s.ndist <= 30
    ensures s.mode == BAD && s.phase == Bad ==> s.PhaseOk()
    ensures (s.mode == CODELENS && s.have <= s.nlen + s.ndist && s.have <= 320 && !Rejected(CODES, cl) &&
             ValidLens(s.lens[..s.have]) && s.phase == CodeLengths(s.last, s.nlen, s.ndist, cl, s.lens[..s.have]) &&
             s.LenTable(CODES, cl)) ==> s.PhaseOk()
  {
    hide DecodesCode, Rejected;
  }

  lemma IsLenTable(s: Inflater, t: CodeType, code: seq<nat>)
    requires Accepts(t, code) && s.lenbits <= MAXBITS && DecodesCode(t, code, s.lencode[..], s.lenAt, s.lenbits)
    ensures s.LenTable(t, code)
  {
  }

  lemma RootBound(code: seq<nat>, bits: nat)
    requires ValidLens(code)
    ensures RootBits(code, bits) <= MAXBITS
  {
    if SymbolOrder.Used(code) > 0 {
      MaxLenBound(code);
    }
  }

  lemma ReservedCodes(s: Inflater)
    requires s.lencode in {s.codes, s.fixedCodes} && s.distcode in {s.codes, s.fixedCodes}
    ensures Reserved(s)
  {
  }

  lemma ReservedIs(s: Inflater)
    requires Reserved(s)
    ensures s.lencode in {s.codes, s.fixedCodes} && s.distcode in {s.codes, s.fixedCodes}
  {
  }

  lemma NoLens(lens: array<nat>)
    ensures lens[..0] == [] && ValidLens(lens[..0])
  {
  }

  /** The code length code is complete: build its table. */
  method BuildClTable(s: Inflater)
    requires Ready(s) && s.mode.LENLENS? && s.have == s.ncode
    modifies s`mode, s`have, s.lens, s.work, s.codes, s`lencode, s`lenAt, s`lenbits, s`phase
    ensures Ready(s) && Reaches(ByteBits(s.fed), old(s.Cfg()), s.Cfg()) && s.mode in {CODELENS, BAD}
    ensures s.mode == CODELENS ==> s.have == 0
  {
    hide *;
    ReadyParts(s);
    PhaseAtLenLens(s);
    LensFacts(s);
    BitsFacts(s);
    CfgIs(s);
    ReservedIs(s);
    ghost var c := s.Cfg();
    OrderSize();
    LenLensTight(s);
    ghost var got := InOrder(s.lens[..19], s.ncode);
    ZeroRest(s);
    ghost var cl := s.lens[..19];
    assert InOrder(cl, s.ncode) == got;
    ClDone(ByteBits(s.fed), s.hist, s.pos, s.last, s.nlen, s.ndist, s.ncode, cl);
    EnterCodeLens(s, cl, c);
  }

  /** Its lengths are in place. */
  method EnterCodeLens(s: Inflater, ghost cl: seq<nat>, ghost c: Config)
    requires s.BitsOk() && s.OutOk() && s.Sized() && s.FixedTables() && Reserved(s) && s.bits < 8 && s.lens.Length == 320
    requires Accepts(CODES, cl) && cl == s.lens[..19] && 257 <= s.nlen <= 286 && 1 <= s.ndist <= 30 && |cl| == 19
    requires Step(ByteBits(s.fed), c) ==
             Some(Config(if Rejected(CODES, cl) then Bad else CodeLengths(s.last, s.nlen, s.ndist, cl, []), s.hist, s.pos))
    modifies s`mode, s`have, s.work, s.codes, s`lencode, s`lenAt, s`lenbits, s`phase
    ensures Ready(s) && Reaches(ByteBits(s.fed), c, s.Cfg()) && s.mode in {CODELENS, BAD}
    ensures s.mode == CODELENS ==> s.have == 0
  {
    hide *;
    ReservedIs(s);
    LensFacts(s);
    var ok := ClTable(s);
    ReservedCodes(s);
    StartCodeLens(s, ok, cl, c);
  }

  /** Mode CODELENS, or BAD if there is no table. */
  method StartCodeLens(s: Inflater, ok: bool, ghost cl: seq<nat>, ghost c: Config)
    requires s.BitsOk() && s.OutOk() && s.Sized() && s.FixedTables() && Reserved(s) && s.bits < 8 && s.lens.Length == 320
    requires Accepts(CODES, cl) && 257 <= s.nlen <= 286 && 1 <= s.ndist <= 30 && |cl| == 19
    requires (ok <==> !Rejected(CODES, cl)) && (ok ==> s.LenTable(CODES, cl))
    requires Step(ByteBits(s.fed), c) ==
             Some(Config(if Rejected(CODES, cl) then Bad else CodeLengths(s.last, s.nlen, s.ndist, cl, []), s.hist, s.pos))
    modifies s`mode, s`have, s`phase
    ensures Ready(s) && Reaches(ByteBits(s.fed), c, s.Cfg()) && s.mode in {CODELENS, BAD}
    ensures s.mode == CODELENS ==> s.have == 0
  {
    hide *;
    if !ok {
      s.mode := BAD;
      s.phase := Bad;
    } else {
      s.have := 0;
      s.mode := CODELENS;
      NoLens(s.lens);
      s.phase := CodeLengths(s.last, s.nlen, s.ndist, cl, []);
    }
    CodeLensPhase(s, cl);
    Stepped(s, c);
  }

  /** inflate_table for the code length code. */
  method ClTable(s: Inflater) returns (ok: bool)
    requires s.Sized() && s.lens.Length == 320 && Accepts(CODES, s.lens[..19])
    modifies s.work, s.codes, s`lencode, s`lenAt, s`lenbits
    ensures s.lens[..19] == old(s.lens[..19]) && s.lencode == s.codes && Accepts(CODES, s.lens[..19])
    ensures ok <==> !Rejected(CODES, s.lens[..19])
    ensures ok ==> s.LenTable(CODES, s.lens[..19])
  {
    hide *;
    LensFacts(s);
    TableSpace(s);
    ghost var cl: seq<nat> := s.lens[..19];
    AcceptsValid(CODES, cl);
    var ret, at', root := InflateTable(CODES, s.lens[..19], s.codes, 0, 7, s.work);
    s.lencode, s.lenAt, s.lenbits := s.codes, 0, root;
    ok := ret == 0;
    if ok {
      RootBound(cl, 7);
      DecodesMore(CODES, cl, s.codes[..][..at'], s.codes[..], 0, root);
      IsLenTable(s, CODES, cl);
    }
  }

  /** With all lengths there, a step can be taken. */
  lemma LenLensTight(s: Inflater)
    requires Ready(s) && s.mode.LENLENS? && s.have == s.ncode
    ensures s.bits < 8
  {
    hide *;
    ReadyParts(s);
    BitsFacts(s);
    PhaseAtLenLens(s);
    InOrderSize(s.lens[..19], s.have);
    LastClStep(ByteBits(s.fed), s.hist, s.pos, s.last, s.nlen, s.ndist, s.ncode, InOrder(s.lens[..19], s.have));
    TightMeans(s, ByteBits(s.fed));
  }

  lemma LastClStep(B: seq<bool>, out: seq<byte>, pos: nat, last: bool, nlen: nat, ndist: nat, ncode: nat, got: seq<nat>)
    requires pos <= |B| && |got| >= ncode
    ensures Step(B, Config(ClLengths(last, nlen, ndist, ncode, got), out, pos)).Some?
  {
    hide Rejected, Arrange;
  }

  lemma TableSpace(s: Inflater)
    requires s.Sized()
    ensures Limit(CODES) <= s.codes.Length && 1 <= 7 <= MAXBITS && 1 <= 9 <= MAXBITS && 1 <= 6 <= MAXBITS
    ensures ENOUGH_LENS + Limit(DISTS) <= s.codes.Length && Limit(LENS) <= s.codes.Length
  {
  }

  /** Mode LENLENS. */
  method DoLenLens(s: Inflater) returns (leave: bool)
    requires Ready(s) && s.mode.LENLENS?
    modifies s`mode, s`have, s.lens, s.work, s.codes, s`lencode, s`lenAt, s`lenbits
    modifies s`hold, s`bits, s`next, s`fed, s`pos, s`phase
    ensures Ready(s) && Fed(s, old(s.fed), old(s.next)) && Reaches(ByteBits(s.fed), old(s.Cfg()), s.Cfg())
    ensures leave ==> Blocked(s)
    ensures s.next <= |s.input| && Unread(s) <= old(Unread(s)) && (!leave ==> s.mode in {CODELENS, BAD})
  {
    hide *;
    ReadyParts(s);
    PhaseAtLenLens(s);
    PhaseIsGood(s);
    BitsFacts(s);
    CfgIs(s);
    ghost var c0, fed0, next0 := s.Cfg(), s.fed, s.next;
    PulledNothing(s);
    PulledIsFed(s, fed0, next0, s.bits);
    ReachesSelf(ByteBits(s.fed), c0);
    leave := false;
    while s.have < s.ncode
      invariant Ready(s) && s.mode.LENLENS? && s.have <= s.ncode
      invariant Fed(s, fed0, next0) && Reaches(ByteBits(s.fed), c0, s.Cfg())
      invariant s.next <= |s.input| && Unread(s) <= old(Unread(s))
      decreases s.ncode - s.have
    {
      ghost var fed1, next1, c1 := s.fed, s.next, s.Cfg();
      FedFacts(s, fed0, next0);
      var ok := OneLenLen(s);
      FedTrans(s, fed0, next0, fed1, next1);
      ReachesOn(s, fed1, c0, c1);
      if !ok {
        return true;
      }
    }
    ghost var c1, fed1 := s.Cfg(), s.fed;
    BuildClTable(s);
    ReachesOn(s, fed1, c0, c1);
  }

  /** Two stretches of input are one. */
  lemma FedTrans(s: Inflater, fed0: seq<byte>, next0: nat, fed1: seq<byte>, next1: nat)
    requires next0 <= next1 <= |s.input| && fed1 == fed0 + s.input[next0..next1] && ByteBits(fed0) <= ByteBits(fed1)
    requires Fed(s, fed1, next1)
    ensures Fed(s, fed0, next0) && ByteBits(fed1) <= ByteBits(s.fed)
  {
    hide ByteBits;
    assert s.input[next0..s.next] == s.input[next0..next1] + s.input[next1..s.next];
  }

  /** A run continued with more input. */
  lemma ReachesOn(s: Inflater, fed1: seq<byte>, c0: Config, c1: Config)
    requires ByteBits(fed1) <= ByteBits(s.fed) && GoodPhase(c0.phase)
    requires Reaches(ByteBits(fed1), c0, c1) && Reaches(ByteBits(s.fed), c1, s.Cfg())
    ensures Reaches(ByteBits(s.fed), c0, s.Cfg())
  {
    hide *;
    ReachesLater(fed1, s, c0, c1);
    ReachesTrans(ByteBits(s.fed), c0, c1, s.Cfg());
  }

  // ---- CODELENS

  lemma PhaseAtCodeLens(s: Inflater) returns (cl: seq<nat>)
    requires s.PhaseOk() && s.mode.CODELENS?
    ensures s.Sized() && s.lens.Length == 320 && 257 <= s.nlen <= 286 && 1 <= s.ndist <= 30 && s.have <= s.nlen + s.ndist
    ensures |cl| == 19 && Accepts(CODES, cl) && !Rejected(CODES, cl) && s.LenTable(CODES, cl) && ValidLens(s.lens[..s.have])
    ensures s.phase == CodeLengths(s.last, s.nlen, s.ndist, cl, s.lens[..s.have])
  {
    hide DecodesCode, Rejected;
    cl := s.phase.cl;
  }

  lemma LenTableFacts(s: Inflater, t: CodeType, code: seq<nat>)
    requires s.LenTable(t, code)
    ensures Accepts(t, code) && s.lenbits <= MAXBITS && DecodesCode(t, code, s.lencode[..], s.lenAt, s.lenbits)
  {
  }

  lemma CodeShort(B: seq<bool>, c: Config)
    requires c.pos <= |B| && c.phase.CodeLengths? && |c.phase.lens| < c.phase.nlen + c.phase.ndist
    requires ReadSymbol(c.phase.cl, B[c.pos..]) == Short
    ensures Step(B, c) == None
  {
    hide ReadSymbol;
  }

  /** The next configuration when the symbol is not a repeat code, or there was none. */
  lemma LengthStep(B: seq<bool>, c: Config, drop: nat, val: nat)
    requires c.pos <= |B| && c.phase.CodeLengths? && |c.phase.lens| < c.phase.nlen + c.phase.ndist && Accepts(CODES, c.phase.cl)
    requires c.pos + drop <= |B| && val < 16 && exists op :: Outcome(CODES, c.phase.cl, op, val, drop, ReadSymbol(c.phase.cl, B[c.pos..]))
    ensures Step(B, c) == Some(Config(c.phase.(lens := c.phase.lens + [val]), c.out, c.pos + drop))
  {
    hide ReadSymbol, Accepts;
    var r := ReadSymbol(c.phase.cl, B[c.pos..]);
    if r.Symbol? {
      assert r.s == val;
      assert Repeated(c.phase.lens, val, 1) == [val];
      NumberOfNone(B, c.pos + drop);
    }
  }

  lemma NumberOfNone(B: seq<bool>, pos: nat)
    requires pos <= |B|
    ensures Number(B, pos, 0) == 0
  {
    assert B[pos..pos] == [];
  }

  ghost function AfterRepeat(c: Config, val: nat, count: nat, end: nat): Config
    requires c.phase.CodeLengths? && !(val == 16 && c.phase.lens == [])
  {
    var p := c.phase;
    Config(if |p.lens| + count > p.nlen + p.ndist then Bad else p.(lens := p.lens + Repeated(p.lens, val, count)), c.out, end)
  }

  /** The next configuration for a repeat code. */
  lemma RepeatStep(B: seq<bool>, c: Config, drop: nat, val: nat)
    requires c.pos <= |B| && c.phase.CodeLengths? && |c.phase.lens| < c.phase.nlen + c.phase.ndist && Accepts(CODES, c.phase.cl)
    requires c.pos + drop <= |B| && val >= 16 && exists op :: Outcome(CODES, c.phase.cl, op, val, drop, ReadSymbol(c.phase.cl, B[c.pos..]))
    ensures c.pos + drop + RepeatBits(val) > |B| ==> Step(B, c) == None
    ensures c.pos + drop + RepeatBits(val) <= |B| && val == 16 && c.phase.lens == [] ==>
              Step(B, c) == Some(Config(Bad, c.out, c.pos + drop))
    ensures c.pos + drop + RepeatBits(val) <= |B| && !(val == 16 && c.phase.lens == []) ==>
              Step(B, c) == Some(AfterRepeat(c, val, RepeatBase(val) + Number(B, c.pos + drop, RepeatBits(val)),
                                             c.pos + drop + RepeatBits(val)))
  {
    hide ReadSymbol, Accepts, Repeated, Number;
    var r := ReadSymbol(c.phase.cl, B[c.pos..]);
    assert r.Symbol? && r.s == val;
  }

  lemma AfterRepeatIs(c: Config, val: nat, count: nat, end: nat)
    requires c.phase.CodeLengths? && !(val == 16 && c.phase.lens == [])
    ensures |c.phase.lens| + count > c.phase.nlen + c.phase.ndist ==> AfterRepeat(c, val, count, end) == Config(Bad, c.out, end)
    ensures |c.phase.lens| + count <= c.phase.nlen + c.phase.ndist ==>
              AfterRepeat(c, val, count, end)
              == Config(CodeLengths(c.phase.last, c.phase.nlen, c.phase.ndist, c.phase.cl, c.phase.lens + Repeated(c.phase.lens, val, count)),
                        c.out, end)
  {
    hide Repeated;
  }

  lemma ValidMore(lens: seq<nat>, more: seq<nat>, v: nat)
    requires ValidLens(lens) && v <= MAXBITS && forall i :: 0 <= i < |more| ==> more[i] == v
    ensures ValidLens(lens + more)
  {
  }

  /** One length. */
  method StoreLength(s: Inflater, val: nat, drop: nat, ghost cl: seq<nat>, ghost c: Config, ghost op: nat)
    requires s.BitsOk() && s.OutOk() && s.PhaseOk() && s.FixedTables() && Reserved(s) && s.mode.CODELENS?
    requires c == s.Cfg() && s.phase == CodeLengths(s.last, s.nlen, s.ndist, cl, s.lens[..s.have]) && s.have < s.nlen + s.ndist
    requires drop <= s.bits < drop + 8 && val < 16 && Accepts(CODES, cl) && s.pos <= |ByteBits(s.fed)|
    requires Outcome(CODES, cl, op, val, drop, ReadSymbol(cl, ByteBits(s.fed)[s.pos..]))
    modifies s`have, s.lens, s`hold, s`bits, s`pos, s`phase
    ensures Ready(s) && Reaches(ByteBits(s.fed), c, s.Cfg()) && s.have == old(s.have) + 1 && s.bits == old(s.bits) - drop
  {
    hide *;
    CfgIs(s);
    BitsFacts(s);
    var cl' := PhaseAtCodeLens(s);
    LengthStep(ByteBits(s.fed), c, drop, val);
    DropBits(s, drop);
    AddLength(s, val, cl);
    Stepped(s, c);
  }

  method AddLength(s: Inflater, val: nat, ghost cl: seq<nat>)
    requires s.PhaseOk() && s.mode.CODELENS? && s.have < s.nlen + s.ndist && val < 16 && s.Sized()
    requires s.phase == CodeLengths(s.last, s.nlen, s.ndist, cl, s.lens[..s.have])
    modifies s`have, s.lens, s`phase
    ensures s.PhaseOk() && s.have == old(s.have) + 1
    ensures s.phase == CodeLengths(s.last, s.nlen, s.ndist, cl, old(s.lens[..s.have]) + [val])
  {
    hide *;
    var cl' := PhaseAtCodeLens(s);
    ghost var lens: seq<nat> := s.lens[..s.have];
    s.lens[s.have] := val;
    s.have := s.have + 1;
    assert s.lens[..s.have] == lens + [val];
    LensFacts(s);
    ValidMore(lens, [val], val);
    s.phase := CodeLengths(s.last, s.nlen, s.ndist, cl, s.lens[..s.have]);
    CodeLensPhase(s, cl);
  }

  /** lens[have++] = len, copy times. */
  method FillRun(s: Inflater, len: nat, copy0: nat)
    requires s.Sized() && s.lens.Length == 320 && s.have + copy0 <= 320
    modifies s`have, s.lens
    ensures s.have == old(s.have) + copy0
    ensures s.lens[..s.have] == old(s.lens[..s.have]) + seq(copy0, i => len)
  {
    hide *;
    ghost var lens: seq<nat> := s.lens[..s.have];
    var copy: nat := copy0;
    assert lens + seq(0, i => len) == lens;
    while copy > 0
      invariant copy <= copy0 && s.have == |lens| + copy0 - copy
      invariant s.lens[..s.have] == lens + seq(copy0 - copy, i => len)
      decreases copy
    {
      ghost var now: seq<nat> := s.lens[..s.have];
      s.lens[s.have] := len;
      s.have := s.have + 1;
      assert s.lens[..s.have] == now + [len];
      assert seq(copy0 - copy + 1, i => len) == seq(copy0 - copy, i => len) + [len];
      copy := copy - 1;
    }
  }

  lemma RepeatedIs(lens: seq<nat>, val: nat, count: nat, len: nat)
    requires 16 <= val && (val == 16 ==> lens != [] && len == lens[|lens| - 1]) && (val != 16 ==> len == 0)
    ensures Repeated(lens, val, count) == seq(count, i => len)
  {
  }

  lemma RepeatParts(val: nat)
    ensures val == 16 ==> RepeatBits(val) == 2 && RepeatBase(val) == 3
    ensures val == 17 ==> RepeatBits(val) == 3 && RepeatBase(val) == 3
    ensures val > 17 ==> RepeatBits(val) == 7 && RepeatBase(val) == 11
  {
  }

  /** A repeat code whose extra bits are there. */
  method StoreRun(s: Inflater, val: nat, drop: nat, ghost cl: seq<nat>, ghost c: Config, ghost op: nat)
    requires s.BitsOk() && s.OutOk() && s.PhaseOk() && s.FixedTables() && Reserved(s) && s.mode.CODELENS?
    requires c == s.Cfg() && s.phase == CodeLengths(s.last, s.nlen, s.ndist, cl, s.lens[..s.have]) && s.have < s.nlen + s.ndist
    requires val >= 16 && drop + RepeatBits(val) <= s.bits < drop + RepeatBits(val) + 8
    requires Accepts(CODES, cl) && s.pos <= |ByteBits(s.fed)|
    requires Outcome(CODES, cl, op, val, drop, ReadSymbol(cl, ByteBits(s.fed)[s.pos..]))
    modifies s`mode, s`have, s.lens, s`hold, s`bits, s`pos, s`phase
    ensures Ready(s) && Reaches(ByteBits(s.fed), c, s.Cfg()) && s.bits <= old(s.bits) - drop
    ensures s.mode == BAD || (s.mode == CODELENS && s.have >= old(s.have))
  {
    hide *;
    CfgIs(s);
    BitsFacts(s);
    var cl' := PhaseAtCodeLens(s);
    ghost var B := ByteBits(s.fed);
    ByteBitsSize(s.fed);
    RepeatStep(B, c, drop, val);
    RepeatParts(val);
    ghost var lens: seq<nat> := s.lens[..s.have];
    DropBits(s, drop);
    if val == 16 && s.have == 0 {
      s.mode := BAD;
      s.phase := Bad;
      CodeLensPhase(s, cl);
      Stepped(s, c);
      return;
    }
    var len: nat := if val == 16 then s.lens[s.have - 1] else 0;
    var extra := Take(s, if val == 16 then 2 else if val == 17 then 3 else 7);
    var copy: nat := (if val <= 17 then 3 else 11) + extra;
    AfterRepeatIs(c, val, copy, s.pos);
    RepeatedIs(lens, val, copy, len);
    LastValid(lens, val, len);
    EnterRun(s, len, copy, cl, c);
  }

  /** A run of lengths goes into place, if there is room for it. */
  method EnterRun(s: Inflater, len: nat, copy: nat, ghost cl: seq<nat>, ghost c: Config)
    requires s.BitsOk() && s.OutOk() && s.Sized() && s.FixedTables() && Reserved(s) && s.mode.CODELENS? && s.lens.Length == 320
    requires s.bits < 8 && Accepts(CODES, cl) && |cl| == 19 && 257 <= s.nlen <= 286 && 1 <= s.ndist <= 30
    requires !Rejected(CODES, cl) && s.LenTable(CODES, cl) && s.have < s.nlen + s.ndist && ValidLens(s.lens[..s.have]) && len <= MAXBITS
    requires Step(ByteBits(s.fed), c) ==
             Some(Config(if s.have + copy > s.nlen + s.ndist then Bad
                         else CodeLengths(s.last, s.nlen, s.ndist, cl, s.lens[..s.have] + seq(copy, i => len)), s.hist, s.pos))
    modifies s`mode, s`have, s.lens, s`phase
    ensures Ready(s) && Reaches(ByteBits(s.fed), c, s.Cfg())
    ensures s.mode == BAD || (s.mode == CODELENS && s.have >= old(s.have))
  {
    hide *;
    ghost var lens: seq<nat> := s.lens[..s.have];
    if s.have + copy > s.nlen + s.ndist {
      s.mode := BAD;
      s.phase := Bad;
    } else {
      FillRun(s, len, copy);
      ValidMore(lens, seq(copy, i => len), len);
      s.phase := CodeLengths(s.last, s.nlen, s.ndist, cl, s.lens[..s.have]);
    }
    CodeLensPhase(s, cl);
    Stepped(s, c);
  }

  lemma LastValid(lens: seq<nat>, val: nat, len: nat)
    requires ValidLens(lens) && (val == 16 ==> lens != [] && len == lens[|lens| - 1]) && (val != 16 ==> len == 0)
    ensures len <= MAXBITS
  {
  }

  lemma OutcomeFacts(code: seq<nat>, op: nat, val: nat, drop: nat, r: Read)
    requires Accepts(CODES, code) && Outcome(CODES, code, op, val, drop, r)
    ensures 1 <= drop && val < 19
  {
  }

  /** What the symbol read makes of the held bits. */
  lemma HeldLittle(s: Inflater, fed0: seq<byte>, next0: nat, bits0: nat, drop: nat)
    requires Pulled(s, fed0, next0, bits0) && (s.bits > bits0 ==> s.bits < drop + 8)
    ensures s.fed == fed0 || s.bits < drop + 8
  {
    hide ByteBits;
    if s.next == next0 {
      assert s.input[next0..next0] == [];
    }
  }

  lemma RepeatBitsSmall(val: nat)
    ensures RepeatBits(val) <= 7 && (val >= 16 ==> RepeatBits(val) == if val == 16 then 2 else if val == 17 then 3 else 7)
  {
  }

  /** One symbol of the code length code, with what goes with it. */
  method OneCode(s: Inflater) returns (ok: bool)
    requires Ready(s) && s.mode.CODELENS? && s.have < s.nlen + s.ndist
    modifies s`mode, s`have, s.lens, s`hold, s`bits, s`next, s`fed, s`pos, s`phase
    ensures Ready(s) && Fed(s, old(s.fed), old(s.next)) && Reaches(ByteBits(s.fed), old(s.Cfg()), s.Cfg())
    ensures !ok ==> Blocked(s)
    ensures ok ==> s.mode == BAD || (s.mode == CODELENS && s.have >= old(s.have))
    ensures s.next <= |s.input| && Unread(s) <= old(Unread(s)) && (ok ==> Unread(s) < old(Unread(s)))
  {
    hide *;
    ReadyParts(s);
    ghost var cl := PhaseAtCodeLens(s);
    LenTableFacts(s, CODES, cl);
    AcceptsValid(CODES, cl);
    NotRejectedFits(CODES, cl);
    BitsFacts(s);
    CfgIs(s);
    UnreadIs(s);
    ghost var c, fed0, next0, bits0 := s.Cfg(), s.fed, s.next, s.bits;
    var here, linked, first;
    ok, here, linked, first := ReadCode(s, CODES, s.lencode, s.lenAt, s.lenbits, cl);
    PulledIsFed(s, fed0, next0, bits0);
    PulledFacts(s, fed0, next0, bits0);
    BitsFacts(s);
    UnreadIs(s);
    if !ok {
      CodeShort(ByteBits(s.fed), c);
      Starved(s, c);
      return;
    }
    var drop := (if linked then first else 0) + here.bits;
    OutcomeFacts(cl, here.op, here.val, drop, ReadSymbol(cl, ByteBits(s.fed)[s.pos..]));
    HeldLittle(s, fed0, next0, bits0, drop);
    if here.val < 16 {
      LengthStep(ByteBits(s.fed), c, drop, here.val);
      if s.fed == fed0 {
        TightMeans(s, ByteBits(s.fed));
      }
      StoreLength(s, here.val, drop, cl, c, here.op);
      ReadyParts(s);
      BitsFacts(s);
      UnreadIs(s);
    } else {
      ok := TakeRun(s, here, drop, cl, c, fed0, next0);
    }
  }

  /** A repeat code. */
  method TakeRun(s: Inflater, here: Entry, drop: nat, ghost cl: seq<nat>, ghost c: Config, ghost fed0: seq<byte>, ghost next0: nat)
    returns (ok: bool)
    requires s.BitsOk() && s.OutOk() && s.PhaseOk() && s.FixedTables() && Reserved(s) && s.mode.CODELENS?
    requires c == s.Cfg() && s.phase == CodeLengths(s.last, s.nlen, s.ndist, cl, s.lens[..s.have]) && s.have < s.nlen + s.ndist
    requires 16 <= here.val < 19 && 1 <= drop <= s.bits && Fits(cl) && Fed(s, fed0, next0) && Accepts(CODES, cl) && s.pos <= |ByteBits(s.fed)|
    requires Outcome(CODES, cl, here.op, here.val, drop, ReadSymbol(cl, ByteBits(s.fed)[s.pos..]))
    requires (s.fed == fed0 && Tight(s)) || s.bits < drop + 8
    modifies s`mode, s`have, s.lens, s`hold, s`bits, s`next, s`fed, s`pos, s`phase
    ensures Ready(s) && Fed(s, fed0, next0) && Reaches(ByteBits(s.fed), c, s.Cfg())
    ensures !ok ==> Blocked(s)
    ensures ok ==> s.mode == BAD || (s.mode == CODELENS && s.have >= old(s.have))
    ensures s.next <= |s.input| && old(s.next) <= |s.input| && Unread(s) <= old(Unread(s)) && (ok ==> Unread(s) < old(Unread(s)))
  {
    hide *;
    CfgIs(s);
    BitsFacts(s);
    UnreadIs(s);
    FedFacts(s, fed0, next0);
    RepeatBitsSmall(here.val);
    DropAtMost(cl, here.op, here.val, drop, ReadSymbol(cl, ByteBits(s.fed)[s.pos..]));
    ByteBitsSize(s.fed);
    ghost var fed1, next1 := s.fed, s.next;
    ok := Need(s, drop + if here.val == 16 then 2 else if here.val == 17 then 3 else 7);
    FedFacts(s, fed1, next1);
    FedTrans(s, fed0, next0, fed1, next1);
    ghost var B := ByteBits(s.fed);
    StillOutcome(s, cl, fed1, here.op, here.val, drop);
    ghost var _ := PhaseAtCodeLens(s);
    RepeatStep(B, c, drop, here.val);
    UnreadIs(s);
    if !ok {
      Starved(s, c);
      return;
    }
    if s.fed == fed0 && !(s.bits < drop + 8) {
      TightMeans(s, B);
    }
    StoreRun(s, here.val, drop, cl, c, here.op);
    ReadyParts(s);
    BitsFacts(s);
    UnreadIs(s);
  }

  lemma DropAtMost(code: seq<nat>, op: nat, val: nat, drop: nat, r: Read)
    requires Accepts(CODES, code) && Outcome(CODES, code, op, val, drop, r)
    ensures drop <= 7
  {
  }

  /** More input does not change the symbol. */
  lemma StillOutcome(s: Inflater, cl: seq<nat>, fed1: seq<byte>, op: nat, val: nat, drop: nat)
    requires Accepts(CODES, cl) && s.pos <= |ByteBits(fed1)| && ByteBits(fed1) <= ByteBits(s.fed) && Fits(cl)
    requires Outcome(CODES, cl, op, val, drop, ReadSymbol(cl, ByteBits(fed1)[s.pos..]))
    ensures s.pos <= |ByteBits(s.fed)| && Outcome(CODES, cl, op, val, drop, ReadSymbol(cl, ByteBits(s.fed)[s.pos..]))
  {
    hide ReadSymbol, Accepts, Fits, ByteBits;
    RestExtends(ByteBits(fed1), ByteBits(s.fed), s.pos);
    ReadExtends(cl, ByteBits(fed1)[s.pos..], ByteBits(s.fed)[s.pos..]);
  }

  // ---- The tables of a dynamic block

  lemma IsDistTable(s: Inflater, code: seq<nat>)
    requires Accepts(DISTS, code) && s.distbits <= MAXBITS && DecodesCode(DISTS, code, s.distcode[..], s.distAt, s.distbits)
    ensures s.DistTable(code)
  {
  }

  lemma AcceptedIs(ll: seq<nat>, dl: seq<nat>)
    requires ValidLens(ll) && ValidLens(dl)
    ensures AcceptedCodes(ll, dl) <==>
              (|ll| > 256 && ll[256] != 0 && !Rejected(LENS, ll) && Entries(ll, 9) <= ENOUGH_LENS &&
               !Rejected(DISTS, dl) && Entries(dl, 6) <= ENOUGH_DISTS)
  {
  }

  /** inflate_table for the literal/length code and then the distance code. */
  method CodeTables(s: Inflater, ghost ll: seq<nat>, ghost dl: seq<nat>) returns (ok: bool)
    requires s.Sized() && s.lens.Length == 320 && s.nlen + s.ndist <= 320
    requires ll == s.lens[..s.nlen] && dl == s.lens[s.nlen..s.nlen + s.ndist]
    requires Accepts(LENS, ll) && Accepts(DISTS, dl) && ValidLens(ll) && ValidLens(dl) && |ll| > 256 && ll[256] != 0
    modifies s.work, s.codes, s`lencode, s`lenAt, s`lenbits, s`distcode, s`distAt, s`distbits
    ensures ok <==> AcceptedCodes(ll, dl)
    ensures ok ==> s.LenTable(LENS, ll) && s.DistTable(dl) && s.lencode == s.distcode == s.codes
    ensures s.lencode in {s.codes, s.fixedCodes} && (s.distcode == old(s.distcode) || s.distcode == s.codes)
  {
    hide *;
    LensFacts(s);
    TableSpace(s);
    AcceptedIs(ll, dl);
    var ret, at, root := InflateTable(LENS, s.lens[..s.nlen], s.codes, 0, 9, s.work);
    s.lencode, s.lenAt, s.lenbits := s.codes, 0, root;
    ok := false;
    if ret != 0 {
      return;
    }
    RootBound(ll, 9);
    RootBound(dl, 6);
    ghost var T := s.codes[..][..at];
    s.distcode := s.codes;
    s.distAt := at;
    var at';
    ret, at', root := InflateTable(DISTS, s.lens[s.nlen..s.nlen + s.ndist], s.codes, at, 6, s.work);
    s.distbits := root;
    if ret != 0 {
      return;
    }
    ok := true;
    assert T == s.codes[..][..at];
    DecodesMore(LENS, ll, T, s.codes[..], 0, s.lenbits);
    DecodesMore(DISTS, dl, s.codes[..][..at'], s.codes[..], at, root);
    IsLenTable(s, LENS, ll);
    IsDistTable(s, dl);
  }

  lemma DoneLengths(B: seq<bool>, c: Config, ll: seq<nat>, dl: seq<nat>)
    requires c.pos <= |B| && c.phase.CodeLengths? && GoodPhase(c.phase)
    requires |c.phase.lens| == c.phase.nlen + c.phase.ndist && ll == c.phase.lens[..c.phase.nlen] && dl == c.phase.lens[c.phase.nlen..]
    ensures Accepts(LENS, ll) && Accepts(DISTS, dl) && ValidLens(ll) && ValidLens(dl) && |ll| > 256
    ensures Step(B, c) == Some(Config(if AcceptedCodes(ll, dl) then Length(c.phase.last, ll, dl) else Bad, c.out, c.pos))
    ensures AcceptedCodes(ll, dl) ==> GoodCodes(ll, dl)
  {
    hide Rejected, Entries;
  }

  lemma LenPhase(s: Inflater, ll: seq<nat>, dl: seq<nat>)
    requires s.Sized()
    ensures s.mode == BAD && s.phase == Bad ==> s.PhaseOk()
    ensures (s.mode in {LEN_, LEN} && GoodCodes(ll, dl) && s.phase == Length(s.last, ll, dl) &&
             s.LenTable(LENS, ll) && s.DistTable(dl)) ==> s.PhaseOk()
  {
    hide DecodesCode, GoodCodes;
  }

  /** The lengths are all in: check them and build the tables. */
  method BuildCodes(s: Inflater)
    requires Ready(s) && s.mode.CODELENS? && s.have == s.nlen + s.ndist
    modifies s`mode, s.work, s.codes, s`lencode, s`lenAt, s`lenbits, s`distcode, s`distAt, s`distbits, s`phase
    ensures Ready(s) && Reaches(ByteBits(s.fed), old(s.Cfg()), s.Cfg()) && s.mode in {LEN_, BAD}
  {
    hide *;
    ReadyParts(s);
    LensFacts(s);
    PhaseIsGood(s);
    ghost var cl := PhaseAtCodeLens(s);
    BitsFacts(s);
    CfgIs(s);
    ReservedIs(s);
    ghost var c := s.Cfg();
    ghost var ll, dl := s.lens[..s.nlen], s.lens[s.nlen..s.nlen + s.ndist];
    assert s.lens[..s.have][..s.nlen] == ll && s.lens[..s.have][s.nlen..] == dl;
    ByteBitsSize(s.fed);
    DoneLengths(ByteBits(s.fed), c, ll, dl);
    AcceptedIs(ll, dl);
    TightMeans(s, ByteBits(s.fed));
    var ok := s.lens[256] != 0;
    if ok {
      ok := CodeTables(s, ll, dl);
    }
    LeaveCodeLens(s, ok, ll, dl);
    ReservedCodes(s);
    Stepped(s, c);
  }

  method LeaveCodeLens(s: Inflater, ok: bool, ghost ll: seq<nat>, ghost dl: seq<nat>)
    requires s.Sized() && (ok ==> GoodCodes(ll, dl) && Accepts(LENS, ll) && s.LenTable(LENS, ll) && s.DistTable(dl))
    modifies s`mode, s`phase
    ensures s.PhaseOk() && (if ok then s.mode == LEN_ && s.phase == Length(s.last, ll, dl) else s.mode == BAD && s.phase == Bad)
  {
    hide *;
    if !ok {
      s.mode := BAD;
      s.phase := Bad;
    } else {
      s.mode := LEN_;
      s.phase := Length(s.last, ll, dl);
    }
    LenPhase(s, ll, dl);
  }

  /** Mode CODELENS. */
  method DoCodeLens(s: Inflater) returns (leave: bool)
    requires Ready(s) && s.mode.CODELENS?
    modifies s`mode, s`have, s.lens, s.work, s.codes, s`lencode, s`lenAt, s`lenbits, s`distcode, s`distAt, s`distbits
    modifies s`hold, s`bits, s`next, s`fed, s`pos, s`phase
    ensures Ready(s) && Fed(s, old(s.fed), old(s.next)) && Reaches(ByteBits(s.fed), old(s.Cfg()), s.Cfg())
    ensures leave ==> Blocked(s)
    ensures s.next <= |s.input| && Unread(s) <= old(Unread(s)) && (!leave ==> s.mode in {LEN_, BAD})
  {
    hide *;
    ReadyParts(s);
    PhaseIsGood(s);
    BitsFacts(s);
    CfgIs(s);
    ghost var c0, fed0, next0 := s.Cfg(), s.fed, s.next;
    PulledNothing(s);
    PulledIsFed(s, fed0, next0, s.bits);
    ReachesSelf(ByteBits(s.fed), c0);
    leave := false;
    while s.mode == CODELENS && s.have < s.nlen + s.ndist
      invariant Ready(s) && s.mode in {CODELENS, BAD}
      invariant Fed(s, fed0, next0) && Reaches(ByteBits(s.fed), c0, s.Cfg())
      invariant s.next <= |s.input| && Unread(s) <= old(Unread(s))
      decreases if s.next <= |s.input| then Unread(s) else 0
    {
      ghost var fed1, next1, c1 := s.fed, s.next, s.Cfg();
      FedFacts(s, fed0, next0);
      var ok := OneCode(s);
      FedTrans(s, fed0, next0, fed1, next1);
      ReachesOn(s, fed1, c0, c1);
      if !ok {
        return true;
      }
    }
    if s.mode == BAD {
      return;
    }
    ReadyParts(s);
    ghost var cl := PhaseAtCodeLens(s);
    ghost var c1, fed1 := s.Cfg(), s.fed;
    BuildCodes(s);
    ReachesOn(s, fed1, c0, c1);
  }
}
