/** The modes of inflate.c that decode the data of a block: LEN to LIT. */
module InflateCodes {
  import opened Machine
  import opened BitStrings
  import opened Canonical
  import opened DecodeTable
  import opened InfTrees
  import opened BitWriter
  import opened DeflateSpec
  import opened DeflateRuns
  import opened InflateState
  import opened TableLookup
  import opened InflateModes
  import opened InflateTables

  /** op & bit, for a power of two. */
  predicate Flag(op: nat, bit: nat)
    requires bit > 0
  {
    op / bit % 2 == 1
  }

  // ---- LEN

  /** What a symbol of the literal/length code leads to. */
  ghost function AfterRead(last: bool, ll: seq<nat>, dl: seq<nat>, r: Read): Phase
    requires !r.Short?
  {
    match r
    case Symbol(s) => AfterSymbol(last, ll, dl, s)
    case Invalid => Bad
  }

  lemma FlagsOf(op: nat)
    ensures op == 0 ==> !Flag(op, 16)
    ensures 16 <= op < 32 ==> Flag(op, 16) && !Flag(op, 32) && !Flag(op, 64) && op % 16 == op - 16
    ensures op == 64 || op == 77 || op == 202 ==> !Flag(op, 16) && !Flag(op, 32) && Flag(op, 64)
    ensures op == 96 ==> !Flag(op, 16) && Flag(op, 32) && Flag(op, 64)
  {
  }

  lemma AfterReadIs(last: bool, ll: seq<nat>, dl: seq<nat>, r: Read)
    requires !r.Short?
    ensures AfterRead(last, ll, dl, r) == if r.Invalid? then Bad else AfterSymbol(last, ll, dl, r.s)
  {
  }

  lemma AfterSymbolIs(last: bool, ll: seq<nat>, dl: seq<nat>, s: nat)
    ensures s < 256 ==> AfterSymbol(last, ll, dl, s) == Literal(last, ll, dl, s as byte)
    ensures s == 256 ==> AfterSymbol(last, ll, dl, s) == Header(last)
    ensures 257 <= s < 286 ==> 16 <= LEXT[s - 257] && AfterSymbol(last, ll, dl, s) == LengthExtra(last, ll, dl, LBASE[s - 257], LEXT[s - 257] - 16)
    ensures s >= 286 ==> AfterSymbol(last, ll, dl, s) == Bad
  {
  }

  /** How inflate tells from the table entry. */
  lemma LenOutcome(last: bool, ll: seq<nat>, dl: seq<nat>, op: nat, val: nat, drop: nat, r: Read)
    requires Accepts(LENS, ll) && Outcome(LENS, ll, op, val, drop, r)
    ensures 1 <= drop <= 15 && !r.Short?
    ensures op == 0 ==> val < 256 && AfterRead(last, ll, dl, r) == Literal(last, ll, dl, val as byte)
    ensures op != 0 && Flag(op, 32) ==> AfterRead(last, ll, dl, r) == Header(last)
    ensures op != 0 && !Flag(op, 32) && Flag(op, 64) ==> AfterRead(last, ll, dl, r) == Bad
    ensures op != 0 && !Flag(op, 32) && !Flag(op, 64) ==> AfterRead(last, ll, dl, r) == LengthExtra(last, ll, dl, val, op % 16)
    ensures Flag(op, 16) <==> op != 0 && !Flag(op, 32) && !Flag(op, 64)
  {
    hide Flag, AfterRead, AfterSymbol;
    FlagsOf(op);
    AfterReadIs(last, ll, dl, r);
    match r
    case Invalid =>
    case Symbol(s) =>
      AfterSymbolIs(last, ll, dl, s);
      if 257 <= s < 286 {
        LengthRange(s);
      } else if s >= 286 {
        LastLengths(s);
      }
  }

  lemma LastLengths(s: nat)
    requires 286 <= s < 288
    ensures LEXT[s - 257] == if s == 286 then 77 else 202
  {
  }

  lemma LengthReadStep(B: seq<bool>, c: Config, drop: nat, r: Read)
    requires c.pos <= |B| && c.phase.Length? && r == ReadSymbol(c.phase.ll, B[c.pos..])
    ensures r.Short? ==> Step(B, c) == None
    ensures r.Invalid? && drop == 1 ==>
              Step(B, c) == Some(Config(AfterRead(c.phase.last, c.phase.ll, c.phase.dl, r), c.out, c.pos + drop))
    ensures r.Symbol? && r.s < |c.phase.ll| && drop == c.phase.ll[r.s] ==>
              Step(B, c) == Some(Config(AfterRead(c.phase.last, c.phase.ll, c.phase.dl, r), c.out, c.pos + drop))
  {
    hide ReadSymbol, AfterSymbol;
  }

  lemma OutcomeDrop(t: CodeType, code: seq<nat>, op: nat, val: nat, drop: nat, r: Read)
    requires Accepts(t, code) && Outcome(t, code, op, val, drop, r)
    ensures r.Invalid? ==> drop == 1
    ensures r.Symbol? ==> r.s < |code| && drop == code[r.s]
    ensures !r.Short? && 1 <= drop <= 15
  {
  }

  /** The phase at any of the modes that use the two tables. */
  lemma PhaseAtLen(s: Inflater) returns (ll: seq<nat>, dl: seq<nat>)
    requires s.PhaseOk() && s.mode in {LEN_, LEN, LENEXT, DIST, DISTEXT, MATCH, LIT}
    ensures s.Sized() && GoodCodes(ll, dl) && s.LenTable(LENS, ll) && s.DistTable(dl)
    ensures s.mode in {LEN_, LEN} ==> s.phase == Length(s.last, ll, dl)
    ensures s.mode == LENEXT ==> s.phase == LengthExtra(s.last, ll, dl, s.length, s.extra)
    ensures s.mode == DIST ==> s.phase == Distance(s.last, ll, dl, s.length)
    ensures s.mode == DISTEXT ==> s.phase == DistanceExtra(s.last, ll, dl, s.length, s.offset, s.extra)
    ensures s.mode == MATCH ==> s.phase == Match(s.last, ll, dl, s.length, s.offset)
    ensures s.mode == LIT ==> s.length < 256 && s.phase == Literal(s.last, ll, dl, s.length as byte)
    ensures GoodPhase(s.phase)
  {
    hide DecodesCode, GoodCodes;
    ll, dl := s.phase.ll, s.phase.dl;
  }

  /** The fields mean a phase again. */
  lemma CodePhases(s: Inflater, ll: seq<nat>, dl: seq<nat>)
    requires s.Sized() && GoodCodes(ll, dl) && s.LenTable(LENS, ll) && s.DistTable(dl) && GoodPhase(s.phase)
    requires s.mode in {LEN_, LEN} ==> s.phase == Length(s.last, ll, dl)
    requires s.mode == LENEXT ==> s.phase == LengthExtra(s.last, ll, dl, s.length, s.extra)
    requires s.mode == DIST ==> s.phase == Distance(s.last, ll, dl, s.length)
    requires s.mode == DISTEXT ==> s.phase == DistanceExtra(s.last, ll, dl, s.length, s.offset, s.extra)
    requires s.mode == MATCH ==> s.phase == Match(s.last, ll, dl, s.length, s.offset)
    requires s.mode == LIT ==> s.length < 256 && s.phase == Literal(s.last, ll, dl, s.length as byte)
    requires s.mode == TYPE ==> s.phase == Header(s.last)
    requires s.mode == BAD ==> s.phase == Bad
    requires s.mode in {LEN_, LEN, LENEXT, DIST, DISTEXT, MATCH, LIT, TYPE, BAD}
    ensures s.PhaseOk()
  {
    hide DecodesCode, GoodCodes;
  }

  /** Only the fields that say what comes next have to be set. */
  method EnterAfterLen(s: Inflater, op: nat, val: nat, ghost ll: seq<nat>, ghost dl: seq<nat>, ghost drop: nat, ghost r: Read)
    requires s.Sized() && GoodCodes(ll, dl) && s.LenTable(LENS, ll) && s.DistTable(dl) && Accepts(LENS, ll)
    requires Outcome(LENS, ll, op, val, drop, r) && !r.Short? && GoodPhase(AfterRead(s.last, ll, dl, r))
    modifies s`mode, s`length, s`extra, s`phase
    ensures s.phase == AfterRead(s.last, ll, dl, r) && s.PhaseOk() && s.mode in {LIT, TYPE, BAD, LENEXT}
  {
    hide *;
    LenOutcome(s.last, ll, dl, op, val, drop, r);
    s.phase := AfterRead(s.last, ll, dl, r);
    s.length := val;
    if op == 0 {
      s.mode := LIT;
    } else if Flag(op, 32) {
      s.mode := TYPE;
    } else if Flag(op, 64) {
      s.mode := BAD;
    } else {
      s.extra := op % 16;
      s.mode := LENEXT;
    }
    CodePhases(s, ll, dl);
  }

  lemma GoodCodesAre(ll: seq<nat>, dl: seq<nat>)
    requires GoodCodes(ll, dl)
    ensures Accepts(LENS, ll) && Accepts(DISTS, dl) && !Rejected(LENS, ll) && !Rejected(DISTS, dl)
  {
  }

  lemma AfterReadGood(last: bool, ll: seq<nat>, dl: seq<nat>, r: Read)
    requires GoodCodes(ll, dl) && !r.Short?
    ensures GoodPhase(AfterRead(last, ll, dl, r))
  {
    hide GoodCodes, AfterSymbol;
    if r.Symbol? {
      AfterSymbolGood(last, ll, dl, r.s);
    }
  }

  lemma DistTableFacts(s: Inflater, code: seq<nat>)
    requires s.DistTable(code)
    ensures Accepts(DISTS, code) && s.distbits <= MAXBITS && DecodesCode(DISTS, code, s.distcode[..], s.distAt, s.distbits)
  {
  }

  /** DROPBITS of a code that came from one table or two. */
  method DropCode(s: Inflater, here: Entry, linked: bool, first: nat)
    requires s.BitsOk() && (if linked then first else 0) + here.bits <= s.bits
    modifies s`hold, s`bits, s`pos
    ensures s.BitsOk() && s.bits == old(s.bits) - ((if linked then first else 0) + here.bits)
    ensures s.pos == old(s.pos) + (if linked then first else 0) + here.bits
  {
    hide *;
    if linked {
      DropBits(s, first);
    }
    DropBits(s, here.bits);
  }

  /** Reading a code leaves alone all but the bits. */
  method Fetch(s: Inflater, t: CodeType, table: array<Entry>, at: nat, root: nat, ghost code: seq<nat>, ghost ll: seq<nat>, ghost dl: seq<nat>)
    returns (ok: bool, here: Entry, linked: bool, first: nat)
    requires s.BitsOk() && s.OutOk() && s.PhaseOk() && s.FixedTables() && Reserved(s) && s.Sized()
    requires s.LenTable(LENS, ll) && s.DistTable(dl) && s.next <= |s.input|
    requires Accepts(t, code) && !Rejected(t, code) && root <= MAXBITS && DecodesCode(t, code, table[..], at, root)
    modifies s`hold, s`bits, s`next, s`fed
    ensures s.BitsOk() && s.OutOk() && s.PhaseOk() && s.FixedTables() && Reserved(s)
    ensures s.LenTable(LENS, ll) && s.DistTable(dl)
    ensures Fed(s, old(s.fed), old(s.next)) && s.next <= |s.input| && Unread(s) == old(Unread(s)) && s.pos <= |ByteBits(s.fed)|
    ensures ok ==> (if linked then first else 0) + here.bits <= s.bits
    ensures ok ==> Outcome(t, code, here.op, here.val, (if linked then first else 0) + here.bits,
                           ReadSymbol(code, ByteBits(s.fed)[s.pos..]))
    ensures !ok ==> s.next == |s.input| && ReadSymbol(code, ByteBits(s.fed)[s.pos..]) == Short
    ensures ok ==> s.fed == old(s.fed) || s.bits < (if linked then first else 0) + here.bits + 8
    ensures s.fed == old(s.fed) ==> s.bits == old(s.bits)
  {
    hide *;
    BitsFacts(s);
    UnreadIs(s);
    ghost var fed0, next0, bits0 := s.fed, s.next, s.bits;
    ok, here, linked, first := ReadCode(s, t, table, at, root, code);
    PulledIsFed(s, fed0, next0, bits0);
    PulledFacts(s, fed0, next0, bits0);
    BitsFacts(s);
    UnreadIs(s);
    if ok {
      HeldLittle(s, fed0, next0, bits0, (if linked then first else 0) + here.bits);
    }
  }

  /** The step of a literal or length word that has been found. */
  method TakeLen(s: Inflater, here: Entry, linked: bool, first: nat,
                 ghost c: Config, ghost ll: seq<nat>, ghost dl: seq<nat>, ghost drop: nat, ghost r: Read)
    requires s.BitsOk() && s.OutOk() && s.FixedTables() && Reserved(s) && s.Sized()
    requires GoodCodes(ll, dl) && s.LenTable(LENS, ll) && s.DistTable(dl) && Accepts(LENS, ll)
    requires drop == (if linked then first else 0) + here.bits <= s.bits && (s.bits < drop + 8 || s.bits < 8)
    requires Outcome(LENS, ll, here.op, here.val, drop, r) && !r.Short? && GoodPhase(AfterRead(s.last, ll, dl, r))
    requires Step(ByteBits(s.fed), c) == Some(Config(AfterRead(s.last, ll, dl, r), s.hist, s.pos + drop))
    modifies s`mode, s`length, s`extra, s`hold, s`bits, s`pos, s`phase
    ensures Ready(s) && Reaches(ByteBits(s.fed), c, s.Cfg()) && s.bits == old(s.bits) - drop
  {
    hide *;
    DropCode(s, here, linked, first);
    EnterAfterLen(s, here.op, here.val, ll, dl, drop, r);
    Stepped(s, c);
  }

  /** Mode LEN. */
  method DoLen(s: Inflater) returns (leave: bool)
    requires Ready(s) && s.mode.LEN?
    modifies s`mode, s`length, s`extra, s`hold, s`bits, s`next, s`fed, s`pos, s`phase
    ensures Ready(s) && Fed(s, old(s.fed), old(s.next)) && Reaches(ByteBits(s.fed), old(s.Cfg()), s.Cfg())
    ensures leave ==> Blocked(s)
    ensures s.next <= |s.input| && Unread(s) <= old(Unread(s)) && (!leave ==> Unread(s) < old(Unread(s)))
  {
    hide *;
    ReadyParts(s);
    ghost var ll, dl := PhaseAtLen(s);
    GoodCodesAre(ll, dl);
    LenTableFacts(s, LENS, ll);
    BitsFacts(s);
    CfgIs(s);
    UnreadIs(s);
    ghost var c, fed0 := s.Cfg(), s.fed;
    var ok, here, linked, first := Fetch(s, LENS, s.lencode, s.lenAt, s.lenbits, ll, ll, dl);
    UnreadIs(s);
    ghost var B := ByteBits(s.fed);
    ghost var r, drop := ReadSymbol(ll, B[s.pos..]), (if linked then first else 0) + here.bits;
    LengthReadStep(B, c, drop, r);
    leave := !ok;
    if !ok {
      Starved(s, c);
      return;
    }
    OutcomeDrop(LENS, ll, here.op, here.val, drop, r);
    if s.fed == fed0 {
      TightMeans(s, B);
    }
    AfterReadGood(s.last, ll, dl, r);
    TakeLen(s, here, linked, first, c, ll, dl, drop, r);
    UnreadIs(s);
  }

  // ---- LENEXT

  lemma ExtraStep(B: seq<bool>, c: Config, extra: nat)
    requires c.phase.LengthExtra? && extra == c.phase.extra && c.pos <= |B|
    ensures c.pos + extra > |B| ==> Step(B, c) == None
    ensures c.pos + extra <= |B| ==>
              Step(B, c) == Some(Config(Distance(c.phase.last, c.phase.ll, c.phase.dl, c.phase.base + Number(B, c.pos, extra)),
                                        c.out, c.pos + extra))
  {
    hide Number;
  }

  lemma LengthExtraGood(p: Phase, n: nat)
    requires p.LengthExtra? && GoodPhase(p) && n < Pow2(p.extra)
    ensures GoodPhase(Distance(p.last, p.ll, p.dl, p.base + n)) && p.extra <= 5
  {
    hide GoodCodes;
  }

  /** Mode LENEXT. */
  method DoLenExt(s: Inflater) returns (leave: bool)
    requires Ready(s) && s.mode.LENEXT?
    modifies s`mode, s`length, s`hold, s`bits, s`next, s`fed, s`pos, s`phase
    ensures Ready(s) && Fed(s, old(s.fed), old(s.next)) && Reaches(ByteBits(s.fed), old(s.Cfg()), s.Cfg())
    ensures leave ==> Blocked(s)
    ensures s.next <= |s.input| && Unread(s) <= old(Unread(s)) && (!leave ==> s.mode == DIST)
  {
    hide *;
    ReadyParts(s);
    ghost var ll, dl := PhaseAtLen(s);
    BitsFacts(s);
    CfgIs(s);
    ghost var c, fed0 := s.Cfg(), s.fed;
    Pow2AtLeast1(s.extra);
    LengthExtraGood(s.phase, 0);
    var ok := Need(s, s.extra);
    ghost var B := ByteBits(s.fed);
    ExtraStep(B, c, s.extra);
    leave := !ok;
    if !ok {
      Starved(s, c);
      return;
    }
    if s.fed == fed0 {
      TightMeans(s, B);
    }
    AddLenExt(s, c, ll, dl);
  }

  /** length += BITS(extra) */
  method AddLenExt(s: Inflater, ghost c: Config, ghost ll: seq<nat>, ghost dl: seq<nat>)
    requires s.BitsOk() && s.OutOk() && s.PhaseOk() && s.FixedTables() && Reserved(s) && s.mode.LENEXT? && c == s.Cfg()
    requires GoodCodes(ll, dl) && s.LenTable(LENS, ll) && s.DistTable(dl) && GoodPhase(s.phase) && s.Sized()
    requires s.phase == LengthExtra(s.last, ll, dl, s.length, s.extra) && s.extra <= s.bits < s.extra + 8 && s.next <= |s.input|
    modifies s`mode, s`length, s`hold, s`bits, s`pos, s`phase
    ensures Ready(s) && Reaches(ByteBits(s.fed), c, s.Cfg()) && Unread(s) <= old(Unread(s)) && s.mode == DIST
  {
    hide *;
    CfgIs(s);
    BitsFacts(s);
    ByteBitsSize(s.fed);
    UnreadIs(s);
    ExtraStep(ByteBits(s.fed), c, s.extra);
    var v := Take(s, s.extra);
    LengthExtraGood(s.phase, v);
    EnterDist(s, v, ll, dl);
    UnreadIs(s);
    Stepped(s, c);
  }

  method EnterDist(s: Inflater, v: nat, ghost ll: seq<nat>, ghost dl: seq<nat>)
    requires s.Sized() && GoodCodes(ll, dl) && s.LenTable(LENS, ll) && s.DistTable(dl)
    requires GoodPhase(Distance(s.last, ll, dl, s.length + v))
    modifies s`mode, s`length, s`phase
    ensures s.PhaseOk() && s.mode == DIST && s.phase == Distance(s.last, ll, dl, old(s.length) + v)
  {
    hide *;
    s.length := s.length + v;
    s.mode := DIST;
    s.phase := Distance(s.last, ll, dl, s.length);
    CodePhases(s, ll, dl);
  }

  lemma Pow2AtLeast1(n: nat)
    ensures 0 < Pow2(n)
  {
  }

  // ---- DIST

  ghost function AfterDistRead(last: bool, ll: seq<nat>, dl: seq<nat>, length: nat, r: Read): Phase
    requires !r.Short?
  {
    match r
    case Symbol(s) => AfterDistance(last, ll, dl, length, s)
    case Invalid => Bad
  }

  lemma DistOutcome(last: bool, ll: seq<nat>, dl: seq<nat>, length: nat, op: nat, val: nat, drop: nat, r: Read)
    requires Accepts(DISTS, dl) && Outcome(DISTS, dl, op, val, drop, r)
    ensures 1 <= drop <= 15 && !r.Short?
    ensures Flag(op, 64) ==> AfterDistRead(last, ll, dl, length, r) == Bad
    ensures !Flag(op, 64) ==> AfterDistRead(last, ll, dl, length, r) == DistanceExtra(last, ll, dl, length, val, op % 16)
    ensures Flag(op, 16) <==> !Flag(op, 64)
    ensures op / 16 % 16 != 0
  {
    if r.Symbol? && r.s < 30 {
      DistanceRange(r.s);
    } else if r.Symbol? {
      LastDistances(r.s);
    }
  }

  lemma LastDistances(s: nat)
    requires 30 <= s < 32
    ensures DEXT[s] == 64
  {
  }

  lemma DistanceReadStep(B: seq<bool>, c: Config, drop: nat, r: Read)
    requires c.pos <= |B| && c.phase.Distance? && r == ReadSymbol(c.phase.dl, B[c.pos..])
    ensures r.Short? ==> Step(B, c) == None
    ensures !r.Short? && (r.Invalid? ==> drop == 1) && (r.Symbol? ==> r.s < |c.phase.dl| && drop == c.phase.dl[r.s]) ==>
              Step(B, c) == Some(Config(AfterDistRead(c.phase.last, c.phase.ll, c.phase.dl, c.phase.length, r), c.out, c.pos + drop))
  {
    hide ReadSymbol, AfterDistance;
  }

  lemma AfterDistReadGood(last: bool, ll: seq<nat>, dl: seq<nat>, length: nat, r: Read)
    requires GoodCodes(ll, dl) && !r.Short? && 3 <= length <= 258
    ensures GoodPhase(AfterDistRead(last, ll, dl, length, r))
  {
    hide GoodCodes, AfterDistance;
    if r.Symbol? {
      AfterDistanceGood(last, ll, dl, length, r.s);
    }
  }

  lemma DistanceLength(p: Phase)
    requires GoodPhase(p) && p.Distance?
    ensures 3 <= p.length <= 258
  {
  }

  /** Mode DIST. */
  method DoDist(s: Inflater) returns (leave: bool)
    requires Ready(s) && s.mode.DIST?
    modifies s`mode, s`offset, s`extra, s`hold, s`bits, s`next, s`fed, s`pos, s`phase
    ensures Ready(s) && Fed(s, old(s.fed), old(s.next)) && Reaches(ByteBits(s.fed), old(s.Cfg()), s.Cfg())
    ensures leave ==> Blocked(s)
    ensures s.next <= |s.input| && Unread(s) <= old(Unread(s)) && (!leave ==> Unread(s) < old(Unread(s)))
  {
    hide *;
    ReadyParts(s);
    ghost var ll, dl := PhaseAtLen(s);
    DistanceLength(s.phase);
    GoodCodesAre(ll, dl);
    DistTableFacts(s, dl);
    BitsFacts(s);
    CfgIs(s);
    UnreadIs(s);
    ghost var c, fed0 := s.Cfg(), s.fed;
    var ok, here, linked, first := Fetch(s, DISTS, s.distcode, s.distAt, s.distbits, dl, ll, dl);
    UnreadIs(s);
    ghost var B := ByteBits(s.fed);
    ghost var r, drop := ReadSymbol(dl, B[s.pos..]), (if linked then first else 0) + here.bits;
    DistanceReadStep(B, c, drop, r);
    leave := !ok;
    if !ok {
      Starved(s, c);
      return;
    }
    OutcomeDrop(DISTS, dl, here.op, here.val, drop, r);
    if s.fed == fed0 {
      TightMeans(s, B);
    }
    AfterDistReadGood(s.last, ll, dl, s.length, r);
    TakeDist(s, here, linked, first, c, ll, dl, drop, r);
    UnreadIs(s);
  }

  /** The step of a distance word that has been found. */
  method TakeDist(s: Inflater, here: Entry, linked: bool, first: nat,
                  ghost c: Config, ghost ll: seq<nat>, ghost dl: seq<nat>, ghost drop: nat, ghost r: Read)
    requires s.BitsOk() && s.OutOk() && s.FixedTables() && Reserved(s) && s.Sized()
    requires GoodCodes(ll, dl) && s.LenTable(LENS, ll) && s.DistTable(dl) && Accepts(DISTS, dl)
    requires drop == (if linked then first else 0) + here.bits <= s.bits && (s.bits < drop + 8 || s.bits < 8)
    requires Outcome(DISTS, dl, here.op, here.val, drop, r) && !r.Short? && GoodPhase(AfterDistRead(s.last, ll, dl, s.length, r))
    requires Step(ByteBits(s.fed), c) == Some(Config(AfterDistRead(s.last, ll, dl, s.length, r), s.hist, s.pos + drop))
    modifies s`mode, s`offset, s`extra, s`hold, s`bits, s`pos, s`phase
    ensures Ready(s) && Reaches(ByteBits(s.fed), c, s.Cfg()) && s.bits == old(s.bits) - drop
  {
    hide *;
    DropCode(s, here, linked, first);
    EnterAfterDist(s, here.op, here.val, ll, dl, drop, r);
    Stepped(s, c);
  }

  method EnterAfterDist(s: Inflater, op: nat, val: nat, ghost ll: seq<nat>, ghost dl: seq<nat>, ghost drop: nat, ghost r: Read)
    requires s.Sized() && GoodCodes(ll, dl) && s.LenTable(LENS, ll) && s.DistTable(dl) && Accepts(DISTS, dl)
    requires Outcome(DISTS, dl, op, val, drop, r) && !r.Short? && GoodPhase(AfterDistRead(s.last, ll, dl, s.length, r))
    modifies s`mode, s`offset, s`extra, s`phase
    ensures s.phase == AfterDistRead(s.last, ll, dl, s.length, r) && s.PhaseOk() && s.mode in {BAD, DISTEXT}
  {
    hide *;
    DistOutcome(s.last, ll, dl, s.length, op, val, drop, r);
    s.phase := AfterDistRead(s.last, ll, dl, s.length, r);
    if Flag(op, 64) {
      s.mode := BAD;
    } else {
      s.offset := val;
      s.extra := op % 16;
      s.mode := DISTEXT;
    }
    CodePhases(s, ll, dl);
  }

  // ---- DISTEXT

  lemma DistExtraStep(B: seq<bool>, c: Config, extra: nat)
    requires c.phase.DistanceExtra? && extra == c.phase.extra && c.pos <= |B|
    ensures c.pos + extra > |B| ==> Step(B, c) == None
    ensures c.pos + extra <= |B| ==>
              Step(B, c) == Some(Config(Match(c.phase.last, c.phase.ll, c.phase.dl, c.phase.length,
                                              c.phase.base + Number(B, c.pos, extra)), c.out, c.pos + extra))
  {
    hide Number;
  }

  lemma DistanceExtraGood(p: Phase, n: nat)
    requires p.DistanceExtra? && GoodPhase(p) && n < Pow2(p.extra)
    ensures GoodPhase(Match(p.last, p.ll, p.dl, p.length, p.base + n)) && p.extra <= 13
  {
    hide GoodCodes;
  }

  /** Mode DISTEXT. */
  method DoDistExt(s: Inflater) returns (leave: bool)
    requires Ready(s) && s.mode.DISTEXT?
    modifies s`mode, s`offset, s`hold, s`bits, s`next, s`fed, s`pos, s`phase
    ensures Ready(s) && Fed(s, old(s.fed), old(s.next)) && Reaches(ByteBits(s.fed), old(s.Cfg()), s.Cfg())
    ensures leave ==> Blocked(s)
    ensures s.next <= |s.input| && Unread(s) <= old(Unread(s)) && (!leave ==> s.mode == MATCH)
  {
    hide *;
    ReadyParts(s);
    ghost var ll, dl := PhaseAtLen(s);
    BitsFacts(s);
    CfgIs(s);
    ghost var c, fed0 := s.Cfg(), s.fed;
    Pow2AtLeast1(s.extra);
    DistanceExtraGood(s.phase, 0);
    var ok := Need(s, s.extra);
    ghost var B := ByteBits(s.fed);
    DistExtraStep(B, c, s.extra);
    leave := !ok;
    if !ok {
      Starved(s, c);
      return;
    }
    if s.fed == fed0 {
      TightMeans(s, B);
    }
    AddDistExt(s, c, ll, dl);
  }

  /** offset += BITS(extra) */
  method AddDistExt(s: Inflater, ghost c: Config, ghost ll: seq<nat>, ghost dl: seq<nat>)
    requires s.BitsOk() && s.OutOk() && s.PhaseOk() && s.FixedTables() && Reserved(s) && s.mode.DISTEXT? && c == s.Cfg()
    requires GoodCodes(ll, dl) && s.LenTable(LENS, ll) && s.DistTable(dl) && GoodPhase(s.phase) && s.Sized()
    requires s.phase == DistanceExtra(s.last, ll, dl, s.length, s.offset, s.extra) && s.extra <= s.bits < s.extra + 8 && s.next <= |s.input|
    modifies s`mode, s`offset, s`hold, s`bits, s`pos, s`phase
    ensures Ready(s) && Reaches(ByteBits(s.fed), c, s.Cfg()) && Unread(s) <= old(Unread(s)) && s.mode == MATCH
  {
    hide *;
    CfgIs(s);
    BitsFacts(s);
    ByteBitsSize(s.fed);
    UnreadIs(s);
    DistExtraStep(ByteBits(s.fed), c, s.extra);
    var v := Take(s, s.extra);
    DistanceExtraGood(s.phase, v);
    EnterMatch(s, v, ll, dl);
    UnreadIs(s);
    Stepped(s, c);
  }

  method EnterMatch(s: Inflater, v: nat, ghost ll: seq<nat>, ghost dl: seq<nat>)
    requires s.Sized() && GoodCodes(ll, dl) && s.LenTable(LENS, ll) && s.DistTable(dl)
    requires GoodPhase(Match(s.last, ll, dl, s.length, s.offset + v))
    modifies s`mode, s`offset, s`phase
    ensures s.PhaseOk() && s.mode == MATCH && s.phase == Match(s.last, ll, dl, s.length, old(s.offset) + v)
  {
    hide *;
    s.offset := s.offset + v;
    s.mode := MATCH;
    s.phase := Match(s.last, ll, dl, s.length, s.offset);
    CodePhases(s, ll, dl);
  }

  // ---- MATCH

  /** The next byte of the match. */
  lemma MatchStep(B: seq<bool>, c: Config, b: byte)
    requires c.pos <= |B| && c.phase.Match? && 1 <= c.phase.length && 1 <= c.phase.offset
    ensures c.phase.offset > |c.out| ==> Step(B, c) == Some(Config(Bad, c.out, c.pos))
    ensures c.phase.offset <= |c.out| && b == c.out[|c.out| - c.phase.offset] ==>
              Step(B, c) == Some(Config(if c.phase.length == 1 then Length(c.phase.last, c.phase.ll, c.phase.dl)
                                        else Match(c.phase.last, c.phase.ll, c.phase.dl, c.phase.length - 1, c.phase.offset),
                                        c.out + [b], c.pos))
  {
  }

  /** The phase while a match is being copied. */
  ghost function Copying(last: bool, ll: seq<nat>, dl: seq<nat>, length: nat, offset: nat): Phase {
    if length == 0 then Length(last, ll, dl) else Match(last, ll, dl, length, offset)
  }

  lemma CopyingIs(last: bool, ll: seq<nat>, dl: seq<nat>, length: nat, offset: nat)
    ensures Copying(last, ll, dl, length, offset) == if length == 0 then Length(last, ll, dl) else Match(last, ll, dl, length, offset)
  {
  }

  /** One byte of a match goes out. */
  method CopyMatchByte(s: Inflater, b: byte, ghost ll: seq<nat>, ghost dl: seq<nat>, ghost B: seq<bool>, ghost c0: Config,
                       ghost before: seq<byte>, ghost put0: nat, ghost hist0: seq<byte>)
    requires s.BitsOk() && s.OutOk() && s.length > 0 && s.left > 0 && s.phase == Match(s.last, ll, dl, s.length, s.offset)
    requires 1 <= s.offset <= |s.hist| && b == s.hist[|s.hist| - s.offset]
    requires s.pos <= |B| && Reaches(B, c0, s.Cfg()) && Wrote(s, before, put0, hist0)
    modifies s`length, s`phase, s`put, s`left, s`hist, s.output
    ensures s.BitsOk() && s.OutOk() && s.length == old(s.length) - 1 && s.left == old(s.left) - 1 && s.put == old(s.put) + 1
    ensures s.phase == Copying(s.last, ll, dl, s.length, s.offset)
    ensures Reaches(B, c0, s.Cfg()) && Wrote(s, before, put0, hist0)
    ensures s.hist == old(s.hist) + [b] && s.output[..] == old(s.output[..])[old(s.put) := b]
  {
    hide *;
    OutFacts(s);
    WroteFacts(s, before, put0, hist0);
    CfgIs(s);
    ghost var c, mid, put1, hist1 := s.Cfg(), s.output[..], s.put, s.hist;
    MatchStep(B, c, b);
    PutOut(s, b);
    s.length := s.length - 1;
    s.phase := Copying(s.last, ll, dl, s.length, s.offset);
    CopyingIs(s.last, ll, dl, s.length, s.offset);
    CfgIs(s);
    WroteMore(s, before, put0, hist0, mid, put1, hist1, b);
    ReachesThen(B, c0, c, s.Cfg());
  }

  /** Where in the window a byte k back from this call's output is. */
  lemma WindowAt(s: Inflater, k: nat)
    requires s.OutOk() && 1 <= k <= s.whave
    ensures s.put - s.start <= |s.hist| && k + (s.put - s.start) <= |s.hist| && s.window.Length == WSIZE
    ensures s.wnext < WSIZE && (s.wnext < k ==> s.wnext + WSIZE - k < WSIZE && s.wsize == WSIZE && s.whave == WSIZE)
    ensures s.window[if k <= s.wnext then s.wnext - k else s.wnext + WSIZE - k] == s.hist[|s.hist| - (s.put - s.start) - k]
  {
    var flushed := s.hist[..|s.hist| - (s.put - s.start)];
    assert flushed[|flushed| - k] == s.hist[|s.hist| - (s.put - s.start) - k];
    assert Held(s.window[..], s.wnext, flushed, k);
  }

  /** How far back the decoder may go, and inflate can. */
  lemma ReachOfWindow(s: Inflater)
    requires s.OutOk() && 1 <= s.offset <= 32768
    ensures s.put - s.start <= |s.hist|
    ensures s.offset - (s.put - s.start) <= s.whave <==> s.offset <= |s.hist|
    ensures s.whave <= WSIZE
  {
  }

  /** Copying from the window, in one stretch. */
  method CopyFromWindow(s: Inflater, from: nat, copy0: nat, ghost k: nat, ghost ll: seq<nat>, ghost dl: seq<nat>, ghost B: seq<bool>, ghost c0: Config,
                        ghost before: seq<byte>, ghost put0: nat, ghost hist0: seq<byte>)
    requires s.BitsOk() && s.OutOk() && s.phase == Match(s.last, ll, dl, s.length, s.offset)
    requires 0 < copy0 <= s.length && copy0 <= s.left && copy0 <= k && k == s.offset - (s.put - s.start) && k <= s.whave
    requires if k <= s.wnext then from == s.wnext - k else from == s.wnext + WSIZE - k && copy0 <= k - s.wnext
    requires s.pos <= |B| && Reaches(B, c0, s.Cfg()) && Wrote(s, before, put0, hist0)
    modifies s`length, s`phase, s`put, s`left, s`hist, s.output
    ensures s.BitsOk() && s.OutOk() && s.length == old(s.length) - copy0 && s.left == old(s.left) - copy0 && s.put == old(s.put) + copy0
    ensures s.phase == Copying(s.last, ll, dl, s.length, s.offset)
    ensures Reaches(B, c0, s.Cfg()) && Wrote(s, before, put0, hist0)
  {
    hide *;
    OutFacts(s);
    ghost var put1 := s.put;
    CopyingIs(s.last, ll, dl, s.length, s.offset);
    var copy: nat := copy0;
    var at := from;
    while true
      invariant 0 < copy <= copy0 && copy <= s.length && copy <= s.left && at == from + (copy0 - copy)
      invariant s.length == old(s.length) - (copy0 - copy) && s.left == old(s.left) - (copy0 - copy)
      invariant s.put == put1 + (copy0 - copy) && s.BitsOk() && s.OutOk()
      invariant s.phase == Match(s.last, ll, dl, s.length, s.offset)
      invariant Reaches(B, c0, s.Cfg()) && Wrote(s, before, put0, hist0)
      decreases copy
    {
      WindowAt(s, s.offset - (s.put - s.start));
      CopyMatchByte(s, s.window[at], ll, dl, B, c0, before, put0, hist0);
      CopyingIs(s.last, ll, dl, s.length, s.offset);
      OutFacts(s);
      at, copy := at + 1, copy - 1;
      if copy == 0 {
        break;
      }
    }
  }

  /** Copying from this call's own output. */
  method CopyFromOutput(s: Inflater, copy0: nat, ghost ll: seq<nat>, ghost dl: seq<nat>, ghost B: seq<bool>, ghost c0: Config,
                        ghost before: seq<byte>, ghost put0: nat, ghost hist0: seq<byte>)
    requires s.BitsOk() && s.OutOk() && s.phase == Match(s.last, ll, dl, s.length, s.offset)
    requires 0 < copy0 <= s.length && copy0 <= s.left && 1 <= s.offset && s.start <= s.put && s.offset <= s.put - s.start
    requires s.pos <= |B| && Reaches(B, c0, s.Cfg()) && Wrote(s, before, put0, hist0)
    modifies s`length, s`phase, s`put, s`left, s`hist, s.output
    ensures s.BitsOk() && s.OutOk() && s.length == old(s.length) - copy0 && s.left == old(s.left) - copy0 && s.put == old(s.put) + copy0
    ensures s.phase == Copying(s.last, ll, dl, s.length, s.offset)
    ensures Reaches(B, c0, s.Cfg()) && Wrote(s, before, put0, hist0)
  {
    hide *;
    OutFacts(s);
    ghost var put1 := s.put;
    CopyingIs(s.last, ll, dl, s.length, s.offset);
    var copy: nat := copy0;
    var at: nat := s.put - s.offset;
    while true
      invariant 0 < copy <= copy0 && copy <= s.length && copy <= s.left && at == s.put - s.offset
      invariant s.length == old(s.length) - (copy0 - copy) && s.left == old(s.left) - (copy0 - copy)
      invariant s.put == put1 + (copy0 - copy) && s.BitsOk() && s.OutOk()
      invariant s.phase == Match(s.last, ll, dl, s.length, s.offset)
      invariant Reaches(B, c0, s.Cfg()) && Wrote(s, before, put0, hist0)
      decreases copy
    {
      OutFacts(s);
      OutputAt(s, s.offset);
      CopyMatchByte(s, s.output[at], ll, dl, B, c0, before, put0, hist0);
      CopyingIs(s.last, ll, dl, s.length, s.offset);
      at, copy := at + 1, copy - 1;
      if copy == 0 {
        break;
      }
    }
  }

  lemma OutputAt(s: Inflater, k: nat)
    requires s.OutOk() && 1 <= k && s.start <= s.put && k <= s.put - s.start
    ensures k <= |s.hist| && s.put <= s.output.Length && s.output[s.put - k] == s.hist[|s.hist| - k]
  {
    hide WindowHolds, WindowFull;
    var n := s.put - s.start;
    assert s.hist[|s.hist| - n..][n - k] == s.output[s.start..s.put][n - k];
  }

  lemma MatchBounds(p: Phase)
    requires p.Match? && GoodPhase(p)
    ensures 1 <= p.length <= 258 && 1 <= p.offset <= 32768
  {
  }

  lemma CopyingGood(last: bool, ll: seq<nat>, dl: seq<nat>, length: nat, offset: nat)
    requires GoodCodes(ll, dl) && length <= 258 && 1 <= offset <= 32768
    ensures GoodPhase(Copying(last, ll, dl, length, offset))
  {
    hide GoodCodes;
  }

  /** Mode MATCH. */
  method DoMatch(s: Inflater) returns (leave: bool)
    requires Ready(s) && s.mode.MATCH?
    modifies s`mode, s`length, s`phase, s`put, s`left, s`hist, s.output
    ensures Ready(s) && Reaches(ByteBits(s.fed), old(s.Cfg()), s.Cfg())
    ensures Wrote(s, old(s.output[..]), old(s.put), old(s.hist))
    ensures leave ==> Blocked(s)
    ensures s.left <= old(s.left) && s.put + s.left == old(s.put + s.left) && (!leave ==> s.left < old(s.left) || s.mode == BAD)
  {
    hide *;
    ReadyParts(s);
    ghost var ll, dl := PhaseAtLen(s);
    MatchBounds(s.phase);
    BitsFacts(s);
    OutFacts(s);
    ByteBitsSize(s.fed);
    ReachOfWindow(s);
    CfgIs(s);
    ghost var c := s.Cfg();
    ghost var before, put0, hist0 := s.output[..], s.put, s.hist;
    ReachesSelf(ByteBits(s.fed), c);
    WroteNothing(s);
    leave := false;
    if s.left == 0 {
      IsBlocked(s);
      return true;
    }
    MatchTight(s, c);
    if s.offset > s.put - s.start && s.offset - (s.put - s.start) > s.whave {
      s.mode := BAD;
      s.phase := Bad;
      CodePhases2(s);
      MatchStep(ByteBits(s.fed), c, 0);
      Stepped(s, c);
      return;
    }
    CopySome(s, ll, dl, ByteBits(s.fed), c, before, put0, hist0);
    EndCopy(s, ll, dl);
    IsReady(s);
  }

  /** Copies as much of the match as is in one stretch and as there is room for. */
  method CopySome(s: Inflater, ghost ll: seq<nat>, ghost dl: seq<nat>, ghost B: seq<bool>, ghost c0: Config,
                  ghost before: seq<byte>, ghost put0: nat, ghost hist0: seq<byte>)
    requires s.BitsOk() && s.OutOk() && s.phase == Match(s.last, ll, dl, s.length, s.offset)
    requires 0 < s.length && 0 < s.left && 1 <= s.offset <= 32768 && s.start <= s.put && s.offset - (s.put - s.start) <= s.whave
    requires s.pos <= |B| && Reaches(B, c0, s.Cfg()) && Wrote(s, before, put0, hist0)
    modifies s`length, s`phase, s`put, s`left, s`hist, s.output
    ensures s.BitsOk() && s.OutOk() && s.length < old(s.length) && s.left < old(s.left) && s.put + s.left == old(s.put + s.left)
    ensures s.phase == Copying(s.last, ll, dl, s.length, s.offset)
    ensures Reaches(B, c0, s.Cfg()) && Wrote(s, before, put0, hist0)
  {
    hide *;
    OutFacts(s);
    ReachOfWindow(s);
    var copy: nat := s.put - s.start;
    if s.offset > copy {
      copy := s.offset - copy;
      ghost var k := copy;
      WindowAt(s, k);
      var from: nat;
      if copy > s.wnext {
        copy := copy - s.wnext;
        from := s.wsize - copy;
      } else {
        from := s.wnext - copy;
      }
      if copy > s.length {
        copy := s.length;
      }
      if copy > s.left {
        copy := s.left;
      }
      CopyFromWindow(s, from, copy, k, ll, dl, B, c0, before, put0, hist0);
    } else {
      copy := s.length;
      if copy > s.left {
        copy := s.left;
      }
      CopyFromOutput(s, copy, ll, dl, B, c0, before, put0, hist0);
    }
  }

  method EndCopy(s: Inflater, ghost ll: seq<nat>, ghost dl: seq<nat>)
    requires s.Sized() && GoodCodes(ll, dl) && s.LenTable(LENS, ll) && s.DistTable(dl) && s.mode == MATCH
    requires s.phase == Copying(s.last, ll, dl, s.length, s.offset) && s.length <= 258 && 1 <= s.offset <= 32768
    modifies s`mode
    ensures s.PhaseOk() && s.mode in {LEN, MATCH}
  {
    hide *;
    if s.length == 0 {
      s.mode := LEN;
    }
    CopyingIs(s.last, ll, dl, s.length, s.offset);
    CopyingGood(s.last, ll, dl, s.length, s.offset);
    CodePhases(s, ll, dl);
  }

  lemma CodePhases2(s: Inflater)
    requires s.Sized() && s.mode == BAD && s.phase == Bad
    ensures s.PhaseOk()
  {
  }

  /** In MATCH a step can always be taken. */
  lemma MatchTight(s: Inflater, c: Config)
    requires Ready(s) && s.mode.MATCH? && c == s.Cfg()
    ensures s.bits < 8
  {
    hide *;
    ReadyParts(s);
    BitsFacts(s);
    ByteBitsSize(s.fed);
    CfgIs(s);
    var ll, dl := PhaseAtLen(s);
    MatchCanStep(ByteBits(s.fed), c);
    TightMeans(s, ByteBits(s.fed));
  }

  lemma MatchCanStep(B: seq<bool>, c: Config)
    requires c.pos <= |B| && (c.phase.Match? || c.phase.Literal?)
    ensures Step(B, c).Some?
  {
  }

  // ---- LIT

  lemma LitStep(B: seq<bool>, last: bool, ll: seq<nat>, dl: seq<nat>, out: seq<byte>, pos: nat, b: byte)
    requires pos <= |B|
    ensures Step(B, Config(Literal(last, ll, dl, b), out, pos)) == Some(Config(Length(last, ll, dl), out + [b], pos))
  {
  }

  lemma LengthIsGood(last: bool, ll: seq<nat>, dl: seq<nat>)
    requires GoodCodes(ll, dl)
    ensures GoodPhase(Length(last, ll, dl))
  {
    hide GoodCodes;
  }

  method EnterLen(s: Inflater, ghost ll: seq<nat>, ghost dl: seq<nat>)
    requires s.Sized() && GoodCodes(ll, dl) && s.LenTable(LENS, ll) && s.DistTable(dl)
    modifies s`mode, s`phase
    ensures s.PhaseOk() && s.mode == LEN && s.phase == Length(s.last, ll, dl)
  {
    hide *;
    s.mode := LEN;
    s.phase := Length(s.last, ll, dl);
    LengthIsGood(s.last, ll, dl);
    CodePhases(s, ll, dl);
  }

  /** Mode LIT. */
  method DoLit(s: Inflater) returns (leave: bool)
    requires Ready(s) && s.mode.LIT?
    modifies s`mode, s`phase, s`put, s`left, s`hist, s.output
    ensures Ready(s) && Reaches(ByteBits(s.fed), old(s.Cfg()), s.Cfg())
    ensures Wrote(s, old(s.output[..]), old(s.put), old(s.hist))
    ensures leave ==> Blocked(s)
    ensures s.left <= old(s.left) && s.put + s.left == old(s.put + s.left) && (!leave ==> s.left < old(s.left))
  {
    hide *;
    ReadyParts(s);
    ghost var ll, dl := PhaseAtLen(s);
    BitsFacts(s);
    OutFacts(s);
    ByteBitsSize(s.fed);
    CfgIs(s);
    ghost var c := s.Cfg();
    ghost var before, put0, hist0 := s.output[..], s.put, s.hist;
    WroteNothing(s);
    leave := s.left == 0;
    if leave {
      ReachesSelf(ByteBits(s.fed), c);
      IsBlocked(s);
      return;
    }
    var b := s.length as byte;
    LitStep(ByteBits(s.fed), s.last, ll, dl, s.hist, s.pos, b);
    TightMeans(s, ByteBits(s.fed));
    WroteFacts(s, before, put0, hist0);
    PutOut(s, b);
    EnterLen(s, ll, dl);
    WroteMore(s, before, put0, hist0, before, put0, hist0, b);
    Stepped(s, c);
  }
}
