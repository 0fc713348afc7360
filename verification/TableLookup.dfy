/** Looking codes up in the tables that inflate_table built, with however many bits have
    arrived: the entry found either settles the next symbol or asks for more input. */
module TableLookup {
  import opened Machine
  import opened BitStrings
  import opened Canonical
  import opened TableLayout
  import opened SymbolOrder
  import opened DecodeTable
  import opened InfTrees
  import opened BitWriter
  import opened DeflateSpec
  import opened DeflateRuns
  import opened InflateState

  /** What the table must give for the stream bits w. */
  ghost function Resolved(t: CodeType, code: seq<nat>, w: nat): (e: Entry)
    requires Accepts(t, code)
    ensures e.bits <= MAXBITS && 1 <= e.bits && !IsLink(e)
  {
    if exists s: nat :: Matches(code, s, w) then
      var s: nat :| Matches(code, s, w);
      SymbolEntryIsNoLink(t, s, code[s]);
      SymbolEntry(t, s, code[s])
    else INVALID
  }

  lemma ResolvedAs(t: CodeType, code: seq<nat>, w: nat) returns (s: Option<nat>)
    requires Accepts(t, code)
    ensures s.Some? ==> s.value < |code| && 0 < code[s.value] && Matches(code, s.value, w)
    ensures s.Some? ==> Resolved(t, code, w) == SymbolEntry(t, s.value, code[s.value])
    ensures s.None? ==> Resolved(t, code, w) == INVALID && forall m: nat :: !Matches(code, m, w)
  {
    if exists m: nat :: Matches(code, m, w) {
      var m: nat :| Matches(code, m, w) && Resolved(t, code, w) == SymbolEntry(t, m, code[m]);
      s := Some(m);
    } else {
      s := None;
    }
  }

  lemma TableResolves(t: CodeType, code: seq<nat>, T: seq<Entry>, at: nat, root: nat, w: nat)
    requires Accepts(t, code) && DecodesCode(t, code, T, at, root)
    ensures Finds(T, at, root, w, Resolved(t, code, w))
  {
    hide Finds, Matches, Resolved;
    var s := ResolvedAs(t, code, w);
    if s.None? {
      assert NoMatch(code, w);
    }
  }

  lemma InRange(code: seq<nat>, s: nat, w: nat)
    requires Matches(code, s, w)
    ensures s < |code| && 0 < code[s] && Low(w, code[s]) == Huff(code, s)
  {
  }

  /** The first look-up: an entry that is final, or a link to the table that has it. */
  lemma FirstEntry(t: CodeType, code: seq<nat>, T: seq<Entry>, at: nat, root: nat, w: nat)
    requires Accepts(t, code) && DecodesCode(t, code, T, at, root) && root <= MAXBITS
    ensures at + Low(w, root) < |T|
    ensures var e, first := Resolved(t, code, w), T[at + Low(w, root)];
            first.bits <= MAXBITS &&
            if IsLink(first) then
              first.bits == root && e.bits > root &&
              at + first.val + Low(High(w, root), first.op) < |T| &&
              T[at + first.val + Low(High(w, root), first.op)] == Entry(e.op, e.bits - root, e.val)
            else first == e && e.bits <= root
  {
    hide DecodesCode, Resolved;
    TableResolves(t, code, T, at, root, w);
  }

  // ---- What the entry says about the symbol

  /** With enough bits there, the entry is that of the next symbol. */
  ghost predicate Outcome(t: CodeType, code: seq<nat>, op: nat, val: nat, drop: nat, r: Read)
    requires Accepts(t, code)
  {
    match r
    case Symbol(s) => s < |code| && 0 < code[s] && drop == code[s] && Entry(op, drop, val) == SymbolEntry(t, s, code[s])
    case Invalid => drop == 1 && op == 64 && val == 0
    case Short => false
  }

  lemma MatchIsCodes(code: seq<nat>, s: nat, w: nat, bits: nat)
    requires w < Pow2(bits)
    ensures Matches(code, s, w) && code[s] <= bits ==> Codes(code, s, Bits(w, bits))
    ensures Codes(code, s, Bits(w, bits)) ==> Matches(code, s, w) && code[s] <= bits
  {
    if s < |code| && 0 < code[s] <= bits {
      MatchIsCodeWord(code, s, w, bits);
    }
  }

  /** A match that needs more bits than there are agrees with those that are. */
  lemma MatchIsCompatible(code: seq<nat>, s: nat, w: nat, bits: nat)
    requires w < Pow2(bits) && Matches(code, s, w) && code[s] > bits
    ensures Compatible(code, s, Bits(w, bits))
  {
    MatchIsCodeWord(code, s, w, code[s]);
    BitsPrefix(w, bits, code[s]);
    assert CodeWord(code, s) == Bits(w, code[s]);
  }

  /** If every code word is matched by nothing, none is even compatible. */
  lemma NoneCompatible(t: CodeType, code: seq<nat>, w: nat, bits: nat)
    requires Accepts(t, code) && !Rejected(t, code) && w < Pow2(bits) && 1 <= bits
    requires forall s: nat :: !Matches(code, s, w)
    ensures forall s :: 0 <= s < |code| ==> !Compatible(code, s, Bits(w, bits))
  {
    hide Matches, CodeWord, Fits, Complete;
    if Complete(code) {
      var s := SomeMatch(code, w);
    } else {
      forall s | 0 <= s < |code|
        ensures !Compatible(code, s, Bits(w, bits))
      {
        OnlyShort(t, code, s);
        MatchIsCodes(code, s, w, bits);
      }
    }
  }

  lemma OnlyShort(t: CodeType, code: seq<nat>, s: nat)
    requires Accepts(t, code) && !Rejected(t, code) && !Complete(code) && s < |code|
    ensures code[s] <= 1
  {
    hide Fits, Complete;
    if Used(code) == 0 {
      NoneUsed(code);
    } else if code[s] > 0 {
      SortedComplete(code, Order(code), s);
      LastIsLongest(code, Order(code), Rank(code, |code|, code[s], s));
    }
  }

  lemma SymbolCase(t: CodeType, code: seq<nat>, w: nat, bits: nat, s: nat)
    requires Accepts(t, code) && Fits(code) && w < Pow2(bits) && s < |code| && 0 < code[s] && Matches(code, s, w)
    ensures ReadSymbol(code, Bits(w, bits)) == if code[s] <= bits then Symbol(s) else Short
  {
    hide Matches, Fits, CodeWord, Compatible, Accepts, Codes;
    MatchIsCodes(code, s, w, bits);
    if code[s] <= bits {
      ReadFound(code, s, Bits(w, bits));
    } else {
      MatchIsCompatible(code, s, w, bits);
      forall s' | Codes(code, s', Bits(w, bits))
        ensures false
      {
        MatchIsCodes(code, s', w, bits);
        MatchUnique(code, s, s', w);
      }
    }
  }

  lemma NoSymbolCase(t: CodeType, code: seq<nat>, w: nat, bits: nat)
    requires Accepts(t, code) && !Rejected(t, code) && w < Pow2(bits) && forall s: nat :: !Matches(code, s, w)
    ensures ReadSymbol(code, Bits(w, bits)) == if 1 <= bits then Invalid else Short
  {
    hide Matches, Rejected, CodeWord, Compatible, Accepts, Codes;
    forall s: nat
      ensures !Codes(code, s, Bits(w, bits))
    {
      MatchIsCodes(code, s, w, bits);
    }
    if bits >= 1 {
      NoneCompatible(t, code, w, bits);
    }
  }

  /** The entry for the bits that are there, zeros standing for those that are not. */
  lemma EntryMeans(t: CodeType, code: seq<nat>, w: nat, bits: nat)
    requires Accepts(t, code) && !Rejected(t, code) && w < Pow2(bits)
    ensures var e, r := Resolved(t, code, w), ReadSymbol(code, Bits(w, bits));
            if e.bits <= bits then Outcome(t, code, e.op, e.val, e.bits, r) else r == Short
  {
    hide Matches, Rejected, Fits, Accepts, ReadSymbol, Resolved, Bits, Pow2;
    AcceptsValid(t, code);
    NotRejectedFits(t, code);
    var s := ResolvedAs(t, code, w);
    if s.Some? {
      SymbolCase(t, code, w, bits, s.value);
      SymbolEntryIsNoLink(t, s.value, code[s.value]);
    } else {
      NoSymbolCase(t, code, w, bits);
    }
  }

  lemma AcceptsValid(t: CodeType, code: seq<nat>)
    requires Accepts(t, code)
    ensures ValidLens(code) && (t.LENS? ==> |code| <= 288) && (t.DISTS? ==> |code| <= 32)
  {
  }

  lemma CompleteNeverInvalid(t: CodeType, code: seq<nat>, w: nat, bits: nat)
    requires Accepts(t, code) && Complete(code) && w < Pow2(bits)
    ensures !ReadSymbol(code, Bits(w, bits)).Invalid?
  {
    hide Matches, ReadSymbol, CodeWord, Taken;
    var s := SomeMatch(code, w);
    InRange(code, s, w);
    SymbolCase(t, code, w, bits, s);
  }

  lemma StillCodes(code: seq<nat>, s: nat, bs: seq<bool>, bs': seq<bool>)
    requires Codes(code, s, bs') && bs <= bs' && code[s] <= |bs|
    ensures Codes(code, s, bs)
  {
    hide CodeWord;
  }

  lemma OneBitCodes(code: seq<nat>, s: nat, bs: seq<bool>)
    requires Compatible(code, s, bs) && code[s] <= 1 && bs != []
    ensures Codes(code, s, bs)
  {
    hide CodeWord;
  }

  /** A symbol that needed the last byte extends into it. */
  lemma NeededTheLast(t: CodeType, code: seq<nat>, w: nat, bits: nat, bs: seq<bool>, op: nat, val: nat, drop: nat)
    requires Accepts(t, code) && !Rejected(t, code) && w < Pow2(bits) && bs <= Bits(w, bits)
    requires ReadSymbol(code, bs) == Short && Outcome(t, code, op, val, drop, ReadSymbol(code, Bits(w, bits)))
    ensures drop > |bs|
  {
    hide Accepts, Rejected, Complete, CodeWord;
    var r := ReadSymbol(code, Bits(w, bits));
    if r.Symbol? {
      if drop <= |bs| {
        StillCodes(code, r.s, bs, Bits(w, bits));
      }
    } else if bs != [] {
      if Complete(code) {
        CompleteNeverInvalid(t, code, w, bits);
      } else {
        var s :| 0 <= s < |code| && Compatible(code, s, bs);
        OnlyShort(t, code, s);
        OneBitCodes(code, s, bs);
      }
    }
  }

  // ---- Reading a code from the stream

  /** The index into the second table: BITS(last.bits + last.op) >> last.bits. */
  lemma SecondIndex(hold: nat, root: nat, op: nat)
    ensures High(Low(hold, root + op), root) == Low(High(hold, root), op)
  {
    HighOfLow(hold, root, op);
  }

  lemma ReadAt(s: Inflater)
    requires s.BitsOk()
    ensures s.pos <= |ByteBits(s.fed)| == s.pos + s.bits && ByteBits(s.fed)[s.pos..] == Bits(s.hold, s.bits)
    ensures s.bits <= 32 && s.next <= |s.input| && s.hold < Pow2(s.bits)
  {
    hide ByteBits, Bits;
  }

  lemma LinkMeans(e: Entry)
    ensures IsLink(e) <==> 0 < e.op < 16
  {
  }

  /** Nothing was read since, or what was there before the last byte did not settle the symbol. */
  ghost predicate Needed(code: seq<nat>, fed: seq<byte>, pos: nat, more: bool) {
    more ==> fed != [] && pos <= |ByteBits(fed[..|fed| - 1])| && ReadSymbol(code, ByteBits(fed[..|fed| - 1])[pos..]) == Short
  }

  lemma NowNeeded(code: seq<nat>, fed1: seq<byte>, b: byte, pos: nat)
    requires pos <= |ByteBits(fed1)| && ReadSymbol(code, ByteBits(fed1)[pos..]) == Short
    ensures Needed(code, fed1 + [b], pos, true)
  {
    hide ReadSymbol, ByteBits;
    assert (fed1 + [b])[..|fed1 + [b]| - 1] == fed1;
  }

  lemma NotNeeded(code: seq<nat>, fed: seq<byte>, pos: nat)
    ensures Needed(code, fed, pos, false)
  {
  }

  lemma LastByteUsed(s: Inflater, t: CodeType, code: seq<nat>, more: bool, op: nat, val: nat, drop: nat)
    requires s.BitsOk() && Accepts(t, code) && !Rejected(t, code) && Needed(code, s.fed, s.pos, more)
    requires s.pos <= |ByteBits(s.fed)| && Outcome(t, code, op, val, drop, ReadSymbol(code, ByteBits(s.fed)[s.pos..]))
    ensures more ==> s.bits < drop + 8
  {
    hide Accepts, Rejected, ReadSymbol, Outcome, Bits;
    ReadAt(s);
    if more {
      var fed1, b := s.fed[..|s.fed| - 1], s.fed[|s.fed| - 1];
      assert s.fed == fed1 + [b];
      ByteBitsSnoc(fed1, b);
      assert ByteBits(fed1)[s.pos..] <= ByteBits(s.fed)[s.pos..];
      NeededTheLast(t, code, s.hold, s.bits, ByteBits(fed1)[s.pos..], op, val, drop);
    }
  }

  /** The second table, for a code that is too long for the first. */
  method ReadSecond(s: Inflater, t: CodeType, table: array<Entry>, at: nat, root: nat, ghost code: seq<nat>, last: Entry,
                    ghost fed0: seq<byte>, ghost next0: nat, ghost bits0: nat) returns (ok: bool, here: Entry)
    requires s.BitsOk() && Accepts(t, code) && !Rejected(t, code) && root <= MAXBITS
    requires DecodesCode(t, code, table[..], at, root) && 0 < last.op < 16
    requires Pulled(s, fed0, next0, bits0) && s.bits >= bits0 && Needed(code, s.fed, s.pos, s.bits > bits0)
    requires last.bits == root <= s.bits && at + Low(s.hold, root) < |table[..]| && table[at + Low(s.hold, root)] == last
    modifies s`hold, s`bits, s`next, s`fed
    ensures s.BitsOk() && Pulled(s, fed0, next0, bits0) && s.bits >= bits0 && s.pos <= |ByteBits(s.fed)|
    ensures ok ==> Needed(code, s.fed, s.pos, s.bits > bits0) && root + here.bits <= s.bits
    ensures ok ==> Outcome(t, code, here.op, here.val, root + here.bits, ReadSymbol(code, ByteBits(s.fed)[s.pos..]))
    ensures !ok ==> s.next == |s.input| && ReadSymbol(code, ByteBits(s.fed)[s.pos..]) == Short
  {
    hide *;
    ok := true;
    while true
      invariant s.BitsOk() && Pulled(s, fed0, next0, bits0) && s.bits >= bits0
      invariant Needed(code, s.fed, s.pos, s.bits > bits0)
      invariant last.bits == root <= s.bits && at + Low(s.hold, root) < |table[..]| && table[at + Low(s.hold, root)] == last
      decreases |s.input| - s.next
    {
      ReadAt(s);
      FirstEntry(t, code, table[..], at, root, s.hold);
      EntryMeans(t, code, s.hold, s.bits);
      LinkMeans(last);
      SecondIndex(s.hold, root, last.op);
      here := table[at + last.val + High(Low(s.hold, last.bits + last.op), last.bits)];
      if last.bits + here.bits <= s.bits {
        break;
      }
      if s.next == |s.input| {
        ok := false;
        return;
      }
      PulledFacts(s, fed0, next0, bits0);
      ghost var fed1, next1, hold1, bits1 := s.fed, s.next, s.hold, s.bits;
      MaxBits();
      PullByte(s);
      HoldGrows(s, hold1, bits1, fed1, s.input[next1], root);
      PulledMore(s, fed0, next0, bits0, fed1, next1);
      NowNeeded(code, fed1, s.input[next1], s.pos);
    }
  }

  /** The loops of inflate that pull bytes until the table entry is covered by the bits held;
      `linked` says that the code went through a second table, whose first level took `first` bits. */
  method ReadCode(s: Inflater, t: CodeType, table: array<Entry>, at: nat, root: nat, ghost code: seq<nat>)
    returns (ok: bool, here: Entry, linked: bool, first: nat)
    requires s.BitsOk() && Accepts(t, code) && !Rejected(t, code) && root <= MAXBITS
    requires DecodesCode(t, code, table[..], at, root)
    modifies s`hold, s`bits, s`next, s`fed
    ensures s.BitsOk() && Pulled(s, old(s.fed), old(s.next), old(s.bits)) && s.pos <= |ByteBits(s.fed)|
    ensures ok ==> (if linked then first else 0) + here.bits <= s.bits
    ensures ok ==> Outcome(t, code, here.op, here.val, (if linked then first else 0) + here.bits,
                           ReadSymbol(code, ByteBits(s.fed)[s.pos..]))
    ensures !ok ==> s.next == |s.input| && ReadSymbol(code, ByteBits(s.fed)[s.pos..]) == Short
    ensures ok && s.bits > old(s.bits) ==> s.bits < (if linked then first else 0) + here.bits + 8
  {
    hide *;
    ghost var fed0, next0, bits0 := s.fed, s.next, s.bits;
    ReadAt(s);
    PulledNothing(s);
    NotNeeded(code, s.fed, s.pos);
    ok, linked, first := true, false, 0;
    while true
      invariant s.BitsOk() && Pulled(s, fed0, next0, bits0) && s.bits >= bits0
      invariant Needed(code, s.fed, s.pos, s.bits > bits0)
      decreases |s.input| - s.next
    {
      ReadAt(s);
      FirstEntry(t, code, table[..], at, root, s.hold);
      EntryMeans(t, code, s.hold, s.bits);
      here := table[at + Low(s.hold, root)];
      LinkMeans(here);
      if here.bits <= s.bits {
        break;
      }
      if s.next == |s.input| {
        ok := false;
        return;
      }
      PulledFacts(s, fed0, next0, bits0);
      ghost var fed1, next1 := s.fed, s.next;
      MaxBits();
      PullByte(s);
      PulledMore(s, fed0, next0, bits0, fed1, next1);
      NowNeeded(code, fed1, s.input[next1], s.pos);
    }
    if 0 < here.op < 16 {
      linked, first := true, here.bits;
      ok, here := ReadSecond(s, t, table, at, root, code, here, fed0, next0, bits0);
      if !ok {
        return;
      }
    }
    LastByteUsed(s, t, code, s.bits > bits0, here.op, here.val, (if linked then first else 0) + here.bits);
  }

  /** The low bits held stay when a byte is read. */
  lemma HoldGrows(s: Inflater, hold: nat, bits: nat, fed: seq<byte>, b: byte, n: nat)
    requires s.BitsOk() && s.fed == fed + [b] && s.bits == bits + 8 && hold < Pow2(bits) && n <= bits
    requires s.pos <= |ByteBits(fed)| && ByteBits(fed)[s.pos..] == Bits(hold, bits)
    ensures Low(s.hold, n) == Low(hold, n)
  {
    hide ByteBits, Bits;
    ReadAt(s);
    ByteBitsSnoc(fed, b);
    BitsPrefix(s.hold, n, s.bits);
    BitsPrefix(hold, n, bits);
    assert ByteBits(s.fed)[s.pos..][..n] == ByteBits(fed)[s.pos..][..n];
    LowEqual(s.hold, hold, n);
  }
}
