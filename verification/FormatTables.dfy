/** The numbers of RFC 1951 in its own terms: the order of the code length lengths, the fixed code words, and the
    ranges of the length, distance and repeat codes. */
module FormatTables {
  import opened Machine
  import opened BitStrings
  import opened Canonical
  import opened CodeWords
  import opened DecodeTable
  import opened InfTrees
  import opened DeflateSpec
  import opened DeflateRuns
  import opened RunLengths
  import opened StaticTables
  import opened BlockFormat
  import opened BlockHeaders

  // ---- Section 3.2.7: which code length symbol each field is for

  /** The i-th of the fields of three bits from pos on; those left off at the end are 0. */
  function Field(B: seq<bool>, pos: nat, ncode: nat, i: nat): nat
    requires pos + 3 * ncode <= |B|
  {
    if i < ncode then Number(B, pos + 3 * i, 3) else 0
  }

  /** The lengths of the code length code are sent for 16, 17, 18, 0, 8, 7, 9, 6, 10, 5, 11, 4, 12, 3, 13, 2, 14, 1, 15. */
  ghost predicate FieldsAre(B: seq<bool>, pos: nat, ncode: nat, cl: seq<nat>)
    requires pos + 3 * ncode <= |B|
  {
    |cl| == 19 &&
    cl[16] == Field(B, pos, ncode, 0) && cl[17] == Field(B, pos, ncode, 1) && cl[18] == Field(B, pos, ncode, 2) &&
    cl[0] == Field(B, pos, ncode, 3) && cl[8] == Field(B, pos, ncode, 4) && cl[7] == Field(B, pos, ncode, 5) &&
    cl[9] == Field(B, pos, ncode, 6) && cl[6] == Field(B, pos, ncode, 7) && cl[10] == Field(B, pos, ncode, 8) &&
    cl[5] == Field(B, pos, ncode, 9) && cl[11] == Field(B, pos, ncode, 10) && cl[4] == Field(B, pos, ncode, 11) &&
    cl[12] == Field(B, pos, ncode, 12) && cl[3] == Field(B, pos, ncode, 13) && cl[13] == Field(B, pos, ncode, 14) &&
    cl[2] == Field(B, pos, ncode, 15) && cl[14] == Field(B, pos, ncode, 16) && cl[1] == Field(B, pos, ncode, 17) &&
    cl[15] == Field(B, pos, ncode, 18)
  }

  function Fields(B: seq<bool>, pos: nat, n: nat): (r: seq<nat>)
    requires pos + 3 * n <= |B|
    ensures |r| == n
  {
    if n == 0 then [] else Fields(B, pos, n - 1) + [Number(B, pos + 3 * (n - 1), 3)]
  }

  lemma {:induction false} FieldsAt(B: seq<bool>, pos: nat, n: nat, i: nat)
    requires pos + 3 * n <= |B| && i < n
    ensures Fields(B, pos, n)[i] == Number(B, pos + 3 * i, 3)
  {
    if i < n - 1 {
      FieldsAt(B, pos, n - 1, i);
    }
  }

  lemma {:induction false} FieldsRead(B: seq<bool>, last: bool, nlen: nat, ndist: nat, ncode: nat, out: seq<byte>, pos: nat, n: nat)
    requires n <= ncode && pos + 3 * ncode <= |B|
    ensures Reaches(B, Config(ClLengths(last, nlen, ndist, ncode, []), out, pos),
                    Config(ClLengths(last, nlen, ndist, ncode, Fields(B, pos, n)), out, pos + 3 * n))
  {
    hide Number, Reaches;
    var c := Config(ClLengths(last, nlen, ndist, ncode, []), out, pos);
    if n == 0 {
      ReachesSelf(B, c);
    } else {
      FieldsRead(B, last, nlen, ndist, ncode, out, pos, n - 1);
      ReachesThen(B, c, Config(ClLengths(last, nlen, ndist, ncode, Fields(B, pos, n - 1)), out, pos + 3 * (n - 1)),
        Config(ClLengths(last, nlen, ndist, ncode, Fields(B, pos, n)), out, pos + 3 * n));
    }
  }

  lemma ArrangedAt(B: seq<bool>, pos: nat, ncode: nat, s: nat)
    requires pos + 3 * ncode <= |B| && s < 19
    ensures PLACE[s] < 19 && Arrange(Fields(B, pos, ncode))[s] == Field(B, pos, ncode, PLACE[s])
  {
    hide Fields, Number;
    OrderIsPermutation(s);
    if PLACE[s] < ncode {
      FieldsAt(B, pos, ncode, PLACE[s]);
    }
  }

  lemma FieldsArranged(B: seq<bool>, pos: nat, ncode: nat, cl: seq<nat>)
    requires pos + 3 * ncode <= |B| && FieldsAre(B, pos, ncode, cl)
    ensures Arrange(Fields(B, pos, ncode)) == cl
  {
    hide Fields, Field, Arrange;
    forall s | 0 <= s < 19 ensures Arrange(Fields(B, pos, ncode))[s] == cl[s] {
      ArrangedAt(B, pos, ncode, s);
    }
  }

  /** The decoder gives every field to its symbol, whatever the stream. */
  lemma FieldsBelong(B: seq<bool>, last: bool, nlen: nat, ndist: nat, ncode: nat, out: seq<byte>, pos: nat, cl: seq<nat>)
    requires pos + 3 * ncode <= |B| && FieldsAre(B, pos, ncode, cl)
    ensures Reaches(B, Config(ClLengths(last, nlen, ndist, ncode, []), out, pos),
                    Config(if ValidLens(cl) && !Rejected(CODES, cl) then CodeLengths(last, nlen, ndist, cl, []) else Bad,
                           out, pos + 3 * ncode))
  {
    hide Reaches, Fields, FieldsAre, Arrange, Rejected, ValidLens, Number;
    FieldsRead(B, last, nlen, ndist, ncode, out, pos, ncode);
    FieldsArranged(B, pos, ncode, cl);
    ReachesThen(B, Config(ClLengths(last, nlen, ndist, ncode, []), out, pos),
      Config(ClLengths(last, nlen, ndist, ncode, Fields(B, pos, ncode)), out, pos + 3 * ncode),
      Config(if ValidLens(cl) && !Rejected(CODES, cl) then CodeLengths(last, nlen, ndist, cl, []) else Bad, out, pos + 3 * ncode));
  }

  lemma {:induction false} SentFieldAt(B: seq<bool>, pos: nat, cl: seq<nat>, n: nat, i: nat)
    requires i < n <= 19 == |cl| && At(B, pos, ClBits(cl, n)) && forall s :: 0 <= s < 19 ==> cl[s] <= 7
    ensures ORDER[i] < 19 && pos + 3 * n <= |B| && |ClBits(cl, n)| == 3 * n && Number(B, pos + 3 * i, 3) == cl[ORDER[i]]
    decreases n
  {
    hide At, Number, Bits;
    OrderIsPermutation(i);
    OrderIsPermutation(n - 1);
    var v, front := cl[ORDER[n - 1]], ClBits(cl, n - 1);
    AtSplit(B, pos, front, Bits(v, 3));
    ClBitsSize(cl, n - 1);
    RepeatRanges();
    AtNumber(B, pos + |front|, v, 3);
    if i < n - 1 {
      SentFieldAt(B, pos, cl, n - 1, i);
    }
  }

  lemma {:induction false} ClBitsSize(cl: seq<nat>, n: nat)
    requires n <= 19 == |cl|
    ensures |ClBits(cl, n)| == 3 * n
  {
    hide Bits;
    if n > 0 {
      OrderIsPermutation(n - 1);
      ClBitsSize(cl, n - 1);
    }
  }

  /** The encoder sends the length of every symbol in its field. */
  lemma FieldsSent(B: seq<bool>, pos: nat, cl: seq<nat>, ncode: nat)
    requires ncode <= 19 == |cl| && pos <= |B| && At(B, pos, ClBits(cl, ncode))
    requires forall s :: 0 <= s < 19 ==> cl[s] <= 7
    requires forall i {:trigger ORDER[i]} :: ncode <= i < 19 ==> ORDER[i] < 19 && cl[ORDER[i]] == 0
    ensures pos + 3 * ncode <= |B| && FieldsAre(B, pos, ncode, cl)
  {
    hide At, Number, ClBits;
    ClBitsSize(cl, ncode);
    AtInside(B, pos, ClBits(cl, ncode));
    forall i | 0 <= i < 19 ensures ORDER[i] < 19 && Field(B, pos, ncode, i) == cl[ORDER[i]] {
      if i < ncode {
        SentFieldAt(B, pos, cl, ncode, i);
      }
    }
  }

  // ---- Section 3.2.6: the fixed code words

  /** How many of the first k symbols have codes of 7, 8 and 9 bits. */
  function Sevens(k: nat): nat {
    if k < 256 then 0 else if k < 280 then k - 256 else 24
  }

  function Eights(k: nat): nat {
    if k < 144 then k else if k < 280 then 144 else k - 136
  }

  function Nines(k: nat): nat {
    if k < 144 then 0 else if k < 256 then k - 144 else 112
  }

  function Least(a: nat, b: nat): nat {
    if a < b then a else b
  }

  lemma {:induction false} FixedTaken(n: nat, l: nat, s: nat)
    requires n <= 288 && 7 <= l <= 9
    ensures Taken(FixedLitLens(), n, l, s) ==
      if l == 7 then Sevens(Least(n, s))
      else if l == 8 then 2 * Sevens(n) + Eights(Least(n, s))
      else 4 * Sevens(n) + 2 * Eights(n) + Nines(Least(n, s))
    decreases n
  {
    hide FixedLitLens;
    if n > 0 {
      FixedTaken(n - 1, l, s);
      FixedLensAt(n - 1);
      PowersUpTo5();
    }
  }

  /** The table of section 3.2.6. */
  lemma FixedLiteralWord(s: nat)
    requires s < 288
    ensures CodeWord(FixedLitLens(), s) ==
      if s < 144 then Reverse(Bits(0x30 + s, 8))
      else if s < 256 then Reverse(Bits(0x190 + (s - 144), 9))
      else if s < 280 then Reverse(Bits(s - 256, 7))
      else Reverse(Bits(0xC0 + (s - 280), 8))
  {
    hide Reverse, Bits, Taken, FixedLitLens;
    FixedLensAt(s);
    FixedTaken(288, FixedLitLens()[s], s);
  }

  // ---- Section 3.2.5: lengths and distances

  /** Length codes: one for each of 3 to 10, then four for each number of extra bits, and one for 258. */
  lemma LengthCodes(s: nat)
    requires 257 <= s <= 285
    ensures AfterSymbol(false, [], [], s) ==
      if s < 265 then LengthExtra(false, [], [], s - 254, 0)
      else if s < 285 then LengthExtra(false, [], [], 3 + (4 + (s - 265) % 4) * Pow2((s - 261) / 4), (s - 261) / 4)
      else LengthExtra(false, [], [], 258, 0)
  {
    PowersUpTo5();
  }

  /** Distance codes: one for each of 1 to 4, then two for each number of extra bits. */
  lemma DistanceCodes(s: nat)
    requires s < 30
    ensures AfterDistance(false, [], [], 3, s) ==
      if s < 4 then DistanceExtra(false, [], [], 3, s + 1, 0)
      else DistanceExtra(false, [], [], 3, 1 + (2 + s % 2) * Pow2(s / 2 - 1), s / 2 - 1)
  {
    PowersUpTo5();
    PowersUpTo13();
  }

  /** Repeat codes: 16 is for 3 to 6 times the length before, 17 and 18 for 3 to 10 and 11 to 138 zeros. */
  lemma RepeatCodes(n: nat)
    ensures ValidItem(Item(16, n)) <==> 3 <= n <= 6
    ensures ValidItem(Item(17, n)) <==> 3 <= n <= 10
    ensures ValidItem(Item(18, n)) <==> 11 <= n <= 138
    ensures forall v :: v < 16 ==> (ValidItem(Item(v, n)) <==> n == 1)
  {
    PowersUpTo5();
    PowersUpTo13();
  }
}
