/** The bits of a block, and proof that the reference decoder turns them back into the
    bytes that the block's literals and matches stand for. */
module BlockFormat {
  import opened Machine
  import opened BitStrings
  import opened Canonical
  import opened DecodeTable
  import opened InfTrees
  import opened DeflateSpec
  import opened DeflateRuns
  import opened RunLengths
  import opened StaticTables

  // ---- Literals and matches

  datatype Token = Lit(value: byte) | Copy(length: nat, distance: nat)

  predicate ValidToken(t: Token) {
    t.Copy? ==> 3 <= t.length <= 258 && 1 <= t.distance <= 32768
  }

  /** Copy `length` bytes from `distance` back; the copy may run into what it writes. */
  function CopyBytes(out: seq<byte>, length: nat, distance: nat): seq<byte>
    requires 1 <= distance <= |out|
    decreases length
  {
    if length == 0 then out else CopyBytes(out + [out[|out| - distance]], length - 1, distance)
  }

  predicate InReach(out: seq<byte>, t: Token) {
    t.Copy? ==> 1 <= t.distance <= |out|
  }

  function ExpandOne(out: seq<byte>, t: Token): seq<byte>
    requires InReach(out, t)
  {
    match t
    case Lit(value) => out + [value]
    case Copy(length, distance) => CopyBytes(out, length, distance)
  }

  /** Every match stays within the output before it. */
  predicate AllInReach(out: seq<byte>, tokens: seq<Token>)
    decreases |tokens|
  {
    tokens == [] || (InReach(out, tokens[0]) && AllInReach(ExpandOne(out, tokens[0]), tokens[1..]))
  }

  /** The output after the literals and matches have been carried out. */
  function Expand(out: seq<byte>, tokens: seq<Token>): seq<byte>
    requires AllInReach(out, tokens)
    decreases |tokens|
  {
    if tokens == [] then out else Expand(ExpandOne(out, tokens[0]), tokens[1..])
  }

  lemma {:induction false} ExpandAppend(out: seq<byte>, a: seq<Token>, b: seq<Token>)
    requires AllInReach(out, a)
    ensures AllInReach(out, a + b) <==> AllInReach(Expand(out, a), b)
    ensures AllInReach(out, a + b) ==> Expand(out, a + b) == Expand(Expand(out, a), b)
    decreases |a|
  {
    hide InReach, ExpandOne;
    if a == [] {
      assert a + b == b;
    } else {
      assert (a + b)[1..] == a[1..] + b;
      ExpandAppend(ExpandOne(out, a[0]), a[1..], b);
    }
  }

  lemma {:induction false} CopyAfter(before: seq<byte>, out: seq<byte>, length: nat, distance: nat)
    requires 1 <= distance <= |out|
    ensures CopyBytes(before + out, length, distance) == before + CopyBytes(out, length, distance)
    decreases length
  {
    if length > 0 {
      var next := [out[|out| - distance]];
      assert before + out + next == before + (out + next);
      CopyAfter(before, out + next, length - 1, distance);
    }
  }

  /** What comes before the output that the matches refer to makes no difference. */
  lemma {:induction false} ExpandAfter(before: seq<byte>, out: seq<byte>, tokens: seq<Token>)
    requires AllInReach(out, tokens)
    ensures AllInReach(before + out, tokens) && Expand(before + out, tokens) == before + Expand(out, tokens)
    decreases |tokens|
  {
    hide CopyBytes;
    if tokens != [] {
      if tokens[0].Copy? {
        CopyAfter(before, out, tokens[0].length, tokens[0].distance);
      } else {
        assert before + out + [tokens[0].value] == before + (out + [tokens[0].value]);
      }
      ExpandAfter(before, ExpandOne(out, tokens[0]), tokens[1..]);
    }
  }

  // ---- Their bits

  predicate HasWord(lens: seq<nat>, s: nat) {
    s < |lens| && 0 < lens[s]
  }

  predicate Coded(ll: seq<nat>, dl: seq<nat>, t: Token) {
    ValidToken(t) &&
    match t
    case Lit(value) => HasWord(ll, value as nat)
    case Copy(length, distance) => HasWord(ll, 257 + LengthCode(length)) && HasWord(dl, DistanceCode(distance))
  }

  function LengthBits(ll: seq<nat>, length: nat): seq<bool>
    requires 3 <= length <= 258 && HasWord(ll, 257 + LengthCode(length))
  {
    LengthFits(length);
    var c := LengthCode(length);
    CodeWord(ll, 257 + c) + Bits(length - LBASE[c], EXTRA_LBITS[c])
  }

  function DistanceBits(dl: seq<nat>, distance: nat): seq<bool>
    requires 1 <= distance <= 32768 && HasWord(dl, DistanceCode(distance))
  {
    DistanceFits(distance);
    var c := DistanceCode(distance);
    CodeWord(dl, c) + Bits(distance - DBASE[c], EXTRA_DBITS[c])
  }

  function TokenBits(ll: seq<nat>, dl: seq<nat>, t: Token): seq<bool>
    requires Coded(ll, dl, t)
  {
    match t
    case Lit(value) => CodeWord(ll, value as nat)
    case Copy(length, distance) => LengthBits(ll, length) + DistanceBits(dl, distance)
  }

  predicate AllCodedTokens(ll: seq<nat>, dl: seq<nat>, tokens: seq<Token>) {
    forall i :: 0 <= i < |tokens| ==> Coded(ll, dl, tokens[i])
  }

  function TokensBits(ll: seq<nat>, dl: seq<nat>, tokens: seq<Token>): seq<bool>
    requires AllCodedTokens(ll, dl, tokens)
  {
    if tokens == [] then []
    else TokensBits(ll, dl, tokens[..|tokens| - 1]) + TokenBits(ll, dl, tokens[|tokens| - 1])
  }

  /** The compressed data of a block, with its end-of-block symbol. */
  function BodyBits(ll: seq<nat>, dl: seq<nat>, tokens: seq<Token>): seq<bool>
    requires AllCodedTokens(ll, dl, tokens) && |ll| > 256
  {
    TokensBits(ll, dl, tokens) + CodeWord(ll, 256)
  }

  // ---- Finding bits in the stream

  ghost predicate At(B: seq<bool>, pos: nat, bits: seq<bool>) {
    pos + |bits| <= |B| && B[pos..pos + |bits|] == bits
  }

  lemma AtSplit(B: seq<bool>, pos: nat, a: seq<bool>, b: seq<bool>)
    ensures At(B, pos, a + b) <==> At(B, pos, a) && At(B, pos + |a|, b)
  {
    if pos + |a| + |b| <= |B| {
      var n := pos + |a| + |b|;
      assert B[pos..n] == B[pos..pos + |a|] + B[pos + |a|..n];
      assert (a + b)[..|a|] == a && (a + b)[|a|..] == b;
      assert B[pos..n][..|a|] == B[pos..pos + |a|] && B[pos..n][|a|..] == B[pos + |a|..n];
    }
  }

  lemma AtCodeWord(B: seq<bool>, pos: nat, lens: seq<nat>, s: nat)
    requires Fits(lens) && s < |lens| && 0 < lens[s] && At(B, pos, CodeWord(lens, s))
    ensures pos <= |B| && ReadSymbol(lens, B[pos..]) == Symbol(s)
  {
    hide CodeWord, Fits;
    assert B[pos..][..lens[s]] == B[pos..pos + lens[s]];
    ReadFound(lens, s, B[pos..]);
  }

  lemma AtNumber(B: seq<bool>, pos: nat, v: nat, n: nat)
    requires At(B, pos, Bits(v, n)) && v < Pow2(n)
    ensures pos + n <= |B| && Number(B, pos, n) == v
  {
    ValBits(v, n);
    LowBound(v, n);
  }

  // ---- Decoding them again

  lemma LiteralDecodes(B: seq<bool>, last: bool, ll: seq<nat>, dl: seq<nat>, out: seq<byte>, pos: nat, value: byte)
    requires GoodCodes(ll, dl) && Coded(ll, dl, Lit(value)) && At(B, pos, CodeWord(ll, value as nat))
    ensures Reaches(B, Config(Length(last, ll, dl), out, pos),
                    Config(Length(last, ll, dl), out + [value], pos + ll[value as nat]))
  {
    hide Reaches, ReadSymbol, GoodCodes, Rejected, CodeWord;
    CodesFit(ll, dl);
    AtCodeWord(B, pos, ll, value as nat);
    var c := Config(Length(last, ll, dl), out, pos);
    var c1 := Config(Literal(last, ll, dl, value), out, pos + ll[value as nat]);
    var c2 := Config(Length(last, ll, dl), out + [value], pos + ll[value as nat]);
    ReachesStep(B, c, c1);
    ReachesThen(B, c, c1, c2);
  }

  lemma CodesFit(ll: seq<nat>, dl: seq<nat>)
    requires GoodCodes(ll, dl)
    ensures Fits(ll) && Fits(dl)
  {
    NotRejectedFits(LENS, ll);
    NotRejectedFits(DISTS, dl);
  }

  lemma StepAtLength(B: seq<bool>, last: bool, ll: seq<nat>, dl: seq<nat>, out: seq<byte>, pos: nat, s: nat)
    requires pos <= |B| && s < |ll| && ReadSymbol(ll, B[pos..]) == Symbol(s)
    ensures Step(B, Config(Length(last, ll, dl), out, pos)) == Some(Config(AfterSymbol(last, ll, dl, s), out, pos + ll[s]))
  {
    hide ReadSymbol, AfterSymbol;
  }

  lemma StepAtDistance(B: seq<bool>, last: bool, ll: seq<nat>, dl: seq<nat>, out: seq<byte>, pos: nat, length: nat, s: nat)
    requires pos <= |B| && s < |dl| && ReadSymbol(dl, B[pos..]) == Symbol(s)
    ensures Step(B, Config(Distance(last, ll, dl, length), out, pos))
         == Some(Config(AfterDistance(last, ll, dl, length, s), out, pos + dl[s]))
  {
    hide ReadSymbol, AfterDistance;
  }

  lemma StepAtExtra(B: seq<bool>, last: bool, ll: seq<nat>, dl: seq<nat>, out: seq<byte>, pos: nat, length: nat,
                    base: nat, extra: nat)
    requires pos + extra <= |B|
    ensures Step(B, Config(LengthExtra(last, ll, dl, base, extra), out, pos))
         == Some(Config(Distance(last, ll, dl, base + Number(B, pos, extra)), out, pos + extra))
    ensures Step(B, Config(DistanceExtra(last, ll, dl, length, base, extra), out, pos))
         == Some(Config(Match(last, ll, dl, length, base + Number(B, pos, extra)), out, pos + extra))
  {
    hide Number;
  }

  lemma AfterLengthSymbol(last: bool, ll: seq<nat>, dl: seq<nat>, length: nat)
    requires 3 <= length <= 258
    ensures var c := LengthCode(length);
            c < |LBASE| && c < |EXTRA_LBITS| &&
            AfterSymbol(last, ll, dl, 257 + c) == LengthExtra(last, ll, dl, LBASE[c], EXTRA_LBITS[c]) &&
            LBASE[c] <= length && length - LBASE[c] < Pow2(EXTRA_LBITS[c])
  {
    hide LengthCode;
    LengthFits(length);
    LengthTable();
  }

  lemma AfterDistanceSymbol(last: bool, ll: seq<nat>, dl: seq<nat>, length: nat, distance: nat)
    requires 1 <= distance <= 32768
    ensures var c := DistanceCode(distance);
            c < |DBASE| && c < |EXTRA_DBITS| &&
            AfterDistance(last, ll, dl, length, c) == DistanceExtra(last, ll, dl, length, DBASE[c], EXTRA_DBITS[c]) &&
            DBASE[c] <= distance && distance - DBASE[c] < Pow2(EXTRA_DBITS[c])
  {
    hide DistanceCode;
    DistanceFits(distance);
    DistanceTable();
  }

  lemma LengthWord(ll: seq<nat>, length: nat)
    requires 3 <= length <= 258 && HasWord(ll, 257 + LengthCode(length))
    ensures var c := LengthCode(length);
            c < |LBASE| && c < |EXTRA_LBITS| && LBASE[c] <= length && 257 + c < |ll| && 0 < ll[257 + c] &&
            LengthBits(ll, length) == CodeWord(ll, 257 + c) + Bits(length - LBASE[c], EXTRA_LBITS[c])
  {
    hide LengthCode, CodeWord, Bits;
    LengthFits(length);
    LengthTable();
  }

  lemma DistanceWord(dl: seq<nat>, distance: nat)
    requires 1 <= distance <= 32768 && HasWord(dl, DistanceCode(distance))
    ensures var c := DistanceCode(distance);
            c < |DBASE| && c < |EXTRA_DBITS| && DBASE[c] <= distance && c < |dl| && 0 < dl[c] &&
            DistanceBits(dl, distance) == CodeWord(dl, c) + Bits(distance - DBASE[c], EXTRA_DBITS[c])
  {
    hide DistanceCode, CodeWord, Bits;
    DistanceFits(distance);
    DistanceTable();
  }

  lemma LengthDecodes(B: seq<bool>, last: bool, ll: seq<nat>, dl: seq<nat>, out: seq<byte>, pos: nat, length: nat)
    requires GoodCodes(ll, dl) && 3 <= length <= 258 && HasWord(ll, 257 + LengthCode(length))
    requires At(B, pos, LengthBits(ll, length))
    ensures Reaches(B, Config(Length(last, ll, dl), out, pos),
                    Config(Distance(last, ll, dl, length), out, pos + |LengthBits(ll, length)|))
  {
    hide *;
    CodesFit(ll, dl);
    LengthWord(ll, length);
    AfterLengthSymbol(last, ll, dl, length);
    var k := LengthCode(length);
    AtSplit(B, pos, CodeWord(ll, 257 + k), Bits(length - LBASE[k], EXTRA_LBITS[k]));
    AtCodeWord(B, pos, ll, 257 + k);
    StepAtLength(B, last, ll, dl, out, pos, 257 + k);
    var p := pos + ll[257 + k];
    AtNumber(B, p, length - LBASE[k], EXTRA_LBITS[k]);
    StepAtExtra(B, last, ll, dl, out, p, 0, LBASE[k], EXTRA_LBITS[k]);
    var c := Config(Length(last, ll, dl), out, pos);
    var c1 := Config(LengthExtra(last, ll, dl, LBASE[k], EXTRA_LBITS[k]), out, p);
    ReachesStep(B, c, c1);
    ReachesThen(B, c, c1, Config(Distance(last, ll, dl, length), out, p + EXTRA_LBITS[k]));
  }

  lemma DistanceDecodes(B: seq<bool>, last: bool, ll: seq<nat>, dl: seq<nat>, out: seq<byte>, pos: nat, length: nat, distance: nat)
    requires GoodCodes(ll, dl) && 1 <= distance <= 32768 && HasWord(dl, DistanceCode(distance))
    requires At(B, pos, DistanceBits(dl, distance))
    ensures Reaches(B, Config(Distance(last, ll, dl, length), out, pos),
                    Config(Match(last, ll, dl, length, distance), out, pos + |DistanceBits(dl, distance)|))
  {
    hide *;
    CodesFit(ll, dl);
    DistanceWord(dl, distance);
    AfterDistanceSymbol(last, ll, dl, length, distance);
    var k := DistanceCode(distance);
    AtSplit(B, pos, CodeWord(dl, k), Bits(distance - DBASE[k], EXTRA_DBITS[k]));
    AtCodeWord(B, pos, dl, k);
    StepAtDistance(B, last, ll, dl, out, pos, length, k);
    var p := pos + dl[k];
    AtNumber(B, p, distance - DBASE[k], EXTRA_DBITS[k]);
    StepAtExtra(B, last, ll, dl, out, p, length, DBASE[k], EXTRA_DBITS[k]);
    var c := Config(Distance(last, ll, dl, length), out, pos);
    var c1 := Config(DistanceExtra(last, ll, dl, length, DBASE[k], EXTRA_DBITS[k]), out, p);
    ReachesStep(B, c, c1);
    ReachesThen(B, c, c1, Config(Match(last, ll, dl, length, distance), out, p + EXTRA_DBITS[k]));
  }

  /** A match is carried out byte by byte. */
  lemma {:induction false} MatchDecodes(B: seq<bool>, last: bool, ll: seq<nat>, dl: seq<nat>, out: seq<byte>, pos: nat, length: nat, distance: nat)
    requires 1 <= distance <= |out| && 1 <= length && pos <= |B|
    ensures Reaches(B, Config(Match(last, ll, dl, length, distance), out, pos),
                    Config(Length(last, ll, dl), CopyBytes(out, length, distance), pos))
    decreases length
  {
    hide Reaches;
    var c := Config(Match(last, ll, dl, length, distance), out, pos);
    var out' := out + [out[|out| - distance]];
    if length == 1 {
      assert CopyBytes(out', 0, distance) == out';
      ReachesStep(B, c, Config(Length(last, ll, dl), out', pos));
    } else {
      var c1 := Config(Match(last, ll, dl, length - 1, distance), out', pos);
      ReachesStep(B, c, c1);
      MatchDecodes(B, last, ll, dl, out', pos, length - 1, distance);
      ReachesTrans(B, c, c1, Config(Length(last, ll, dl), CopyBytes(out, length, distance), pos));
    }
  }

  lemma TokenDecodes(B: seq<bool>, last: bool, ll: seq<nat>, dl: seq<nat>, out: seq<byte>, pos: nat, t: Token)
    requires GoodCodes(ll, dl) && Coded(ll, dl, t) && InReach(out, t) && At(B, pos, TokenBits(ll, dl, t))
    ensures Reaches(B, Config(Length(last, ll, dl), out, pos),
                    Config(Length(last, ll, dl), ExpandOne(out, t), pos + |TokenBits(ll, dl, t)|))
  {
    hide Reaches, GoodCodes, At, CopyBytes, LengthCode, DistanceCode, LengthBits, DistanceBits;
    match t
    case Lit(value) => LiteralDecodes(B, last, ll, dl, out, pos, value);
    case Copy(length, distance) =>
      var a, b := LengthBits(ll, length), DistanceBits(dl, distance);
      AtSplit(B, pos, a, b);
      LengthDecodes(B, last, ll, dl, out, pos, length);
      DistanceDecodes(B, last, ll, dl, out, pos + |a|, length, distance);
      AtInside(B, pos + |a|, b);
      MatchDecodes(B, last, ll, dl, out, pos + |a| + |b|, length, distance);
      var c := Config(Length(last, ll, dl), out, pos);
      var c1 := Config(Distance(last, ll, dl, length), out, pos + |a|);
      var c2 := Config(Match(last, ll, dl, length, distance), out, pos + |a| + |b|);
      ReachesTrans(B, c, c1, c2);
      ReachesTrans(B, c, c2, Config(Length(last, ll, dl), CopyBytes(out, length, distance), pos + |a| + |b|));
  }

  lemma AtInside(B: seq<bool>, pos: nat, bits: seq<bool>)
    requires At(B, pos, bits)
    ensures pos + |bits| <= |B|
  {
  }

  lemma LastToken(out: seq<byte>, tokens: seq<Token>)
    requires tokens != [] && AllInReach(out, tokens)
    ensures var front, t := tokens[..|tokens| - 1], tokens[|tokens| - 1];
            AllInReach(out, front) && InReach(Expand(out, front), t) && Expand(out, tokens) == ExpandOne(Expand(out, front), t)
  {
    hide InReach, ExpandOne;
    var front, t := tokens[..|tokens| - 1], tokens[|tokens| - 1];
    assert tokens == front + [t];
    FrontInReach(out, front, [t]);
    ExpandAppend(out, front, [t]);
    assert [t][1..] == [];
  }

  lemma {:induction false} FrontInReach(out: seq<byte>, a: seq<Token>, b: seq<Token>)
    requires AllInReach(out, a + b)
    ensures AllInReach(out, a)
    decreases |a|
  {
    hide InReach, ExpandOne;
    if a != [] {
      assert (a + b)[1..] == a[1..] + b;
      FrontInReach(ExpandOne(out, a[0]), a[1..], b);
    }
  }

  lemma {:induction false} TokensDecode(B: seq<bool>, last: bool, ll: seq<nat>, dl: seq<nat>, out: seq<byte>, pos: nat, tokens: seq<Token>)
    requires GoodCodes(ll, dl) && AllCodedTokens(ll, dl, tokens) && AllInReach(out, tokens)
    requires At(B, pos, TokensBits(ll, dl, tokens))
    ensures Reaches(B, Config(Length(last, ll, dl), out, pos),
                    Config(Length(last, ll, dl), Expand(out, tokens), pos + |TokensBits(ll, dl, tokens)|))
    decreases |tokens|
  {
    hide Reaches, GoodCodes, At, TokenBits, Coded, AllInReach, InReach, ExpandOne, Expand;
    var c := Config(Length(last, ll, dl), out, pos);
    if tokens == [] {
      ExpandNothing(out);
      ReachesSelf(B, c);
    } else {
      var front, t := tokens[..|tokens| - 1], tokens[|tokens| - 1];
      LastToken(out, tokens);
      var a := TokensBits(ll, dl, front);
      AtSplit(B, pos, a, TokenBits(ll, dl, t));
      TokensDecode(B, last, ll, dl, out, pos, front);
      TokenDecodes(B, last, ll, dl, Expand(out, front), pos + |a|, t);
      ReachesTrans(B, c, Config(Length(last, ll, dl), Expand(out, front), pos + |a|),
        Config(Length(last, ll, dl), Expand(out, tokens), pos + |a| + |TokenBits(ll, dl, t)|));
    }
  }

  lemma ExpandNothing(out: seq<byte>)
    ensures AllInReach(out, []) && Expand(out, []) == out
  {
  }

  /** The data of a block decode to the expansion of its tokens, and decoding stops at the block's end. */
  lemma BodyDecodes(B: seq<bool>, last: bool, ll: seq<nat>, dl: seq<nat>, out: seq<byte>, pos: nat, tokens: seq<Token>)
    requires GoodCodes(ll, dl) && AllCodedTokens(ll, dl, tokens) && AllInReach(out, tokens)
    requires |ll| > 256 && 0 < ll[256] && At(B, pos, BodyBits(ll, dl, tokens))
    ensures Reaches(B, Config(Length(last, ll, dl), out, pos),
                    Config(Header(last), Expand(out, tokens), pos + |BodyBits(ll, dl, tokens)|))
  {
    hide Reaches, GoodCodes, At, TokensBits, AllCodedTokens, Expand, AllInReach, CodeWord, ReadSymbol;
    var a := TokensBits(ll, dl, tokens);
    AtSplit(B, pos, a, CodeWord(ll, 256));
    TokensDecode(B, last, ll, dl, out, pos, tokens);
    CodesFit(ll, dl);
    AtCodeWord(B, pos + |a|, ll, 256);
    ReachesThen(B, Config(Length(last, ll, dl), out, pos), Config(Length(last, ll, dl), Expand(out, tokens), pos + |a|),
      Config(Header(last), Expand(out, tokens), pos + |a| + ll[256]));
  }

  // ---- Only the code words matter

  ghost predicate SameWords(a: seq<nat>, b: seq<nat>, n: nat) {
    forall s :: 0 <= s < n ==> (HasWord(a, s) <==> HasWord(b, s)) && (HasWord(a, s) ==> CodeWord(a, s) == CodeWord(b, s))
  }

  lemma SameTokenBits(ll: seq<nat>, dl: seq<nat>, ll': seq<nat>, dl': seq<nat>, t: Token)
    requires SameWords(ll, ll', 286) && SameWords(dl, dl', 30) && Coded(ll, dl, t)
    ensures Coded(ll', dl', t) && TokenBits(ll', dl', t) == TokenBits(ll, dl, t)
  {
    hide CodeWord, Bits, LengthCode, DistanceCode;
  }

  /** Two pairs of codes with the same words send the same bits. */
  lemma {:induction false} SameBodyBits(ll: seq<nat>, dl: seq<nat>, ll': seq<nat>, dl': seq<nat>, tokens: seq<Token>)
    requires SameWords(ll, ll', 286) && SameWords(dl, dl', 30) && AllCodedTokens(ll, dl, tokens)
    ensures AllCodedTokens(ll', dl', tokens) && TokensBits(ll', dl', tokens) == TokensBits(ll, dl, tokens)
    decreases |tokens|
  {
    hide SameWords, TokenBits, Coded;
    forall i | 0 <= i < |tokens|
      ensures Coded(ll', dl', tokens[i])
    {
      SameTokenBits(ll, dl, ll', dl', tokens[i]);
    }
    if tokens != [] {
      SameTokenBits(ll, dl, ll', dl', tokens[|tokens| - 1]);
      SameBodyBits(ll, dl, ll', dl', tokens[..|tokens| - 1]);
    }
  }
}
