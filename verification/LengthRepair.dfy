/** gen_bitlen of trees.c, second half: moving leaves between levels until the
    clipped code lengths fill the code space exactly. */
module LengthRepair {
  import opened Machine
  import opened BitStrings
  import opened Canonical
  import opened HuffmanTheory
  import opened MergeOrder
  import opened BitLengths

  /** The l-bit strings taken up by code words counted per length. */
  function Room(bl: seq<nat>, l: nat): nat
    requires l < |bl|
  {
    if l == 0 then bl[0] else 2 * Room(bl, l - 1) + bl[l]
  }

  function Total(bl: seq<nat>, l: nat): nat
    requires l < |bl|
  {
    if l == 0 then bl[0] else Total(bl, l - 1) + bl[l]
  }

  lemma {:induction false} RoomPlus(bl: seq<nat>, b: nat, l: nat)
    requires l < |bl| && b < |bl|
    ensures Room(bl[b := bl[b] + 1], l) == Room(bl, l) + if b <= l then Pow2(l - b) else 0
    ensures Total(bl[b := bl[b] + 1], l) == Total(bl, l) + if b <= l then 1 else 0
  {
    if l > 0 {
      RoomPlus(bl, b, l - 1);
    }
  }

  /** Moving a leaf from length b one level down and an overlong one up beside it:
      each repair step lowers the Kraft sum by exactly 2^-max and keeps the number of leaves. */
  lemma MovedRoom(bl: seq<nat>, bl1: seq<nat>, bl2: seq<nat>, bl': seq<nat>, b: nat, max: nat)
    requires b < max < |bl| && bl[b] > 0 && bl1 == bl[b := bl[b] - 1]
    requires bl2 == bl1[b + 1 := bl1[b + 1] + 2] && bl2[max] > 0 && bl' == bl2[max := bl2[max] - 1]
    ensures Room(bl', max) + 1 == Room(bl, max) && Total(bl', max) == Total(bl, max)
  {
    hide Room, Total;
    RoomPlus(bl1, b, max);
    assert bl1[b := bl1[b] + 1] == bl;
    var mid := bl1[b + 1 := bl1[b + 1] + 1];
    RoomPlus(bl1, b + 1, max);
    RoomPlus(mid, b + 1, max);
    assert mid[b + 1 := mid[b + 1] + 1] == bl2;
    RoomPlus(bl', max, max);
    assert bl'[max := bl'[max] + 1] == bl2;
    assert Pow2(max - b) == 2 * Pow2(max - (b + 1));
  }

  ghost predicate Repairing(bl: seq<nat>, max: nat, n: nat, overflow: nat) {
    |bl| == MAXBITS + 1 && 2 <= max <= MAXBITS && overflow % 2 == 0 &&
    Room(bl, max) == Pow2(max) + overflow / 2 && Total(bl, max) == n <= Pow2(max) &&
    bl[0] == 0 && bl[max] >= overflow / 2 && forall l :: max < l <= MAXBITS ==> bl[l] == 0
  }

  lemma {:induction false} AllAtMax(bl: seq<nat>, max: nat, l: nat)
    requires l < max < |bl| && forall i :: 0 <= i < max ==> bl[i] == 0
    ensures Room(bl, l) == Total(bl, l) == 0
  {
    if l > 0 {
      AllAtMax(bl, max, l - 1);
    }
  }

  /** While there is overflow, some length below max is in use. */
  lemma SearchEnds(bl: seq<nat>, max: nat, n: nat, overflow: nat)
    requires Repairing(bl, max, n, overflow) && overflow > 0
    ensures exists l :: 1 <= l < max && bl[l] != 0
  {
    if forall l :: 1 <= l < max ==> bl[l] == 0 {
      AllAtMax(bl, max, max - 1);
    }
  }

  lemma RepairStep(bl: seq<nat>, bl1: seq<nat>, bl2: seq<nat>, bl': seq<nat>, b: nat, max: nat, n: nat, overflow: nat)
    requires Repairing(bl, max, n, overflow) && overflow > 0 && 1 <= b < max < |bl| && bl[b] > 0
    requires bl1 == bl[b := bl[b] - 1]
    requires bl2 == bl1[b + 1 := bl1[b + 1] + 2] && bl2[max] > 0 && bl' == bl2[max := bl2[max] - 1]
    ensures overflow >= 2 && Repairing(bl', max, n, overflow - 2)
  {
    hide Room, Total;
    MovedRoom(bl, bl1, bl2, bl', b, max);
  }

  lemma RepairFacts(bl: seq<nat>, max: nat, n: nat, overflow: nat)
    requires Repairing(bl, max, n, overflow)
    ensures |bl| == MAXBITS + 1 && 2 <= max <= MAXBITS && (overflow > 0 ==> overflow >= 2 && bl[max] > 0)
  {
  }

  /** gen_bitlen, the repair of the length counts. */
  method Repair(blCount: array<nat>, maxLength: nat, overflow0: nat, ghost n: nat)
    requires Repairing(blCount[..], maxLength, n, overflow0) && overflow0 > 0
    modifies blCount
    ensures Repairing(blCount[..], maxLength, n, 0)
  {
    hide *;
    var overflow := overflow0;
    while true
      invariant overflow > 0 && Repairing(blCount[..], maxLength, n, overflow)
      decreases overflow
    {
      RepairFacts(blCount[..], maxLength, n, overflow);
      SearchEnds(blCount[..], maxLength, n, overflow);
      var bits: nat := maxLength - 1;
      while blCount[bits] == 0
        invariant 1 <= bits < maxLength && exists l :: 1 <= l <= bits && blCount[l] != 0
        decreases bits
      {
        bits := bits - 1;
      }
      ghost var bl := blCount[..];
      blCount[bits] := blCount[bits] - 1;
      ghost var bl1 := blCount[..];
      blCount[bits + 1] := blCount[bits + 1] + 2;
      ghost var bl2 := blCount[..];
      blCount[maxLength] := blCount[maxLength] - 1;
      RepairStep(bl, bl1, bl2, blCount[..], bits, maxLength, n, overflow);
      overflow := overflow - 2;
      if overflow == 0 {
        break;
      }
    }
  }
}
