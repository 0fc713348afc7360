/** syncsearch of inflate.c: looks for the empty stored block that a full flush leaves, across any number of calls. */
module SyncSearch {
  import opened Machine

  const PATTERN: seq<byte> := [0, 0, 0xff, 0xff]

  /** The bytes end with the first k of the pattern. */
  predicate EndsWith(seen: seq<byte>, k: nat)
    requires k <= 4
  {
    k <= |seen| && seen[|seen| - k..] == PATTERN[..k]
  }

  /** How much of the pattern the bytes end with, and no more of it than that. */
  predicate Matched(seen: seq<byte>, got: nat) {
    got <= 4 && EndsWith(seen, got) && forall k :: got < k <= 4 ==> !EndsWith(seen, k)
  }

  /** The pattern has not been seen before the end. */
  predicate NotBefore(seen: seq<byte>) {
    forall n :: 0 <= n < |seen| ==> !EndsWith(seen[..n], 4)
  }

  function Next(got: nat, b: byte): nat
    requires got < 4
  {
    if b == (if got < 2 then 0 else 0xff) then got + 1
    else if b != 0 then 0
    else 4 - got
  }

  lemma EndsNext(seen: seq<byte>, b: byte, k: nat)
    requires k < 4
    ensures EndsWith(seen + [b], k + 1) <==> EndsWith(seen, k) && b == PATTERN[k]
  {
    assert PATTERN[..k + 1] == PATTERN[..k] + [PATTERN[k]];
    if k <= |seen| {
      assert (seen + [b])[|seen| - k..] == seen[|seen| - k..] + [b];
      if EndsWith(seen + [b], k + 1) {
        var s := (seen + [b])[|seen| - k..];
        assert s == PATTERN[..k + 1];
        assert s[..k] == seen[|seen| - k..] && s[k] == b;
        assert PATTERN[..k + 1][..k] == PATTERN[..k] && PATTERN[..k + 1][k] == PATTERN[k];
      }
    }
  }

  /** What of the pattern the beginnings of the pattern end with. */
  lemma Overlap(got: nat, k: nat)
    requires k <= got < 4
    ensures PATTERN[..got][got - k..] == PATTERN[..k] <==> k == 0 || k == got || (got == 2 && k == 1)
  {
    assert PATTERN[..0] == [] && PATTERN[..1] == [0] && PATTERN[..2] == [0, 0] && PATTERN[..3] == [0, 0, 0xff];
    if got == 3 && k > 0 {
      assert PATTERN[..3][3 - k..][k - 1] == 0xff;
      assert k < 3 ==> PATTERN[..k][k - 1] == 0;
    }
  }

  /** What the bytes end with beside the longest. */
  lemma EndsShorter(seen: seq<byte>, got: nat, k: nat)
    requires got < 4 && EndsWith(seen, got) && k <= got
    ensures EndsWith(seen, k) <==> k == 0 || k == got || (got == 2 && k == 1)
  {
    assert seen[|seen| - k..] == seen[|seen| - got..][got - k..];
    Overlap(got, k);
  }

  /** One byte: the state that falls back is the longest match again. */
  lemma NextMatches(seen: seq<byte>, got: nat, b: byte)
    requires Matched(seen, got) && got < 4
    ensures Matched(seen + [b], Next(got, b))
  {
    forall k: nat | 1 <= k <= 4
      ensures EndsWith(seen + [b], k) <==> b == PATTERN[k - 1] && (k == 1 || k == got + 1 || (got == 2 && k == 2))
    {
      EndsNext(seen, b, k - 1);
      if k - 1 <= got {
        EndsShorter(seen, got, k - 1);
      }
    }
    NoneEnds(seen + [b]);
    IsMatched(seen + [b], got, b);
  }

  lemma NoneEnds(seen: seq<byte>)
    ensures EndsWith(seen, 0)
  {
  }

  lemma IsMatched(seen: seq<byte>, got: nat, b: byte)
    requires got < 4 && EndsWith(seen, 0)
    requires forall k: nat :: 1 <= k <= 4 ==>
      (EndsWith(seen, k) <==> b == PATTERN[k - 1] && (k == 1 || k == got + 1 || (got == 2 && k == 2)))
    ensures Matched(seen, Next(got, b))
  {
    hide EndsWith;
    assert EndsWith(seen, 1) <==> b == 0;
    assert EndsWith(seen, 2) <==> b == 0 && (got == 1 || got == 2);
    assert EndsWith(seen, 3) <==> b == 0xff && got == 2;
    assert EndsWith(seen, 4) <==> b == 0xff && got == 3;
  }

  /** One more byte of a buffer. */
  lemma Advance(seen: seq<byte>, buf: seq<byte>, next: nat, got: nat)
    requires next < |buf| && got < 4 && Matched(seen + buf[..next], got) && NotBefore(seen + buf[..next])
    ensures Matched(seen + buf[..next + 1], Next(got, buf[next])) && NotBefore(seen + buf[..next + 1])
  {
    hide EndsWith;
    var now := seen + buf[..next];
    assert seen + buf[..next + 1] == now + [buf[next]];
    NextMatches(now, got, buf[next]);
    forall n | 0 <= n < |now| + 1 ensures !EndsWith((now + [buf[next]])[..n], 4) {
      assert (now + [buf[next]])[..n] == if n < |now| then now[..n] else now;
    }
  }

  /** Reads until the whole pattern has been seen or the buffer ends; `seen` is what earlier calls have read. */
  method Search(have: nat, buf: seq<byte>, ghost seen: seq<byte>) returns (got: nat, next: nat)
    requires Matched(seen, have) && NotBefore(seen)
    ensures next <= |buf| && Matched(seen + buf[..next], got) && NotBefore(seen + buf[..next])
    ensures got == 4 || next == |buf|
  {
    hide EndsWith, NotBefore;
    got := have;
    next := 0;
    assert seen + buf[..0] == seen;
    while next < |buf| && got < 4
      invariant next <= |buf| && Matched(seen + buf[..next], got) && NotBefore(seen + buf[..next])
    {
      Advance(seen, buf, next, got);
      if buf[next] == (if got < 2 then 0 else 0xff) {
        got := got + 1;
      } else if buf[next] != 0 {
        got := 0;
      } else {
        got := 4 - got;
      }
      next := next + 1;
    }
  }
}
