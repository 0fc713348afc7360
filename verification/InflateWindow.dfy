/** updatewindow of inflate.c: the sliding window takes over what a call has written. */
module InflateWindow {
  import opened Machine
  import opened InflateState
  import opened InflateModes

  /** The window with N new bytes entered from wnext on, wrapping around. */
  ghost predicate Entered(window: seq<byte>, window': seq<byte>, wnext: nat, data: seq<byte>) {
    |window| == |window'| == WSIZE && |data| <= WSIZE && wnext < WSIZE &&
    forall i :: 0 <= i < WSIZE ==>
      window'[i] == (if wnext <= i < wnext + |data| then data[i - wnext]
                     else if i + WSIZE < wnext + |data| then data[i + WSIZE - wnext]
                     else window[i])
  }

  /** The place k bytes back from wnext. */
  function Back(wnext: nat, k: nat): int {
    if k <= wnext then wnext - k else wnext + WSIZE - k
  }

  lemma WindowMeans(window: seq<byte>, wsize: nat, whave: nat, wnext: nat, flushed: seq<byte>)
    requires WindowHolds(window, wsize, whave, wnext, flushed)
    ensures |window| == WSIZE && whave <= |flushed| && whave <= WSIZE && wnext < WSIZE && (whave < WSIZE ==> wnext == whave)
    ensures (wsize == 0 || wsize == WSIZE) && WSIZE == 32768
    ensures forall k :: 1 <= k <= whave ==> 0 <= Back(wnext, k) < WSIZE && window[Back(wnext, k)] == flushed[|flushed| - k]
  {
    forall k | 1 <= k <= whave
      ensures 0 <= Back(wnext, k) < WSIZE && window[Back(wnext, k)] == flushed[|flushed| - k]
    {
      assert Held(window, wnext, flushed, k);
    }
  }

  lemma WindowIs(window: seq<byte>, whave: nat, wnext: nat, flushed: seq<byte>)
    requires |window| == WSIZE && whave <= |flushed| && whave <= WSIZE && wnext < WSIZE && (whave < WSIZE ==> wnext == whave)
    requires forall k :: 1 <= k <= whave ==> 0 <= Back(wnext, k) < WSIZE && window[Back(wnext, k)] == flushed[|flushed| - k]
    ensures WindowHolds(window, WSIZE, whave, wnext, flushed)
  {
    forall k | 1 <= k <= whave
      ensures Held(window, wnext, flushed, k)
    {
      assert window[Back(wnext, k)] == flushed[|flushed| - k];
    }
  }

  lemma EnteredSizes(window: seq<byte>, window': seq<byte>, wnext: nat, data: seq<byte>)
    requires Entered(window, window', wnext, data)
    ensures |window| == |window'| == WSIZE
  {
  }

  /** After entering the data the window holds the last bytes of everything. */
  lemma WindowSlides(window: seq<byte>, window': seq<byte>, wsize: nat, whave: nat, wnext: nat, whave': nat, wnext': nat,
                     flushed: seq<byte>, data: seq<byte>)
    requires WindowHolds(window, wsize, whave, wnext, flushed) && WindowFull(whave, flushed)
    requires |data| < WSIZE && Entered(window, window', wnext, data)
    requires wnext' == if wnext + |data| < WSIZE then wnext + |data| else wnext + |data| - WSIZE
    requires whave' == if whave + |data| < WSIZE then whave + |data| else WSIZE
    ensures WindowHolds(window', WSIZE, whave', wnext', flushed + data) && WindowFull(whave', flushed + data)
  {
    hide WindowHolds, Entered;
    WindowMeans(window, wsize, whave, wnext, flushed);
    EnteredSizes(window, window', wnext, data);
    var all := flushed + data;
    forall k | 1 <= k <= whave'
      ensures 0 <= Back(wnext', k) < WSIZE && window'[Back(wnext', k)] == all[|all| - k]
    {
      EnteredAt(window, window', wnext, data, wnext', k);
      if k > |data| {
        assert window[Back(wnext, k - |data|)] == flushed[|flushed| - (k - |data|)];
      }
    }
    WindowIs(window', whave', wnext', all);
  }

  lemma EnteredAt(window: seq<byte>, window': seq<byte>, wnext: nat, data: seq<byte>, wnext': nat, k: nat)
    requires |data| < WSIZE && Entered(window, window', wnext, data) && 1 <= k <= WSIZE
    requires wnext' == if wnext + |data| < WSIZE then wnext + |data| else wnext + |data| - WSIZE
    ensures 0 <= Back(wnext', k) < WSIZE && |window| == |window'| == WSIZE
    ensures k <= |data| ==> window'[Back(wnext', k)] == data[|data| - k]
    ensures k > |data| ==> 0 <= Back(wnext, k - |data|) < WSIZE && window'[Back(wnext', k)] == window[Back(wnext, k - |data|)]
  {
  }

  /** A call that wrote at least a window's worth replaces all of it. */
  lemma WindowReplaced(window': seq<byte>, all: seq<byte>)
    requires |window'| == WSIZE <= |all| && window' == all[|all| - WSIZE..]
    ensures WindowHolds(window', WSIZE, WSIZE, 0, all) && WindowFull(WSIZE, all)
  {
  }

  /** zmemcpy into the window. */
  method CopyIn(s: Inflater, to: nat, from: nat, n: nat)
    requires s.window.Length == WSIZE && s.output != s.window && to + n <= WSIZE && from + n <= s.output.Length
    modifies s.window
    ensures forall i :: 0 <= i < WSIZE ==> s.window[i] == if to <= i < to + n then s.output[from + (i - to)] else old(s.window[i])
  {
    for j := 0 to n
      invariant forall i :: 0 <= i < WSIZE ==> s.window[i] == if to <= i < to + j then s.output[from + (i - to)] else old(s.window[i])
    {
      s.window[to + j] := s.output[from + j];
    }
  }

  /** updatewindow; afterwards nothing of the output is outside the window's keeping. */
  method UpdateWindow(s: Inflater)
    requires s.OutOk() && s.Sized()
    modifies s.window, s`wsize, s`whave, s`wnext, s`start
    ensures s.OutOk() && s.start == s.put && s.wsize == WSIZE
  {
    hide *;
    OutFacts(s);
    WindowSized(s);
    ghost var all, flushed, window0 := s.hist, s.hist[..|s.hist| - (s.put - s.start)], s.window[..];
    WindowMeans(window0, s.wsize, s.whave, s.wnext, flushed);
    ghost var data := s.output[s.start..s.put];
    assert all == flushed + data;
    var copy: nat := s.put - s.start;
    ghost var wsize0 := s.wsize;
    if s.wsize == 0 {
      NoWindowYet(window0, s.whave, s.wnext, flushed);
      s.wsize := WSIZE;
      s.wnext := 0;
      s.whave := 0;
    }
    if copy >= s.wsize {
      CopyIn(s, 0, s.put - s.wsize, s.wsize);
      s.wnext := 0;
      s.whave := s.wsize;
      LastOfAll(s, flushed, data);
      WindowReplaced(s.window[..], all);
    } else {
      WindowPart(s, copy, wsize0, flushed, data);
    }
    s.start := s.put;
    OutRests(s);
  }

  lemma LastOfAll(s: Inflater, flushed: seq<byte>, data: seq<byte>)
    requires s.window.Length == WSIZE <= |data| && |data| <= s.put <= s.output.Length && data == s.output[s.put - |data|..s.put]
    requires forall i :: 0 <= i < WSIZE ==> s.window[i] == s.output[s.put - WSIZE + i]
    ensures s.window[..] == (flushed + data)[|flushed + data| - WSIZE..]
  {
  }

  lemma WindowSized(s: Inflater)
    requires s.Sized()
    ensures s.window.Length == WSIZE
  {
  }

  lemma NoWindowYet(window: seq<byte>, whave: nat, wnext: nat, flushed: seq<byte>)
    requires WindowHolds(window, 0, whave, wnext, flushed)
    ensures whave == wnext == 0
  {
  }

  lemma OutRests(s: Inflater)
    requires s.output != s.window && s.start == s.put && s.put + s.left <= s.output.Length
    requires WindowHolds(s.window[..], s.wsize, s.whave, s.wnext, s.hist) && WindowFull(s.whave, s.hist)
    ensures s.OutOk()
  {
    hide WindowHolds, WindowFull;
    assert s.hist[|s.hist|..] == s.output[s.start..s.put];
    assert s.hist[..|s.hist|] == s.hist;
  }

  lemma EnteredByParts(window: seq<byte>, window': seq<byte>, wnext: nat, data: seq<byte>, dist: nat)
    requires |window| == |window'| == WSIZE && wnext < WSIZE && |data| < WSIZE
    requires dist == if WSIZE - wnext > |data| then |data| else WSIZE - wnext
    requires forall i :: 0 <= i < WSIZE ==>
               window'[i] == if i < |data| - dist then data[dist + i] else if wnext <= i < wnext + dist then data[i - wnext] else window[i]
    ensures Entered(window, window', wnext, data)
  {
  }

  /** The bytes go in up to the end, and the rest from the start. */
  method EnterParts(s: Inflater, copy: nat, dist: nat, ghost data: seq<byte>)
    requires s.window.Length == WSIZE && s.output != s.window && s.wnext < WSIZE && copy < WSIZE && |data| == copy
    requires copy <= s.put <= s.output.Length && data == s.output[s.put - copy..s.put]
    requires dist == if WSIZE - s.wnext > copy then copy else WSIZE - s.wnext
    modifies s.window
    ensures Entered(old(s.window[..]), s.window[..], s.wnext, data)
  {
    hide *;
    ghost var window0 := s.window[..];
    CopyIn(s, s.wnext, s.put - copy, dist);
    if copy - dist > 0 {
      CopyIn(s, 0, s.put - (copy - dist), copy - dist);
    }
    EnteredByParts(window0, s.window[..], s.wnext, data, dist);
  }

  /** Less than a window's worth: up to the end, and the rest from the start. */
  method WindowPart(s: Inflater, copy0: nat, ghost wsize0: nat, ghost flushed: seq<byte>, ghost data: seq<byte>)
    requires s.window.Length == WSIZE && s.output != s.window && s.wsize == WSIZE && copy0 < WSIZE && |data| == copy0
    requires copy0 <= s.put <= s.output.Length && data == s.output[s.put - copy0..s.put]
    requires WindowHolds(s.window[..], wsize0, s.whave, s.wnext, flushed) && WindowFull(s.whave, flushed)
    modifies s.window, s`whave, s`wnext
    ensures WindowHolds(s.window[..], WSIZE, s.whave, s.wnext, flushed + data) && WindowFull(s.whave, flushed + data)
  {
    hide *;
    ghost var window0, whave0, wnext0 := s.window[..], s.whave, s.wnext;
    WindowMeans(window0, wsize0, s.whave, s.wnext, flushed);
    var copy := copy0;
    var dist := s.wsize - s.wnext;
    if dist > copy {
      dist := copy;
    }
    EnterParts(s, copy, dist, data);
    copy := copy - dist;
    if copy > 0 {
      s.wnext := copy;
      s.whave := s.wsize;
    } else {
      s.wnext := s.wnext + dist;
      if s.wnext == s.wsize {
        s.wnext := 0;
      }
      if s.whave < s.wsize {
        s.whave := s.whave + dist;
      }
    }
    WindowSlides(window0, s.window[..], wsize0, whave0, wnext0, s.whave, s.wnext, flushed, data);
  }
}
