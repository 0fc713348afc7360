/** inflate_table of inftrees.c, put together: checking the lengths, sorting the
    symbols, and the loop that enters them. */
module InfTrees {
  import opened BitStrings
  import opened Canonical
  import opened CodeWords
  import opened SymbolOrder
  import opened TableLayout
  import opened DecodeTable

  // ---- From one symbol to the next

  /** The loop's test for a new sub-table. */
  predicate NeedsTable(root: nat, len: nat, huff: nat, low: int) {
    len > root && Low(huff, root) != low
  }

  lemma NextNeedsTable(t: CodeType, lens: seq<nat>, ord: seq<nat>, root: nat, at: nat, T: seq<Entry>,
                       n: nat, next: nat, curr: nat, drop: nat, low: int, used: nat)
    requires AfterEntry(t, lens, ord, root, at, T, n, next, curr, drop, low, used) && n + 1 < |ord|
    ensures NeedsTable(root, lens[ord[n + 1]], Huff(lens, ord[n + 1]), low) <==> OpensSlot(lens, ord, root, n + 1)
  {
    SortedPair(lens, ord, n, n + 1);
    if lens[ord[n]] > root {
      SameSlot(lens, ord, root, n, n + 1);
    }
  }

  /** No new sub-table: the state carries over. */
  lemma SameTable(t: CodeType, lens: seq<nat>, ord: seq<nat>, root: nat, at: nat, T: seq<Entry>,
                  n: nat, next: nat, curr: nat, drop: nat, low: int, used: nat)
    requires AfterEntry(t, lens, ord, root, at, T, n, next, curr, drop, low, used) && n + 1 < |ord|
    requires !OpensSlot(lens, ord, root, n + 1)
    ensures LoopState(t, lens, ord, root, at, T, n + 1, Huff(lens, ord[n + 1]), lens[ord[n + 1]], next, curr, drop, low, used)
  {
    hide Low, High, Pow2, Huff, Finds, Fits, Accepts, Start;
    SortedPair(lens, ord, n, n + 1);
    if lens[ord[n + 1]] > root {
      SameSlot(lens, ord, root, n, n + 1);
    }
  }

  /** The link to a new sub-table for symbol n + 1 has been written. */
  ghost predicate LinkWritten(lens: seq<nat>, ord: seq<nat>, root: nat, at: nat, T: seq<Entry>, T': seq<Entry>,
                              n: nat, next: nat, curr: nat, low: nat)
    requires Sorted(lens, ord) && n + 1 < |ord| && root <= MAXBITS
  {
    OpensSlot(lens, ord, root, n + 1) && root + curr == SlotMax(lens, ord, root, n + 1) && 0 < curr &&
    low == Low(Huff(lens, ord[n + 1]), root) &&
    at + low < |T| && T' == T[at + low := Entry(curr, root, next)]
  }

  lemma NewTableEntered(t: CodeType, lens: seq<nat>, ord: seq<nat>, root: nat, at: nat, T: seq<Entry>, T': seq<Entry>,
                 n: nat, next: nat, curr: nat, drop: nat, low: int, used: nat, curr': nat, low': nat)
    requires AfterEntry(t, lens, ord, root, at, T, n, next, curr, drop, low, used) && n + 1 < |ord|
    requires LinkWritten(lens, ord, root, at, T, T', n, next + Pow2(curr), curr', low')
    ensures Entered(t, lens, ord, root, at, T', n + 1)
  {
    OpenSubTable(t, lens, ord, root, at, T, T', n + 1, low', Entry(curr', root, next + Pow2(curr)));
  }

  lemma NewTableLinks(t: CodeType, lens: seq<nat>, ord: seq<nat>, root: nat, at: nat, T: seq<Entry>, T': seq<Entry>,
                 n: nat, next: nat, curr: nat, drop: nat, low: int, used: nat, curr': nat, low': nat)
    requires AfterEntry(t, lens, ord, root, at, T, n, next, curr, drop, low, used) && n + 1 < |ord|
    requires LinkWritten(lens, ord, root, at, T, T', n, next + Pow2(curr), curr', low')
    ensures LinksBelow(lens, ord, root, at, T', n + 1, next + Pow2(curr), low')
  {
    LinksAfterOpen(lens, ord, root, at, T, T', n + 1, next, curr, low, low', Entry(curr', root, next + Pow2(curr)));
  }

  lemma NewTableCurrent(t: CodeType, lens: seq<nat>, ord: seq<nat>, root: nat, at: nat, T: seq<Entry>, T': seq<Entry>,
                 n: nat, next: nat, curr: nat, drop: nat, low: int, used: nat, curr': nat, low': nat)
    requires AfterEntry(t, lens, ord, root, at, T, n, next, curr, drop, low, used) && n + 1 < |ord|
    requires LinkWritten(lens, ord, root, at, T, T', n, next + Pow2(curr), curr', low')
    ensures Current(lens, ord, root, at, T', n + 1, next + Pow2(curr), curr', low', root)
    ensures used + Pow2(curr') == Size(lens, ord, root, n + 1)
  {
    SlotMaxCovers(lens, ord, root, n + 1, n + 1);
  }

  /** A new sub-table: the state after the link is written. */
  lemma NewTable(t: CodeType, lens: seq<nat>, ord: seq<nat>, root: nat, at: nat, T: seq<Entry>, T': seq<Entry>,
                 n: nat, next: nat, curr: nat, drop: nat, low: int, used: nat, curr': nat, low': nat)
    requires AfterEntry(t, lens, ord, root, at, T, n, next, curr, drop, low, used) && n + 1 < |ord|
    requires LinkWritten(lens, ord, root, at, T, T', n, next + Pow2(curr), curr', low')
    requires used + Pow2(curr') <= Limit(t)
    ensures LoopState(t, lens, ord, root, at, T', n + 1, Huff(lens, ord[n + 1]), lens[ord[n + 1]],
                      next + Pow2(curr), curr', root, low', used + Pow2(curr'))
  {
    NewTableEntered(t, lens, ord, root, at, T, T', n, next, curr, drop, low, used, curr', low');
    NewTableLinks(t, lens, ord, root, at, T, T', n, next, curr, drop, low, used, curr', low');
    NewTableCurrent(t, lens, ord, root, at, T, T', n, next, curr, drop, low, used, curr', low');
  }

  lemma SlotInTable(t: CodeType, lens: seq<nat>, s: nat, root: nat, at: nat, T: seq<Entry>)
    requires s < |lens| && at + Limit(t) <= |T| && Pow2(root) <= Limit(t)
    ensures at + Low(Huff(lens, s), root) < |T|
  {
    LowBound(Huff(lens, s), root);
  }

  lemma SmallRoot(t: CodeType, root: nat)
    requires t.CODES? ==> root <= 7
    ensures t.CODES? ==> Pow2(root) <= Limit(t)
  {
    if t.CODES? {
      Pow2Monotone(root, 7);
    }
  }

  lemma LastIsLongest(lens: seq<nat>, ord: seq<nat>, i: nat)
    requires Sorted(lens, ord) && i < |ord|
    ensures lens[ord[i]] <= lens[ord[|ord| - 1]]
  {
    if i < |ord| - 1 {
      SortedPair(lens, ord, i, |ord| - 1);
    }
  }

  // ---- The length counts that remain

  /** Decrementing the count of the current length. */
  lemma CountAfter(lens: seq<nat>, ord: seq<nat>, n: nat)
    requires Sorted(lens, ord) && n < |ord|
    ensures forall l :: 1 <= l <= MAXBITS ==>
              Remaining(lens, ord, n, l) == Remaining(lens, ord, n + 1, l) + if l == lens[ord[n]] then 1 else 0
    ensures Remaining(lens, ord, n + 1, lens[ord[n]]) == 0 <==> n + 1 == |ord| || lens[ord[n + 1]] != lens[ord[n]]
    ensures n + 1 == |ord| <==> Remaining(lens, ord, n + 1, lens[ord[n]]) == 0 && lens[ord[n]] == lens[ord[|ord| - 1]]
  {
    if n + 1 < |ord| {
      SortedPair(lens, ord, n, n + 1);
      if n + 1 < |ord| - 1 {
        SortedPair(lens, ord, n + 1, |ord| - 1);
      }
      if lens[ord[n + 1]] != lens[ord[n]] {
        NoneRemaining(lens, ord, n + 1, lens[ord[n]]);
      }
    }
  }

  lemma HuffIncrement(lens: seq<nat>, s: nat)
    requires s < |lens|
    ensures Bits(Huff(lens, s), lens[s]) == CodeWord(lens, s)
    ensures Val(BackIncrement(Bits(Huff(lens, s), lens[s]))) == Val(Reverse(Bits(Code(lens, s) + 1, lens[s])))
  {
    BitsVal(CodeWord(lens, s));
    BackIncrementIsNext(Code(lens, s), lens[s]);
  }

  /** The counts of all symbols are the counts from the first symbol on. */
  lemma {:induction false} CountIsRemaining(lens: seq<nat>, ord: seq<nat>, i: nat, l: nat)
    requires Sorted(lens, ord) && i <= |ord| && 1 <= l <= MAXBITS
    ensures Remaining(lens, ord, i, l)
         == Max0(Rank(lens, |lens|, l + 1, 0) - i) - Max0(Rank(lens, |lens|, l, 0) - i)
    decreases |ord| - i
  {
    RankGrows(lens, |lens|, l, 0, l + 1, 0);
    RankBounds(lens, l);
    RankBounds(lens, l + 1);
    if i < |ord| {
      CountIsRemaining(lens, ord, i + 1, l);
      LengthFromRank(lens, ord[i], l);
      LengthFromRank(lens, ord[i], l + 1);
    }
  }

  function Max0(x: int): int {
    if x < 0 then 0 else x
  }

  lemma RankBounds(lens: seq<nat>, l: nat)
    requires ValidLens(lens) && 1 <= l <= MAXBITS + 1
    ensures Rank(lens, |lens|, l, 0) <= Used(lens)
  {
    if l <= MAXBITS {
      RankGrows(lens, |lens|, l, 0, MAXBITS, |lens|);
    } else {
      RankNextLevel(lens, |lens|, MAXBITS, |lens|);
    }
  }

  lemma LengthFromRank(lens: seq<nat>, s: nat, l: nat)
    requires ValidLens(lens) && s < |lens| && 0 < lens[s] && 1 <= l
    ensures lens[s] < l <==> Rank(lens, |lens|, lens[s], s) < Rank(lens, |lens|, l, 0)
  {
    RankNext(lens, |lens|, lens[s], s);
    if lens[s] < l {
      RankGrows(lens, |lens|, lens[s], s + 1, l, 0);
    } else {
      RankGrows(lens, |lens|, l, 0, lens[s], s);
    }
  }

  lemma AllCounts(lens: seq<nat>, ord: seq<nat>)
    requires Sorted(lens, ord)
    ensures forall l :: 1 <= l <= MAXBITS ==> Count(lens, |lens|, l) == Remaining(lens, ord, 0, l)
  {
    forall l | 1 <= l <= MAXBITS
      ensures Count(lens, |lens|, l) == Remaining(lens, ord, 0, l)
    {
      RankIsCount(lens, |lens|, l, |lens|);
      RankNextLevel(lens, |lens|, l, |lens|);
      CountIsRemaining(lens, ord, 0, l);
    }
  }

  // ---- The loop

  /** Enter one symbol, step the code, and take the symbol off the counts. */
  method ProcessSymbol(t: CodeType, table: array<Entry>, count: array<nat>, at: nat, sym: nat, len: nat, huff: nat,
                       next: nat, curr: nat, drop: nat,
                       ghost lens: seq<nat>, ghost ord: seq<nat>, ghost root: nat, ghost n: nat, ghost low: int, ghost used: nat)
    returns (huff': nat)
    requires LoopState(t, lens, ord, root, at, table[..], n, huff, len, next, curr, drop, low, used) && sym == ord[n]
    requires count.Length == MAXBITS + 1
    requires forall l :: 1 <= l <= MAXBITS ==> count[l] == Remaining(lens, ord, n, l)
    modifies table, count
    ensures AfterEntry(t, lens, ord, root, at, table[..], n, next, curr, drop, low, used)
    ensures forall k :: 0 <= k < at ==> table[k] == old(table[k])
    ensures forall l :: 1 <= l <= MAXBITS ==> count[l] == Remaining(lens, ord, n + 1, l)
    ensures huff' == Val(Reverse(Bits(Code(lens, sym) + 1, len)))
  {
    EnterSymbol(t, table, at, sym, len, huff, next, curr, drop, lens, ord, root, n, low, used);
    HuffBound(lens, sym);
    HuffIncrement(lens, sym);
    huff' := IncrementHuff(huff, len);
    CountAfter(lens, ord, n);
    count[len] := count[len] - 1;
  }

  lemma FullTable(lens: seq<nat>, ord: seq<nat>, root: nat, i: nat, curr: nat)
    requires Sorted(lens, ord) && 0 < i < |ord| && root <= MAXBITS
    requires OpensSlot(lens, ord, root, i) && root + curr == SlotMax(lens, ord, root, i) && 0 < curr
    ensures Size(lens, ord, root, i - 1) + Pow2(curr) <= Size(lens, ord, root, |ord| - 1)
  {
    SizeMonotone(lens, ord, root, i, |ord| - 1);
  }

  /** What the state after an entry says about sizes. */
  lemma AfterFacts(t: CodeType, lens: seq<nat>, ord: seq<nat>, root: nat, at: nat, T: seq<Entry>,
                   n: nat, next: nat, curr: nat, drop: nat, low: int, used: nat)
    requires AfterEntry(t, lens, ord, root, at, T, n, next, curr, drop, low, used)
    ensures Sorted(lens, ord) && ValidLens(lens) && n < |ord| && 0 < root <= MAXBITS && used == Size(lens, ord, root, n)
    ensures forall k :: 0 <= k < |ord| ==> ord[k] < |lens|
    ensures at + Limit(t) <= |T| && Pow2(root) <= used <= Limit(t)
  {
  }

  /** Size and link a new sub-table for the i-th symbol, unless the table space is exhausted. */
  method OpenTable(limit: nat, table: array<Entry>, count: array<nat>, at: nat, root: nat, len: nat, max: nat, huff: nat,
                   next: nat, curr: nat, used: nat, ghost lens: seq<nat>, ghost ord: seq<nat>, ghost i: nat)
    returns (full: bool, next': nat, curr': nat, used': nat)
    requires Complete(lens) && Sorted(lens, ord) && 0 < i < |ord| && 0 < root <= MAXBITS && OpensSlot(lens, ord, root, i)
    requires len == lens[ord[i]] && huff == Huff(lens, ord[i]) && max == lens[ord[|ord| - 1]]
    requires count.Length == MAXBITS + 1 && at + Low(huff, root) < table.Length
    requires forall l :: 1 <= l <= MAXBITS ==> count[l] == Remaining(lens, ord, i, l)
    modifies table
    ensures forall k :: 0 <= k < at ==> table[k] == old(table[k])
    ensures root + curr' == SlotMax(lens, ord, root, i) && 0 < curr'
    ensures next' == next + Pow2(curr) && used' == used + Pow2(curr')
    ensures full <==> used' > limit
    ensures !full ==> LinkWritten(lens, ord, root, at, old(table[..]), table[..], i - 1, next', curr', Low(huff, root))
  {
    curr' := LookAhead(count, len, root, max, lens, ord, i);
    next', used' := next + Pow2(curr), used + Pow2(curr');
    full := used' > limit;
    if !full {
      table[at + Low(huff, root)] := Entry(curr', root, next');
    }
  }

  /** Go on to the next symbol in a new sub-table. */
  method AdvanceOpen(t: CodeType, lens: seq<nat>, table: array<Entry>, count: array<nat>, at: nat, root: nat, len: nat,
                     max: nat, huff: nat, next: nat, curr: nat, ghost drop: nat, ghost low: int, used: nat,
                     ghost ord: seq<nat>, ghost n: nat)
    returns (full: bool, next': nat, curr': nat, used': nat)
    requires AfterEntry(t, lens, ord, root, at, table[..], n, next, curr, drop, low, used) && n + 1 < |ord|
    requires Complete(lens) && OpensSlot(lens, ord, root, n + 1)
    requires len == lens[ord[n + 1]] && huff == Huff(lens, ord[n + 1]) && max == lens[ord[|ord| - 1]]
    requires count.Length == MAXBITS + 1
    requires forall l :: 1 <= l <= MAXBITS ==> count[l] == Remaining(lens, ord, n + 1, l)
    modifies table
    ensures forall k :: 0 <= k < at ==> table[k] == old(table[k])
    ensures full ==> Size(lens, ord, root, |ord| - 1) > Limit(t)
    ensures !full ==> LoopState(t, lens, ord, root, at, table[..], n + 1, huff, len, next', curr', root, Low(huff, root), used')
  {
    hide *;
    ghost var T := table[..];
    AfterFacts(t, lens, ord, root, at, T, n, next, curr, drop, low, used);
    SlotInTable(t, lens, ord[n + 1], root, at, T);
    full, next', curr', used' := OpenTable(Limit(t), table, count, at, root, len, max, huff, next, curr, used, lens, ord, n + 1);
    FullTable(lens, ord, root, n + 1, curr');
    if !full {
      NewTable(t, lens, ord, root, at, T, table[..], n, next, curr, drop, low, used, curr', Low(huff, root));
    }
  }

  /** Go on to the next symbol, in the current table or in a new one. */
  method Advance(t: CodeType, lens: seq<nat>, table: array<Entry>, count: array<nat>, at: nat, root: nat, len: nat,
                 max: nat, huff: nat, next: nat, curr: nat, drop: nat, low: int, used: nat, ghost ord: seq<nat>, ghost n: nat)
    returns (full: bool, next': nat, curr': nat, drop': nat, low': int, used': nat)
    requires AfterEntry(t, lens, ord, root, at, table[..], n, next, curr, drop, low, used) && n + 1 < |ord|
    requires Complete(lens) && (t.CODES? ==> len <= root)
    requires len == lens[ord[n + 1]] && huff == Huff(lens, ord[n + 1]) && max == lens[ord[|ord| - 1]]
    requires count.Length == MAXBITS + 1
    requires forall l :: 1 <= l <= MAXBITS ==> count[l] == Remaining(lens, ord, n + 1, l)
    modifies table
    ensures forall k :: 0 <= k < at ==> table[k] == old(table[k])
    ensures full ==> !t.CODES? && Size(lens, ord, root, |ord| - 1) > Limit(t)
    ensures !full ==> LoopState(t, lens, ord, root, at, table[..], n + 1, huff, len, next', curr', drop', low', used')
  {
    NextNeedsTable(t, lens, ord, root, at, table[..], n, next, curr, drop, low, used);
    if NeedsTable(root, len, huff, low) {
      full, next', curr', used' := AdvanceOpen(t, lens, table, count, at, root, len, max, huff, next, curr, drop, low, used, ord, n);
      low', drop' := Low(huff, root), root;
    } else {
      SameTable(t, lens, ord, root, at, table[..], n, next, curr, drop, low, used);
      full, next', curr', drop', low', used' := false, next, curr, drop, low, used;
    }
  }

  /** A look-up is not disturbed by cutting the table off after the entries it visits. */
  lemma FindsTruncated(T: seq<Entry>, at: nat, root: nat, w: nat, e: Entry, n: nat)
    requires Finds(T, at, root, w, e) && n <= |T| && at + Low(w, root) < n
    requires root < e.bits ==> at + T[at + Low(w, root)].val + Pow2(T[at + Low(w, root)].op) <= n
    ensures Finds(T[..n], at, root, w, e)
  {
    hide Low, High, Pow2;
    if root < e.bits {
      LowBound(High(w, root), T[at + Low(w, root)].op);
    }
  }

  /** The sub-table that a long code leads to is among the entries allocated so far. */
  lemma LinkWithin(t: CodeType, lens: seq<nat>, ord: seq<nat>, root: nat, at: nat, T: seq<Entry>,
                   n: nat, next: nat, curr: nat, drop: nat, low: int, used: nat, j: nat, w: nat)
    requires AfterEntry(t, lens, ord, root, at, T, n, next, curr, drop, low, used) && j <= n && Matches(lens, ord[j], w)
    requires root < lens[ord[j]]
    ensures at + Low(w, root) < |T| && T[at + Low(w, root)].val + Pow2(T[at + Low(w, root)].op) <= used
  {
    hide Low, High, Pow2, Size, SlotMax, Entered, Huff, Finds, Fits, Accepts;
    LongMatch(lens, ord[j], w, root);
    if j < n {
      SortedPair(lens, ord, j, n);
    }
  }

  /** Look-ups stay within the entries allocated so far. */
  lemma FindsWithin(t: CodeType, lens: seq<nat>, ord: seq<nat>, root: nat, at: nat, T: seq<Entry>,
                    n: nat, next: nat, curr: nat, drop: nat, low: int, used: nat, j: nat, w: nat)
    requires AfterEntry(t, lens, ord, root, at, T, n, next, curr, drop, low, used) && j <= n && Matches(lens, ord[j], w)
    ensures Finds(T[..at + used], at, root, w, SymbolEntry(t, ord[j], lens[ord[j]]))
  {
    hide Low, High, Pow2, Size, SlotMax, Huff, Finds, Fits, Current, LinksBelow, Sorted;
    LowBound(w, root);
    SymbolEntryIsNoLink(t, ord[j], lens[ord[j]]);
    assert Finds(T, at, root, w, SymbolEntry(t, ord[j], lens[ord[j]]));
    if lens[ord[j]] > root {
      LinkWithin(t, lens, ord, root, at, T, n, next, curr, drop, low, used, j, w);
    }
    FindsTruncated(T, at, root, w, SymbolEntry(t, ord[j], lens[ord[j]]), at + used);
  }

  /** The loop has ended: all symbols are entered, and the table is within its limit. */
  lemma AllEntered(t: CodeType, lens: seq<nat>, ord: seq<nat>, root: nat, at: nat, T: seq<Entry>,
                   n: nat, next: nat, curr: nat, drop: nat, low: int, used: nat)
    requires AfterEntry(t, lens, ord, root, at, T, n, next, curr, drop, low, used) && n + 1 == |ord|
    ensures used == Size(lens, ord, root, |ord| - 1) && Pow2(root) <= used <= Limit(t)
    ensures Entered(t, lens, ord, root, at, T[..at + used], |ord|)
  {
    forall j, w {:trigger Matches(lens, ord[j], w)} | 0 <= j < |ord| && 0 <= w && Matches(lens, ord[j], w)
      ensures Finds(T[..at + used], at, root, w, SymbolEntry(t, ord[j], lens[ord[j]]))
    {
      FindsWithin(t, lens, ord, root, at, T, n, next, curr, drop, low, used, j, w);
    }
  }

  /** The facts about the next symbol that going on to it needs. */
  lemma NextSymbol(t: CodeType, lens: seq<nat>, ord: seq<nat>, n: nat, root: nat)
    requires Fits(lens) && Sorted(lens, ord) && n + 1 < |ord| && (t.CODES? ==> lens[ord[|ord| - 1]] <= root)
    ensures Huff(lens, ord[n + 1]) == Val(Reverse(Bits(Code(lens, ord[n]) + 1, lens[ord[n]])))
    ensures t.CODES? ==> lens[ord[n + 1]] <= root
  {
    NextHuff(lens, ord, n);
    LastIsLongest(lens, ord, n + 1);
  }

  /** What the loop state says about the current symbol. */
  lemma StateFacts(t: CodeType, lens: seq<nat>, ord: seq<nat>, root: nat, at: nat, T: seq<Entry>,
                   n: nat, huff: nat, len: nat, next: nat, curr: nat, drop: nat, low: int, used: nat)
    requires LoopState(t, lens, ord, root, at, T, n, huff, len, next, curr, drop, low, used)
    ensures ValidLens(lens) && Fits(lens) && Sorted(lens, ord) && n < |ord| && ord[n] < |lens| && len == lens[ord[n]] && 1 <= len <= MAXBITS
  {
  }

  /** One round of the loop: enter a symbol, and go on to the next one unless it was the last. */
  method Round(t: CodeType, lens: seq<nat>, work: array<nat>, count: array<nat>, table: array<Entry>, at: nat,
               root: nat, max: nat, sym: nat, len: nat, huff: nat, next: nat, curr: nat, drop: nat, low: int, used: nat,
               ghost ord: seq<nat>)
    returns (done: bool, full: bool, len': nat, huff': nat, next': nat, curr': nat, drop': nat, low': int, used': nat)
    requires LoopState(t, lens, ord, root, at, table[..], sym, huff, len, next, curr, drop, low, used)
    requires |ord| <= work.Length && work[..|ord|] == ord && work != count
    requires Complete(lens) || |ord| == 1
    requires count.Length == MAXBITS + 1 && max == lens[ord[|ord| - 1]] && (t.CODES? ==> max <= root)
    requires forall l :: 1 <= l <= MAXBITS ==> count[l] == Remaining(lens, ord, sym, l)
    modifies count, table
    ensures done <==> sym + 1 == |ord|
    ensures done ==> used' == Size(lens, ord, root, |ord| - 1) && at + used' <= table.Length
    ensures done ==> Entered(t, lens, ord, root, at, table[..][..at + used'], |ord|)
    ensures forall k :: 0 <= k < at ==> table[k] == old(table[k])
    ensures done ==> huff' == Val(Reverse(Bits(Code(lens, ord[|ord| - 1]) + 1, max)))
    ensures done ==> Pow2(root) <= used' <= Limit(t)
    ensures !done && full ==> !t.CODES? && Size(lens, ord, root, |ord| - 1) > Limit(t)
    ensures !done && !full ==> LoopState(t, lens, ord, root, at, table[..], sym + 1, huff', len', next', curr', drop', low', used')
    ensures forall l :: 1 <= l <= MAXBITS ==> count[l] == Remaining(lens, ord, sym + 1, l)
  {
    hide *;
    StateFacts(t, lens, ord, root, at, table[..], sym, huff, len, next, curr, drop, low, used);
    assert work[sym] == ord[sym];
    huff' := ProcessSymbol(t, table, count, at, work[sym], len, huff, next, curr, drop, lens, ord, root, sym, low, used);
    CountAfter(lens, ord, sym);
    done := count[len] == 0 && len == max;
    if done {
      AllEntered(t, lens, ord, root, at, table[..], sym, next, curr, drop, low, used);
      full, len', next', curr', drop', low', used' := false, len, next, curr, drop, low, used;
    } else {
      NextSymbol(t, lens, ord, sym, root);
      len' := NextLength(lens, work, count, len, sym + 1, ord);
      full, next', curr', drop', low', used' :=
        Advance(t, lens, table, count, at, root, len', max, huff', next, curr, drop, low, used, ord, sym);
    }
  }

  /** Process all codes and make the table entries. */
  method FillTables(t: CodeType, lens: seq<nat>, work: array<nat>, count: array<nat>, table: array<Entry>, at: nat,
                    root: nat, min: nat, max: nat, ghost ord: seq<nat>)
    returns (ret: int, used: nat, huff: nat)
    requires Accepts(t, lens) && Sorted(lens, ord) && 0 < |ord| <= work.Length && work[..|ord|] == ord
    requires Complete(lens) || (Fits(lens) && |ord| == 1)
    requires count.Length == MAXBITS + 1 && work != count
    requires forall l :: 1 <= l <= MAXBITS ==> count[l] == Remaining(lens, ord, 0, l)
    requires min == lens[ord[0]] && max == lens[ord[|ord| - 1]] && min <= root <= MAXBITS && (t.CODES? ==> max <= root <= 7)
    requires at + Limit(t) <= table.Length
    modifies count, table
    ensures ret == 0 || ret == 1
    ensures ret == 1 <==> !t.CODES? && Size(lens, ord, root, |ord| - 1) > Limit(t)
    ensures ret == 0 ==> used == Size(lens, ord, root, |ord| - 1) && at + used <= table.Length
    ensures ret == 0 ==> Entered(t, lens, ord, root, at, table[..][..at + used], |ord|)
    ensures forall k :: 0 <= k < at ==> table[k] == old(table[k])
    ensures ret == 0 ==> huff == Val(Reverse(Bits(Code(lens, ord[|ord| - 1]) + 1, max)))
    ensures ret == 0 ==> Pow2(root) <= used <= Limit(t)
  {
    hide *;
    huff := 0;
    var sym: nat, len: nat, next: nat, curr: nat, drop: nat := 0, min, 0, root, 0;
    var low: int := -1;
    used := Pow2(root);
    SortedFacts(lens, ord);
    FirstState(t, lens, ord, root, at, table[..]);
    SizeMonotone(lens, ord, root, 0, |ord| - 1);
    if !t.CODES? && used > Limit(t) {
      return 1, used, huff;
    }
    SmallRoot(t, root);
    var done, full := false, false;
    while !done
      invariant sym <= |ord| && work[..|ord|] == ord
      invariant !done ==> LoopState(t, lens, ord, root, at, table[..], sym, huff, len, next, curr, drop, low, used)
      invariant !done ==> forall l :: 1 <= l <= MAXBITS ==> count[l] == Remaining(lens, ord, sym, l)
      invariant done ==> used == Size(lens, ord, root, |ord| - 1) && at + used <= table.Length
      invariant done ==> Entered(t, lens, ord, root, at, table[..][..at + used], |ord|)
      invariant forall k :: 0 <= k < at ==> table[k] == old(table[k])
      invariant done ==> huff == Val(Reverse(Bits(Code(lens, ord[|ord| - 1]) + 1, max)))
      invariant done ==> Pow2(root) <= used <= Limit(t)
      decreases |ord| - sym
    {
      StateFacts(t, lens, ord, root, at, table[..], sym, huff, len, next, curr, drop, low, used);
      done, full, len, huff, next, curr, drop, low, used :=
        Round(t, lens, work, count, table, at, root, max, sym, len, huff, next, curr, drop, low, used, ord);
      if !done && full {
        return 1, used, huff;
      }
      sym := sym + 1;
    }
    ret := 0;
    AtMostLimit(t, used);
  }

  lemma SortedFacts(lens: seq<nat>, ord: seq<nat>)
    requires Sorted(lens, ord) && (Complete(lens) || Fits(lens))
    ensures ValidLens(lens) && Fits(lens) && forall k :: 0 <= k < |ord| ==> ord[k] < |lens|
  {
  }

  lemma AtMostLimit(t: CodeType, used: nat)
    requires used <= Limit(t)
    ensures !(!t.CODES? && used > Limit(t))
  {
  }

  method NextLength(lens: seq<nat>, work: array<nat>, count: array<nat>, len: nat, sym: nat, ghost ord: seq<nat>)
    returns (len': nat)
    requires Sorted(lens, ord) && 0 < sym < |ord| <= work.Length && work[..|ord|] == ord
    requires len == lens[ord[sym - 1]] && count.Length == MAXBITS + 1
    requires count[len] == Remaining(lens, ord, sym, len)
    ensures len' == lens[ord[sym]]
  {
    CountAfter(lens, ord, sym - 1);
    assert work[sym] == ord[sym];
    len' := if count[len] == 0 then lens[work[sym]] else len;
  }

  lemma FirstHuff(lens: seq<nat>, ord: seq<nat>)
    requires Fits(lens) && Sorted(lens, ord) && 0 < |ord|
    ensures ord[0] < |lens| && Huff(lens, ord[0]) == 0
  {
    hide Low, High, Pow2, Shl, Kraft, Taken, Code, Rank;
    var a := ord[0];
    StartFirst(lens, ord);
    ShlZero(MAXBITS - lens[a]);
    ShlInjective(Code(lens, a), 0, MAXBITS - lens[a]);
    ReverseShl(0, 0, lens[a]);
    ShlZero(lens[a]);
    assert Bits(0, 0) == [];
  }

  lemma FirstSize(lens: seq<nat>, ord: seq<nat>, root: nat)
    requires Sorted(lens, ord) && 0 < |ord| && ord[0] < |lens| && lens[ord[0]] <= root <= MAXBITS
    ensures Size(lens, ord, root, 0) == Pow2(root)
  {
    hide Pow2, SlotMax, Slot;
  }

  lemma FirstCurrent(lens: seq<nat>, ord: seq<nat>, root: nat, at: nat, T: seq<Entry>)
    requires Sorted(lens, ord) && 0 < |ord| && ord[0] < |lens| && lens[ord[0]] <= root <= MAXBITS
    ensures Current(lens, ord, root, at, T, 0, 0, root, -1, 0) && 0 < root
  {
    hide Low, Pow2, Huff, SlotMax;
  }

  lemma NothingEntered(t: CodeType, lens: seq<nat>, ord: seq<nat>, root: nat, at: nat, T: seq<Entry>)
    requires Accepts(t, lens) && forall k :: 0 <= k < |ord| ==> ord[k] < |lens|
    ensures Entered(t, lens, ord, root, at, T, 0) && LinksBelow(lens, ord, root, at, T, 0, 0, -1)
  {
  }

  lemma FirstState(t: CodeType, lens: seq<nat>, ord: seq<nat>, root: nat, at: nat, T: seq<Entry>)
    requires Accepts(t, lens) && Fits(lens) && Sorted(lens, ord) && 0 < |ord| && lens[ord[0]] <= root <= MAXBITS
    ensures Size(lens, ord, root, 0) == Pow2(root)
    ensures at + Limit(t) <= |T| && Pow2(root) <= Limit(t) ==>
              LoopState(t, lens, ord, root, at, T, 0, 0, lens[ord[0]], 0, root, 0, -1, Pow2(root))
  {
    hide Low, High, Pow2, Shl, Kraft, Huff, Finds, Size, SlotMax, Slot, Entered, LinksBelow, Current;
    FirstHuff(lens, ord);
    FirstSize(lens, ord, root);
    FirstCurrent(lens, ord, root, at, T);
    NothingEntered(t, lens, ord, root, at, T);
  }

  // ---- The whole function

  /** The longest code length, 0 if there are no codes. */
  ghost function MaxLen(lens: seq<nat>): nat
    requires ValidLens(lens)
  {
    if Used(lens) == 0 then 0 else lens[Order(lens)[Used(lens) - 1]]
  }

  ghost function MinLen(lens: seq<nat>): nat
    requires ValidLens(lens) && Used(lens) > 0
  {
    lens[Order(lens)[0]]
  }

  /** The root table's index bits: as requested, but within the code lengths. */
  ghost function RootBits(lens: seq<nat>, bits: nat): (r: nat)
    requires ValidLens(lens)
  {
    if Used(lens) == 0 then 1
    else
      var r := if bits > MaxLen(lens) then MaxLen(lens) else bits;
      if r < MinLen(lens) then MinLen(lens) else r
  }

  /** With no code longer than the root table's index there are no sub-tables. */
  lemma {:induction false} NoSubTables(lens: seq<nat>, ord: seq<nat>, root: nat, i: nat)
    requires Sorted(lens, ord) && i < |ord| && root <= MAXBITS && forall s :: 0 <= s < |lens| ==> lens[s] <= root
    ensures Size(lens, ord, root, i) == Pow2(root)
  {
    hide Pow2, SlotMax, Slot;
    if i > 0 {
      NoSubTables(lens, ord, root, i - 1);
    }
  }

  /** A code whose longest words have exactly the requested bits fills one table. */
  lemma OneTable(lens: seq<nat>, bits: nat, s: nat)
    requires ValidLens(lens) && 1 <= bits <= MAXBITS && s < |lens| && lens[s] == bits
    requires forall m :: 0 <= m < |lens| ==> lens[m] <= bits
    ensures RootBits(lens, bits) == bits && Entries(lens, bits) == Pow2(bits)
  {
    hide Pow2, Size;
    var ord := Order(lens);
    SortedComplete(lens, ord, s);
    LastIsLongest(lens, ord, Rank(lens, |lens|, lens[s], s));
    MaxLenBound(lens);
    NoSubTables(lens, ord, bits, |ord| - 1);
  }

  /** The sets of lengths that are not accepted: over-subscribed ones, and
      incomplete ones other than a single one-bit code. */
  ghost predicate Rejected(t: CodeType, lens: seq<nat>)
    requires ValidLens(lens)
  {
    Used(lens) > 0 && !Complete(lens) && !(Fits(lens) && !t.CODES? && MaxLen(lens) == 1)
  }

  /** Entries that the finished table takes. */
  ghost function Entries(lens: seq<nat>, bits: nat): nat
    requires ValidLens(lens) && 1 <= bits <= MAXBITS
  {
    if Used(lens) == 0 then 2 else (MaxLenBound(lens); TableSize(lens, RootBits(lens, bits)))
  }

  lemma MaxLenBound(lens: seq<nat>)
    requires ValidLens(lens) && Used(lens) > 0
    ensures 1 <= MinLen(lens) <= MaxLen(lens) <= MAXBITS
  {
    LastIsLongest(lens, Order(lens), 0);
  }

  /** The table decodes the code: bits that start with a code word are resolved to
      its symbol, and bits that start with none to the invalid-code marker. */
  ghost predicate DecodesCode(t: CodeType, lens: seq<nat>, T: seq<Entry>, at: nat, root: nat)
    requires Accepts(t, lens)
  {
    (forall s, w {:trigger Matches(lens, s, w)} :: 0 <= s < |lens| && 0 <= w && Matches(lens, s, w) ==>
       Finds(T, at, root, w, SymbolEntry(t, s, lens[s]))) &&
    (forall w {:trigger Finds(T, at, root, w, INVALID)} :: 0 <= w && NoMatch(lens, w) ==> Finds(T, at, root, w, INVALID))
  }

  ghost predicate NoMatch(lens: seq<nat>, w: nat) {
    forall s :: 0 <= s < |lens| ==> !Matches(lens, s, w)
  }

  /** Shortest and longest length with a count. */
  method Bounds(count: array<nat>, ghost lens: seq<nat>) returns (min: nat, max: nat)
    requires ValidLens(lens) && count.Length == MAXBITS + 1
    requires forall l :: 0 <= l <= MAXBITS ==> count[l] == Count(lens, |lens|, l)
    ensures max == MaxLen(lens) && (Used(lens) > 0 ==> min == MinLen(lens))
  {
    ghost var ord := Order(lens);
    AllCounts(lens, ord);
    max := MAXBITS;
    while max >= 1
      invariant 0 <= max <= MAXBITS
      invariant forall l :: max < l <= MAXBITS ==> Remaining(lens, ord, 0, l) == 0
    {
      if count[max] != 0 {
        break;
      }
      max := max - 1;
    }
    LengthsCounted(lens, ord);
    min := 1;
    while min < max
      invariant 1 <= min && (0 < max ==> min <= max)
      invariant forall l :: 1 <= l < min ==> Remaining(lens, ord, 0, l) == 0
    {
      if count[min] != 0 {
        break;
      }
      min := min + 1;
    }
  }

  lemma LengthsCounted(lens: seq<nat>, ord: seq<nat>)
    requires Sorted(lens, ord)
    ensures forall l :: 1 <= l <= MAXBITS && Remaining(lens, ord, 0, l) > 0 ==>
              0 < |ord| && lens[ord[0]] <= l <= lens[ord[|ord| - 1]]
    ensures 0 < |ord| ==> Remaining(lens, ord, 0, lens[ord[0]]) > 0 && Remaining(lens, ord, 0, lens[ord[|ord| - 1]]) > 0
  {
    forall l | 1 <= l <= MAXBITS && Remaining(lens, ord, 0, l) > 0
      ensures 0 < |ord| && lens[ord[0]] <= l <= lens[ord[|ord| - 1]]
    {
      CountedInOrder(lens, ord, 0, l);
    }
    if 0 < |ord| {
      CountsPosition(lens, ord, 0, |ord| - 1);
    }
  }

  lemma {:induction false} CountedInOrder(lens: seq<nat>, ord: seq<nat>, i: nat, l: nat)
    requires Sorted(lens, ord) && i <= |ord| && Remaining(lens, ord, i, l) > 0
    ensures i < |ord| && lens[ord[i]] <= l <= lens[ord[|ord| - 1]]
    decreases |ord| - i
  {
    LastIsLongest(lens, ord, i);
    if i + 1 < |ord| {
      SortedPair(lens, ord, i, i + 1);
    }
    if lens[ord[i]] != l {
      CountedInOrder(lens, ord, i + 1, l);
    }
  }

  lemma {:induction false} CountsPosition(lens: seq<nat>, ord: seq<nat>, i: nat, k: nat)
    requires Sorted(lens, ord) && i <= k < |ord|
    ensures Remaining(lens, ord, i, lens[ord[k]]) > 0
    decreases k - i
  {
    if i < k {
      CountsPosition(lens, ord, i + 1, k);
    }
  }

  /** How much of the code space is left: negative if over-subscribed. */
  method SpaceLeft(count: array<nat>, ghost lens: seq<nat>) returns (left: int)
    requires ValidLens(lens) && count.Length == MAXBITS + 1
    requires forall l :: 0 <= l <= MAXBITS ==> count[l] == Count(lens, |lens|, l)
    ensures left < 0 <==> !Fits(lens)
    ensures left >= 0 ==> left == Pow2(MAXBITS) - Kraft(lens, |lens|)
  {
    left := 1;
    TakenNone(lens, |lens|);
    for len := 1 to MAXBITS + 1
      invariant left >= 0
      invariant left == if len == 1 then 1 else Pow2(len - 1) - Taken(lens, |lens|, len - 1, |lens|)
    {
      left := left * 2;
      SpaceStep(lens, len);
      left := left - count[len];
      if left < 0 {
        return;
      }
    }
  }

  lemma SpaceStep(lens: seq<nat>, len: nat)
    requires ValidLens(lens) && 1 <= len <= MAXBITS
    ensures Taken(lens, |lens|, len, |lens|)
         == Count(lens, |lens|, len) + if len == 1 then 0 else 2 * Taken(lens, |lens|, len - 1, |lens|)
    ensures Taken(lens, |lens|, len, |lens|) > Pow2(len) ==> !Fits(lens)
  {
    TakenIsFirstPlusCount(lens, |lens|, len, |lens|);
    if len == 1 {
      TakenNone(lens, |lens|);
    } else {
      TakenNextLevel(lens, |lens|, len - 1, |lens|);
    }
    TakenGrows(lens, |lens|, len, |lens|, MAXBITS, |lens|);
    ShlPow2(len, MAXBITS - len);
    ShlMonotone(Taken(lens, |lens|, len, |lens|), Pow2(len), MAXBITS - len);
  }

  /** An accepted incomplete set is a single code, of one bit. */
  lemma SingleCode(lens: seq<nat>)
    requires Fits(lens) && !Complete(lens) && MaxLen(lens) == 1
    ensures Used(lens) == 1
  {
    hide Pow2, Shl, Kraft, Taken, Code, Rank;
    var ord := Order(lens);
    if Used(lens) >= 2 {
      LastIsLongest(lens, ord, 0);
      LastIsLongest(lens, ord, 1);
      StartFirst(lens, ord);
      ShlInjective(Code(lens, ord[0]), 0, MAXBITS - 1);
      ShlZero(MAXBITS - 1);
      StartNext(lens, ord, 0);
      ShlInjective(Code(lens, ord[1]), 1, MAXBITS - 1);
      StartNext(lens, ord, 1);
      StartMonotone(lens, ord, 2, |ord|);
      ShlPow2(1, MAXBITS - 1);
      PowerOfOne();
    }
  }

  lemma PowerOfOne()
    ensures Pow2(1) == 2
  {
  }

  // ---- The steps of the whole function

  lemma LensFacts(t: CodeType, lens: seq<nat>)
    requires Accepts(t, lens)
    ensures ValidLens(lens) && (MaxLen(lens) == 0 <==> Used(lens) == 0) && MaxLen(lens) <= MAXBITS
    ensures Used(lens) > 0 ==> 1 <= MinLen(lens) <= MaxLen(lens)
    ensures t.CODES? ==> MaxLen(lens) <= 7
    ensures 2 <= Limit(t)
  {
    if Used(lens) > 0 {
      MaxLenBound(lens);
    }
  }

  lemma RootComputed(lens: seq<nat>, bits: nat, root: nat)
    requires ValidLens(lens) && Used(lens) > 0
    requires var r := if bits > MaxLen(lens) then MaxLen(lens) else bits;
             root == if r < MinLen(lens) then MinLen(lens) else r
    ensures root == RootBits(lens, bits)
  {
  }

  lemma NothingToDecode(t: CodeType, lens: seq<nat>, T: seq<Entry>, at: nat, bits: nat)
    requires Accepts(t, lens) && MaxLen(lens) == 0 && at + 2 <= |T| && T[at] == INVALID && T[at + 1] == INVALID
    requires 1 <= bits <= MAXBITS
    ensures !Rejected(t, lens) && RootBits(lens, bits) == 1 && Entries(lens, bits) == 2
    ensures Pow2(1) == 2 <= Limit(t) && DecodesCode(t, lens, T[..at + 2], at, 1)
  {
    LensFacts(t, lens);
    var U := T[..at + 2];
    forall s, w {:trigger Matches(lens, s, w)} | 0 <= s < |lens| && 0 <= w
      ensures !Matches(lens, s, w)
    {
      if 0 < lens[s] {
        SortedComplete(lens, Order(lens), s);
      }
    }
    forall w | 0 <= w
      ensures Finds(U, at, 1, w, INVALID)
    {
      LowBound(w, 1);
    }
  }

  lemma RejectedMeans(t: CodeType, lens: seq<nat>, left: int)
    requires ValidLens(lens) && Used(lens) > 0
    requires left < 0 <==> !Fits(lens)
    requires left >= 0 ==> left == Pow2(MAXBITS) - Kraft(lens, |lens|)
    ensures Rejected(t, lens) <==> left < 0 || (left > 0 && (t.CODES? || MaxLen(lens) != 1))
    ensures Complete(lens) <==> left == 0
  {
  }

  lemma OrderFacts(t: CodeType, lens: seq<nat>, ord: seq<nat>, bits: nat, left: int)
    requires Accepts(t, lens) && Sorted(lens, ord) && MaxLen(lens) > 0 && 1 <= bits <= MAXBITS && (t.CODES? ==> bits == 7)
    requires !Rejected(t, lens)
    ensures 0 < |ord| && MinLen(lens) == lens[ord[0]] && MaxLen(lens) == lens[ord[|ord| - 1]]
    ensures Complete(lens) || (Fits(lens) && |ord| == 1)
    ensures MinLen(lens) <= RootBits(lens, bits) <= MAXBITS
    ensures t.CODES? ==> MaxLen(lens) <= RootBits(lens, bits) <= 7
    ensures Entries(lens, bits) == Size(lens, ord, RootBits(lens, bits), |ord| - 1)
    ensures forall l :: 1 <= l <= MAXBITS ==> Count(lens, |lens|, l) == Remaining(lens, ord, 0, l)
  {
    LensFacts(t, lens);
    SortedUnique(lens, ord, Order(lens));
    AllCounts(lens, ord);
    if !Complete(lens) {
      SingleCode(lens);
    }
  }

  /** What the incremented code is after the last symbol. */
  lemma LastHuff(t: CodeType, lens: seq<nat>, ord: seq<nat>, huff: nat)
    requires Accepts(t, lens) && Sorted(lens, ord) && 0 < |ord| && !Rejected(t, lens)
    requires huff == Val(Reverse(Bits(Code(lens, ord[|ord| - 1]) + 1, lens[ord[|ord| - 1]])))
    ensures huff == 0 <==> Complete(lens)
    ensures huff != 0 ==> huff == 1 && |ord| == 1 && lens[ord[0]] == 1 && Huff(lens, ord[0]) == 0
  {
    SortedUnique(lens, ord, Order(lens));
    if Complete(lens) {
      NextHuff(lens, ord, |ord| - 1);
    } else {
      SingleCode(lens);
      StartFirst(lens, ord);
      ShlZero(MAXBITS - 1);
      ShlInjective(Code(lens, ord[0]), 0, MAXBITS - 1);
      OneBitWords();
    }
  }

  lemma OneBitWords()
    ensures Val(Reverse(Bits(1, 1))) == 1 && Val(Reverse(Bits(0, 1))) == 0
  {
    assert Bits(0, 0) == [];
    assert Bits(1, 1) == [true] && Bits(0, 1) == [false];
    assert Reverse([true]) == [true] && Reverse([false]) == [false];
  }

  lemma FilledSingle(t: CodeType, lens: seq<nat>, ord: seq<nat>, T: seq<Entry>, T': seq<Entry>, at: nat, used: nat,
                     root: nat, bits: nat)
    requires Accepts(t, lens) && Sorted(lens, ord) && |ord| == 1 && lens[ord[0]] == 1 && Huff(lens, ord[0]) == 0
    requires 1 <= bits && root == RootBits(lens, bits) && Pow2(root) <= used && at + used <= |T|
    requires Entered(t, lens, ord, root, at, T[..at + used], |ord|)
    requires T' == T[at + 1 := INVALID]
    ensures DecodesCode(t, lens, T'[..at + used], at, root)
  {
    SortedUnique(lens, ord, Order(lens));
    assert root == 1 && Pow2(1) == 2;
    var U := T'[..at + used];
    forall s, w {:trigger Matches(lens, s, w)} | 0 <= s < |lens| && 0 <= w && Matches(lens, s, w)
      ensures Finds(U, at, root, w, SymbolEntry(t, s, lens[s]))
    {
      SortedComplete(lens, ord, s);
      assert Matches(lens, ord[0], w);
      assert Finds(T[..at + used], at, root, w, SymbolEntry(t, ord[0], lens[ord[0]]));
      assert Low(w, 1) == 0;
    }
    forall w {:trigger Finds(U, at, root, w, INVALID)} | 0 <= w && NoMatch(lens, w)
      ensures Finds(U, at, root, w, INVALID)
    {
      assert !Matches(lens, ord[0], w);
      LowBound(w, 1);
      assert Low(w, 1) == 1;
    }
  }

  lemma FilledComplete(t: CodeType, lens: seq<nat>, ord: seq<nat>, T: seq<Entry>, at: nat, used: nat, root: nat)
    requires Accepts(t, lens) && Sorted(lens, ord) && Complete(lens)
    requires at + used <= |T| && Entered(t, lens, ord, root, at, T[..at + used], |ord|)
    ensures DecodesCode(t, lens, T[..at + used], at, root)
  {
    forall s, w {:trigger Matches(lens, s, w)} | 0 <= s < |lens| && 0 <= w && Matches(lens, s, w)
      ensures Finds(T[..at + used], at, root, w, SymbolEntry(t, s, lens[s]))
    {
      SortedComplete(lens, ord, s);
      assert Matches(lens, ord[Rank(lens, |lens|, lens[s], s)], w);
    }
    forall w | 0 <= w
      ensures !NoMatch(lens, w)
    {
      var s := SomeMatch(lens, w);
    }
  }

  /** inflate_table: 0 and a table that decodes the code, -1 if the lengths are no
      acceptable code, or 1 if the table would outgrow its space. */
  method InflateTable(t: CodeType, lens: seq<nat>, table: array<Entry>, at: nat, bits: nat, work: array<nat>)
    returns (ret: int, at': nat, root: nat)
    requires Accepts(t, lens) && |lens| <= work.Length && at + Limit(t) <= table.Length
    requires 1 <= bits <= MAXBITS && (t.CODES? ==> bits == 7)
    modifies table, work
    ensures ret == -1 <==> Rejected(t, lens)
    ensures ret == 1 <==> !Rejected(t, lens) && !t.CODES? && Entries(lens, bits) > Limit(t)
    ensures ret == 0 || ret == 1 || ret == -1
    ensures ret == 0 ==> root == RootBits(lens, bits) && at' == at + Entries(lens, bits) && at' <= table.Length
    ensures ret == 0 ==> Entries(lens, bits) <= Limit(t) && Pow2(root) <= Entries(lens, bits)
    ensures ret == 0 ==> DecodesCode(t, lens, table[..][..at'], at, root)
    ensures forall k :: 0 <= k < at ==> table[k] == old(table[k])
  {
    hide *;
    LensFacts(t, lens);
    var count := CountLengths(lens);
    var min, max := Bounds(count, lens);
    root := if bits > max then max else bits;
    at' := at;
    if max == 0 {
      table[at], table[at + 1] := INVALID, INVALID;
      ret, at', root := 0, at + 2, 1;
      NothingToDecode(t, lens, table[..], at, bits);
      return;
    }
    if root < min {
      root := min;
    }
    RootComputed(lens, bits, root);
    var left := SpaceLeft(count, lens);
    RejectedMeans(t, lens, left);
    if left < 0 {
      return -1, at, root;
    }
    if left > 0 && (t.CODES? || max != 1) {
      return -1, at, root;
    }
    var offs := Offsets(count, lens);
    SortSymbols(lens, offs, work);
    ghost var ord := work[..Used(lens)];
    OrderFacts(t, lens, ord, bits, left);
    assert work[..|ord|] == ord;
    var used, huff;
    ret, used, huff := FillTables(t, lens, work, count, table, at, root, min, max, ord);
    if ret == 0 {
      at' := at + used;
      ghost var T := table[..];
      LastHuff(t, lens, ord, huff);
      if huff != 0 {
        table[at + huff] := INVALID;
        FilledSingle(t, lens, ord, T, table[..], at, used, root, bits);
      } else {
        FilledComplete(t, lens, ord, T, at, used, root);
      }
    }
  }
}
