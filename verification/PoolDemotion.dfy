/** Demotion of one account's pending list against a new chain state, and the renumbering that
    follows it in a reset (core/tx_pool.go, demoteUnexecutables and reset). */
module PoolDemotion {
  import opened Transactions
  import opened SortedMap
  import opened TxLists
  import opened PricedLists
  import opened PoolBooks
  import opened PoolSteps

  /** What is left of a pending list after the too old, the unpayable and everything behind an
      unpayable one is gone. */
  function Payables(l: map<nat, Tx>, st: ChainState, a: Address): map<nat, Tx> {
    Kept(From(l, NonceOf(st, a)), true, BalanceOf(st, a), st.gasLimit)
  }

  function StrandedBehind(l: map<nat, Tx>, st: ChainState, a: Address): map<nat, Tx> {
    Stranded(From(l, NonceOf(st, a)), true, BalanceOf(st, a), st.gasLimit)
  }

  /** What stays pending: nothing if the state nonce itself is missing. */
  function Firm(l: map<nat, Tx>, st: ChainState, a: Address): map<nat, Tx> {
    if NonceOf(st, a) in Payables(l, st, a) then Payables(l, st, a) else map[]
  }

  /** What goes back to the queue. */
  function Postponed(l: map<nat, Tx>, st: ChainState, a: Address): map<nat, Tx> {
    if NonceOf(st, a) in Payables(l, st, a) then StrandedBehind(l, st, a)
    else StrandedBehind(l, st, a) + Payables(l, st, a)
  }

  function Demoted(b: Books, st: ChainState, a: Address): Books {
    var l := ListOf(b.pending, a);
    var gone := l - Firm(l, st, a).Keys;
    Books(Tidy(Take(b.pending, a, gone), a),
          Put(b.queue, a, Postponed(l, st, a)),
          b.all - Hashes(Values(gone - Postponed(l, st, a).Keys)),
          b.virtuals)
  }

  // ---------------------------------------------------------------- the parts of a pending list

  /** The list is cut at its first unpayable transaction; nothing payable is lost. */
  lemma PayablesPart(l: map<nat, Tx>, st: ChainState, a: Address)
    requires FiledAt(l, a)
    ensures var keep, back := Payables(l, st, a), StrandedBehind(l, st, a);
            && PartOf(keep, l) && PartOf(back, l) && (forall n | n in keep :: n !in back)
            && (forall n: nat | n in keep :: n >= NonceOf(st, a) && CanPay(st, l[n]))
            && (forall n: nat | n in l && n >= NonceOf(st, a) && CanPay(st, l[n]) :: n in keep || n in back)
            && (forall n: nat | n in back :: exists m: nat :: NonceOf(st, a) <= m < n && m in l && !CanPay(st, l[m]))
  {
    var cur := From(l, NonceOf(st, a));
    var bad := Unpayable(cur, BalanceOf(st, a), st.gasLimit);
    forall n: nat | n in cur ensures n in bad <==> !CanPay(st, l[n]) {}
    if bad != map[] {
      var lo := MinKey(bad);
      assert lo in l && !CanPay(st, l[lo]);
      forall n: nat | n in StrandedBehind(l, st, a) ensures lo < n {
        assert n !in bad;
      }
    }
  }

  /** Payable nonces up to any kept one are kept too. */
  lemma PayablesClosed(l: map<nat, Tx>, st: ChainState, a: Address, n: nat, m: nat)
    requires FiledAt(l, a) && n in Payables(l, st, a) && m in l && NonceOf(st, a) <= m <= n
    ensures m in Payables(l, st, a)
  {
    var cur := From(l, NonceOf(st, a));
    var bad := Unpayable(cur, BalanceOf(st, a), st.gasLimit);
    assert m in cur && n in cur;
    if bad != map[] { hide MinKey; } else { assert m !in bad; }
  }

  lemma DemotedParts(l: map<nat, Tx>, st: ChainState, a: Address)
    requires FiledAt(l, a)
    ensures var firm, back := Firm(l, st, a), Postponed(l, st, a);
            && PartOf(firm, l) && PartOf(back, l - firm.Keys) && FiledAt(back, a)
            && (forall n: nat | n in l && n !in firm && n !in back :: n < NonceOf(st, a) || !CanPay(st, l[n]))
            && (forall n: nat | n in firm :: n >= NonceOf(st, a) && CanPay(st, l[n]) && NonceOf(st, a) in firm)
  {
    PayablesPart(l, st, a);
    hide Payables, StrandedBehind;
  }

  lemma GoneValues(l: map<nat, Tx>, st: ChainState, a: Address)
    requires FiledAt(l, a)
    ensures var gone, back := l - Firm(l, st, a).Keys, Postponed(l, st, a);
            var lost := gone - back.Keys;
            && PartOf(gone, l) && FiledAt(back, a) && {} + Values(gone) == Values(gone)
            && Values(lost) <= Values(gone)
            && Values(gone) - Values(lost) == Values(back) && Values(back) - Values(back) == {}
  {
    DemotedParts(l, st, a);
    hide Firm, Postponed;
    var gone, back := l - Firm(l, st, a).Keys, Postponed(l, st, a);
    ValuesSplit(gone, back, a);
  }

  // ---------------------------------------------------------------- coherence

  lemma DemotedCoherent(b: Books, st: ChainState, a: Address)
    requires Coherent(b, {}) && a in b.pending
    ensures Coherent(Demoted(b, st, a), {})
  {
    var l := b.pending[a];
    assert FiledAt(l, a);
    GoneValues(l, st, a);
    var gone, back := l - Firm(l, st, a).Keys, Postponed(l, st, a);
    var lost := gone - back.Keys;
    assert l == ListOf(b.pending, a);
    hide *;
    DemotedIs(b, st, a, l);
    TakePending(b, {}, a, gone);
    var b1 := b.(pending := Take(b.pending, a, gone));
    Forget(b1, Values(gone), Values(lost));
    var b2 := b1.(all := b1.all - Hashes(Values(lost)));
    PutQueued(b2, Values(back), a, back);
    TidyPending(b2.(queue := Put(b2.queue, a, back)), {}, a);
  }

  lemma DemotedIs(b: Books, st: ChainState, a: Address, l: map<nat, Tx>)
    requires l == ListOf(b.pending, a)
    ensures Demoted(b, st, a) ==
              Books(Tidy(Take(b.pending, a, l - Firm(l, st, a).Keys), a),
                    Put(b.queue, a, Postponed(l, st, a)),
                    b.all - Hashes(Values((l - Firm(l, st, a).Keys) - Postponed(l, st, a).Keys)), b.virtuals)
  {
  }

  /** Demotion leaves the account's firm part and touches no other account's pending list. */
  lemma DemotedLists(b: Books, st: ChainState, a: Address)
    requires Coherent(b, {}) && a in b.pending
    ensures ListOf(Demoted(b, st, a).pending, a) == Firm(b.pending[a], st, a)
    ensures forall x | x != a :: SameAt(b, Demoted(b, st, a), st, x)
    ensures forall x | x != a :: x in Demoted(b, st, a).pending <==> x in b.pending
    ensures Demoted(b, st, a).virtuals == b.virtuals
  {
    var l := b.pending[a];
    DemotedParts(l, st, a);
    hide Firm, Postponed, Coherent;
    var firm := Firm(l, st, a);
    assert l - (l - firm.Keys).Keys == firm;
    TakeTidied(b.pending, a, l - firm.Keys);
  }

  lemma TakeTidied(m: Lists, a: Address, gone: map<nat, Tx>)
    requires a in m
    ensures ListOf(Tidy(Take(m, a, gone), a), a) == m[a] - gone.Keys
    ensures forall x | x != a :: ListOf(Tidy(Take(m, a, gone), a), x) == ListOf(m, x)
    ensures forall x | x != a :: x in Tidy(Take(m, a, gone), a) <==> x in m
  {
  }

  // ---------------------------------------------------------------- what demotion establishes

  /** The account's pending list starts at the state nonce and is payable throughout. */
  ghost predicate CleanAt(b: Books, st: ChainState, a: Address) {
    forall n: nat | Slot(b.pending, a, n) ::
      n >= NonceOf(st, a) && CanPay(st, b.pending[a][n]) && Slot(b.pending, a, NonceOf(st, a))
  }

  lemma DemotedClean(b: Books, st: ChainState, a: Address)
    requires Coherent(b, {}) && a in b.pending
    ensures CleanAt(Demoted(b, st, a), st, a)
    ensures RootedAt(b, st, a) ==> RootedAt(Demoted(b, st, a), st, a)
  {
    var b', l := Demoted(b, st, a), b.pending[a];
    var firm := Firm(l, st, a);
    assert FiledAt(l, a);
    DemotedLists(b, st, a);
    DemotedParts(l, st, a);
    if RootedAt(b, st, a) && VirtualNonce(st, b.virtuals, a) > NonceOf(st, a) {
      RootStays(l, st, a);
    }
    hide Coherent, Demoted, Firm, Postponed;
    assert forall n: nat :: Slot(b'.pending, a, n) ==> n in firm && b'.pending[a][n] == l[n];
    assert forall n: nat | n in firm :: Slot(b'.pending, a, n);
  }

  lemma RootStays(l: map<nat, Tx>, st: ChainState, a: Address)
    requires FiledAt(l, a) && NonceOf(st, a) in l && CanPay(st, l[NonceOf(st, a)])
    ensures NonceOf(st, a) in Firm(l, st, a)
  {
    PayablesPart(l, st, a);
    hide Payables, StrandedBehind;
  }

  /** The list has no gap from `start` up to any of its nonces. */
  ghost predicate Closed(l: map<nat, Tx>, start: nat) {
    forall n: nat, m: nat :: n in l && start <= m <= n ==> m in l
  }

  /** The account's pending list has no gap from the state nonce up. */
  ghost predicate ClosedAt(b: Books, st: ChainState, a: Address) {
    Closed(ListOf(b.pending, a), NonceOf(st, a))
  }

  /** An account without pending transactions is not behind the state. */
  ghost predicate CaughtUpAt(b: Books, st: ChainState, a: Address) {
    a in b.pending || NonceOf(st, a) <= VirtualNonce(st, b.virtuals, a)
  }

  lemma DemotedClosed(b: Books, st: ChainState, a: Address)
    requires Coherent(b, {}) && a in b.pending && ClosedAt(b, st, a)
    ensures ClosedAt(Demoted(b, st, a), st, a)
  {
    var l := b.pending[a];
    assert FiledAt(l, a) && l == ListOf(b.pending, a);
    DemotedLists(b, st, a);
    DemotedParts(l, st, a);
    hide Coherent, Demoted, FiledAt;
    forall n: nat, m: nat | n in Firm(l, st, a) && NonceOf(st, a) <= m <= n ensures m in Firm(l, st, a) {
      PayablesClosed(l, st, a, n, m);
    }
  }

  lemma DemotedTidy(b: Books, st: ChainState, a: Address)
    requires NoEmpty(b.pending) && NoEmpty(b.queue)
    ensures NoEmpty(Demoted(b, st, a).pending) && NoEmpty(Demoted(b, st, a).queue)
  {
    hide Firm, Postponed;
  }

  lemma DemotedLoss(b: Books, st: ChainState, locals: set<Address>, a: Address)
    requires Coherent(b, {}) && a in b.pending
    ensures LocalsKept(b, Demoted(b, st, a), st, locals) && NothingNew(b, Demoted(b, st, a))
  {
    var b', l := Demoted(b, st, a), b.pending[a];
    assert FiledAt(l, a);
    DemotedParts(l, st, a);
    hide Coherent, Firm, Postponed;
    var lost := (l - Firm(l, st, a).Keys) - Postponed(l, st, a).Keys;
    forall t | Live(b.all, t) && !Live(b'.all, t) ensures t.nonce < NonceOf(st, t.from) || !CanPay(st, t) {
      assert TxHash(t) in Hashes(Values(lost));
      var n :| n in lost && lost[n] == t;
    }
  }

  // ---------------------------------------------------------------- renumbering

  /** Every account with pending transactions continues after its last one. */
  function Renumbered(b: Books): Books
    requires NoEmpty(b.pending)
  {
    b.(virtuals := b.virtuals + map a | a in b.pending :: MaxKey(b.pending[a]) + 1)
  }

  lemma RenumberedKeeps(b: Books, st: ChainState)
    requires NoEmpty(b.pending) && Rooted(b, st) && forall a :: CleanAt(b, st, a)
    ensures Rooted(Renumbered(b), st) && Started(Renumbered(b), st)
  {
    var b' := Renumbered(b);
    forall a ensures RootedAt(b', st, a) && StartedAt(b', st, a) {
      assert RootedAt(b, st, a) && CleanAt(b, st, a);
      if a in b.pending { assert Slot(b.pending, a, MaxKey(b.pending[a])); }
    }
  }

  /** After demotion the pool is gap free exactly if no pending list has a gap above its state nonce and no account
      without pending transactions is behind. */
  lemma RenumberedGapFree(b: Books, st: ChainState)
    requires NoEmpty(b.pending) && Rooted(b, st) && forall a :: CleanAt(b, st, a)
    ensures GapFree(Renumbered(b), st) <==> forall a :: ClosedAt(b, st, a) && CaughtUpAt(b, st, a)
  {
    hide CleanAt, ClosedAt, GapFreeAt, CaughtUpAt, RootedAt;
    forall a ensures GapFreeAt(Renumbered(b), st, a) <==> ClosedAt(b, st, a) && CaughtUpAt(b, st, a) {
      assert CleanAt(b, st, a);
      RenumberedGapFreeAt(b, st, a);
    }
  }

  lemma RenumberedGapFreeAt(b: Books, st: ChainState, a: Address)
    requires NoEmpty(b.pending) && CleanAt(b, st, a) && RootedAt(b, st, a)
    ensures GapFreeAt(Renumbered(b), st, a) <==> ClosedAt(b, st, a) && CaughtUpAt(b, st, a)
  {
    var b' := Renumbered(b);
    assert forall n: nat :: Slot(b.pending, a, n) <==> n in ListOf(b.pending, a);
    if a in b.pending {
      var hi := MaxKey(b.pending[a]);
      assert Slot(b.pending, a, hi);
      assert VirtualNonce(st, b'.virtuals, a) == hi + 1;
      if ClosedAt(b, st, a) {
        forall n: nat ensures Slot(b'.pending, a, n) <==> NonceOf(st, a) <= n < hi + 1 {
          assert hi in ListOf(b.pending, a);
        }
      }
    }
  }
}
