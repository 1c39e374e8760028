/** What a pass over many accounts does, account by account (core/tx_pool.go, the loops of promoteExecutables and
    demoteUnexecutables): an account's result depends on its own lists and nonce only. */
module PoolPasses {
  import opened Transactions
  import opened SortedMap
  import opened PoolBooks
  import opened PoolPromotion
  import opened PoolDemotion
  import opened PoolFairness

  /** The account has the same lists and virtual nonce in both books. */
  ghost predicate SameLists(b: Books, b': Books, st: ChainState, a: Address) {
    && ListOf(b'.pending, a) == ListOf(b.pending, a)
    && ListOf(b'.queue, a) == ListOf(b.queue, a)
    && VirtualNonce(st, b'.virtuals, a) == VirtualNonce(st, b.virtuals, a)
  }

  // ---------------------------------------------------------------- promotion

  /** Each of the accounts was promoted as if it were the only one, and no other account was touched. */
  ghost predicate PromotedIn(b: Books, b': Books, st: ChainState, locals: set<Address>, cap: nat,
                             accounts: set<Address>) {
    forall a :: SameLists(if a in accounts then Promoted(b, st, locals, cap, a) else b, b', st, a)
  }

  lemma PromotedInNone(b: Books, st: ChainState, locals: set<Address>, cap: nat)
    ensures PromotedIn(b, b, st, locals, cap, {})
  {
  }

  lemma PromotedInOne(b0: Books, b: Books, st: ChainState, locals: set<Address>, cap: nat, done: set<Address>,
                      a: Address)
    requires NoEmpty(b0.queue) && NoEmpty(b.queue) && a !in done && PromotedIn(b0, b, st, locals, cap, done)
    ensures PromotedIn(b0, Promoted(b, st, locals, cap, a), st, locals, cap, done + {a})
  {
    hide Promoted, NoEmpty;
    var b' := Promoted(b, st, locals, cap, a);
    forall x ensures SameLists(if x in done + {a} then Promoted(b0, st, locals, cap, x) else b0, b', st, x) {
      if x == a {
        assert SameLists(b0, b, st, a);
        PromotedLocal(b0, b, st, locals, cap, a);
      } else {
        PromotedOther(b, st, locals, cap, a, x);
        assert SameLists(if x in done then Promoted(b0, st, locals, cap, x) else b0, b, st, x);
      }
    }
  }

  lemma PromotedOther(b: Books, st: ChainState, locals: set<Address>, cap: nat, a: Address, x: Address)
    requires x != a
    ensures SameLists(b, Promoted(b, st, locals, cap, a), st, x)
  {
    hide Executable, Leaving, Lost;
  }

  lemma PromotedLocal(b: Books, b': Books, st: ChainState, locals: set<Address>, cap: nat, a: Address)
    requires NoEmpty(b.queue) && NoEmpty(b'.queue) && SameLists(b, b', st, a)
    ensures SameLists(Promoted(b, st, locals, cap, a), Promoted(b', st, locals, cap, a), st, a)
  {
    assert a in b.queue <==> ListOf(b.queue, a) != map[];
    assert a in b'.queue <==> ListOf(b'.queue, a) != map[];
    PartsLocal(b, b', st, locals, cap, a);
    hide Executable, Leaving, Lost, NoEmpty;
    if a in b.queue {
      PromotedAt(b, st, locals, cap, a);
      PromotedAt(b', st, locals, cap, a);
    }
  }

  lemma PartsLocal(b: Books, b': Books, st: ChainState, locals: set<Address>, cap: nat, a: Address)
    requires SameLists(b, b', st, a)
    ensures Executable(b', st, a) == Executable(b, st, a)
    ensures Leaving(b', st, locals, cap, a) == Leaving(b, st, locals, cap, a)
  {
    hide ReadyRun, NotReady, Current, Lowest;
  }

  lemma PromotedAt(b: Books, st: ChainState, locals: set<Address>, cap: nat, a: Address)
    requires a in b.queue
    ensures var b', run := Promoted(b, st, locals, cap, a), Executable(b, st, a);
      && ListOf(b'.pending, a) == ListOf(b.pending, a) + run
      && ListOf(b'.queue, a) == ListOf(b.queue, a) - Leaving(b, st, locals, cap, a).Keys
      && VirtualNonce(st, b'.virtuals, a) == if run == map[] then VirtualNonce(st, b.virtuals, a) else MaxKey(run) + 1
  {
    hide Executable, Leaving, Lost;
    assert ListOf(b.pending, a) + map[] == ListOf(b.pending, a);
  }

  // ---------------------------------------------------------------- demotion

  /** Each of the accounts was demoted as if it were the only one, and no other account was touched. */
  ghost predicate DemotedIn(b: Books, b': Books, st: ChainState, accounts: set<Address>) {
    forall a :: SameLists(if a in accounts then Demoted(b, st, a) else b, b', st, a)
  }

  lemma DemotedInNone(b: Books, st: ChainState)
    ensures DemotedIn(b, b, st, {})
  {
  }

  lemma DemotedInOne(b0: Books, b: Books, st: ChainState, done: set<Address>, a: Address)
    requires a !in done && DemotedIn(b0, b, st, done)
    ensures DemotedIn(b0, Demoted(b, st, a), st, done + {a})
  {
    hide Demoted;
    var b' := Demoted(b, st, a);
    forall x ensures SameLists(if x in done + {a} then Demoted(b0, st, x) else b0, b', st, x) {
      if x == a {
        assert SameLists(b0, b, st, a);
        DemotedLocal(b0, b, st, a);
      } else {
        DemotedOther(b, st, a, x);
        assert SameLists(if x in done then Demoted(b0, st, x) else b0, b, st, x);
      }
    }
  }

  lemma DemotedOther(b: Books, st: ChainState, a: Address, x: Address)
    requires x != a
    ensures SameLists(b, Demoted(b, st, a), st, x)
  {
    hide Firm, Postponed;
  }

  lemma DemotedLocal(b: Books, b': Books, st: ChainState, a: Address)
    requires SameLists(b, b', st, a)
    ensures SameLists(Demoted(b, st, a), Demoted(b', st, a), st, a)
  {
    hide Firm, Postponed;
  }

  // ---------------------------------------------------------------- the limits

  /** Every list is the lower part of what it was, and the lists of local senders are whole. */
  ghost predicate LowerParts(q: Lists, q': Lists, locals: set<Address>) {
    && (forall a :: ListOf(q', a) == Lowest(ListOf(q, a), |ListOf(q', a)|))
    && (forall a | a in locals :: ListOf(q', a) == ListOf(q, a))
  }

  /** The queue is cut down to exactly the limit, or to the local senders; within the limit it is not touched. */
  ghost predicate Trimmed(q: Lists, q': Lists, locals: set<Address>, limit: nat) {
    && LowerParts(q, q', locals)
    && (Total(q) <= limit ==> q' == q)
    && (Total(q) > limit ==> Total(q') == limit || (Total(q') > limit && q'.Keys <= locals))
  }

  /** Over the limit the pending lists are cut fairly; within it they are not touched. */
  ghost predicate Leveling(p: Lists, p': Lists, locals: set<Address>, slots: nat, limit: nat) {
    if Total(p) <= limit then p' == p else FairCut(p, p', locals, slots, limit)
  }

  lemma LowerRefl(q: Lists, locals: set<Address>)
    ensures LowerParts(q, q, locals)
  {
    forall a ensures ListOf(q, a) == Lowest(ListOf(q, a), |ListOf(q, a)|) {
      WholeLowest(ListOf(q, a));
    }
  }

  lemma WholeLowest(m: map<nat, Tx>)
    ensures Lowest(m, |m|) == m
  {
  }

  lemma LowerTrans(q: Lists, q': Lists, q'': Lists, locals: set<Address>)
    requires LowerParts(q, q', locals) && LowerParts(q', q'', locals)
    requires forall a :: |ListOf(q'', a)| <= |ListOf(q', a)|
    ensures LowerParts(q, q'', locals)
  {
    hide Lowest;
    forall a ensures ListOf(q'', a) == Lowest(ListOf(q, a), |ListOf(q'', a)|) {
      LowestOfLowest(ListOf(q, a), |ListOf(q'', a)|, |ListOf(q', a)|);
    }
  }
}
