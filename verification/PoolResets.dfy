/** When a reset leaves gap-free pending lists (core/tx_pool.go, reset). The lists are read against a new state, the
    transactions a reorganisation set free are added and promoted, and only then is everything demoted that cannot
    run; a promoted run may thus end up in front of an old list it does not reach. */
module PoolResets {
  import opened Transactions
  import opened SortedMap
  import opened PoolBooks
  import opened PoolSteps
  import opened PoolPromotion
  import opened PoolDemotion
  import opened PoolPasses
  import opened PoolFairness
  import opened PricedLists
  import opened PoolAdmission

  ghost predicate AllClean(b: Books, st: ChainState) {
    forall a :: CleanAt(b, st, a)
  }

  ghost predicate AllClosed(b: Books, st: ChainState) {
    forall a :: ClosedAt(b, st, a)
  }

  ghost predicate AllCaughtUp(b: Books, st: ChainState) {
    forall a :: CaughtUpAt(b, st, a)
  }

  /** The list's nonces are consecutive. */
  ghost predicate Ranged(l: map<nat, Tx>) {
    forall n: nat, m: nat, k: nat :: n in l && k in l && n <= m <= k ==> m in l
  }

  ghost predicate AllRanged(m: Lists) {
    forall a :: Ranged(ListOf(m, a))
  }

  lemma GapFreeRanged(b: Books, st: ChainState)
    requires GapFree(b, st)
    ensures AllRanged(b.pending)
  {
    forall a ensures Ranged(ListOf(b.pending, a)) {
      assert GapFreeAt(b, st, a);
      assert forall n: nat :: Slot(b.pending, a, n) <==> n in ListOf(b.pending, a);
    }
  }

  // ---------------------------------------------------------------- demotion against any state

  lemma PayablesAre(l: map<nat, Tx>, st: ChainState, a: Address)
    ensures Firm(l, st, a) == if NonceOf(st, a) in Payables(l, st, a) then Payables(l, st, a) else map[]
  {
  }

  /** Consecutive nonces are demoted whole if the state nonce is missing, and else stay consecutive from it. */
  lemma RangeCloses(l: map<nat, Tx>, st: ChainState, a: Address)
    requires FiledAt(l, a) && Ranged(l)
    ensures Closed(Firm(l, st, a), NonceOf(st, a))
  {
    PayablesPart(l, st, a);
    PayablesAre(l, st, a);
    hide Payables, StrandedBehind, Firm, FiledAt;
    var s := NonceOf(st, a);
    forall n: nat, m: nat | n in Firm(l, st, a) && s <= m <= n ensures m in Firm(l, st, a) {
      assert s in l && n in l;
      PayablesClosed(l, st, a, n, m);
    }
  }

  // ---------------------------------------------------------------- a run in front of an old list

  /** The run that is promoted ends short of the old list, whose first transaction is still payable. */
  ghost predicate Torn(b: Books, st: ChainState, a: Address) {
    var run, l := Executable(b, st, a), ListOf(b.pending, a);
    run != map[] && l != map[] && MaxKey(run) + 1 < MinKey(l) && CanPay(st, l[MinKey(l)])
  }

  lemma QueuedApart(b: Books, a: Address)
    requires Coherent(b, {})
    ensures FiledAt(ListOf(b.pending, a), a) && FiledAt(ListOf(b.queue, a), a)
    ensures forall n | n in ListOf(b.queue, a) :: n !in ListOf(b.pending, a)
  {
    assert forall n :: Slot(b.queue, a, n) <==> n in ListOf(b.queue, a);
    assert forall n :: Slot(b.pending, a, n) <==> n in ListOf(b.pending, a);
  }

  lemma ExecutableIs(b: Books, st: ChainState, a: Address)
    ensures Executable(b, st, a) == ReadyRun(Current(ListOf(b.queue, a), st, a), VirtualNonce(st, b.virtuals, a))
  {
  }

  lemma CurrentRun(q: map<nat, Tx>, st: ChainState, a: Address)
    requires FiledAt(q, a)
    ensures var run, s := ReadyRun(Current(q, st, a), NonceOf(st, a)), NonceOf(st, a);
      && PartOf(run, q) && (forall n | n in run :: CanPay(st, run[n]))
      && (run != map[] ==> s <= MaxKey(run) && forall n: nat :: n in run <==> s <= n <= MaxKey(run))
  {
    var run, s := ReadyRun(Current(q, st, a), NonceOf(st, a)), NonceOf(st, a);
    CurrentPart(q, st, a);
    RunShape(Current(q, st, a), s);
    hide Current, ReadyRun, NotReady, CanPay, FiledAt, MaxKey;
  }

  lemma RunApart(l: map<nat, Tx>, q: map<nat, Tx>, run: map<nat, Tx>, st: ChainState, a: Address)
    requires FiledAt(l, a) && FiledAt(q, a) && PartOf(run, q) && forall n | n in q :: n !in l
    ensures FiledAt(run, a) && FiledAt(l + run, a) && forall n | n in run :: n !in l
  {
  }

  /** Read from fresh virtual nonces, what is promoted is a payable stretch from the state nonce. */
  lemma FreshRun(b: Books, st: ChainState, a: Address)
    requires Coherent(b, {}) && VirtualNonce(st, b.virtuals, a) == NonceOf(st, a)
    ensures var run, l, s := Executable(b, st, a), ListOf(b.pending, a), NonceOf(st, a);
      && FiledAt(l, a) && FiledAt(run, a) && FiledAt(l + run, a)
      && (forall n | n in run :: n !in l && CanPay(st, run[n]))
      && (run != map[] ==> s <= MaxKey(run) && forall n: nat :: n in run <==> s <= n <= MaxKey(run))
  {
    var run, l, q := Executable(b, st, a), ListOf(b.pending, a), ListOf(b.queue, a);
    QueuedApart(b, a);
    ExecutableIs(b, st, a);
    hide *;
    CurrentRun(q, st, a);
    RunApart(l, q, run, st, a);
  }

  /** Everything payable up to the first unpayable nonce is kept. */
  lemma PayablesReach(l: map<nat, Tx>, st: ChainState, a: Address, n: nat)
    requires FiledAt(l, a) && n in l && n >= NonceOf(st, a)
    requires forall m: nat | m in l && NonceOf(st, a) <= m <= n :: CanPay(st, l[m])
    ensures n in Payables(l, st, a)
  {
    PayablesPart(l, st, a);
    hide Payables, StrandedBehind, CanPay;
  }

  lemma ClosedAll(l: map<nat, Tx>, start: nat)
    requires forall n: nat, m: nat | n in l && start <= m <= n :: m in l
    ensures Closed(l, start)
  {
  }

  lemma JoinedRoot(run: map<nat, Tx>, l: map<nat, Tx>, st: ChainState, a: Address, hi: nat)
    requires FiledAt(l + run, a) && NonceOf(st, a) <= hi
    requires forall n: nat :: n in run <==> NonceOf(st, a) <= n <= hi
    requires forall n | n in run :: CanPay(st, run[n])
    ensures NonceOf(st, a) in Firm(l + run, st, a) && Firm(l + run, st, a) == Payables(l + run, st, a)
  {
    assert NonceOf(st, a) in run;
    PayablesReach(l + run, st, a, NonceOf(st, a));
    PayablesAre(l + run, st, a);
  }

  lemma Misses(l: map<nat, Tx>, whole: map<nat, Tx>, start: nat, m: nat, n: nat)
    requires PartOf(l, whole) && n in l && m !in whole && start <= m <= n
    ensures !Closed(l, start)
  {
  }

  lemma JoinedFirst(run: map<nat, Tx>, l: map<nat, Tx>, st: ChainState, a: Address, hi: nat)
    requires FiledAt(l + run, a) && l != map[] && NonceOf(st, a) <= hi && hi + 1 < MinKey(l) && CanPay(st, l[MinKey(l)])
    requires forall n: nat :: n in run <==> NonceOf(st, a) <= n <= hi
    requires forall n | n in run :: CanPay(st, run[n])
    ensures MinKey(l) in Payables(l + run, st, a)
  {
    var r, first := l + run, MinKey(l);
    hide Payables, FiledAt, CanPay;
    forall m: nat | m in r && NonceOf(st, a) <= m <= first ensures CanPay(st, r[m]) {
      if m !in run { assert m in l; }
    }
    PayablesReach(r, st, a, first);
  }

  lemma FirmWithin(l: map<nat, Tx>, st: ChainState, a: Address)
    ensures PartOf(Firm(l, st, a), l)
    ensures l == map[] ==> Firm(l, st, a) == map[]
  {
  }

  lemma JoinedGap(run: map<nat, Tx>, l: map<nat, Tx>, st: ChainState, a: Address, hi: nat)
    requires FiledAt(l + run, a) && NonceOf(st, a) <= hi
    requires forall n: nat :: n in run <==> NonceOf(st, a) <= n <= hi
    requires forall n | n in run :: n !in l && CanPay(st, run[n])
    requires l != map[] && hi + 1 < MinKey(l) && CanPay(st, l[MinKey(l)])
    ensures !Closed(Firm(l + run, st, a), NonceOf(st, a))
  {
    var r := l + run;
    assert hi + 1 !in r;
    hide *;
    JoinedRoot(run, l, st, a, hi);
    JoinedFirst(run, l, st, a, hi);
    FirmWithin(r, st, a);
    Misses(Firm(r, st, a), r, NonceOf(st, a), hi + 1, MinKey(l));
  }

  /** What is kept of the joined list is reached without a gap. */
  lemma JoinedReach(run: map<nat, Tx>, l: map<nat, Tx>, st: ChainState, a: Address, hi: nat, n: nat)
    requires FiledAt(l + run, a) && Ranged(l) && NonceOf(st, a) <= hi && n in Payables(l + run, st, a)
    requires forall n: nat :: n in run <==> NonceOf(st, a) <= n <= hi
    requires forall n | n in run :: n !in l
    requires !(l != map[] && hi + 1 < MinKey(l) && CanPay(st, l[MinKey(l)]))
    ensures forall m: nat | NonceOf(st, a) <= m <= n :: m in l + run
  {
    var r, s := l + run, NonceOf(st, a);
    PayablesPart(r, st, a);
    hide Payables, StrandedBehind, FiledAt, CanPay;
    assert s in run && hi in run;
    if n !in run {
      assert n in l;
      var first := MinKey(l);
      assert first in l && first !in run;
      assert s !in l && (first < s ==> s in l);
      if hi + 1 < first {
        assert first in r;
        PayablesClosed(r, st, a, n, first);
      }
    }
  }

  /** A stretch from the state nonce, joined to consecutive nonces it does not meet, loses its gap in the demotion exactly
      if the first of them is unpayable. */
  lemma JoinedCloses(run: map<nat, Tx>, l: map<nat, Tx>, st: ChainState, a: Address, hi: nat)
    requires FiledAt(l, a) && FiledAt(l + run, a) && Ranged(l) && NonceOf(st, a) <= hi
    requires forall n: nat :: n in run <==> NonceOf(st, a) <= n <= hi
    requires forall n | n in run :: n !in l && CanPay(st, run[n])
    ensures Closed(Firm(l + run, st, a), NonceOf(st, a)) <==>
      !(l != map[] && hi + 1 < MinKey(l) && CanPay(st, l[MinKey(l)]))
    ensures NonceOf(st, a) in Firm(l + run, st, a)
  {
    JoinedRoot(run, l, st, a, hi);
    if l != map[] && hi + 1 < MinKey(l) && CanPay(st, l[MinKey(l)]) {
      JoinedGap(run, l, st, a, hi);
    } else {
      hide Closed, Ranged, Payables, CanPay, FiledAt;
      var r, s := l + run, NonceOf(st, a);
      forall n: nat, m: nat | n in Firm(r, st, a) && s <= m <= n ensures m in Firm(r, st, a) {
        JoinedReach(run, l, st, a, hi, n);
        PayablesClosed(r, st, a, n, m);
      }
      ClosedAll(Firm(r, st, a), s);
    }
  }

  lemma NothingJoined(l: map<nat, Tx>)
    ensures l + map[] == l
  {
  }

  lemma ClosedIs(b: Books, st: ChainState, a: Address)
    ensures ClosedAt(b, st, a) <==> Closed(ListOf(b.pending, a), NonceOf(st, a))
    ensures VirtualNonce(st, b.virtuals, a) >= NonceOf(st, a) ==> CaughtUpAt(b, st, a)
  {
    hide Closed;
  }

  lemma TornIs(b: Books, st: ChainState, a: Address)
    ensures Torn(b, st, a) <==>
      (var run, l := Executable(b, st, a), ListOf(b.pending, a);
       run != map[] && l != map[] && MaxKey(run) + 1 < MinKey(l) && CanPay(st, l[MinKey(l)]))
  {
    hide Executable, CanPay;
  }

  lemma FreshPromotion(b: Books, b2: Books, st: ChainState, locals: set<Address>, cap: nat, dirty: set<Address>, a: Address)
    requires b.virtuals == map[] && Filed(b.queue)
    requires SameLists(if a in dirty then Promoted(b, st, locals, cap, a) else b, b2, st, a)
    ensures ListOf(b2.pending, a) == ListOf(b.pending, a) + if a in dirty then Executable(b, st, a) else map[]
    ensures VirtualNonce(st, b2.virtuals, a) ==
      if a in dirty && Executable(b, st, a) != map[] then MaxKey(Executable(b, st, a)) + 1 else NonceOf(st, a)
  {
    assert ListOf(b.pending, a) + map[] == ListOf(b.pending, a);
    if a in dirty {
      if a in b.queue {
        PromotedAt(b, st, locals, cap, a);
      } else {
        assert Current(map[], st, a) == map[];
      }
    }
  }

  lemma DemotedQueue(b: Books, st: ChainState, a: Address)
    ensures ListOf(Demoted(b, st, a).queue, a) == ListOf(b.queue, a) + Postponed(ListOf(b.pending, a), st, a)
  {
    hide Firm, Postponed;
    NothingJoined(ListOf(b.queue, a));
  }

  lemma DemotedTo(b2: Books, b3: Books, st: ChainState, a: Address)
    requires SameLists(if a in b2.pending then Demoted(b2, st, a) else b2, b3, st, a)
    ensures ListOf(b3.pending, a) == Firm(ListOf(b2.pending, a), st, a)
    ensures VirtualNonce(st, b3.virtuals, a) == VirtualNonce(st, b2.virtuals, a)
  {
    var l := ListOf(b2.pending, a);
    FirmWithin(l, st, a);
    hide Firm, Postponed;
    if a in b2.pending {
      var firm := Firm(l, st, a);
      assert l - (l - firm.Keys).Keys == firm;
      TakeTidied(b2.pending, a, l - firm.Keys);
    }
  }

  lemma QueueFiled(b: Books)
    requires Coherent(b, {})
    ensures Filed(b.queue)
  {
  }

  lemma SameAtIs(b: Books, b': Books, st: ChainState, a: Address)
    requires SameAt(b, b', st, a)
    ensures ListOf(b'.pending, a) == ListOf(b.pending, a)
    ensures VirtualNonce(st, b'.virtuals, a) == VirtualNonce(st, b.virtuals, a)
  {
  }

  lemma FreshIs(b: Books, st: ChainState, a: Address)
    requires b.virtuals == map[]
    ensures VirtualNonce(st, b.virtuals, a) == NonceOf(st, a)
  {
  }

  // ---------------------------------------------------------------- the whole reset

  /** An account's books after the reinjected transactions of `dirty` senders were promoted and everything was demoted:
      closed exactly if the account is not torn, and never behind. */
  lemma TornExactly(b: Books, mid: Books, b2: Books, b3: Books, st: ChainState, locals: set<Address>, cap: nat,
                    dirty: set<Address>, a: Address)
    requires Coherent(b, {}) && b.virtuals == map[] && Ranged(ListOf(b.pending, a))
    requires SameLists(if a in dirty then Promoted(b, st, locals, cap, a) else b, mid, st, a) && SameAt(mid, b2, st, a)
    requires SameLists(if a in b2.pending then Demoted(b2, st, a) else b2, b3, st, a)
    ensures ClosedAt(b3, st, a) <==> !(a in dirty && Torn(b, st, a))
    ensures CaughtUpAt(b3, st, a)
  {
    hide *;
    var l, run := ListOf(b.pending, a), Executable(b, st, a);
    FreshIs(b, st, a);
    QueueFiled(b);
    FreshRun(b, st, a);
    FreshPromotion(b, mid, st, locals, cap, dirty, a);
    SameAtIs(mid, b2, st, a);
    DemotedTo(b2, b3, st, a);
    ClosedIs(b3, st, a);
    TornIs(b, st, a);
    if a in dirty && run != map[] {
      JoinedCloses(run, l, st, a, MaxKey(run));
    } else {
      NothingJoined(l);
      RangeCloses(l, st, a);
    }
  }

  /** The books after a reset's demotion: no list has a gap and no account is behind exactly if no reinjected sender is
      torn. */
  lemma ReinjectedExactly(b: Books, mid: Books, b2: Books, b3: Books, st: ChainState, locals: set<Address>, cap: nat,
                          dirty: set<Address>)
    requires Coherent(b, {}) && b.virtuals == map[] && AllRanged(b.pending)
    requires PromotedIn(b, mid, st, locals, cap, dirty) && b2.pending == mid.pending && b2.virtuals == mid.virtuals
    requires DemotedIn(b2, b3, st, b2.pending.Keys)
    ensures AllClosed(b3, st) <==> forall a | a in dirty :: !Torn(b, st, a)
    ensures AllCaughtUp(b3, st)
  {
    hide Coherent, Ranged, SameLists, ClosedAt, CaughtUpAt, Torn;
    forall a ensures (ClosedAt(b3, st, a) <==> !(a in dirty && Torn(b, st, a))) && CaughtUpAt(b3, st, a) {
      assert SameLists(if a in b2.pending.Keys then Demoted(b2, st, a) else b2, b3, st, a);
      assert a in b2.pending.Keys <==> a in b2.pending;
      TornExactly(b, mid, b2, b3, st, locals, cap, dirty, a);
    }
  }

  /** An account whose nonce did not fall is not torn. */
  lemma RisenNotTorn(b: Books, st: ChainState, a: Address)
    requires Coherent(b, {}) && VirtualNonce(st, b.virtuals, a) == NonceOf(st, a)
    requires exists n: nat :: n in ListOf(b.pending, a) && n <= NonceOf(st, a)
    ensures !Torn(b, st, a)
  {
    FreshRun(b, st, a);
    hide Coherent, Executable, CanPay, FiledAt;
  }

  lemma PromotionAt(b: Books, mid: Books, b': Books, st: ChainState, locals: set<Address>, cap: nat, a: Address)
    requires SameLists(if a in b.queue then Promoted(b, st, locals, cap, a) else b, mid, st, a) && SameAt(mid, b', st, a)
    ensures ListOf(b'.pending, a) == ListOf(b.pending, a) + if a in b.queue then Executable(b, st, a) else map[]
    ensures VirtualNonce(st, b'.virtuals, a) ==
      if a in b.queue && Executable(b, st, a) != map[] then MaxKey(Executable(b, st, a)) + 1 else VirtualNonce(st, b.virtuals, a)
  {
    NothingJoined(ListOf(b.pending, a));
    if a in b.queue { PromotedAt(b, st, locals, cap, a); }
    hide Promoted, Executable, MaxKey;
  }

  lemma GapFreeList(b: Books, st: ChainState, a: Address)
    ensures GapFreeAt(b, st, a) <==>
      (var s, v := NonceOf(st, a), VirtualNonce(st, b.virtuals, a); s <= v && forall n: nat :: n in ListOf(b.pending, a) <==> s <= n < v)
  {
    assert forall n: nat :: Slot(b.pending, a, n) <==> n in ListOf(b.pending, a);
  }

  lemma RootedList(b: Books, st: ChainState, a: Address)
    ensures RootedAt(b, st, a) && VirtualNonce(st, b.virtuals, a) > NonceOf(st, a) ==> NonceOf(st, a) in ListOf(b.pending, a)
    ensures ListOf(b.pending, a) != map[] ==> a in b.pending && ListOf(b.pending, a) == b.pending[a]
  {
    hide CanPay;
  }

  lemma Within(run: map<nat, Tx>, cur: map<nat, Tx>, q: map<nat, Tx>)
    requires PartOf(run, cur) && PartOf(cur, q)
    ensures forall n | n in run :: n in q
  {
  }

  /** What is promoted is a stretch that starts no later than the virtual nonce and is apart from the pending list. */
  lemma QueueRun(b: Books, st: ChainState, a: Address) returns (lo: nat)
    requires Coherent(b, {}) && Executable(b, st, a) != map[]
    ensures var run, l := Executable(b, st, a), ListOf(b.pending, a);
      && NonceOf(st, a) <= lo <= VirtualNonce(st, b.virtuals, a)
      && (forall n: nat :: n in run <==> lo <= n <= MaxKey(run)) && (forall n | n in run :: n !in l)
  {
    var q := ListOf(b.queue, a);
    var cur := Current(q, st, a);
    hide *;
    QueuedApart(b, a);
    ExecutableIs(b, st, a);
    CurrentPart(q, st, a);
    RunShape(cur, VirtualNonce(st, b.virtuals, a));
    lo := MinKey(cur);
    Within(Executable(b, st, a), cur, q);
  }

  lemma FilledBack(l: map<nat, Tx>, run: map<nat, Tx>, s: nat, v: nat, lo: nat)
    requires run != map[] && s <= lo <= v && (v > s ==> s in l)
    requires forall n: nat :: n in run <==> lo <= n <= MaxKey(run)
    requires forall n | n in run :: n !in l
    requires l != map[] ==> v == MaxKey(l) + 1
    requires forall n: nat :: n in l + run <==> s <= n < MaxKey(run) + 1
    ensures s <= v && forall n: nat :: n in l <==> s <= n < v
  {
    assert lo in run;
    if l == map[] {
      assert s in l + run;
    } else {
      assert MaxKey(l) in l + run;
    }
  }

  // ---------------------------------------------------------------- promotion fills no gap

  /** If promotion leaves the account gap free, it was gap free before. */
  lemma PromotedBackAt(b: Books, mid: Books, b': Books, st: ChainState, locals: set<Address>, cap: nat, a: Address)
    requires Coherent(b, {}) && RootedAt(b, st, a)
    requires a in b.pending ==> b.pending[a] != map[] && VirtualNonce(st, b.virtuals, a) == MaxKey(b.pending[a]) + 1
    requires SameLists(if a in b.queue then Promoted(b, st, locals, cap, a) else b, mid, st, a) && SameAt(mid, b', st, a)
    requires GapFreeAt(b', st, a)
    ensures GapFreeAt(b, st, a)
  {
    hide *;
    PromotionAt(b, mid, b', st, locals, cap, a);
    var run, l, s, v := Executable(b, st, a), ListOf(b.pending, a), NonceOf(st, a), VirtualNonce(st, b.virtuals, a);
    GapFreeList(b', st, a);
    GapFreeList(b, st, a);
    RootedList(b, st, a);
    if a in b.queue && run != map[] {
      var lo := QueueRun(b, st, a);
      FilledBack(l, run, s, v, lo);
    } else {
      NothingJoined(l);
    }
  }

  lemma RenumberedParts(d: Books, st: ChainState)
    requires NoEmpty(d.pending)
    ensures var b := Renumbered(d);
      && b.pending == d.pending && b.queue == d.queue
      && forall a | a in b.pending :: b.pending[a] != map[] && VirtualNonce(st, b.virtuals, a) == MaxKey(b.pending[a]) + 1
  {
    hide MaxKey;
  }

  lemma PromotedInAt(b: Books, mid: Books, b': Books, st: ChainState, locals: set<Address>, cap: nat, accounts: set<Address>,
                     a: Address)
    requires PromotedIn(b, mid, st, locals, cap, accounts) && b'.pending == mid.pending && b'.virtuals == mid.virtuals
    requires accounts == b.queue.Keys
    ensures SameLists(if a in b.queue then Promoted(b, st, locals, cap, a) else b, mid, st, a) && SameAt(mid, b', st, a)
  {
    hide Promoted, SameLists;
    assert SameLists(if a in accounts then Promoted(b, st, locals, cap, a) else b, mid, st, a);
  }

  lemma RootedGapFree(b: Books, b': Books, st: ChainState, a: Address)
    requires Rooted(b, st) && GapFree(b', st)
    ensures RootedAt(b, st, a) && GapFreeAt(b', st, a)
  {
    hide RootedAt, GapFreeAt;
  }

  lemma AllGapFree(b: Books, st: ChainState)
    requires forall a :: GapFreeAt(b, st, a)
    ensures GapFree(b, st)
  {
    hide GapFreeAt;
  }

  lemma PromotedBack(d: Books, mid: Books, b': Books, st: ChainState, locals: set<Address>, cap: nat)
    requires NoEmpty(d.pending) && Coherent(Renumbered(d), {}) && Rooted(Renumbered(d), st)
    requires PromotedIn(Renumbered(d), mid, st, locals, cap, d.queue.Keys)
    requires b'.pending == mid.pending && b'.virtuals == mid.virtuals && GapFree(b', st)
    ensures GapFree(Renumbered(d), st)
  {
    hide *;
    RenumberedParts(d, st);
    var b := Renumbered(d);
    forall a ensures GapFreeAt(b, st, a) {
      PromotedInAt(b, mid, b', st, locals, cap, d.queue.Keys, a);
      RootedGapFree(b, b', st, a);
      PromotedBackAt(b, mid, b', st, locals, cap, a);
    }
    AllGapFree(b, st);
  }

  // ---------------------------------------------------------------- nothing waits after a reset with room

  lemma IdleList(b: Books, st: ChainState, a: Address)
    ensures IdleAt(b, st, a) <==> RunEnd(ListOf(b.pending, a), NonceOf(st, a)) !in ListOf(b.queue, a)
  {
    hide RunEnd;
  }

  lemma SameListsIs(b: Books, b': Books, st: ChainState, a: Address)
    ensures SameLists(b, b', st, a) <==>
      && ListOf(b'.pending, a) == ListOf(b.pending, a) && ListOf(b'.queue, a) == ListOf(b.queue, a)
      && VirtualNonce(st, b'.virtuals, a) == VirtualNonce(st, b.virtuals, a)
  {
    hide ListOf, VirtualNonce;
  }

  lemma SameIdle(b: Books, b': Books, st: ChainState, a: Address)
    requires SameLists(b, b', st, a)
    ensures IdleAt(b, st, a) <==> IdleAt(b', st, a)
  {
    hide *;
    SameListsIs(b, b', st, a);
    IdleList(b, st, a);
    IdleList(b', st, a);
  }

  /** The promoted run of a torn account is kept whole, and the nonce after it is neither kept nor postponed. */
  lemma TornDemoted(run: map<nat, Tx>, l: map<nat, Tx>, st: ChainState, a: Address, hi: nat)
    requires FiledAt(l + run, a) && NonceOf(st, a) <= hi && l != map[] && hi + 1 < MinKey(l)
    requires forall n: nat :: n in run <==> NonceOf(st, a) <= n <= hi
    requires forall n | n in run :: CanPay(st, run[n])
    ensures var r := l + run;
      && (forall n: nat | NonceOf(st, a) <= n <= hi :: n in Firm(r, st, a))
      && hi + 1 !in Firm(r, st, a) && hi + 1 !in Postponed(r, st, a)
  {
    var r := l + run;
    JoinedRoot(run, l, st, a, hi);
    DemotedParts(r, st, a);
    hide Firm, Postponed, Payables, CanPay, FiledAt;
    forall n: nat | NonceOf(st, a) <= n <= hi ensures n in Firm(r, st, a) {
      assert forall m: nat | m in r && NonceOf(st, a) <= m <= n :: m in run;
      PayablesReach(r, st, a, n);
    }
    assert hi + 1 !in r;
  }

  lemma RunQueued(b: Books, st: ChainState, a: Address)
    requires Executable(b, st, a) != map[]
    ensures a in b.queue
  {
    assert a !in b.queue ==> ListOf(b.queue, a) == map[];
    assert Current(map[], st, a) == map[];
  }

  /** The nonce after a promoted run is not queued after the promotion. */
  lemma AfterRun(b: Books, mid: Books, st: ChainState, locals: set<Address>, cap: nat, a: Address)
    requires Coherent(b, {}) && Executable(b, st, a) != map[]
    requires SameLists(Promoted(b, st, locals, cap, a), mid, st, a)
    ensures MaxKey(Executable(b, st, a)) + 1 !in ListOf(mid.queue, a)
  {
    RunQueued(b, st, a);
    PromotedAt(b, st, locals, cap, a);
    NextNotKept(b, st, locals, cap, a);
    hide Coherent, Promoted, Executable, Retained, MaxKey;
  }

  lemma DemotedQueued(b2: Books, b3: Books, st: ChainState, a: Address)
    requires SameLists(if a in b2.pending then Demoted(b2, st, a) else b2, b3, st, a)
    ensures forall n | n in ListOf(b3.queue, a) :: n in ListOf(b2.queue, a).Keys || n in Postponed(ListOf(b2.pending, a), st, a)
  {
    DemotedQueue(b2, st, a);
    hide Demoted, Postponed;
  }

  /** Promotion only moves from the queue to the pending list. */
  lemma PromotedLists(b: Books, st: ChainState, locals: set<Address>, cap: nat, a: Address)
    requires Coherent(b, {}) && a in b.queue
    ensures var b' := Promoted(b, st, locals, cap, a);
      && (forall n | n in ListOf(b'.queue, a) :: n in ListOf(b.queue, a) && n !in ListOf(b'.pending, a))
      && (forall n | n in ListOf(b.pending, a) :: n in ListOf(b'.pending, a))
      && (forall n | n in ListOf(b'.pending, a) :: n in ListOf(b.pending, a) || n in ListOf(b.queue, a))
  {
    PromotedCoherent(b, st, locals, cap, a);
    QueuedApart(Promoted(b, st, locals, cap, a), a);
    PromotedAt(b, st, locals, cap, a);
    assert Filed(b.queue);
    PartsOf(b, st, locals, cap, a);
    hide Coherent, Promoted, Executable, Retained, Leaving, Current, Filed;
  }

  /** What a torn account could run next is not queued after its second promotion either. */
  lemma TornIdle(b: Books, mid: Books, b2: Books, b3: Books, b4: Books, st: ChainState, locals: set<Address>, cap: nat, a: Address)
    requires Coherent(b, {}) && b.virtuals == map[] && Torn(b, st, a)
    requires SameLists(Promoted(b, st, locals, cap, a), mid, st, a)
    requires SameAt(mid, b2, st, a) && ListOf(b2.queue, a).Keys <= ListOf(mid.queue, a).Keys
    requires SameLists(if a in b2.pending then Demoted(b2, st, a) else b2, b3, st, a)
    requires Coherent(b4, {}) && ListOf(b4.pending, a) == ListOf(b3.pending, a) && ListOf(b4.queue, a) == ListOf(b3.queue, a)
    requires a in b4.queue
    ensures IdleAt(Promoted(b4, st, locals, cap, a), st, a)
  {
    var l, run, s := ListOf(b.pending, a), Executable(b, st, a), NonceOf(st, a);
    hide *;
    TornIs(b, st, a);
    var hi := MaxKey(run);
    FreshIs(b, st, a);
    FreshRun(b, st, a);
    QueueFiled(b);
    AfterRun(b, mid, st, locals, cap, a);
    FreshPromotion(b, mid, st, locals, cap, {a}, a);
    SameAtIs(mid, b2, st, a);
    DemotedTo(b2, b3, st, a);
    DemotedQueued(b2, b3, st, a);
    TornDemoted(run, l, st, a, hi);
    assert hi + 1 !in ListOf(b4.queue, a) && hi + 1 !in ListOf(b4.pending, a);
    PromotedLists(b4, st, locals, cap, a);
    var b' := Promoted(b4, st, locals, cap, a);
    RunEndIs(ListOf(b'.pending, a), s, hi + 1);
    IdleList(b', st, a);
  }

  lemma NoListOf(m: Lists, a: Address)
    requires a !in m
    ensures ListOf(m, a) == map[]
  {
  }

  lemma NoKeys(l: map<nat, Tx>, l': map<nat, Tx>)
    requires l == map[] && l'.Keys <= l.Keys
    ensures forall n :: n !in l'
  {
  }

  /** Nothing the account could run next waits after the reset, torn or not. */
  lemma ResetIdleAt(b: Books, mid: Books, b2: Books, b3: Books, p: Books, b5: Books, st: ChainState, locals: set<Address>,
                    cap: nat, dirty: set<Address>, a: Address)
    requires Coherent(b, {}) && b.virtuals == map[] && Ranged(ListOf(b.pending, a))
    requires SameLists(if a in dirty then Promoted(b, st, locals, cap, a) else b, mid, st, a)
    requires SameAt(mid, b2, st, a) && ListOf(b2.queue, a).Keys <= ListOf(mid.queue, a).Keys
    requires SameLists(if a in b2.pending then Demoted(b2, st, a) else b2, b3, st, a)
    requires NoEmpty(b3.pending) && Coherent(Renumbered(b3), {}) && CleanAt(b3, st, a) && RootedAt(b3, st, a)
    requires SameLists(if a in b3.queue then Promoted(Renumbered(b3), st, locals, cap, a) else Renumbered(b3), p, st, a)
    requires ListOf(b5.pending, a).Keys <= ListOf(p.pending, a).Keys && ListOf(b5.queue, a).Keys <= ListOf(p.queue, a).Keys
    ensures IdleAt(b5, st, a)
  {
    hide *;
    var b4 := Renumbered(b3);
    RenumberedParts(b3, st);
    TornExactly(b, mid, b2, b3, st, locals, cap, dirty, a);
    IdleList(b5, st, a);
    SameListsIs(if a in b3.queue then Promoted(b4, st, locals, cap, a) else b4, p, st, a);
    if a !in b3.queue {
      NoListOf(b3.queue, a);
      NoKeys(ListOf(p.queue, a), ListOf(b5.queue, a));
    } else {
      var b' := Promoted(b4, st, locals, cap, a);
      if a in dirty && Torn(b, st, a) {
        TornIdle(b, mid, b2, b3, b4, st, locals, cap, a);
      } else {
        RenumberedGapFreeAt(b3, st, a);
        PromotedGapFreeAt(b4, st, locals, cap, a);
        GapFreeIdle(b', st, a);
      }
      PromotedLists(b4, st, locals, cap, a);
      CutIdle(b', b5, st, a);
    }
  }

  // ---------------------------------------------------------------- inputs that leave a gap

  function Plain(nonce: nat): Tx {
    Tx(1, nonce, 1, 1, 0, Main, 0)
  }

  function At(nonce: nat): ChainState {
    ChainState(map[1 := nonce], map[1 := 100], 100)
  }

  /** The account's nonces 5 and 6 are pending at state nonce 5, before and after the virtual nonces are forgotten. */
  function FiveAndSix(virtuals: map<Address, nat>): Books {
    Books(map[1 := map[5 := Plain(5), 6 := Plain(6)]], map[],
          map[TxHash(Plain(5)) := Plain(5), TxHash(Plain(6)) := Plain(6)], virtuals)
  }

  lemma OnlyPending(b: Books, a: Address, l: map<nat, Tx>)
    requires b.pending == map[a := l] && b.queue == map[] && FiledAt(l, a) && WellKeyed(b.all)
    requires forall t :: Live(b.all, t) <==> t in Values(l)
    ensures Coherent(b, {})
  {
    forall t ensures Holds(b.pending, t) <==> t in Values(l) {
    }
    hide Values;
  }

  lemma TwoPending(b: Books, t: Tx, u: Tx)
    requires t.from == u.from == 1 && t.nonce != u.nonce && b.pending == map[1 := map[t.nonce := t, u.nonce := u]] && b.queue == map[]
    requires b.all == map[TxHash(t) := t, TxHash(u) := u]
    ensures Coherent(b, {})
  {
    var l := map[t.nonce := t, u.nonce := u];
    assert l[t.nonce] == t && l[u.nonce] == u;
    forall x ensures Live(b.all, x) <==> x in Values(l) {
    }
    OnlyPending(b, 1, l);
  }

  lemma RangeGapFree(b: Books, st: ChainState, l: map<nat, Tx>)
    requires b.pending == map[1 := l] && b.virtuals.Keys == {1} && st.nonces.Keys == {1}
    requires st.nonces[1] <= b.virtuals[1] && forall n: nat :: n in l <==> st.nonces[1] <= n < b.virtuals[1]
    ensures GapFree(b, st)
  {
  }

  lemma GapStart()
    ensures Coherent(FiveAndSix(map[1 := 7]), {}) && GapFree(FiveAndSix(map[1 := 7]), At(5))
    ensures Coherent(FiveAndSix(map[]), {})
  {
    TwoPending(FiveAndSix(map[1 := 7]), Plain(5), Plain(6));
    TwoPending(FiveAndSix(map[]), Plain(5), Plain(6));
    hide Coherent;
    RangeGapFree(FiveAndSix(map[1 := 7]), At(5), map[5 := Plain(5), 6 := Plain(6)]);
  }

  lemma GapInput()
    ensures forall n: nat :: Plain(n).from == 1 && Plain(n).nonce == n && CanPay(At(3), Plain(n))
    ensures NonceOf(At(3), 1) == 3 && FiveAndSix(map[]).virtuals == map[] && FiveAndSix(map[]).queue == map[]
    ensures FiveAndSix(map[]).pending == map[1 := map[5 := Plain(5), 6 := Plain(6)]]
  {
  }

  lemma GapAdded(b: Books, t3: Tx, t5: Tx, t6: Tx)
    requires Coherent(b, {}) && t3.from == 1 && t3.nonce == 3
    requires b.pending == map[1 := map[5 := t5, 6 := t6]] && b.queue == map[]
    ensures var b1 := Enqueued(b, t3);
      && Coherent(b1, {}) && NoEmpty(b1.pending) && NoEmpty(b1.queue) && b1.virtuals == b.virtuals
      && 1 in b1.queue && ListOf(b1.queue, 1) == map[3 := t3] && ListOf(b1.pending, 1) == map[5 := t5, 6 := t6]
  {
    assert 5 in map[5 := t5, 6 := t6];
    EnqueuedCoherent(b, t3);
    hide Coherent;
    assert Enqueued(b, t3).queue == map[1 := map[3 := t3]];
    assert 3 in map[3 := t3];
  }

  lemma NoneOfNone(k: nat)
    ensures Lowest(map[], k) == map[]
  {
  }

  /** A lone queued transaction at or below the virtual nonce is promoted, and nothing stays queued. */
  lemma LoneRun(b: Books, st: ChainState, locals: set<Address>, cap: nat, a: Address, t: Tx)
    requires ListOf(b.queue, a) == map[t.nonce := t] && t.from == a && CanPay(st, t)
    requires NonceOf(st, a) <= t.nonce <= VirtualNonce(st, b.virtuals, a)
    ensures Executable(b, st, a) == map[t.nonce := t] && Executable(b, st, a) != map[] && MaxKey(Executable(b, st, a)) == t.nonce
    ensures Leaving(b, st, locals, cap, a) == map[t.nonce := t]
  {
    var q, v := map[t.nonce := t], VirtualNonce(st, b.virtuals, a);
    ExecutableIs(b, st, a);
    CurrentPart(q, st, a);
    RunShape(Current(q, st, a), v);
    assert FiledAt(q, a);
    assert Current(q, st, a) == q;
    hide Current, ReadyRun, NotReady, CanPay, Executable, VirtualNonce;
    assert t.nonce in q;
    assert ReadyRun(q, v) != map[];
    assert ReadyRun(q, v) == q;
    assert NotReady(q, v) == map[];
    NoneOfNone(cap);
  }

  lemma OneOfOne(t: Tx, k: nat)
    requires k >= 1
    ensures Lowest(map[t.nonce := t], k) == map[t.nonce := t]
  {
    assert |map[t.nonce := t]| == 1 by { assert map[t.nonce := t].Keys == {t.nonce}; }
  }

  /** A lone queued transaction above the virtual nonce is not promoted and stays queued. */
  lemma LoneWaits(b: Books, st: ChainState, locals: set<Address>, cap: nat, a: Address, t: Tx)
    requires ListOf(b.queue, a) == map[t.nonce := t] && t.from == a && CanPay(st, t) && cap >= 1
    requires NonceOf(st, a) <= t.nonce && VirtualNonce(st, b.virtuals, a) < t.nonce
    ensures Executable(b, st, a) == map[] && Leaving(b, st, locals, cap, a) == map[]
  {
    var q, v := map[t.nonce := t], VirtualNonce(st, b.virtuals, a);
    ExecutableIs(b, st, a);
    CurrentPart(q, st, a);
    RunShape(Current(q, st, a), v);
    assert FiledAt(q, a);
    assert Current(q, st, a) == q;
    hide Current, ReadyRun, NotReady, CanPay, Executable, VirtualNonce;
    assert t.nonce in q && forall n | n in q :: n == t.nonce;
    assert ReadyRun(q, v) == map[];
    assert NotReady(q, v) == q;
    OneOfOne(t, cap);
  }

  lemma GapTorn(b: Books, st: ChainState, t3: Tx, t5: Tx, t6: Tx)
    requires Executable(b, st, 1) == map[3 := t3] && ListOf(b.pending, 1) == map[5 := t5, 6 := t6] && CanPay(st, t5)
    ensures Torn(b, st, 1) && MaxKey(map[3 := t3]) == 3
  {
    hide Executable, CanPay;
    var run, l := map[3 := t3], map[5 := t5, 6 := t6];
    assert 3 in run && 5 in l;
    assert MaxKey(run) == 3 && MinKey(l) == 5;
  }

  lemma JoinThree(t3: Tx, t5: Tx, t6: Tx)
    ensures map[5 := t5, 6 := t6] + map[3 := t3] == map[3 := t3, 5 := t5, 6 := t6]
  {
  }

  lemma ThreeOfIt(st: ChainState, t3: Tx, t5: Tx, t6: Tx)
    requires t3.from == t5.from == t6.from == 1 && t3.nonce == 3 && t5.nonce == 5 && t6.nonce == 6
    requires CanPay(st, t3) && CanPay(st, t5) && CanPay(st, t6)
    ensures var l := map[3 := t3, 5 := t5, 6 := t6];
      && 3 in l && 6 in l && 4 !in l && FiledAt(l, 1) && forall n | n in l :: 3 <= n <= 6 && CanPay(st, l[n])
  {
    hide CanPay;
  }

  /** A list that starts at the state nonce and is payable throughout is not demoted at all. */
  lemma AllFirm(l: map<nat, Tx>, st: ChainState, a: Address)
    requires FiledAt(l, a) && NonceOf(st, a) in l && forall n: nat | n in l :: n >= NonceOf(st, a) && CanPay(st, l[n])
    ensures Firm(l, st, a) == l && Postponed(l, st, a) == map[]
  {
    PayablesPart(l, st, a);
    PayablesAre(l, st, a);
    hide Payables, StrandedBehind, CanPay, Firm, FiledAt;
    forall n: nat | n in l ensures n in Payables(l, st, a) {
      PayablesReach(l, st, a, n);
    }
    assert Payables(l, st, a) == l;
    assert StrandedBehind(l, st, a) == map[];
  }

  lemma SameListOf(m: Lists, a: Address)
    ensures a in m ==> ListOf(m, a) == m[a]
  {
  }

  lemma SameRefl(b: Books, st: ChainState, a: Address)
    ensures SameLists(b, b, st, a)
  {
  }

  lemma GapOf(b2: Books, st: ChainState, l: map<nat, Tx>)
    requires 3 in l && 6 in l && 4 !in l && FiledAt(l, 1) && (forall n | n in l :: 3 <= n <= 6 && CanPay(st, l[n]))
    requires ListOf(b2.pending, 1) == l && NoEmpty(b2.pending) && NoEmpty(b2.queue) && NonceOf(st, 1) == 3
    ensures var b3 := Demoted(b2, st, 1);
      && ListOf(b3.pending, 1) == l && NoEmpty(b3.pending) && ListOf(b3.queue, 1) == ListOf(b2.queue, 1)
      && VirtualNonce(st, Renumbered(b3).virtuals, 1) == 7 && !GapFreeAt(Renumbered(b3), st, 1)
  {
    RootedList(b2, st, 1);
    hide *;
    var b3 := Demoted(b2, st, 1);
    AllFirm(l, st, 1);
    DemotedQueue(b2, st, 1);
    NothingJoined(ListOf(b2.queue, 1));
    DemotedTidy(b2, st, 1);
    SameRefl(b3, st, 1);
    DemotedTo(b2, b3, st, 1);
    RootedList(b3, st, 1);
    RenumberedParts(b3, st);
    GapFreeList(Renumbered(b3), st, 1);
    SameListOf(b3.pending, 1);
  }

  lemma GapEnd(b2: Books, st: ChainState, t3: Tx, t5: Tx, t6: Tx)
    requires t3.from == t5.from == t6.from == 1 && t3.nonce == 3 && t5.nonce == 5 && t6.nonce == 6 && NonceOf(st, 1) == 3
    requires CanPay(st, t3) && CanPay(st, t5) && CanPay(st, t6)
    requires ListOf(b2.pending, 1) == map[3 := t3, 5 := t5, 6 := t6] && NoEmpty(b2.pending) && NoEmpty(b2.queue)
    ensures var b3 := Demoted(b2, st, 1);
      && ListOf(b3.pending, 1) == map[3 := t3, 5 := t5, 6 := t6] && NoEmpty(b3.pending)
      && ListOf(b3.queue, 1) == ListOf(b2.queue, 1)
      && VirtualNonce(st, Renumbered(b3).virtuals, 1) == 7 && !GapFreeAt(Renumbered(b3), st, 1)
  {
    ThreeOfIt(st, t3, t5, t6);
    hide *;
    GapOf(b2, st, map[3 := t3, 5 := t5, 6 := t6]);
  }

  lemma AllTaken(l: map<nat, Tx>)
    ensures l - l.Keys == map[]
  {
  }

  lemma SomeOfIt(t3: Tx, t5: Tx, t6: Tx)
    ensures map[3 := t3, 5 := t5, 6 := t6] != map[]
  {
    assert 3 in map[3 := t3, 5 := t5, 6 := t6];
  }

  lemma RenumberedCoherent(b: Books)
    requires Coherent(b, {}) && NoEmpty(b.pending)
    ensures Coherent(Renumbered(b), {})
  {
    ReVirtual(b, Renumbered(b).virtuals, {});
  }

  /** A reorganisation lowers the state nonce to 3 and sets only nonce 3 free: the pending list becomes 3, 5, 6 with
      virtual nonce 7. */
  lemma ReinjectionGap(locals: set<Address>, cap: nat)
    ensures Coherent(FiveAndSix(map[1 := 7]), {}) && GapFree(FiveAndSix(map[1 := 7]), At(5))
    ensures var b1 := Enqueued(FiveAndSix(map[]), Plain(3));
      var b3 := Demoted(Promoted(b1, At(3), locals, cap, 1), At(3), 1);
      && Torn(b1, At(3), 1)
      && ListOf(b3.pending, 1) == map[3 := Plain(3), 5 := Plain(5), 6 := Plain(6)] && NoEmpty(b3.pending)
      && Coherent(Renumbered(b3), {}) && ListOf(b3.queue, 1) == map[]
      && VirtualNonce(At(3), Renumbered(b3).virtuals, 1) == 7 && !GapFreeAt(Renumbered(b3), At(3), 1)
  {
    GapStart();
    GapInput();
    var t3, t5, t6 := Plain(3), Plain(5), Plain(6);
    hide *;
    var b0 := FiveAndSix(map[]);
    GapAdded(b0, t3, t5, t6);
    var b1 := Enqueued(b0, t3);
    FreshIs(b1, At(3), 1);
    LoneRun(b1, At(3), locals, cap, 1, t3);
    GapTorn(b1, At(3), t3, t5, t6);
    PromotedAt(b1, At(3), locals, cap, 1);
    PromotedTidy(b1, At(3), locals, cap, 1);
    JoinThree(t3, t5, t6);
    var b2 := Promoted(b1, At(3), locals, cap, 1);
    GapEnd(b2, At(3), t3, t5, t6);
    AllTaken(map[3 := t3]);
    PromotedCoherent(b1, At(3), locals, cap, 1);
    RootedList(b2, At(3), 1);
    SomeOfIt(t3, t5, t6);
    DemotedCoherent(b2, At(3), 1);
    RenumberedCoherent(Demoted(b2, At(3), 1));
  }

  lemma NothingTaken(l: map<nat, Tx>, none: map<nat, Tx>)
    requires none == map[]
    ensures l - none.Keys == l
  {
  }

  lemma FillsUp(t3: Tx, t4: Tx, t5: Tx, t6: Tx, st: ChainState)
    requires CanPay(st, t3)
    ensures var l := map[3 := t3, 5 := t5, 6 := t6] + map[4 := t4];
      (forall n: nat :: n in l <==> 3 <= n < 7) && l[3] == t3
  {
  }

  lemma ArrivesAlone(b: Books, t: Tx)
    requires ListOf(b.queue, t.from) == map[]
    ensures var b' := Enqueued(b, t);
      && ListOf(b'.queue, t.from) == map[t.nonce := t] && b'.virtuals == b.virtuals && b'.pending == b.pending
      && t.from in b'.queue
  {
    hide Displaced, Hashes, Values;
  }

  lemma WaitingAt(b: Books, st: ChainState, a: Address, l: map<nat, Tx>, t: Tx, v: nat)
    requires ListOf(b.pending, a) == l && ListOf(b.queue, a) == map[t.nonce := t] && VirtualNonce(st, b.virtuals, a) == v
    requires NonceOf(st, a) < t.nonce && (forall n: nat :: n in l <==> NonceOf(st, a) <= n < t.nonce)
    requires v != t.nonce && CanPay(st, l[NonceOf(st, a)])
    ensures SettledAt(b, st, a) && RootedAt(b, st, a) && StartedAt(b, st, a)
    ensures NextNonce(b, st, a) == t.nonce && !IdleAt(b, st, a)
  {
    RunEndIs(l, NonceOf(st, a), t.nonce);
    RootedList(b, st, a);
    assert NonceOf(st, a) in l && t.nonce in ListOf(b.queue, a);
    hide RunEnd, CanPay;
  }

  /** After that gap, nonce 4 arrives: it is promoted and the virtual nonce falls to 5, inside the list. Then nonce 7
      arrives: it could run next, and stays queued. */
  lemma FilledGapWaits(b: Books, locals: set<Address>, cap: nat)
    requires ListOf(b.pending, 1) == map[3 := Plain(3), 5 := Plain(5), 6 := Plain(6)] && ListOf(b.queue, 1) == map[]
    requires VirtualNonce(At(3), b.virtuals, 1) == 7 && cap >= 1
    ensures var b1 := Promoted(Enqueued(b, Plain(4)), At(3), locals, cap, 1);
      var b2 := Promoted(Enqueued(b1, Plain(7)), At(3), locals, cap, 1);
      && ListOf(b2.pending, 1) == map[3 := Plain(3), 5 := Plain(5), 6 := Plain(6)] + map[4 := Plain(4)]
      && ListOf(b2.queue, 1) == map[7 := Plain(7)] && VirtualNonce(At(3), b2.virtuals, 1) == 5
      && SettledAt(b2, At(3), 1) && RootedAt(b2, At(3), 1) && StartedAt(b2, At(3), 1)
      && NextNonce(b2, At(3), 1) == 7 && !IdleAt(b2, At(3), 1)
  {
    GapInput();
    var l, t4, t7, st := map[3 := Plain(3), 5 := Plain(5), 6 := Plain(6)], Plain(4), Plain(7), At(3);
    FillsUp(Plain(3), t4, Plain(5), Plain(6), st);
    hide *;
    var b1 := Promoted(Enqueued(b, t4), st, locals, cap, 1);
    ArrivesAlone(b, t4);
    LoneRun(Enqueued(b, t4), st, locals, cap, 1, t4);
    PromotedAt(Enqueued(b, t4), st, locals, cap, 1);
    AllTaken(map[4 := t4]);
    ArrivesAlone(b1, t7);
    LoneWaits(Enqueued(b1, t7), st, locals, cap, 1, t7);
    PromotedAt(Enqueued(b1, t7), st, locals, cap, 1);
    NothingTaken(map[7 := t7], Leaving(Enqueued(b1, t7), st, locals, cap, 1));
    NothingJoined(l + map[4 := t4]);
    WaitingAt(Promoted(Enqueued(b1, t7), st, locals, cap, 1), st, 1, l + map[4 := t4], t7, 5);
  }

  /** The reorganisation of `ReinjectionGap`, and then nonces 4 and 7. */
  lemma ReinjectionWaits(locals: set<Address>, cap: nat)
    requires cap >= 1
    ensures var b3 := Demoted(Promoted(Enqueued(FiveAndSix(map[]), Plain(3)), At(3), locals, cap, 1), At(3), 1);
      NoEmpty(b3.pending) &&
      var b4 := Promoted(Enqueued(Renumbered(b3), Plain(4)), At(3), locals, cap, 1);
      var b5 := Promoted(Enqueued(b4, Plain(7)), At(3), locals, cap, 1);
      SettledAt(b5, At(3), 1) && !IdleAt(b5, At(3), 1)
  {
    hide *;
    ReinjectionGap(locals, cap);
    var b3 := Demoted(Promoted(Enqueued(FiveAndSix(map[]), Plain(3)), At(3), locals, cap, 1), At(3), 1);
    RenumberedParts(b3, At(3));
    FilledGapWaits(Renumbered(b3), locals, cap);
  }

  lemma LonePending(b: Books, t: Tx)
    requires t.from == 1 && b.pending == map[1 := map[t.nonce := t]] && b.queue == map[] && b.all == map[TxHash(t) := t]
    ensures Coherent(b, {})
  {
    var l := map[t.nonce := t];
    assert l[t.nonce] == t;
    OnlyPending(b, 1, l);
  }

  lemma LoneDropped(b: Books, st: ChainState, t: Tx)
    requires b.pending == map[t.from := map[t.nonce := t]] && b.queue == map[] && b.virtuals == map[] && Live(b.all, t)
    requires t.nonce < NonceOf(st, t.from)
    ensures var b' := Removed(b, st, t);
      && b'.pending == map[] && b'.queue == map[] && VirtualNonce(st, b'.virtuals, t.from) == t.nonce
      && !CaughtUpAt(b', st, t.from) && !GapFreeAt(b', st, t.from)
  {
    var l := map[t.nonce := t];
    assert From(l, t.nonce) == l && From(l, t.nonce + 1) == map[];
    AllTaken(l);
    hide From, NonceOf, Hashes;
    assert Slot(b.pending, t.from, t.nonce);
    assert Take(b.pending, t.from, l)[t.from] == map[];
  }

  /** A pool that is full while transactions are reinjected may drop a pending transaction the new state has already
      passed; its sender's virtual nonce then falls behind the state nonce. */
  lemma DroppedBehind()
    ensures var b0 := Books(map[1 := map[0 := Plain(0)]], map[], map[TxHash(Plain(0)) := Plain(0)], map[1 := 1]);
      var b1 := Removed(b0.(virtuals := map[]), At(1), Plain(0));
      && Coherent(b0, {}) && GapFree(b0, At(0))
      && b1.pending == map[] && b1.queue == map[] && VirtualNonce(At(1), b1.virtuals, 1) == 0 && !CaughtUpAt(b1, At(1), 1) && !GapFreeAt(b1, At(1), 1)
  {
    var b0 := Books(map[1 := map[0 := Plain(0)]], map[], map[TxHash(Plain(0)) := Plain(0)], map[1 := 1]);
    LonePending(b0, Plain(0));
    RangeGapFree(b0, At(0), map[0 := Plain(0)]);
    hide Coherent, GapFree, Removed;
    LoneDropped(b0.(virtuals := map[]), At(1), Plain(0));
  }

  lemma BehindInput()
    ensures Plain(1).from == 1 && Plain(1).nonce == 1 && CanPay(At(1), Plain(1)) && NonceOf(At(1), 1) == 1
  {
  }

  lemma StuckAt(b: Books, st: ChainState, a: Address, t: Tx)
    requires ListOf(b.pending, a) == map[] && ListOf(b.queue, a) == map[t.nonce := t] && t.nonce == NonceOf(st, a)
    requires VirtualNonce(st, b.virtuals, a) != t.nonce
    ensures SettledAt(b, st, a) && NextNonce(b, st, a) == t.nonce && !IdleAt(b, st, a)
  {
    RunEndIs(ListOf(b.pending, a), NonceOf(st, a), t.nonce);
    assert t.nonce in ListOf(b.queue, a);
    hide RunEnd;
  }

  /** Then a transaction at the state nonce, which could run next, is never promoted. */
  lemma BehindWaits(b: Books, locals: set<Address>, cap: nat)
    requires ListOf(b.pending, 1) == map[] && ListOf(b.queue, 1) == map[] && VirtualNonce(At(1), b.virtuals, 1) == 0 && cap >= 1
    ensures var b' := Promoted(Enqueued(b, Plain(1)), At(1), locals, cap, 1);
      && ListOf(b'.queue, 1) == map[1 := Plain(1)] && ListOf(b'.pending, 1) == map[]
      && SettledAt(b', At(1), 1) && NextNonce(b', At(1), 1) == 1 && !IdleAt(b', At(1), 1)
  {
    BehindInput();
    var t, st := Plain(1), At(1);
    hide *;
    ArrivesAlone(b, t);
    LoneWaits(Enqueued(b, t), st, locals, cap, 1, t);
    PromotedAt(Enqueued(b, t), st, locals, cap, 1);
    NothingTaken(map[1 := t], Leaving(Enqueued(b, t), st, locals, cap, 1));
    NothingJoined(map[]);
    StuckAt(Promoted(Enqueued(b, t), st, locals, cap, 1), st, 1, t);
  }

  lemma AllStale(l: map<nat, Tx>, st: ChainState, a: Address)
    requires forall n | n in l :: n < NonceOf(st, a)
    ensures Firm(l, st, a) == map[]
  {
    assert From(l, NonceOf(st, a)) == map[];
  }

  lemma CutStale(b: Books, b': Books, st: ChainState, l: map<nat, Tx>)
    requires b.virtuals == map[] && l.Keys == {0, 1, 2} && b'.pending == b.pending[1 := l - {2}] && NonceOf(st, 1) == 3
    requires VirtualNonce(st, b'.virtuals, 1) == 2
    ensures ListOf(b'.pending, 1).Keys == {0, 1}
    ensures ListOf(Demoted(b', st, 1).pending, 1) == map[] && !CaughtUpAt(Demoted(b', st, 1), st, 1)
  {
    var rest := l - {2};
    assert 0 in rest && ListOf(b'.pending, 1) == rest && rest.Keys == {0, 1};
    SameRefl(Demoted(b', st, 1), st, 1);
    DemotedTo(b', Demoted(b', st, 1), st, 1);
    AllStale(rest, st, 1);
    hide Firm, Postponed;
    NothingTaken(rest, Firm(rest, st, 1));
    AllTaken(rest);
  }

  /** The cut to the slots leaves an account behind in the same way: nonces 0, 1, 2 are pending, the state nonce is 3 and
      one transaction is cut. */
  lemma CutBehind(l: map<nat, Tx>)
    requires 0 in l && 1 in l && 2 in l && forall n | n in l :: n <= 2
    ensures var b := Books(map[1 := l], map[], map[], map[]);
      var b' := CutTop(b, At(3), 1);
      && ListOf(b'.pending, 1).Keys == {0, 1} && VirtualNonce(At(3), b'.virtuals, 1) == 2
      && ListOf(Demoted(b', At(3), 1).pending, 1) == map[] && !CaughtUpAt(Demoted(b', At(3), 1), At(3), 1)
  {
    var b, st := Books(map[1 := l], map[], map[], map[]), At(3);
    assert l.Keys == {0, 1, 2} && NonceOf(st, 1) == 3 && MaxKey(l) == 2 && b.pending[1] == l;
    FreshIs(b, st, 1);
    hide *;
    CutTopIs(b, st, 1);
    CutTopOthers(b, st, 1);
    CutStale(b, CutTop(b, st, 1), st, l);
  }
}
