/** Promotion of one account's executable transactions from the queue to the pending list, and the
    cleaning of its queue on the way (core/tx_pool.go, the account loop of promoteExecutables). */
module PoolPromotion {
  import opened Transactions
  import opened SortedMap
  import opened TxLists
  import opened PricedLists
  import opened PoolBooks
  import opened PoolSteps

  /** What of a queued list is neither too old nor unpayable. */
  function Current(l: map<nat, Tx>, st: ChainState, a: Address): map<nat, Tx> {
    Payable(From(l, NonceOf(st, a)), BalanceOf(st, a), st.gasLimit)
  }

  /** The run that gets promoted. */
  function Executable(b: Books, st: ChainState, a: Address): map<nat, Tx> {
    ReadyRun(Current(ListOf(b.queue, a), st, a), VirtualNonce(st, b.virtuals, a))
  }

  function Waiting(b: Books, st: ChainState, a: Address): map<nat, Tx> {
    NotReady(Current(ListOf(b.queue, a), st, a), VirtualNonce(st, b.virtuals, a))
  }

  /** What stays queued: a remote sender keeps at most `cap` transactions. */
  function Retained(b: Books, st: ChainState, locals: set<Address>, cap: nat, a: Address): map<nat, Tx> {
    if a in locals then Waiting(b, st, a) else Lowest(Waiting(b, st, a), cap)
  }

  /** Everything that leaves the queue. */
  function Leaving(b: Books, st: ChainState, locals: set<Address>, cap: nat, a: Address): map<nat, Tx> {
    ListOf(b.queue, a) - Retained(b, st, locals, cap, a).Keys
  }

  /** What leaves the pool altogether. */
  function Lost(b: Books, st: ChainState, locals: set<Address>, cap: nat, a: Address): map<nat, Tx> {
    Leaving(b, st, locals, cap, a) - Executable(b, st, a).Keys
  }

  function RaisedVirtuals(virtuals: map<Address, nat>, a: Address, run: map<nat, Tx>): map<Address, nat> {
    if run == map[] then virtuals else virtuals[a := MaxKey(run) + 1]
  }

  function Promoted(b: Books, st: ChainState, locals: set<Address>, cap: nat, a: Address): Books {
    if a !in b.queue then b
    else
      var run := Executable(b, st, a);
      Books(Put(b.pending, a, run),
            Tidy(Take(b.queue, a, Leaving(b, st, locals, cap, a)), a),
            b.all - Hashes(Values(Lost(b, st, locals, cap, a))),
            RaisedVirtuals(b.virtuals, a, run))
  }

  // ---------------------------------------------------------------- the parts of a queued list

  lemma CurrentPart(l: map<nat, Tx>, st: ChainState, a: Address)
    requires FiledAt(l, a)
    ensures forall n: nat :: n in Current(l, st, a) <==> n in l && n >= NonceOf(st, a) && CanPay(st, l[n])
    ensures PartOf(Current(l, st, a), l)
  {
    var recent := From(l, NonceOf(st, a));
    forall n: nat ensures n in Current(l, st, a) <==> n in recent && CanPay(st, l[n]) {
      if n in recent { assert n in Unpayable(recent, BalanceOf(st, a), st.gasLimit) <==> !CanPay(st, l[n]); }
    }
  }

  /** A run is a consecutive stretch of the map that starts at its lowest nonce, at or below `start`. */
  lemma RunShape(m: map<nat, Tx>, start: nat)
    ensures PartOf(ReadyRun(m, start), m) && PartOf(NotReady(m, start), m)
    ensures forall n: nat :: n in NotReady(m, start) <==> n in m && n !in ReadyRun(m, start)
    ensures ReadyRun(m, start) == map[] ==> forall n | n in m :: n > start
    ensures ReadyRun(m, start) != map[] ==>
              && m != map[] && MinKey(m) <= start && MinKey(m) <= MaxKey(ReadyRun(m, start))
              && MaxKey(ReadyRun(m, start)) + 1 !in m
              && forall n: nat :: n in ReadyRun(m, start) <==> MinKey(m) <= n <= MaxKey(ReadyRun(m, start))
  {
    hide MinKey, MaxKey, RunEnd;
    var run := ReadyRun(m, start);
    if m != map[] && MinKey(m) <= start {
      var lo, end := MinKey(m), RunEnd(m, MinKey(m));
      assert end != lo;
      assert forall n: nat :: n in run <==> lo <= n < end;
      assert lo in run && end - 1 in run;
      assert MaxKey(run) == end - 1;
    }
  }

  /** The parts into which promotion divides the account's queue. */
  lemma PartsOf(b: Books, st: ChainState, locals: set<Address>, cap: nat, a: Address)
    requires Filed(b.queue)
    ensures var l, run, kept := ListOf(b.queue, a), Executable(b, st, a), Retained(b, st, locals, cap, a);
            && PartOf(Current(l, st, a), l) && PartOf(run, Current(l, st, a)) && PartOf(kept, Current(l, st, a))
            && (forall n | n in kept :: n !in run)
            && (a in locals ==> forall n | n in Current(l, st, a) :: n in run || n in kept)
  {
    var l := ListOf(b.queue, a);
    CurrentPart(l, st, a);
    RunShape(Current(l, st, a), VirtualNonce(st, b.virtuals, a));
    hide Current, ReadyRun, NotReady, Lowest, Filed, FiledAt;
  }

  lemma Leavers(b: Books, st: ChainState, locals: set<Address>, cap: nat, a: Address)
    requires Filed(b.queue)
    ensures var l := ListOf(b.queue, a);
            var run, gone, lost := Executable(b, st, a), Leaving(b, st, locals, cap, a), Lost(b, st, locals, cap, a);
            && PartOf(gone, l) && PartOf(run, gone) && PartOf(lost, gone) && FiledAt(run, a)
            && {} + Values(gone) == Values(gone) && Values(lost) <= Values(gone)
            && Values(gone) - Values(lost) == Values(run) && Values(run) - Values(run) == {}
  {
    PartsOf(b, st, locals, cap, a);
    var l := ListOf(b.queue, a);
    assert FiledAt(l, a);
    hide Executable, Retained, Current, Filed;
    ValuesSplit(Leaving(b, st, locals, cap, a), Executable(b, st, a), a);
  }

  // ---------------------------------------------------------------- coherence

  lemma PromotedCoherent(b: Books, st: ChainState, locals: set<Address>, cap: nat, a: Address)
    requires Coherent(b, {}) && a in b.queue
    ensures Coherent(Promoted(b, st, locals, cap, a), {})
  {
    Leavers(b, st, locals, cap, a);
    var run, gone, lost := Executable(b, st, a), Leaving(b, st, locals, cap, a), Lost(b, st, locals, cap, a);
    hide *;
    PromotedIs(b, st, locals, cap, a);
    TakeQueued(b, {}, a, gone);
    var b1 := b.(queue := Take(b.queue, a, gone));
    Forget(b1, Values(gone), Values(lost));
    var b2 := b1.(all := b1.all - Hashes(Values(lost)));
    PutPending(b2, Values(run), a, run);
    var b3 := b2.(pending := Put(b2.pending, a, run));
    TidyQueued(b3, {}, a);
    ReVirtual(b3.(queue := Tidy(b3.queue, a)), Promoted(b, st, locals, cap, a).virtuals, {});
  }

  lemma PromotedIs(b: Books, st: ChainState, locals: set<Address>, cap: nat, a: Address)
    requires a in b.queue
    ensures Promoted(b, st, locals, cap, a) ==
              Books(Put(b.pending, a, Executable(b, st, a)),
                    Tidy(Take(b.queue, a, Leaving(b, st, locals, cap, a)), a),
                    b.all - Hashes(Values(Lost(b, st, locals, cap, a))),
                    RaisedVirtuals(b.virtuals, a, Executable(b, st, a)))
  {
  }

  /** Where promotion leaves every nonce. */
  lemma PromotedSlots(b: Books, st: ChainState, locals: set<Address>, cap: nat, a: Address)
    requires Coherent(b, {}) && a in b.queue
    ensures var b', run, kept := Promoted(b, st, locals, cap, a), Executable(b, st, a), Retained(b, st, locals, cap, a);
            && (forall x, n :: Slot(b'.pending, x, n) <==> Slot(b.pending, x, n) || (x == a && n in run))
            && (forall x, n :: Slot(b'.queue, x, n) <==> if x == a then n in kept else Slot(b.queue, x, n))
            && (forall t :: Holds(b.pending, t) ==> Holds(b'.pending, t))
            && (forall n | n in run :: !Slot(b.pending, a, n) && b'.pending[a][n] == run[n])
  {
    var l, run, kept := b.queue[a], Executable(b, st, a), Retained(b, st, locals, cap, a);
    var gone := Leaving(b, st, locals, cap, a);
    Leavers(b, st, locals, cap, a);
    PartsOf(b, st, locals, cap, a);
    forall n | n in run ensures !Slot(b.pending, a, n) {
      assert Slot(b.queue, a, n);
    }
    hide Coherent, Executable, Retained, Current, Values;
    PromotedIs(b, st, locals, cap, a);
    hide Promoted;
    PutSlots(b.pending, a, run);
    TakeSlots(b.queue, a, gone);
    TidySlots(Take(b.queue, a, gone), a);
    hide Tidy, Take;
  }

  // ---------------------------------------------------------------- what promotion keeps

  lemma PromotedVirtual(b: Books, st: ChainState, locals: set<Address>, cap: nat, a: Address)
    requires a in b.queue
    ensures var b', run := Promoted(b, st, locals, cap, a), Executable(b, st, a);
            forall x :: VirtualNonce(st, b'.virtuals, x) ==
              if x == a && run != map[] then MaxKey(run) + 1 else VirtualNonce(st, b.virtuals, x)
  {
    hide Executable, MaxKey;
  }

  /** What the promoted run looks like next to the pending list it joins. */
  ghost predicate JoinsAt(b: Books, b': Books, st: ChainState, a: Address, run: map<nat, Tx>, lo: nat) {
    var v, v' := VirtualNonce(st, b.virtuals, a), VirtualNonce(st, b'.virtuals, a);
    && (forall n | n in run :: n >= NonceOf(st, a) && CanPay(st, run[n]) && !Slot(b.pending, a, n))
    && (run == map[] ==> v' == v)
    && (run != map[] ==> lo <= v && lo < v' && IsRange(run, lo, v'))
  }

  ghost predicate IsRange(run: map<nat, Tx>, lo: nat, end: nat) {
    forall n: nat :: n in run <==> lo <= n < end
  }

  lemma ExecutableFacts(b: Books, st: ChainState, a: Address)
    requires Coherent(b, {}) && a in b.queue
    ensures forall n | n in Executable(b, st, a) ::
              n >= NonceOf(st, a) && CanPay(st, Executable(b, st, a)[n]) && !Slot(b.pending, a, n)
  {
    var l := b.queue[a];
    assert FiledAt(l, a);
    CurrentPart(l, st, a);
    RunShape(Current(l, st, a), VirtualNonce(st, b.virtuals, a));
    hide Current, ReadyRun;
    forall n | n in Executable(b, st, a) ensures !Slot(b.pending, a, n) {
      assert Slot(b.queue, a, n);
    }
  }

  /** Nothing left in the queue can follow the promoted run. */
  lemma PromotedSettles(b: Books, st: ChainState, locals: set<Address>, cap: nat, a: Address)
    requires Coherent(b, {}) && a in b.queue
    ensures SettledAt(Promoted(b, st, locals, cap, a), st, a)
  {
    hide Coherent, Promoted, Retained, Executable;
    PromotedSlots(b, st, locals, cap, a);
    PromotedVirtual(b, st, locals, cap, a);
    NextNotKept(b, st, locals, cap, a);
  }

  lemma NextNotKept(b: Books, st: ChainState, locals: set<Address>, cap: nat, a: Address)
    requires Coherent(b, {}) && a in b.queue
    ensures var run, kept := Executable(b, st, a), Retained(b, st, locals, cap, a);
            (if run != map[] then MaxKey(run) + 1 else VirtualNonce(st, b.virtuals, a)) !in kept
  {
    hide MinKey, MaxKey, Retained, Current, ReadyRun, Coherent;
    QueueFiled(b);
    PartsOf(b, st, locals, cap, a);
    RunShape(Current(b.queue[a], st, a), VirtualNonce(st, b.virtuals, a));
  }

  lemma QueueFiled(b: Books)
    requires Coherent(b, {})
    ensures Filed(b.queue)
  {
  }

  lemma ExecutableRange(b: Books, st: ChainState, a: Address) returns (lo: nat)
    ensures var run := Executable(b, st, a);
            run != map[] ==> lo <= VirtualNonce(st, b.virtuals, a) && lo <= MaxKey(run) && IsRange(run, lo, MaxKey(run) + 1)
  {
    var m := Current(ListOf(b.queue, a), st, a);
    hide MinKey, MaxKey;
    RunShape(m, VirtualNonce(st, b.virtuals, a));
    hide Current, ReadyRun;
    lo := if m == map[] then 0 else MinKey(m);
  }

  lemma PromotedJoins(b: Books, st: ChainState, locals: set<Address>, cap: nat, a: Address) returns (lo: nat)
    requires Coherent(b, {}) && a in b.queue
    ensures JoinsAt(b, Promoted(b, st, locals, cap, a), st, a, Executable(b, st, a), lo)
  {
    ExecutableFacts(b, st, a);
    hide Executable, Promoted, IsRange, Coherent, Slot, MaxKey;
    PromotedVirtual(b, st, locals, cap, a);
    lo := ExecutableRange(b, st, a);
  }

  lemma PromotedKeepsAt(b: Books, b': Books, st: ChainState, a: Address, run: map<nat, Tx>, lo: nat)
    requires JoinsAt(b, b', st, a, run, lo)
    requires forall n: nat :: Slot(b'.pending, a, n) <==> Slot(b.pending, a, n) || n in run
    requires forall n: nat :: Slot(b.pending, a, n) ==> Slot(b'.pending, a, n) && b'.pending[a][n] == b.pending[a][n]
    requires forall n: nat | n in run :: Slot(b'.pending, a, n) && b'.pending[a][n] == run[n]
    ensures GapFreeAt(b, st, a) ==> GapFreeAt(b', st, a)
    ensures RootedAt(b, st, a) ==> RootedAt(b', st, a)
    ensures RootedAt(b, st, a) && StartedAt(b, st, a) ==> StartedAt(b', st, a)
  {
    if run != map[] {
      assert lo in run;
    }
  }

  /** A gap-free account is gap free and settled after its promotion. */
  lemma PromotedGapFreeAt(b: Books, st: ChainState, locals: set<Address>, cap: nat, a: Address)
    requires Coherent(b, {}) && a in b.queue && GapFreeAt(b, st, a)
    ensures GapFreeAt(Promoted(b, st, locals, cap, a), st, a) && SettledAt(Promoted(b, st, locals, cap, a), st, a)
  {
    var b', run := Promoted(b, st, locals, cap, a), Executable(b, st, a);
    PromotedSlots(b, st, locals, cap, a);
    var lo := PromotedJoins(b, st, locals, cap, a);
    PromotedSettles(b, st, locals, cap, a);
    assert Filed(b.pending);
    hide Coherent, Promoted, Executable, Retained, JoinsAt, Filed, Holds;
    SameHeld(b, b', a);
    PromotedKeepsAt(b, b', st, a, run, lo);
  }

  lemma PromotedKeeps(b: Books, st: ChainState, locals: set<Address>, cap: nat, a: Address)
    requires Coherent(b, {}) && a in b.queue
    ensures KeepsOrder(b, Promoted(b, st, locals, cap, a), st)
    ensures StaySettled(b, Promoted(b, st, locals, cap, a), st, {})
    ensures SettledAt(Promoted(b, st, locals, cap, a), st, a)
  {
    var b', run := Promoted(b, st, locals, cap, a), Executable(b, st, a);
    PromotedSlots(b, st, locals, cap, a);
    PromotedElsewhere(b, st, locals, cap, a);
    var lo := PromotedJoins(b, st, locals, cap, a);
    PromotedSettles(b, st, locals, cap, a);
    assert Filed(b.pending);
    hide Coherent, Promoted, Executable, Retained, JoinsAt, Filed, Holds, SameAt;
    SameHeld(b, b', a);
    PromotedKeepsAt(b, b', st, a, run, lo);
    OrderFrom(b, b', st, a);
  }

  lemma PromotedElsewhere(b: Books, st: ChainState, locals: set<Address>, cap: nat, a: Address)
    requires a in b.queue
    ensures forall x | x != a ::
              && SameAt(b, Promoted(b, st, locals, cap, a), st, x)
              && ListOf(Promoted(b, st, locals, cap, a).queue, x) == ListOf(b.queue, x)
              && (SettledAt(b, st, x) ==> SettledAt(Promoted(b, st, locals, cap, a), st, x))
  {
    hide Executable, Leaving, Lost;
  }

  lemma SameHeld(b: Books, b': Books, x: Address)
    requires Filed(b.pending) && forall t :: Holds(b.pending, t) ==> Holds(b'.pending, t)
    ensures forall n :: Slot(b.pending, x, n) ==> Slot(b'.pending, x, n) && b'.pending[x][n] == b.pending[x][n]
  {
    forall n | Slot(b.pending, x, n) ensures Slot(b'.pending, x, n) && b'.pending[x][n] == b.pending[x][n] {
      assert Holds(b.pending, b.pending[x][n]);
    }
  }

  lemma PromotedTidy(b: Books, st: ChainState, locals: set<Address>, cap: nat, a: Address)
    requires NoEmpty(b.pending) && NoEmpty(b.queue)
    ensures NoEmpty(Promoted(b, st, locals, cap, a).pending) && NoEmpty(Promoted(b, st, locals, cap, a).queue)
  {
    hide Executable, Leaving, Lost, RaisedVirtuals;
  }

  /** Promotion admits nothing, drops a local sender's transactions only for being too old or
      unpayable, and leaves a remote sender at most `cap` queued transactions. */
  lemma PromotedLoss(b: Books, st: ChainState, locals: set<Address>, cap: nat, a: Address)
    requires Coherent(b, {}) && a in b.queue
    ensures LocalsKept(b, Promoted(b, st, locals, cap, a), st, locals)
    ensures NothingNew(b, Promoted(b, st, locals, cap, a))
    ensures a !in locals ==> |ListOf(Promoted(b, st, locals, cap, a).queue, a)| <= cap
  {
    var b', l, lost := Promoted(b, st, locals, cap, a), b.queue[a], Lost(b, st, locals, cap, a);
    PromotedIs(b, st, locals, cap, a);
    PartsOf(b, st, locals, cap, a);
    assert FiledAt(l, a);
    CurrentPart(l, st, a);
    KeptCount(b, st, locals, cap, a);
    hide Coherent, Promoted, Executable, Current, Waiting;
    forall t | Live(b.all, t) && !Live(b'.all, t) && t.from in locals
      ensures t.nonce < NonceOf(st, t.from) || !CanPay(st, t)
    {
      assert TxHash(t) in Hashes(Values(lost));
      var n :| n in lost && lost[n] == t;
    }
  }

  lemma KeptCount(b: Books, st: ChainState, locals: set<Address>, cap: nat, a: Address)
    requires Coherent(b, {}) && a in b.queue
    ensures a !in locals ==> |ListOf(Promoted(b, st, locals, cap, a).queue, a)| <= cap
  {
    hide *;
    PromotedIs(b, st, locals, cap, a);
    TakeTidyList(b.queue, a, Leaving(b, st, locals, cap, a));
    QueueFiled(b);
    KeptIs(b, st, locals, cap, a);
  }

  lemma KeptIs(b: Books, st: ChainState, locals: set<Address>, cap: nat, a: Address)
    requires Filed(b.queue) && a in b.queue
    ensures ListOf(b.queue, a) - Leaving(b, st, locals, cap, a).Keys == Retained(b, st, locals, cap, a)
    ensures a !in locals ==> |Retained(b, st, locals, cap, a)| <= cap
  {
    hide Current, Executable, Waiting, Lowest, Filed;
    PartsOf(b, st, locals, cap, a);
    CutBack(b.queue[a], Retained(b, st, locals, cap, a));
  }

  lemma CutBack(l: map<nat, Tx>, kept: map<nat, Tx>)
    requires PartOf(kept, l)
    ensures l - (l - kept.Keys).Keys == kept
  {
  }

  lemma TakeTidyList(m: Lists, a: Address, gone: map<nat, Tx>)
    ensures ListOf(Tidy(Take(m, a, gone), a), a) == ListOf(m, a) - gone.Keys
  {
  }

  // ---------------------------------------------------------------- the cleaning steps

  /** What the cap on a remote sender's queue drops. */
  ghost function Over(b: Books, st: ChainState, locals: set<Address>, cap: nat, a: Address): map<nat, Tx> {
    if a in locals then map[] else Excess(Waiting(b, st, a), cap)
  }

  /** What promotion loses is what the three cleaning steps drop. */
  lemma LostParts(b: Books, st: ChainState, locals: set<Address>, cap: nat, a: Address)
    requires Filed(b.queue) && a in b.queue
    ensures var l := b.queue[a];
            var cur := From(l, NonceOf(st, a));
            Values(Lost(b, st, locals, cap, a)) ==
              Values(Below(l, NonceOf(st, a))) + Values(Unpayable(cur, BalanceOf(st, a), st.gasLimit))
              + Values(Over(b, st, locals, cap, a))
  {
    var l := b.queue[a];
    var past, cur := Below(l, NonceOf(st, a)), From(l, NonceOf(st, a));
    var bad, over, lost := Unpayable(cur, BalanceOf(st, a), st.gasLimit), Over(b, st, locals, cap, a), Lost(b, st,
                                     locals, cap, a);
    LostKeys(b, st, locals, cap, a);
    assert FiledAt(l, a);
    hide Over, Lost, Unpayable, Below, From, Filed;
    ThreeParts(lost, past, bad, over);
  }

  lemma LostKeys(b: Books, st: ChainState, locals: set<Address>, cap: nat, a: Address)
    requires Filed(b.queue) && a in b.queue
    ensures var l := b.queue[a];
            var past, cur := Below(l, NonceOf(st, a)), From(l, NonceOf(st, a));
            var bad, over, lost := Unpayable(cur, BalanceOf(st, a), st.gasLimit), Over(b, st, locals, cap, a),
                                             Lost(b, st, locals, cap, a);
            && PartOf(past, lost) && PartOf(bad, lost) && PartOf(over, lost)
            && forall n: nat :: n in lost <==> n in past || n in bad || n in over
  {
    var l := b.queue[a];
    var m, run, kept := Current(l, st, a), Executable(b, st, a), Retained(b, st, locals, cap, a);
    var past, cur := Below(l, NonceOf(st, a)), From(l, NonceOf(st, a));
    var bad := Unpayable(cur, BalanceOf(st, a), st.gasLimit);
    assert FiledAt(l, a) && PartOf(past, l) && forall n: nat :: n in past <==> n in l && n < NonceOf(st, a);
    hide *;
    PartsOf(b, st, locals, cap, a);
    OverKeys(b, st, locals, cap, a);
    BadKeys(l, st, a);
    LostAt(b, st, locals, cap, a);
    Divide(l, m, run, kept, past, bad, Over(b, st, locals, cap, a), Lost(b, st, locals, cap, a), NonceOf(st, a));
  }

  /** The queue divides into past, unpayable, promoted, retained and excess transactions. */
  lemma Divide(l: map<nat, Tx>, m: map<nat, Tx>, run: map<nat, Tx>, kept: map<nat, Tx>,
               past: map<nat, Tx>, bad: map<nat, Tx>, over: map<nat, Tx>, lost: map<nat, Tx>, nonce: nat)
    requires PartOf(m, l) && PartOf(run, m) && PartOf(kept, m) && PartOf(over, m)
    requires PartOf(lost, l) && PartOf(past, l) && PartOf(bad, l)
    requires forall n: nat :: n in lost <==> n in l && n !in kept && n !in run
    requires forall n: nat :: n in over <==> n in m && n !in run && n !in kept
    requires forall n: nat :: n in past <==> n in l && n < nonce
    requires forall n: nat :: n in bad <==> n in l && n >= nonce && n !in m
    requires forall n: nat | n in m :: n >= nonce
    ensures PartOf(past, lost) && PartOf(bad, lost) && PartOf(over, lost)
    ensures forall n: nat :: n in lost <==> n in past || n in bad || n in over
  {
  }

  lemma BadKeys(l: map<nat, Tx>, st: ChainState, a: Address)
    requires FiledAt(l, a)
    ensures var m, bad := Current(l, st, a), Unpayable(From(l, NonceOf(st, a)), BalanceOf(st, a), st.gasLimit);
            && PartOf(bad, l)
            && (forall n: nat :: n in bad <==> n in l && n >= NonceOf(st, a) && n !in m)
            && (forall n: nat | n in m :: n >= NonceOf(st, a))
  {
    CurrentPart(l, st, a);
    UnpayableKeys(l, st, a);
    hide Current, Unpayable;
  }

  lemma LostAt(b: Books, st: ChainState, locals: set<Address>, cap: nat, a: Address)
    requires a in b.queue
    ensures var l, lost := b.queue[a], Lost(b, st, locals, cap, a);
            && PartOf(lost, l)
            && forall n: nat :: n in lost <==> n in l && n !in Retained(b, st, locals, cap, a) && n !in Executable(b, st, a)
  {
    hide Executable, Retained;
  }

  lemma OverKeys(b: Books, st: ChainState, locals: set<Address>, cap: nat, a: Address)
    requires Filed(b.queue) && a in b.queue
    ensures var m := Current(b.queue[a], st, a);
            && PartOf(Over(b, st, locals, cap, a), m)
            && forall n: nat :: n in Over(b, st, locals, cap, a) <==>
                  n in m && n !in Executable(b, st, a) && n !in Retained(b, st, locals, cap, a)
  {
    PartsOf(b, st, locals, cap, a);
    RunShape(Current(b.queue[a], st, a), VirtualNonce(st, b.virtuals, a));
    hide Lowest, ReadyRun, NotReady, Current, Filed;
  }

  lemma UnpayableKeys(l: map<nat, Tx>, st: ChainState, a: Address)
    requires FiledAt(l, a)
    ensures var bad := Unpayable(From(l, NonceOf(st, a)), BalanceOf(st, a), st.gasLimit);
            && PartOf(bad, l)
            && forall n: nat :: n in bad <==> n in l && n >= NonceOf(st, a) && !CanPay(st, l[n])
  {
  }

  lemma ThreeParts(whole: map<nat, Tx>, x: map<nat, Tx>, y: map<nat, Tx>, z: map<nat, Tx>)
    requires forall n: nat :: n in whole <==> n in x || n in y || n in z
    requires PartOf(x, whole) && PartOf(y, whole) && PartOf(z, whole)
    ensures Values(whole) == Values(x) + Values(y) + Values(z)
  {
    forall t | t in Values(whole) ensures t in Values(x) + Values(y) + Values(z) {
      var n :| n in whole && whole[n] == t;
      if n in x { assert x[n] == t; } else if n in y { assert y[n] == t; } else { assert z[n] == t; }
    }
  }
}
