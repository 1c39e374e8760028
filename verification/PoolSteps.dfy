/** The pool's operations on its books, account by account, and what each of them keeps. */
module PoolSteps {
  import opened Transactions
  import opened SortedMap
  import opened PricedLists
  import opened PoolBooks

  // ---------------------------------------------------------------- nonce invariants

  /** The account's pending nonces are exactly the range from its state nonce to its virtual nonce. */
  ghost predicate GapFreeAt(b: Books, st: ChainState, a: Address) {
    && NonceOf(st, a) <= VirtualNonce(st, b.virtuals, a)
    && forall n: nat :: Slot(b.pending, a, n) <==> NonceOf(st, a) <= n < VirtualNonce(st, b.virtuals, a)
  }

  ghost predicate GapFree(b: Books, st: ChainState) {
    forall a :: GapFreeAt(b, st, a)
  }

  /** The virtual nonce is not queued, so the next pass would promote nothing that follows it. */
  ghost predicate SettledAt(b: Books, st: ChainState, a: Address) {
    !Slot(b.queue, a, VirtualNonce(st, b.virtuals, a))
  }

  /** The first nonce from the state nonce on that is not pending: what the account could run next. */
  ghost function NextNonce(b: Books, st: ChainState, a: Address): nat {
    RunEnd(ListOf(b.pending, a), NonceOf(st, a))
  }

  /** No transaction of the account that could run next waits in the queue. */
  ghost predicate IdleAt(b: Books, st: ChainState, a: Address) {
    !Slot(b.queue, a, NextNonce(b, st, a))
  }

  ghost predicate NothingWaits(b: Books, st: ChainState) {
    forall a :: IdleAt(b, st, a)
  }

  /** In a settled account something waits exactly if the virtual nonce is not the next one and the next one is queued. */
  lemma WaitsExactly(b: Books, st: ChainState, a: Address)
    requires SettledAt(b, st, a)
    ensures !IdleAt(b, st, a) <==>
      NextNonce(b, st, a) != VirtualNonce(st, b.virtuals, a) && Slot(b.queue, a, NextNonce(b, st, a))
  {
  }

  lemma RunEndIs(m: map<nat, Tx>, lo: nat, end: nat)
    requires lo <= end && end !in m && forall n: nat | lo <= n < end :: n in m
    ensures RunEnd(m, lo) == end
  {
    hide RunEnd;
    var e := RunEnd(m, lo);
    assert e < end ==> e in m;
  }

  /** Without gaps the virtual nonce is the next one. */
  lemma GapFreeNext(b: Books, st: ChainState, a: Address)
    requires GapFreeAt(b, st, a)
    ensures NextNonce(b, st, a) == VirtualNonce(st, b.virtuals, a)
  {
    assert forall n: nat :: Slot(b.pending, a, n) <==> n in ListOf(b.pending, a);
    RunEndIs(ListOf(b.pending, a), NonceOf(st, a), VirtualNonce(st, b.virtuals, a));
  }

  lemma GapFreeIdle(b: Books, st: ChainState, a: Address)
    requires GapFreeAt(b, st, a)
    ensures IdleAt(b, st, a) <==> SettledAt(b, st, a)
  {
    GapFreeNext(b, st, a);
    hide NextNonce, GapFreeAt;
  }

  /** Cutting pending and queued transactions makes nothing wait that did not: the first nonce cut was pending. */
  lemma CutIdle(b: Books, b': Books, st: ChainState, a: Address)
    requires ListOf(b'.pending, a).Keys <= ListOf(b.pending, a).Keys && ListOf(b'.queue, a).Keys <= ListOf(b.queue, a).Keys
    requires forall n | n in ListOf(b.queue, a) :: n !in ListOf(b.pending, a)
    requires IdleAt(b, st, a)
    ensures IdleAt(b', st, a)
  {
    var s, e := NonceOf(st, a), NextNonce(b', st, a);
    assert forall n :: Slot(b.queue, a, n) <==> n in ListOf(b.queue, a).Keys;
    assert forall n :: Slot(b'.queue, a, n) <==> n in ListOf(b'.queue, a).Keys;
    hide RunEnd, Slot, ListOf;
    if e !in ListOf(b.pending, a) {
      assert forall n: nat | s <= n < e :: n in ListOf(b'.pending, a).Keys;
      RunEndIs(ListOf(b.pending, a), s, e);
    }
  }

  /** Going from `b` to `b'`, the accounts outside `dirty` stay settled. */
  ghost predicate StaySettled(b: Books, b': Books, st: ChainState, dirty: set<Address>) {
    forall a | a !in dirty && SettledAt(b, st, a) :: SettledAt(b', st, a)
  }

  /** A virtual nonce beyond the state nonce is backed by a payable pending transaction at the state nonce. */
  ghost predicate RootedAt(b: Books, st: ChainState, a: Address) {
    VirtualNonce(st, b.virtuals, a) > NonceOf(st, a) ==>
      Slot(b.pending, a, NonceOf(st, a)) && CanPay(st, b.pending[a][NonceOf(st, a)])
  }

  ghost predicate Rooted(b: Books, st: ChainState) {
    forall a :: RootedAt(b, st, a)
  }

  /** The account's pending list, if there is one, starts exactly at the state nonce, with a payable transaction. */
  ghost predicate StartedAt(b: Books, st: ChainState, a: Address) {
    forall n: nat | Slot(b.pending, a, n) ::
      n >= NonceOf(st, a) && Slot(b.pending, a, NonceOf(st, a)) && CanPay(st, b.pending[a][NonceOf(st, a)])
  }

  ghost predicate Started(b: Books, st: ChainState) {
    forall a :: StartedAt(b, st, a)
  }

  /** What every pool operation keeps of the order of nonces. */
  ghost predicate KeepsOrder(b: Books, b': Books, st: ChainState) {
    && (GapFree(b, st) ==> GapFree(b', st))
    && (Rooted(b, st) ==> Rooted(b', st))
    && (Rooted(b, st) && Started(b, st) ==> Started(b', st))
  }

  /** Going from `b` to `b'`, a local sender lost only transactions that are too old or unpayable. */
  ghost predicate LocalsKept(b: Books, b': Books, st: ChainState, locals: set<Address>) {
    forall t | Live(b.all, t) && !Live(b'.all, t) && t.from in locals ::
      t.nonce < NonceOf(st, t.from) || !CanPay(st, t)
  }

  /** The account's pending list and virtual nonce are untouched. */
  ghost predicate SameAt(b: Books, b': Books, st: ChainState, x: Address) {
    && VirtualNonce(st, b'.virtuals, x) == VirtualNonce(st, b.virtuals, x)
    && ListOf(b'.pending, x) == ListOf(b.pending, x)
  }

  lemma SameKeeps(b: Books, b': Books, st: ChainState, x: Address)
    requires SameAt(b, b', st, x)
    ensures GapFreeAt(b, st, x) ==> GapFreeAt(b', st, x)
    ensures RootedAt(b, st, x) ==> RootedAt(b', st, x)
    ensures StartedAt(b, st, x) ==> StartedAt(b', st, x)
  {
    assert forall n: nat :: Slot(b.pending, x, n) <==> n in ListOf(b.pending, x);
    assert forall n: nat :: Slot(b'.pending, x, n) <==> n in ListOf(b'.pending, x);
  }

  /** If only account `a` changed and there the order was kept, it is kept everywhere. */
  lemma OrderFrom(b: Books, b': Books, st: ChainState, a: Address)
    requires forall x | x != a :: SameAt(b, b', st, x)
    requires GapFreeAt(b, st, a) ==> GapFreeAt(b', st, a)
    requires RootedAt(b, st, a) ==> RootedAt(b', st, a)
    requires RootedAt(b, st, a) && StartedAt(b, st, a) ==> StartedAt(b', st, a)
    ensures KeepsOrder(b, b', st)
  {
    hide GapFreeAt, RootedAt, StartedAt, SameAt;
    forall x | x != a
      ensures GapFreeAt(b, st, x) ==> GapFreeAt(b', st, x)
      ensures RootedAt(b, st, x) ==> RootedAt(b', st, x)
      ensures StartedAt(b, st, x) ==> StartedAt(b', st, x)
    {
      SameKeeps(b, b', st, x);
    }
  }

  ghost predicate NothingNew(b: Books, b': Books) {
    forall t | Live(b'.all, t) :: Live(b.all, t)
  }

  /** What every operation keeps that admits no transaction. */
  ghost predicate Keeps(b: Books, b': Books, st: ChainState, locals: set<Address>) {
    KeepsOrder(b, b', st) && StaySettled(b, b', st, {}) && LocalsKept(b, b', st, locals) && NothingNew(b, b')
  }

  lemma KeepsRefl(b: Books, st: ChainState, locals: set<Address>)
    ensures Keeps(b, b, st, locals)
  {
  }

  lemma KeepsTrans(b: Books, b': Books, b'': Books, st: ChainState, locals: set<Address>)
    requires Keeps(b, b', st, locals) && Keeps(b', b'', st, locals)
    ensures Keeps(b, b'', st, locals)
  {
    hide GapFree, Rooted, Started, SettledAt, CanPay;
  }

  // ---------------------------------------------------------------- removal

  /** Removing `tx`: a pending one takes the later nonces of its sender back to the queue. */
  function Removed(b: Books, st: ChainState, tx: Tx): Books {
    var a, n := tx.from, tx.nonce;
    if !Live(b.all, tx) then b
    else if Slot(b.pending, a, n) then
      Books(Tidy(Take(b.pending, a, From(b.pending[a], n)), a),
            Put(b.queue, a, From(b.pending[a], n + 1)),
            b.all - Hashes({tx}),
            if VirtualNonce(st, b.virtuals, a) > n then b.virtuals[a := n] else b.virtuals)
    else
      b.(queue := Tidy(Take(b.queue, a, map[n := tx]), a), all := b.all - Hashes({tx}))
  }

  lemma RemovedCoherent(b: Books, st: ChainState, tx: Tx)
    requires Coherent(b, {}) && Live(b.all, tx)
    ensures Coherent(Removed(b, st, tx), {})
  {
    if Slot(b.pending, tx.from, tx.nonce) {
      RemovedPendingCoherent(b, st, tx);
    } else {
      RemovedQueuedCoherent(b, st, tx);
    }
  }

  lemma RemovedQueuedCoherent(b: Books, st: ChainState, tx: Tx)
    requires Coherent(b, {}) && Live(b.all, tx) && !Slot(b.pending, tx.from, tx.nonce)
    ensures Coherent(Removed(b, st, tx), {})
  {
    var a, gone := tx.from, map[tx.nonce := tx];
    QueuedThere(b, tx);
    assert {} + Values(gone) == {tx} && {tx} - {tx} == {};
    hide Coherent, Take, Tidy, Hashes, Values, Slot, PartOf;
    TakeQueued(b, {}, a, gone);
    var b1 := b.(queue := Take(b.queue, a, gone));
    Forget(b1, {tx}, {tx});
    TidyQueued(b1.(all := b1.all - Hashes({tx})), {}, a);
  }

  lemma QueuedThere(b: Books, tx: Tx)
    requires Coherent(b, {}) && Live(b.all, tx) && !Slot(b.pending, tx.from, tx.nonce)
    ensures Holds(b.queue, tx) && PartOf(map[tx.nonce := tx], ListOf(b.queue, tx.from))
  {
    assert !Holds(b.pending, tx);
  }

  lemma RemovedPendingCoherent(b: Books, st: ChainState, tx: Tx)
    requires Coherent(b, {}) && Live(b.all, tx) && Slot(b.pending, tx.from, tx.nonce)
    ensures Coherent(Removed(b, st, tx), {})
  {
    var a := tx.from;
    var gone, later := From(b.pending[a], tx.nonce), From(b.pending[a], tx.nonce + 1);
    CutThere(b, tx);
    hide *;
    RemovedPendingIs(b, st, tx);
    TakePending(b, {}, a, gone);
    var b1 := b.(pending := Take(b.pending, a, gone));
    Forget(b1, Values(gone), {tx});
    var b2 := b1.(all := b1.all - Hashes({tx}));
    TidyPending(b2, Values(later), a);
    var b3 := b2.(pending := Tidy(b2.pending, a));
    PutQueued(b3, Values(later), a, later);
    ReVirtual(b3.(queue := Put(b3.queue, a, later)), Removed(b, st, tx).virtuals, {});
  }

  lemma RemovedPendingIs(b: Books, st: ChainState, tx: Tx)
    requires Live(b.all, tx) && Slot(b.pending, tx.from, tx.nonce)
    ensures tx.from in b.pending
    ensures var a, n := tx.from, tx.nonce;
            Removed(b, st, tx) == Books(Tidy(Take(b.pending, a, From(b.pending[a], n)), a),
                                        Put(b.queue, a, From(b.pending[a], n + 1)),
                                        b.all - Hashes({tx}), Removed(b, st, tx).virtuals)
  {
  }

  lemma CutThere(b: Books, tx: Tx)
    requires Coherent(b, {}) && Live(b.all, tx) && Slot(b.pending, tx.from, tx.nonce)
    ensures var l := b.pending[tx.from];
            && PartOf(From(l, tx.nonce), ListOf(b.pending, tx.from)) && FiledAt(From(l, tx.nonce + 1), tx.from)
            && {} + Values(From(l, tx.nonce)) == Values(From(l, tx.nonce))
            && {tx} <= Values(From(l, tx.nonce))
            && Values(From(l, tx.nonce)) - {tx} == Values(From(l, tx.nonce + 1))
            && Values(From(l, tx.nonce + 1)) - Values(From(l, tx.nonce + 1)) == {}
  {
    HeldThere(b, tx);
    CutValues(b.pending[tx.from], tx.nonce, tx);
  }

  lemma HeldThere(b: Books, tx: Tx)
    requires Coherent(b, {}) && Live(b.all, tx) && Slot(b.pending, tx.from, tx.nonce)
    ensures Holds(b.pending, tx)
  {
    assert !Holds(b.queue, tx);
  }

  lemma CutValues(l: map<nat, Tx>, n: nat, tx: Tx)
    requires n in l && l[n] == tx && (forall m | m in l :: l[m].nonce == m)
    ensures {} + Values(From(l, n)) == Values(From(l, n))
    ensures tx in Values(From(l, n)) && Values(From(l, n)) - {tx} == Values(From(l, n + 1))
    ensures Values(From(l, n + 1)) - Values(From(l, n + 1)) == {}
  {
    forall t | t in Values(From(l, n)) && t != tx ensures t in Values(From(l, n + 1)) {
      var m :| m in From(l, n) && From(l, n)[m] == t;
      assert m in From(l, n + 1);
    }
    assert From(l, n)[n] == tx;
  }

  /** Coherence does not read the virtual nonces. */
  lemma ReVirtual(b: Books, virtuals: map<Address, nat>, limbo: set<Tx>)
    requires Coherent(b, limbo)
    ensures Coherent(b.(virtuals := virtuals), limbo)
  {
  }

  /** Where a removal leaves every nonce. */
  ghost predicate RemovalSlots(b: Books, b': Books, a: Address, n: nat) {
    var cut := Slot(b.pending, a, n);
    && (forall x, m: nat :: Slot(b'.pending, x, m) <==> Slot(b.pending, x, m) && !(x == a && cut && m >= n))
    && (forall x, m: nat :: Slot(b'.queue, x, m) <==>
          (Slot(b.queue, x, m) && !(x == a && m == n)) || (x == a && cut && Slot(b.pending, a, m) && m > n))
    && (forall t :: Holds(b'.pending, t) ==> Holds(b.pending, t))
  }

  lemma RemovedSlots(b: Books, st: ChainState, tx: Tx)
    requires Coherent(b, {}) && Live(b.all, tx)
    ensures RemovalSlots(b, Removed(b, st, tx), tx.from, tx.nonce)
  {
    var a, n := tx.from, tx.nonce;
    if Slot(b.pending, a, n) {
      RemovedSlotsPending(b, st, tx);
    } else {
      TakeSlots(b.queue, a, map[n := tx]);
      TidySlots(Take(b.queue, a, map[n := tx]), a);
      hide Tidy, Take, Coherent;
    }
  }

  lemma RemovedSlotsPending(b: Books, st: ChainState, tx: Tx)
    requires Coherent(b, {}) && Live(b.all, tx) && Slot(b.pending, tx.from, tx.nonce)
    ensures RemovalSlots(b, Removed(b, st, tx), tx.from, tx.nonce)
  {
    hide *;
    RemovedPendingIs(b, st, tx);
    var a, n := tx.from, tx.nonce;
    var l := b.pending[a];
    LaterFree(b, tx);
    CutNonces(b, tx);
    SlotsCombine(b, Removed(b, st, tx), a, n, Take(b.pending, a, From(l, n)), From(l, n), From(l, n + 1));
  }

  lemma SlotsCombine(b: Books, b': Books, a: Address, n: nat, taken: Lists, gone: map<nat, Tx>, later: map<nat, Tx>)
    requires Slot(b.pending, a, n) && !Slot(b.queue, a, n)
    requires taken == Take(b.pending, a, gone) && b'.pending == Tidy(taken, a) && b'.queue == Put(b.queue, a, later)
    requires FiledAt(later, a) && forall m | m in later :: !Slot(b.queue, a, m)
    requires forall m: nat :: m in later <==> Slot(b.pending, a, m) && m > n
    requires forall m: nat :: m in gone <==> Slot(b.pending, a, m) && m >= n
    ensures RemovalSlots(b, b', a, n)
  {
    PutSlots(b.queue, a, later);
    TakeSlots(b.pending, a, gone);
    TidySlots(taken, a);
    hide Tidy, Take, Put, FiledAt, Slot, Holds, Values;
  }

  lemma CutNonces(b: Books, tx: Tx)
    requires Coherent(b, {}) && Slot(b.pending, tx.from, tx.nonce)
    ensures var a, n := tx.from, tx.nonce;
            && FiledAt(From(b.pending[a], n + 1), a)
            && (forall m: nat :: m in From(b.pending[a], n + 1) <==> Slot(b.pending, a, m) && m > n)
            && (forall m: nat :: m in From(b.pending[a], n) <==> Slot(b.pending, a, m) && m >= n)
  {
  }

  lemma LaterFree(b: Books, tx: Tx)
    requires Coherent(b, {}) && Slot(b.pending, tx.from, tx.nonce)
    ensures !Slot(b.queue, tx.from, tx.nonce)
    ensures forall m | m in From(b.pending[tx.from], tx.nonce + 1) :: !Slot(b.queue, tx.from, m)
  {
    forall m | m in From(b.pending[tx.from], tx.nonce + 1) ensures !Slot(b.queue, tx.from, m) {
      assert Slot(b.pending, tx.from, m);
    }
  }

  /** Removal keeps the pending ranges gap free and rooted, and settled accounts settled. */
  lemma RemovedKeeps(b: Books, st: ChainState, tx: Tx)
    requires Coherent(b, {}) && Live(b.all, tx)
    ensures KeepsOrder(b, Removed(b, st, tx), st)
    ensures StaySettled(b, Removed(b, st, tx), st, {})
  {
    RemovedSlots(b, st, tx);
    RemovedCoherent(b, st, tx);
    RemovedVirtual(b, st, tx);
    assert Slot(b.pending, tx.from, tx.nonce) ==> !Slot(b.queue, tx.from, tx.nonce);
    var b' := Removed(b, st, tx);
    assert Filed(b.pending) && Filed(b'.pending);
    hide Coherent, Removed, Filed, Slot, Holds, GapFreeAt, RootedAt, StartedAt;
    forall a
      ensures GapFreeAt(b, st, a) ==> GapFreeAt(b', st, a)
      ensures RootedAt(b, st, a) ==> RootedAt(b', st, a)
      ensures StartedAt(b, st, a) ==> StartedAt(b', st, a)
    {
      KeepsRoot(b, b', st, a);
      RemovedKeepsAt(b, b', st, a, if a == tx.from && Slot(b.pending, a, tx.nonce) then [tx.nonce] else []);
    }
  }

  /** What an account keeps when its pending list is cut at a nonce, or not at all. */
  lemma RemovedKeepsAt(b: Books, b': Books, st: ChainState, a: Address, cut: seq<nat>)
    requires |cut| <= 1
    requires forall n: nat :: Slot(b'.pending, a, n) <==> Slot(b.pending, a, n) && (cut == [] || n < cut[0])
    requires forall n :: Slot(b'.pending, a, n) && Slot(b.pending, a, n) ==> b'.pending[a][n] == b.pending[a][n]
    requires cut != [] ==> Slot(b.pending, a, cut[0])
    requires var v := VirtualNonce(st, b.virtuals, a);
      VirtualNonce(st, b'.virtuals, a) == if cut != [] && v > cut[0] then cut[0] else v
    ensures GapFreeAt(b, st, a) ==> GapFreeAt(b', st, a)
    ensures RootedAt(b, st, a) ==> RootedAt(b', st, a)
    ensures StartedAt(b, st, a) ==> StartedAt(b', st, a)
  {
    hide Slot, CanPay, VirtualNonce;
  }

  lemma KeepsRoot(b: Books, b': Books, st: ChainState, a: Address)
    requires forall t :: Holds(b'.pending, t) ==> Holds(b.pending, t)
    requires Filed(b.pending) && Filed(b'.pending)
    ensures forall n :: Slot(b'.pending, a, n) && Slot(b.pending, a, n) ==> b'.pending[a][n] == b.pending[a][n]
  {
    forall n | Slot(b'.pending, a, n) && Slot(b.pending, a, n) ensures b'.pending[a][n] == b.pending[a][n] {
      assert Holds(b'.pending, b'.pending[a][n]);
    }
  }

  lemma RemovedVirtual(b: Books, st: ChainState, tx: Tx)
    requires Live(b.all, tx)
    ensures forall x :: VirtualNonce(st, Removed(b, st, tx).virtuals, x) ==
              if x == tx.from && Slot(b.pending, x, tx.nonce) && VirtualNonce(st, b.virtuals, x) > tx.nonce
              then tx.nonce else VirtualNonce(st, b.virtuals, x)
  {
  }

  lemma RemovedTidy(b: Books, st: ChainState, tx: Tx)
    requires NoEmpty(b.pending) && NoEmpty(b.queue)
    ensures NoEmpty(Removed(b, st, tx).pending) && NoEmpty(Removed(b, st, tx).queue)
  {
  }

  lemma RemovedAllKept(b: Books, st: ChainState, tx: Tx, locals: set<Address>)
    requires Coherent(b, {}) && (Live(b.all, tx) ==> tx.from !in locals)
    ensures Coherent(Removed(b, st, tx), {}) && Keeps(b, Removed(b, st, tx), st, locals)
  {
    hide *;
    if Live(b.all, tx) {
      RemovedCoherent(b, st, tx);
      RemovedKeeps(b, st, tx);
      RemovedLoss(b, st, tx, locals);
      KeepsFrom(b, Removed(b, st, tx), st, locals);
    } else {
      RemovedNothing(b, st, tx);
      KeepsRefl(b, st, locals);
    }
  }

  lemma KeepsFrom(b: Books, b': Books, st: ChainState, locals: set<Address>)
    requires KeepsOrder(b, b', st) && StaySettled(b, b', st, {}) && LocalsKept(b, b', st, locals) && NothingNew(b, b')
    ensures Keeps(b, b', st, locals)
  {
  }

  lemma RemovedNothing(b: Books, st: ChainState, tx: Tx)
    requires !Live(b.all, tx)
    ensures Removed(b, st, tx) == b
  {
  }

  lemma RemovedLoss(b: Books, st: ChainState, tx: Tx, locals: set<Address>)
    requires Live(b.all, tx) && tx.from !in locals
    ensures LocalsKept(b, Removed(b, st, tx), st, locals) && NothingNew(b, Removed(b, st, tx))
    ensures forall t :: Live(Removed(b, st, tx).all, t) <==> Live(b.all, t) && t != tx
  {
    hide Tidy, Take, Put;
  }
}
