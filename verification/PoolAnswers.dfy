/** What the pool answers (core/tx_pool.go): the outcome of adding one transaction or a batch, of a reset, and of a run. */
module PoolAnswers {
  import opened Basics
  import opened Transactions
  import opened SortedMap
  import opened TxLists
  import opened PricedLists
  import opened PoolBooks
  import opened PoolSteps
  import opened PoolAdmission
  import opened PoolPromotion
  import opened PoolDemotion
  import opened PoolFairness
  import opened PoolPasses
  import opened PoolResets
  import opened PoolLoops

  datatype AddError =
    | Known | Rejected | GasLimit | Underpriced | NonceTooLow | InsufficientFunds | ReplaceUnderpriced

  datatype AddResult = Added(replaced: bool) | Refused(error: AddError)

  /** The admission checks. `sane` stands for the checks that read nothing of the pool: size, sign
      of the value, signature, wallet kinds, intrinsic gas and stake bounds. */
  function Validate(st: ChainState, gasPrice: nat, locals: set<Address>, tx: Tx, local: bool,
                    sane: bool): (e: Option<AddError>)
    ensures e == None <==>
      && sane && tx.gas <= st.gasLimit && tx.price * tx.gas + (if tx.base == Main then tx.value else 0) <= BalanceOf(st, tx.from)
      && NonceOf(st, tx.from) <= tx.nonce && (local || tx.from in locals || tx.price >= gasPrice)
    ensures e == None ==> CanPay(st, tx)
    ensures e.Some? ==> e.value in {Rejected, GasLimit, Underpriced, NonceTooLow, InsufficientFunds}
    // Each refusal has its cause, and none of the causes that come before it.
    ensures e == Some(Rejected) <==> !sane
    ensures e == Some(GasLimit) <==> sane && tx.gas > st.gasLimit
    ensures e == Some(Underpriced) <==>
      sane && tx.gas <= st.gasLimit && !local && tx.from !in locals && tx.price < gasPrice
    ensures e == Some(NonceTooLow) <==>
      && sane && tx.gas <= st.gasLimit && (local || tx.from in locals || tx.price >= gasPrice)
      && tx.nonce < NonceOf(st, tx.from)
    ensures e == Some(InsufficientFunds) <==>
      && sane && tx.gas <= st.gasLimit && (local || tx.from in locals || tx.price >= gasPrice)
      && NonceOf(st, tx.from) <= tx.nonce
      && tx.price * tx.gas + (if tx.base == Main then tx.value else 0) > BalanceOf(st, tx.from)
  {
    if !sane then Some(Rejected)
    else if st.gasLimit < tx.gas then Some(GasLimit)
    else if !local && tx.from !in locals && gasPrice > tx.price then Some(Underpriced)
    else if NonceOf(st, tx.from) > tx.nonce then Some(NonceTooLow)
    else if BalanceOf(st, tx.from) < Charge(tx) then Some(InsufficientFunds)
    else None
  }

  /** The pool's public operations; a new head comes with the transactions it sets free. */
  datatype PoolOp =
    | AddOne(tx: Tx, local: bool, sane: bool)
    | AddMany(txs: seq<(Tx, bool)>, local: bool)
    | SetPrice(price: nat)
    | Expire(accounts: set<Address>)
    | NewHead(st: ChainState, reinject: seq<(Tx, bool)>)

  lemma AdmissionIs(b: Books, tx: Tx)
    ensures Replaced(b, tx) == Books(Filing(b.pending, tx), b.queue,
                                     (b.all - Hashes(Values(Displaced(b.pending, tx))))[TxHash(tx) := tx], b.virtuals)
    ensures Enqueued(b, tx) == Books(b.pending, Filing(b.queue, tx),
                                     (b.all - Hashes(Values(Displaced(b.queue, tx))))[TxHash(tx) := tx], b.virtuals)
  {
    hide Filing, Displaced, Values, Hashes;
  }

  lemma ReplacedSound(b: Books, tx: Tx)
    requires Coherent(b, {}) && NoEmpty(b.pending) && Slot(b.pending, tx.from, tx.nonce)
    ensures Coherent(Replaced(b, tx), {}) && NoEmpty(Filing(b.pending, tx))
  {
    assert !Slot(b.queue, tx.from, tx.nonce);
    hide *;
    ReplacedCoherent(b, tx);
    FilingTidy(b.pending, tx);
  }

  lemma EnqueuedSound(b: Books, tx: Tx)
    requires Coherent(b, {}) && NoEmpty(b.queue) && !Slot(b.pending, tx.from, tx.nonce)
    ensures Coherent(Enqueued(b, tx), {}) && NoEmpty(Filing(b.queue, tx))
  {
    hide *;
    EnqueuedCoherent(b, tx);
    FilingTidy(b.queue, tx);
  }

  lemma CoversAdmitted(b: Books, all: Lookup, gone: set<TxHash>, tx: Tx, items: multiset<Tx>, items': multiset<Tx>)
    requires Covers(items, b.all) && KeepsLive(items, items', all) && tx in items'
    requires all == (b.all - gone)[TxHash(tx) := tx]
    ensures Covers(items', all)
  {
  }

  /** Where a validated transaction goes: over the pending one at its nonce or else into the queue, provided it outbids
      what it finds there. */
  ghost predicate Placed(b: Books, b': Books, bump: nat, tx: Tx, r: AddResult) {
    var overlaps := Slot(b.pending, tx.from, tx.nonce);
    if !Accepts(ListOf(if overlaps then b.pending else b.queue, tx.from), tx, bump)
    then r == Refused(ReplaceUnderpriced) && b' == b
    else if overlaps then r == Added(true) && b' == Replaced(b, tx)
    else r == Added(Slot(b.queue, tx.from, tx.nonce)) && b' == Enqueued(b, tx)
  }

  /** The books after room was made. A pool that is not full has room already. A full one, whose heap has the entries
      `items`, drops remote transactions only, none that ranks above one that stays and no more than needed, and there is
      room afterwards as `RoomMade` says. */
  ghost predicate Roomed(b: Books, items: multiset<Tx>, mid: Books, st: ChainState, locals: set<Address>, limit: nat) {
    && Keeps(b, mid, st, locals) && WorstFirst(b.all, mid.all, locals)
    && (|b.all| < limit ==> mid == b)
    && (|b.all| >= limit ==>
          && Covers(items, b.all) && |mid.all| + 1 >= limit
          && RoomMade(Candidates(items, b.all, locals), b.all, mid.all, locals, limit))
  }

  lemma RoomedIs(b: Books, items: multiset<Tx>, mid: Books, st: ChainState, locals: set<Address>, limit: nat)
    ensures Roomed(b, items, mid, st, locals, limit) <==>
      && Keeps(b, mid, st, locals) && WorstFirst(b.all, mid.all, locals)
      && (|b.all| < limit ==> mid == b)
      && (|b.all| >= limit ==>
            && Covers(items, b.all) && |mid.all| + 1 >= limit
            && RoomMade(Candidates(items, b.all, locals), b.all, mid.all, locals, limit))
  {
    hide Keeps, WorstFirst, Covers, RoomMade, Candidates;
  }

  /** The answer and the new books: nothing changes for a transaction that is known, invalid or too cheap for a full pool,
      and any other is placed in the books `mid` after room was made, which a pool that is not full has already. */
  ghost predicate Answered(b: Books, items: multiset<Tx>, mid: Books, b': Books, st: ChainState, locals: set<Address>, config: Config,
                           gasPrice: nat, tx: Tx, local: bool, sane: bool, r: AddResult)
  {
    var invalid := Validate(st, gasPrice, locals, tx, local, sane);
    if Live(b.all, tx) then r == Refused(Known) && b' == mid == b
    else if invalid.Some? then r == Refused(invalid.value) && b' == mid == b
    else if RefusesCheap(b.all, config, locals, tx, local) then r == Refused(Underpriced) && b' == mid == b
    else
      && Placed(mid, b', config.priceBump, tx, r)
      && Roomed(b, items, mid, st, locals, config.globalSlots + config.globalQueue)
  }

  /** Whatever leaves was outbid by `tx` at its nonce or, in a full pool only, is remote and ranks below all remote ones that stay. */
  ghost predicate MakesWay(b: Books, b': Books, locals: set<Address>, config: Config, tx: Tx) {
    forall t | Live(b.all, t) && !Live(b'.all, t) ::
      || (t.from == tx.from && t.nonce == tx.nonce && Outbids(tx, t, config.priceBump))
      || (&& |b.all| >= config.globalSlots + config.globalQueue && t.from !in locals
          && forall u | Live(b'.all, u) && u != tx && u.from !in locals ::
                u.price > t.price || (u.price == t.price && u.nonce <= t.nonce))
  }

  /** What adding `tx` does to the books. */
  ghost predicate AddKeeps(b: Books, items: multiset<Tx>, mid: Books, b': Books, st: ChainState, locals: set<Address>, config: Config,
                           gasPrice: nat, tx: Tx, local: bool, sane: bool, r: AddResult)
  {
    && KeepsOrder(b, b', st)
    && StaySettled(b, b', st, if r == Added(false) then {tx.from} else {})
    && LostOnlyTo(b, b', st, locals, tx, config.priceBump)
    && (forall t | Live(b'.all, t) :: Live(b.all, t) || (t == tx && r.Added?))
    && (r.Added? ==> Live(b'.all, tx) && !Live(b.all, tx))
    && Answered(b, items, mid, b', st, locals, config, gasPrice, tx, local, sane, r)
    && MakesWay(b, b', locals, config, tx)
  }

  lemma WayMade(b: Books, b1: Books, b2: Books, locals: set<Address>, config: Config, tx: Tx)
    requires WorstFirst(b.all, b1.all, locals) && (|b.all| < config.globalSlots + config.globalQueue ==> b1 == b)
    requires forall t | Live(b1.all, t) && !Live(b2.all, t) :: t.from == tx.from && t.nonce == tx.nonce && Outbids(tx, t, config.priceBump)
    requires forall t | Live(b2.all, t) :: Live(b1.all, t) || t == tx
    ensures MakesWay(b, b2, locals, config, tx)
  {
    hide Outbids;
  }

  lemma RefusedKeeps(b: Books, items: multiset<Tx>, st: ChainState, locals: set<Address>, config: Config, gasPrice: nat,
                     tx: Tx, local: bool, sane: bool, e: AddError)
    requires e != ReplaceUnderpriced
    requires if Live(b.all, tx) then e == Known
             else var invalid := Validate(st, gasPrice, locals, tx, local, sane);
                  if invalid.Some? then e == invalid.value else e == Underpriced && RefusesCheap(b.all, config, locals, tx, local)
    ensures AddKeeps(b, items, b, b, st, locals, config, gasPrice, tx, local, sane, Refused(e))
  {
    KeepsRefl(b, st, locals);
    hide KeepsOrder, StaySettled, RefusesCheap, Outbids, CanPay;
  }

  lemma StillUnknown(b: Books, b': Books, st: ChainState, locals: set<Address>, tx: Tx)
    requires Keeps(b, b', st, locals) && !Live(b.all, tx)
    ensures !Live(b'.all, tx)
  {
    hide KeepsOrder, StaySettled, LocalsKept;
  }

  lemma PlacedIs(b: Books, b': Books, bump: nat, tx: Tx, r: AddResult)
    ensures Placed(b, b', bump, tx, r) <==>
      (var overlaps := Slot(b.pending, tx.from, tx.nonce);
       if !Accepts(ListOf(if overlaps then b.pending else b.queue, tx.from), tx, bump)
       then r == Refused(ReplaceUnderpriced) && b' == b
       else if overlaps then r == Added(true) && b' == Replaced(b, tx)
       else r == Added(Slot(b.queue, tx.from, tx.nonce)) && b' == Enqueued(b, tx))
  {
  }

  lemma AdmittedOnly(b: Books, m: Lists, tx: Tx)
    ensures forall t | Live((b.all - Hashes(Values(Displaced(m, tx))))[TxHash(tx) := tx], t) :: Live(b.all, t) || t == tx
  {
  }

  lemma RefusedPlace(b: Books, b1: Books, st: ChainState, locals: set<Address>, tx: Tx, bump: nat)
    requires Keeps(b, b1, st, locals)
    ensures KeepsOrder(b, b1, st) && StaySettled(b, b1, st, {}) && LostOnlyTo(b, b1, st, locals, tx, bump)
    ensures forall t | Live(b1.all, t) :: Live(b.all, t)
  {
    hide KeepsOrder, StaySettled;
  }

  lemma Compose(b: Books, b1: Books, b2: Books, st: ChainState, locals: set<Address>, tx: Tx, bump: nat,
                dirty: set<Address>)
    requires Keeps(b, b1, st, locals) && KeepsOrder(b1, b2, st) && StaySettled(b1, b2, st, dirty)
    requires LostOnlyTo(b1, b2, st, locals, tx, bump)
    requires forall t | Live(b2.all, t) :: Live(b1.all, t) || t == tx
    ensures KeepsOrder(b, b2, st) && StaySettled(b, b2, st, dirty) && LostOnlyTo(b, b2, st, locals, tx, bump)
    ensures forall t | Live(b2.all, t) :: Live(b.all, t) || t == tx
  {
    hide GapFree, Rooted, Started, SettledAt, CanPay, Outbids;
  }

  lemma AddKeepsWhole(b: Books, items: multiset<Tx>, b1: Books, b2: Books, st: ChainState, locals: set<Address>, config: Config, gasPrice: nat,
                      tx: Tx, local: bool, sane: bool, r: AddResult)
    requires Placed(b1, b2, config.priceBump, tx, r) && Roomed(b, items, b1, st, locals, config.globalSlots + config.globalQueue)
    requires KeepsOrder(b, b2, st) && StaySettled(b, b2, st, if r == Added(false) then {tx.from} else {})
    requires LostOnlyTo(b, b2, st, locals, tx, config.priceBump)
    requires forall t | Live(b2.all, t) :: Live(b.all, t) || (t == tx && r.Added?)
    requires !Live(b.all, tx) && (r.Added? ==> Live(b2.all, tx))
    requires Validate(st, gasPrice, locals, tx, local, sane).None? && !RefusesCheap(b.all, config, locals, tx, local)
    requires MakesWay(b, b2, locals, config, tx)
    ensures AddKeeps(b, items, b1, b2, st, locals, config, gasPrice, tx, local, sane, r)
  {
    hide KeepsOrder, StaySettled, LostOnlyTo, RefusesCheap, MakesWay, Placed, Roomed;
  }

  lemma PlacedKeeps(b: Books, items: multiset<Tx>, b1: Books, b2: Books, st: ChainState, locals: set<Address>, config: Config, gasPrice: nat,
                    tx: Tx, local: bool, sane: bool, r: AddResult)
    requires Coherent(b1, {}) && !Live(b.all, tx) && !Live(b1.all, tx)
    requires Validate(st, gasPrice, locals, tx, local, sane).None? && !RefusesCheap(b.all, config, locals, tx, local)
    requires Roomed(b, items, b1, st, locals, config.globalSlots + config.globalQueue)
    requires Placed(b1, b2, config.priceBump, tx, r)
    ensures AddKeeps(b, items, b1, b2, st, locals, config, gasPrice, tx, local, sane, r)
  {
    var overlaps := Slot(b1.pending, tx.from, tx.nonce);
    assert CanPay(st, tx);
    assert Filed(b1.pending) && Filed(b1.queue);
    RoomedIs(b, items, b1, st, locals, config.globalSlots + config.globalQueue);
    PlacedIs(b1, b2, config.priceBump, tx, r);
    hide *;
    if r.Refused? {
      RefusedPlace(b, b1, st, locals, tx, config.priceBump);
    } else if overlaps {
      ReplacedKeeps(b1, st, tx);
      ReplacedLoss(b1, st, locals, tx, config.priceBump);
      DisplacedOutbid(b1.pending, b1.all, tx, config.priceBump);
      AdmittedOnly(b1, b1.pending, tx);
      AdmissionIs(b1, tx);
      Compose(b, b1, b2, st, locals, tx, config.priceBump, {});
    } else {
      EnqueuedKeeps(b1, st, tx);
      EnqueuedLoss(b1, st, locals, tx, config.priceBump);
      DisplacedOutbid(b1.queue, b1.all, tx, config.priceBump);
      AdmittedOnly(b1, b1.queue, tx);
      AdmissionIs(b1, tx);
      Compose(b, b1, b2, st, locals, tx, config.priceBump, if r == Added(false) then {tx.from} else {});
    }
    WayMade(b, b1, b2, locals, config, tx);
    AddKeepsWhole(b, items, b1, b2, st, locals, config, gasPrice, tx, local, sane, r);
  }

  lemma PlacedNoLonger(b: Books, b': Books, bump: nat, tx: Tx, r: AddResult)
    requires Placed(b, b', bump, tx, r)
    ensures NoLonger(b.pending, b'.pending)
  {
    if b'.pending != b.pending {
      hide Accepts, Displaced, Hashes, Values;
      var a := tx.from;
      assert b'.pending == Filing(b.pending, tx);
      var l := b.pending[a];
      assert l[tx.nonce := tx].Keys == l.Keys;
      assert |l[tx.nonce := tx].Keys| == |l[tx.nonce := tx]| && |l.Keys| == |l|;
    }
  }

  // Batches and resets.

  /** No account's virtual nonce is queued. */
  ghost predicate AllSettled(b: Books, st: ChainState) {
    forall a :: SettledAt(b, st, a)
  }

  /** Every remote transaction pays at least the floor. */
  ghost predicate AboveFloor(all: Lookup, locals: set<Address>, gasPrice: nat) {
    forall t | Live(all, t) && t.from !in locals :: t.price >= gasPrice
  }

  lemma FloorSet(all: Lookup, locals: set<Address>, gasPrice: nat)
    requires forall t | Live(all, t) :: t.from in locals || t.price >= gasPrice
    ensures AboveFloor(all, locals, gasPrice)
  {
  }

  lemma FloorKept(b: Books, b': Books, st: ChainState, locals: set<Address>, gasPrice: nat)
    requires NothingNew(b, b') && AboveFloor(b.all, locals, gasPrice)
    ensures AboveFloor(b'.all, locals, gasPrice)
  {
  }

  lemma KeptNothingNew(b: Books, b': Books, st: ChainState, locals: set<Address>)
    requires Keeps(b, b', st, locals)
    ensures NothingNew(b, b')
  {
    hide KeepsOrder, StaySettled, LocalsKept, NothingNew;
  }

  lemma AddedMeans(b: Books, items: multiset<Tx>, mid: Books, b': Books, st: ChainState, locals: set<Address>, config: Config,
                   gasPrice: nat, tx: Tx, local: bool, sane: bool, r: AddResult)
    requires Answered(b, items, mid, b', st, locals, config, gasPrice, tx, local, sane, r) && r.Added?
    ensures !Live(b.all, tx) && Roomed(b, items, mid, st, locals, config.globalSlots + config.globalQueue)
    ensures local || tx.from in locals || tx.price >= gasPrice
    ensures Slot(mid.pending, tx.from, tx.nonce) ==> Accepts(ListOf(mid.pending, tx.from), tx, config.priceBump)
  {
    hide Roomed, RefusesCheap, Accepts, Replaced, Enqueued, Validate;
  }

  /** The transaction added is the only new one. */
  ghost predicate OnlyNew(b: Books, b': Books, tx: Tx, r: AddResult) {
    forall t | Live(b'.all, t) :: Live(b.all, t) || (t == tx && r.Added?)
  }

  /** A local transaction that is not a replacement makes its sender local. */
  ghost function NewLocal(mid: Books, tx: Tx, local: bool, r: AddResult): set<Address> {
    if local && r.Added? && !Slot(mid.pending, tx.from, tx.nonce) then {tx.from} else {}
  }

  lemma FloorAfter(b: Books, mid: Books, b': Books, locals: set<Address>, gasPrice: nat, tx: Tx, local: bool, r: AddResult)
    requires OnlyNew(b, b', tx, r) && AboveFloor(b.all, locals, gasPrice)
    requires r.Added? ==> local || tx.from in locals || tx.price >= gasPrice
    requires r.Added? && Slot(mid.pending, tx.from, tx.nonce) ==> tx.from in locals || tx.price >= gasPrice
    ensures AboveFloor(b'.all, locals + NewLocal(mid, tx, local, r), gasPrice)
  {
    hide Slot;
  }

  lemma OutbidAboveFloor(b: Books, items: multiset<Tx>, mid: Books, st: ChainState, locals: set<Address>, config: Config,
                         gasPrice: nat, tx: Tx)
    requires AboveFloor(b.all, locals, gasPrice) && Coherent(mid, {})
    requires Roomed(b, items, mid, st, locals, config.globalSlots + config.globalQueue)
    requires Slot(mid.pending, tx.from, tx.nonce) && Accepts(ListOf(mid.pending, tx.from), tx, config.priceBump)
    ensures tx.from in locals || tx.price >= gasPrice
  {
    var listed := mid.pending[tx.from][tx.nonce];
    assert Holds(mid.pending, listed);
    assert Live(mid.all, listed);
    hide Coherent, RoomMade, Candidates, WorstFirst;
    KeptNothingNew(b, mid, st, locals);
  }

  /** An addition keeps the floor: a local transaction below it makes its sender local, and one that only replaces a pending
      transaction of a remote sender pays more than that one did. */
  lemma AddedAboveFloor(b: Books, items: multiset<Tx>, mid: Books, b': Books, st: ChainState, locals: set<Address>,
                        config: Config, gasPrice: nat, tx: Tx, local: bool, sane: bool, r: AddResult)
    requires Answered(b, items, mid, b', st, locals, config, gasPrice, tx, local, sane, r) && OnlyNew(b, b', tx, r)
    requires AboveFloor(b.all, locals, gasPrice) && (Live(b.all, tx) || Coherent(mid, {}))
    ensures AboveFloor(b'.all, locals + NewLocal(mid, tx, local, r), gasPrice)
  {
    hide *;
    if r.Added? {
      AddedMeans(b, items, mid, b', st, locals, config, gasPrice, tx, local, sane, r);
      if Slot(mid.pending, tx.from, tx.nonce) {
        OutbidAboveFloor(b, items, mid, st, locals, config, gasPrice, tx);
      }
    }
    FloorAfter(b, mid, b', locals, gasPrice, tx, local, r);
  }

  /** A gap-free pool has nothing waiting exactly if no virtual nonce is queued. */
  lemma GapFreeWaits(b: Books, st: ChainState)
    requires GapFree(b, st)
    ensures NothingWaits(b, st) <==> AllSettled(b, st)
  {
    hide GapFreeAt, IdleAt, SettledAt;
    forall a ensures IdleAt(b, st, a) <==> SettledAt(b, st, a) {
      assert GapFreeAt(b, st, a);
      GapFreeIdle(b, st, a);
    }
  }

  lemma WaitsThrough(b: Books, b': Books, st: ChainState)
    requires KeepsOrder(b, b', st) && (AllSettled(b, st) ==> AllSettled(b', st))
    ensures GapFree(b, st) && NothingWaits(b, st) ==> NothingWaits(b', st)
  {
    hide GapFree, Rooted, Started, AllSettled, NothingWaits;
    if GapFree(b, st) && NothingWaits(b, st) {
      GapFreeWaits(b, st);
      GapFreeWaits(b', st);
    }
  }

  lemma AddKeepsParts(b: Books, items: multiset<Tx>, mid: Books, b': Books, st: ChainState, locals: set<Address>, config: Config, gasPrice: nat,
                      tx: Tx, local: bool, sane: bool, r: AddResult)
    requires AddKeeps(b, items, mid, b', st, locals, config, gasPrice, tx, local, sane, r)
    ensures KeepsOrder(b, b', st) && StaySettled(b, b', st, if r == Added(false) then {tx.from} else {})
    ensures LostOnlyTo(b, b', st, locals, tx, config.priceBump)
    ensures Answered(b, items, mid, b', st, locals, config, gasPrice, tx, local, sane, r) && OnlyNew(b, b', tx, r)
  {
    hide KeepsOrder, StaySettled, LostOnlyTo, Validate, RefusesCheap, MakesWay, Answered;
  }

  lemma NoNewLocal(mid: Books, tx: Tx, local: bool, r: AddResult, locals: set<Address>)
    ensures NewLocal(mid, tx, local, r) == if local && r.Added? && !Slot(mid.pending, tx.from, tx.nonce) then {tx.from} else {}
    ensures locals + {} == locals
  {
  }

  /** The accounts were promoted, then the limits enforced; the virtual nonces fall back to the lowest nonce cut. */
  ghost predicate Promotes(b: Books, mid: Books, b': Books, st: ChainState, locals: set<Address>, config: Config,
                           accounts: set<Address>)
  {
    && PromotedIn(b, mid, st, locals, config.accountQueue, accounts)
    && Leveling(mid.pending, b'.pending, locals, config.accountSlots, config.globalSlots)
    && Trimmed(mid.queue, b'.queue, locals, config.globalQueue)
    && RolledBack(mid, b', st)
    && Total(mid.pending) <= |b.all| && (Total(mid.pending) <= config.globalSlots ==> b'.virtuals == mid.virtuals)
  }

  /** Without accounts to promote there is no pass at all. */
  ghost predicate PromotesSome(b: Books, mid: Books, b': Books, st: ChainState, locals: set<Address>, config: Config,
                               accounts: set<Address>)
  {
    if accounts == {} then b' == b else Promotes(b, mid, b', st, locals, config, accounts)
  }

  lemma PromotesNone(b: Books, mid: Books, st: ChainState, locals: set<Address>, config: Config)
    ensures PromotesSome(b, mid, b, st, locals, config, {})
  {
  }

  lemma PromotesAll(b: Books, mid: Books, b': Books, st: ChainState, locals: set<Address>, config: Config,
                    accounts: set<Address>)
    requires accounts != {} && Promotes(b, mid, b', st, locals, config, accounts)
    ensures PromotesSome(b, mid, b', st, locals, config, accounts)
  {
  }

  lemma PromotesIs(b: Books, mid: Books, b': Books, st: ChainState, locals: set<Address>, config: Config,
                   accounts: set<Address>)
    ensures Promotes(b, mid, b', st, locals, config, accounts) <==>
      && PromotedIn(b, mid, st, locals, config.accountQueue, accounts)
      && Leveling(mid.pending, b'.pending, locals, config.accountSlots, config.globalSlots)
      && Trimmed(mid.queue, b'.queue, locals, config.globalQueue)
      && RolledBack(mid, b', st)
      && Total(mid.pending) <= |b.all| && (Total(mid.pending) <= config.globalSlots ==> b'.virtuals == mid.virtuals)
  {
  }

  /** One transaction of a batch: the books it meets, those after room was made, those it leaves, the local senders it
      meets, and the answer. */
  datatype Addition = Addition(before: Books, items: multiset<Tx>, room: Books, after: Books, locals: set<Address>, answer: AddResult)

  ghost function BooksAfter(steps: seq<Addition>, b: Books): Books {
    if steps == [] then b else steps[|steps| - 1].after
  }

  ghost function LocalsAfter(steps: seq<Addition>, locals: set<Address>, txs: seq<(Tx, bool)>, local: bool): set<Address>
    requires |steps| == |txs|
  {
    if steps == [] then locals
    else
      var step := steps[|steps| - 1];
      step.locals + NewLocal(step.room, txs[|txs| - 1].0, local, step.answer)
  }

  ghost function AnswersOf(steps: seq<Addition>): seq<AddResult> {
    seq(|steps|, i requires 0 <= i < |steps| => steps[i].answer)
  }

  /** The senders that got a new transaction. */
  ghost function NewSenders(steps: seq<Addition>, txs: seq<(Tx, bool)>): set<Address>
    requires |steps| == |txs|
  {
    set i | 0 <= i < |steps| && steps[i].answer == Added(false) :: txs[i].0.from
  }

  /** Every transaction of the batch is answered in turn, on the books the one before it left. */
  ghost predicate Replies(steps: seq<Addition>, b: Books, locals: set<Address>, st: ChainState, config: Config,
                          gasPrice: nat, txs: seq<(Tx, bool)>, local: bool)
  {
    && |steps| == |txs|
    && forall i: nat | i < |steps| ::
         && steps[i].before == BooksAfter(steps[..i], b)
         && steps[i].locals == LocalsAfter(steps[..i], locals, txs[..i], local)
         && Answered(steps[i].before, steps[i].items, steps[i].room, steps[i].after, st, steps[i].locals, config, gasPrice,
                     txs[i].0, local, txs[i].1, steps[i].answer)
  }

  /** Every new transaction is one of the batch that was accepted. */
  ghost predicate OnlyListed(b: Books, b': Books, txs: seq<(Tx, bool)>, results: seq<AddResult>) {
    |results| == |txs| &&
    forall t | Live(b'.all, t) && !Live(b.all, t) :: exists i :: 0 <= i < |txs| && txs[i].0 == t && results[i].Added?
  }

  ghost predicate OutbidBySome(t: Tx, txs: seq<(Tx, bool)>, bump: nat) {
    exists i :: 0 <= i < |txs| && t.from == txs[i].0.from && t.nonce == txs[i].0.nonce && Outbids(txs[i].0, t, bump)
  }

  /** A local sender lost only transactions that are too old, unpayable or outbid by one of the batch. */
  ghost predicate LostOnlyToSome(b: Books, b': Books, st: ChainState, locals: set<Address>, txs: seq<(Tx, bool)>, bump: nat) {
    forall t | Live(b.all, t) && !Live(b'.all, t) && t.from in locals ::
      t.nonce < NonceOf(st, t.from) || !CanPay(st, t) || OutbidBySome(t, txs, bump)
  }

  lemma StartReplies(b: Books, locals: set<Address>, st: ChainState, config: Config, gasPrice: nat,
                     txs: seq<(Tx, bool)>, local: bool)
    ensures Replies([], b, locals, st, config, gasPrice, txs[..0], local) && AnswersOf([]) == [] && NewSenders([], txs[..0]) == {}
    ensures BooksAfter([], b) == b && LocalsAfter([], locals, txs[..0], local) == locals
    ensures OnlyListed(b, b, txs[..0], []) && forall bump :: LostOnlyToSome(b, b, st, locals, txs[..0], bump)
  {
  }

  lemma LastStep(steps: seq<Addition>, step: Addition, b: Books, locals: set<Address>, txs: seq<(Tx, bool)>,
                 tx: (Tx, bool), local: bool)
    requires |steps| == |txs|
    ensures AnswersOf(steps + [step]) == AnswersOf(steps) + [step.answer] && BooksAfter(steps + [step], b) == step.after
    ensures LocalsAfter(steps + [step], locals, txs + [tx], local) == step.locals + NewLocal(step.room, tx.0, local, step.answer)
    ensures NewSenders(steps + [step], txs + [tx]) ==
              NewSenders(steps, txs) + if step.answer == Added(false) then {tx.0.from} else {}
  {
    hide NewLocal;
    var more, txs' := steps + [step], txs + [tx];
    var s, t := NewSenders(more, txs'), NewSenders(steps, txs) + if step.answer == Added(false) then {tx.0.from} else {};
    forall a | a in s ensures a in t {
      var i :| 0 <= i < |more| && more[i].answer == Added(false) && txs'[i].0.from == a;
      if i < |steps| { assert steps[i].answer == Added(false) && txs[i].0.from == a; }
    }
    forall a | a in t ensures a in s {
      if a in NewSenders(steps, txs) {
        var i :| 0 <= i < |steps| && steps[i].answer == Added(false) && txs[i].0.from == a;
        assert more[i].answer == Added(false) && txs'[i].0.from == a;
      } else {
        assert more[|steps|].answer == Added(false) && txs'[|steps|].0.from == a;
      }
    }
  }

  lemma RepliesMore(steps: seq<Addition>, step: Addition, b: Books, locals: set<Address>, st: ChainState, config: Config,
                    gasPrice: nat, txs: seq<(Tx, bool)>, tx: (Tx, bool), local: bool)
    requires Replies(steps, b, locals, st, config, gasPrice, txs, local) && |steps| == |txs|
    requires step.before == BooksAfter(steps, b) && step.locals == LocalsAfter(steps, locals, txs, local)
    requires Answered(step.before, step.items, step.room, step.after, st, step.locals, config, gasPrice, tx.0, local, tx.1, step.answer)
    ensures Replies(steps + [step], b, locals, st, config, gasPrice, txs + [tx], local)
    ensures AnswersOf(steps + [step]) == AnswersOf(steps) + [step.answer] && BooksAfter(steps + [step], b) == step.after
    ensures LocalsAfter(steps + [step], locals, txs + [tx], local) == step.locals + NewLocal(step.room, tx.0, local, step.answer)
    ensures NewSenders(steps + [step], txs + [tx]) ==
              NewSenders(steps, txs) + if step.answer == Added(false) then {tx.0.from} else {}
  {
    hide Answered, BooksAfter, LocalsAfter;
    var more, txs' := steps + [step], txs + [tx];
    forall i: nat | i < |more|
      ensures more[i].before == BooksAfter(more[..i], b) && more[i].locals == LocalsAfter(more[..i], locals, txs'[..i], local)
      ensures Answered(more[i].before, more[i].items, more[i].room, more[i].after, st, more[i].locals, config, gasPrice,
                       txs'[i].0, local, txs'[i].1, more[i].answer)
    {
      assert more[..i] == if i < |steps| then steps[..i] else steps;
      assert txs'[..i] == if i < |txs| then txs[..i] else txs;
    }
    LastStep(steps, step, b, locals, txs, tx, local);
  }

  lemma {:induction false} RemoteLocals(steps: seq<Addition>, b: Books, locals: set<Address>, st: ChainState, config: Config,
                                        gasPrice: nat, txs: seq<(Tx, bool)>, i: nat)
    requires Replies(steps, b, locals, st, config, gasPrice, txs, false) && i <= |steps|
    ensures LocalsAfter(steps[..i], locals, txs[..i], false) == locals
  {
    hide Answered;
    if i > 0 {
      RemoteLocals(steps, b, locals, st, config, gasPrice, txs, i - 1);
      assert steps[..i][i - 1] == steps[i - 1];
    }
  }

  /** A remote batch adds no local sender, and an empty one changes nothing. */
  lemma RemoteBatch(steps: seq<Addition>, b: Books, mid: Books, b': Books, locals: set<Address>, st: ChainState,
                    config: Config, gasPrice: nat, txs: seq<(Tx, bool)>)
    requires Replies(steps, b, locals, st, config, gasPrice, txs, false)
    requires PromotesSome(BooksAfter(steps, b), mid, b', st, LocalsAfter(steps, locals, txs, false), config, NewSenders(steps, txs))
    ensures |steps| == |txs| && LocalsAfter(steps, locals, txs, false) == locals
    ensures txs == [] ==> b' == b
  {
    hide Promotes, Answered;
    RemoteLocals(steps, b, locals, st, config, gasPrice, txs, |steps|);
    assert steps[..|steps|] == steps && txs[..|txs|] == txs;
  }

  lemma ListedMore(b: Books, b1: Books, b2: Books, txs: seq<(Tx, bool)>, tx: (Tx, bool), results: seq<AddResult>, r: AddResult)
    requires OnlyListed(b, b1, txs, results) && OnlyNew(b1, b2, tx.0, r)
    ensures OnlyListed(b, b2, txs + [tx], results + [r])
  {
    hide Live;
    var txs', results' := txs + [tx], results + [r];
    forall t | Live(b2.all, t) && !Live(b.all, t) ensures exists i :: 0 <= i < |txs'| && txs'[i].0 == t && results'[i].Added? {
      if Live(b1.all, t) {
        var i :| 0 <= i < |txs| && txs[i].0 == t && results[i].Added?;
        assert txs'[i].0 == t && results'[i].Added?;
      } else {
        assert txs'[|txs|].0 == t && results'[|txs|].Added?;
      }
    }
  }

  lemma ListedStill(b: Books, b1: Books, b2: Books, st: ChainState, locals: set<Address>, txs: seq<(Tx, bool)>,
                    results: seq<AddResult>)
    requires OnlyListed(b, b1, txs, results) && Keeps(b1, b2, st, locals)
    ensures OnlyListed(b, b2, txs, results)
  {
    hide KeepsOrder, StaySettled, LocalsKept;
  }

  lemma OutbidMore(t: Tx, txs: seq<(Tx, bool)>, tx: (Tx, bool), bump: nat)
    ensures OutbidBySome(t, txs, bump) ==> OutbidBySome(t, txs + [tx], bump)
  {
    hide Outbids;
    if OutbidBySome(t, txs, bump) {
      var i :| 0 <= i < |txs| && t.from == txs[i].0.from && t.nonce == txs[i].0.nonce && Outbids(txs[i].0, t, bump);
      assert (txs + [tx])[i] == txs[i];
    }
  }

  lemma LostMore(b: Books, b1: Books, b2: Books, st: ChainState, locals: set<Address>, locals': set<Address>,
                 txs: seq<(Tx, bool)>, tx: (Tx, bool), bump: nat)
    requires LostOnlyToSome(b, b1, st, locals, txs, bump) && LostOnlyTo(b1, b2, st, locals', tx.0, bump) && locals <= locals'
    ensures LostOnlyToSome(b, b2, st, locals, txs + [tx], bump)
  {
    hide Live, CanPay, Outbids, NonceOf;
    forall t ensures OutbidBySome(t, txs, bump) ==> OutbidBySome(t, txs + [tx], bump) {
      OutbidMore(t, txs, tx, bump);
    }
    forall t: Tx | t.from == tx.0.from && t.nonce == tx.0.nonce && Outbids(tx.0, t, bump) ensures OutbidBySome(t, txs + [tx], bump) {
      assert (txs + [tx])[|txs|] == tx;
    }
    hide OutbidBySome;
  }

  lemma LostStill(b: Books, b1: Books, b2: Books, st: ChainState, locals: set<Address>, locals': set<Address>,
                  txs: seq<(Tx, bool)>, bump: nat)
    requires LostOnlyToSome(b, b1, st, locals, txs, bump) && Keeps(b1, b2, st, locals') && locals <= locals'
    ensures LostOnlyToSome(b, b2, st, locals, txs, bump)
  {
    hide KeepsOrder, StaySettled, CanPay, OutbidBySome;
  }

  lemma OnlyNewStill(b: Books, b1: Books, b2: Books, st: ChainState, locals: set<Address>, tx: Tx, r: AddResult)
    requires OnlyNew(b, b1, tx, r) && Keeps(b1, b2, st, locals)
    ensures OnlyNew(b, b2, tx, r)
  {
    hide KeepsOrder, StaySettled, LocalsKept;
  }

  lemma SettledThrough(b: Books, b': Books, st: ChainState)
    requires StaySettled(b, b', st, {})
    ensures AllSettled(b, st) ==> AllSettled(b', st)
  {
    hide SettledAt;
  }

  lemma SettledAgain(b: Books, b1: Books, b2: Books, st: ChainState, locals: set<Address>, dirty: set<Address>)
    requires StaySettled(b, b1, st, dirty) && Keeps(b1, b2, st, locals) && SettledIn(b2, st, dirty)
    ensures AllSettled(b, st) ==> AllSettled(b2, st)
  {
    hide SettledAt, KeepsOrder, LocalsKept, NothingNew;
  }

  lemma OrderTrans(b: Books, b1: Books, b2: Books, st: ChainState, locals: set<Address>)
    requires KeepsOrder(b, b1, st) && Keeps(b1, b2, st, locals)
    ensures KeepsOrder(b, b2, st)
  {
    hide GapFree, Rooted, Started, StaySettled, LocalsKept, NothingNew;
  }

  lemma LostTrans(b: Books, b1: Books, b2: Books, st: ChainState, locals: set<Address>, locals': set<Address>,
                  tx: Tx, bump: nat)
    requires LostOnlyTo(b, b1, st, locals, tx, bump) && Keeps(b1, b2, st, locals') && locals <= locals'
    ensures LostOnlyTo(b, b2, st, locals, tx, bump)
  {
    hide KeepsOrder, StaySettled, Outbids, CanPay;
  }

  lemma StartBatch(b: Books, st: ChainState)
    ensures KeepsOrder(b, b, st) && StaySettled(b, b, st, {})
  {
    hide GapFree, Rooted, Started, SettledAt;
  }

  lemma BatchStep(b: Books, b1: Books, b2: Books, st: ChainState, dirty: set<Address>, more: set<Address>)
    requires KeepsOrder(b, b1, st) && KeepsOrder(b1, b2, st)
    requires StaySettled(b, b1, st, dirty) && StaySettled(b1, b2, st, more)
    ensures KeepsOrder(b, b2, st) && StaySettled(b, b2, st, dirty + more)
  {
    hide GapFree, Rooted, Started, SettledAt;
  }

  /** Fresh managed nonces are all state nonces, so every account is rooted. */
  lemma ManagedAnew(b0: Books, b1: Books, st0: ChainState, st: ChainState)
    requires Coherent(b0, {}) && b1 == b0.(virtuals := map[])
    ensures Coherent(b1, {}) && Rooted(b1, st)
  {
    ReVirtual(b0, map[], {});
  }

  lemma RootedThrough(b: Books, b': Books, st: ChainState)
    requires KeepsOrder(b, b', st) && Rooted(b, st)
    ensures Rooted(b', st)
  {
    hide GapFree, Rooted, Started;
  }

  lemma DemotedReady(b2: Books, b3: Books, st: ChainState)
    requires NoEmpty(b3.pending) && AllClean(b3, st) && Rooted(b3, st)
    ensures Rooted(Renumbered(b3), st) && Started(Renumbered(b3), st)
  {
    assert forall a :: CleanAt(b3, st, a);
    hide *;
    RenumberedKeeps(b3, st);
  }

  lemma RenumberedAll(b: Books, st: ChainState)
    requires NoEmpty(b.pending)
    ensures Renumbered(b).all == b.all && Renumbered(b).pending == b.pending && Renumbered(b).queue == b.queue
  {
  }

  lemma ResetDone(b: Books, b': Books, st: ChainState, locals: set<Address>)
    requires Rooted(b, st) && Started(b, st) && Keeps(b, b', st, locals) && SettledIn(b', st, b.queue.Keys)
    ensures Rooted(b', st) && Started(b', st) && AllSettled(b', st)
    ensures GapFree(b, st) ==> GapFree(b', st)
  {
    hide GapFree, Rooted, Started, LocalsKept, NothingNew;
    forall a ensures SettledAt(b', st, a) {
      if a !in b.queue { assert SettledAt(b, st, a); }
    }
  }

  /** Gap-freeness after the renumbering, on the books before it. */
  lemma RenumberedExactly(b: Books, st: ChainState)
    requires NoEmpty(b.pending) && AllClean(b, st) && Rooted(b, st)
    ensures GapFree(Renumbered(b), st) <==> AllClosed(b, st) && AllCaughtUp(b, st)
  {
    assert forall a :: CleanAt(b, st, a);
    hide CleanAt, ClosedAt, CaughtUpAt, GapFree, Rooted;
    RenumberedGapFree(b, st);
  }

  lemma NotLeveled(p: Lists, p': Lists, locals: set<Address>, slots: nat, limit: nat)
    requires Leveling(p, p', locals, slots, limit) && Total(p) <= limit
    ensures p' == p
  {
  }

  lemma ResetBack(d: Books, mid: Books, b': Books, st: ChainState, locals: set<Address>, config: Config)
    requires NoEmpty(d.pending) && Coherent(Renumbered(d), {}) && Rooted(Renumbered(d), st)
    requires Promotes(Renumbered(d), mid, b', st, locals, config, d.queue.Keys)
    ensures Total(mid.pending) <= config.globalSlots && GapFree(b', st) ==> GapFree(Renumbered(d), st)
  {
    hide *;
    PromotesIs(Renumbered(d), mid, b', st, locals, config, d.queue.Keys);
    if Total(mid.pending) <= config.globalSlots && GapFree(b', st) {
      NotLeveled(mid.pending, b'.pending, locals, config.accountSlots, config.globalSlots);
      PromotedBack(d, mid, b', st, locals, config.accountQueue);
    }
  }

  /** Without reinjected transactions the demotion leaves no gap, whatever the new state is. */
  lemma UnforcedReset(b0: Books, b1: Books, b2: Books, b3: Books, st0: ChainState, st: ChainState)
    requires Coherent(b1, {}) && b1 == b0.(virtuals := map[]) && GapFree(b0, st0)
    requires DemotedIn(b2, b3, st, b2.pending.Keys)
    ensures b2 == b1 ==> AllClosed(b3, st) && AllCaughtUp(b3, st)
  {
    hide *;
    if b2 == b1 {
      GapFreeRanged(b0, st0);
      PromotedInNone(b1, st, {}, 0);
      ReinjectedExactly(b1, b1, b2, b3, st, {}, 0, {});
    }
  }

  // Reinjection into a pool that has room for it.

  /** The answer to a remote transaction and the books it leaves, if the pool is not full. */
  ghost function Admission(b: Books, st: ChainState, locals: set<Address>, gasPrice: nat, bump: nat, tx: Tx, sane: bool)
    : (AddResult, Books)
  {
    var invalid := Validate(st, gasPrice, locals, tx, false, sane);
    var overlaps := Slot(b.pending, tx.from, tx.nonce);
    if Live(b.all, tx) then (Refused(Known), b)
    else if invalid.Some? then (Refused(invalid.value), b)
    else if !Accepts(ListOf(if overlaps then b.pending else b.queue, tx.from), tx, bump) then (Refused(ReplaceUnderpriced), b)
    else if overlaps then (Added(true), Replaced(b, tx))
    else (Added(Slot(b.queue, tx.from, tx.nonce)), Enqueued(b, tx))
  }

  /** The books after a remote batch, and the senders with a new transaction, if the pool does not fill up. */
  ghost function Reinjected(b: Books, st: ChainState, locals: set<Address>, gasPrice: nat, bump: nat, txs: seq<(Tx, bool)>)
    : (Books, set<Address>)
    decreases |txs|
  {
    if txs == [] then (b, {})
    else
      var last := txs[|txs| - 1];
      var (b1, dirty) := Reinjected(b, st, locals, gasPrice, bump, txs[..|txs| - 1]);
      var (r, b2) := Admission(b1, st, locals, gasPrice, bump, last.0, last.1);
      (b2, dirty + if r == Added(false) then {last.0.from} else {})
  }

  /** No sender's promoted run ends short of a pending list that stays. */
  ghost predicate NoneTorn(added: (Books, set<Address>), st: ChainState) {
    forall a | a in added.1 :: !Torn(added.0, st, a)
  }

  ghost predicate NoneOf(txs: seq<(Tx, bool)>, a: Address) {
    forall i | 0 <= i < |txs| :: txs[i].0.from != a
  }

  lemma AdmissionExact(b: Books, items: multiset<Tx>, mid: Books, b': Books, st: ChainState, locals: set<Address>, config: Config, gasPrice: nat,
                       tx: Tx, sane: bool, r: AddResult)
    requires Answered(b, items, mid, b', st, locals, config, gasPrice, tx, false, sane, r)
    requires |b.all| < config.globalSlots + config.globalQueue
    ensures (r, b') == Admission(b, st, locals, gasPrice, config.priceBump, tx, sane)
  {
    hide Validate, Accepts, Replaced, Enqueued, Keeps, WorstFirst, RoomMade, Candidates;
  }

  lemma AdmissionCases(b: Books, st: ChainState, locals: set<Address>, gasPrice: nat, bump: nat, tx: Tx, sane: bool)
    ensures var b' := Admission(b, st, locals, gasPrice, bump, tx, sane).1;
      b' == b || b' == if Slot(b.pending, tx.from, tx.nonce) then Replaced(b, tx) else Enqueued(b, tx)
  {
    hide Validate, Accepts, Replaced, Enqueued;
  }

  lemma AdmittedCoherent(b: Books, tx: Tx)
    requires Coherent(b, {}) && Slot(b.pending, tx.from, tx.nonce)
    ensures Coherent(Replaced(b, tx), {})
  {
    assert !Slot(b.queue, tx.from, tx.nonce);
    hide *;
    ReplacedCoherent(b, tx);
  }

  lemma SubsetSize(s: set<TxHash>, t: set<TxHash>)
    requires s <= t
    ensures |s| <= |t|
  {
    assert t == s + (t - s);
  }

  lemma TableGrows(all: Lookup, gone: set<TxHash>, tx: Tx)
    ensures |(all - gone)[TxHash(tx) := tx]| <= |all| + 1
  {
    var less := all - gone;
    assert less.Keys <= all.Keys;
    SubsetSize(less.Keys, all.Keys);
    assert |less.Keys| == |less| && |all.Keys| == |all|;
    assert less[TxHash(tx) := tx].Keys == less.Keys + {TxHash(tx)};
    assert |less[TxHash(tx) := tx].Keys| == |less[TxHash(tx) := tx]|;
  }

  lemma ReplacedParts(b: Books, tx: Tx)
    requires Slot(b.pending, tx.from, tx.nonce)
    ensures var b' := Replaced(b, tx);
      b'.virtuals == b.virtuals && |b'.all| <= |b.all| + 1 && forall a :: ListOf(b'.pending, a).Keys == ListOf(b.pending, a).Keys
  {
    TableGrows(b.all, Hashes(Values(Displaced(b.pending, tx))), tx);
    hide Displaced, Hashes, Values;
    forall a ensures ListOf(Filing(b.pending, tx), a).Keys == ListOf(b.pending, a).Keys {
    }
  }

  lemma EnqueuedParts(b: Books, tx: Tx)
    ensures var b' := Enqueued(b, tx); b'.virtuals == b.virtuals && |b'.all| <= |b.all| + 1 && b'.pending == b.pending
  {
    TableGrows(b.all, Hashes(Values(Displaced(b.queue, tx))), tx);
    hide Displaced, Hashes, Values, Filing;
  }

  /** One admission leaves the virtual nonces and the pending nonces as they are. */
  lemma AdmissionKeeps(b: Books, st: ChainState, locals: set<Address>, gasPrice: nat, bump: nat, tx: Tx, sane: bool)
    requires Coherent(b, {})
    ensures var b' := Admission(b, st, locals, gasPrice, bump, tx, sane).1;
      && Coherent(b', {}) && b'.virtuals == b.virtuals && |b'.all| <= |b.all| + 1
      && forall a :: ListOf(b'.pending, a).Keys == ListOf(b.pending, a).Keys
  {
    hide Validate, Accepts;
    if Slot(b.pending, tx.from, tx.nonce) {
      AdmittedCoherent(b, tx);
      ReplacedParts(b, tx);
    } else {
      EnqueuedCoherent(b, tx);
      EnqueuedParts(b, tx);
    }
    hide *;
    AdmissionCases(b, st, locals, gasPrice, bump, tx, sane);
  }

  lemma {:induction false} ReinjectedKeeps(b: Books, st: ChainState, locals: set<Address>, gasPrice: nat, bump: nat,
                                           txs: seq<(Tx, bool)>)
    requires Coherent(b, {})
    ensures var (b', dirty) := Reinjected(b, st, locals, gasPrice, bump, txs);
      && Coherent(b', {}) && b'.virtuals == b.virtuals && |b'.all| <= |b.all| + |txs|
      && (forall a :: ListOf(b'.pending, a).Keys == ListOf(b.pending, a).Keys)
      && forall a | a in dirty :: !NoneOf(txs, a)
    decreases |txs|
  {
    hide Coherent, Admission, ListOf;
    if txs != [] {
      var last := txs[|txs| - 1];
      ReinjectedKeeps(b, st, locals, gasPrice, bump, txs[..|txs| - 1]);
      var b1 := Reinjected(b, st, locals, gasPrice, bump, txs[..|txs| - 1]).0;
      AdmissionKeeps(b1, st, locals, gasPrice, bump, last.0, last.1);
      forall a | !NoneOf(txs[..|txs| - 1], a) ensures !NoneOf(txs, a) {
      }
      assert !NoneOf(txs, last.0.from);
    }
  }

  lemma RepliesLong(steps: seq<Addition>, b: Books, locals: set<Address>, st: ChainState, config: Config, gasPrice: nat,
                    txs: seq<(Tx, bool)>)
    requires Replies(steps, b, locals, st, config, gasPrice, txs, false)
    ensures |steps| == |txs|
  {
    hide Answered, BooksAfter, LocalsAfter;
  }

  lemma NoSteps(steps: seq<Addition>, b: Books, txs: seq<(Tx, bool)>, st: ChainState, locals: set<Address>, gasPrice: nat, bump: nat)
    ensures (BooksAfter(steps[..0], b), NewSenders(steps[..0], txs[..0])) == Reinjected(b, st, locals, gasPrice, bump, txs[..0])
  {
    assert NewSenders(steps[..0], txs[..0]) == {};
  }

  lemma OneMore<T>(s: seq<T>, i: nat)
    requires 0 < i <= |s|
    ensures s[..i] == s[..i - 1] + [s[i - 1]]
  {
  }

  lemma RepliesAt(steps: seq<Addition>, b: Books, locals: set<Address>, st: ChainState, config: Config, gasPrice: nat,
                  txs: seq<(Tx, bool)>, i: nat)
    requires Replies(steps, b, locals, st, config, gasPrice, txs, false) && i < |steps|
    ensures |steps| == |txs| && steps[i].before == BooksAfter(steps[..i], b)
    ensures steps[i].locals == LocalsAfter(steps[..i], locals, txs[..i], false)
    ensures Answered(steps[i].before, steps[i].items, steps[i].room, steps[i].after, st, steps[i].locals, config, gasPrice,
                     txs[i].0, false, txs[i].1, steps[i].answer)
  {
    hide Answered, BooksAfter, LocalsAfter;
  }

  lemma ReinjectedMore(b: Books, st: ChainState, locals: set<Address>, gasPrice: nat, bump: nat, txs: seq<(Tx, bool)>,
                       last: (Tx, bool))
    ensures Reinjected(b, st, locals, gasPrice, bump, txs + [last]) ==
      (var (b1, dirty) := Reinjected(b, st, locals, gasPrice, bump, txs);
       var (r, b2) := Admission(b1, st, locals, gasPrice, bump, last.0, last.1);
       (b2, dirty + if r == Added(false) then {last.0.from} else {}))
  {
    hide Admission;
    var more := txs + [last];
    assert more[..|more| - 1] == txs && more[|more| - 1] == last;
  }

  /** A trace of answers in a pool that never fills up is the reinjection. */
  lemma {:induction false} RepliesExactly(steps: seq<Addition>, b: Books, locals: set<Address>, st: ChainState, config: Config,
                                          gasPrice: nat, txs: seq<(Tx, bool)>, i: nat)
    requires Coherent(b, {}) && Replies(steps, b, locals, st, config, gasPrice, txs, false) && i <= |steps|
    requires |b.all| + |txs| <= config.globalSlots + config.globalQueue
    ensures (BooksAfter(steps[..i], b), NewSenders(steps[..i], txs[..i])) ==
              Reinjected(b, st, locals, gasPrice, config.priceBump, txs[..i])
  {
    hide *;
    RepliesLong(steps, b, locals, st, config, gasPrice, txs);
    if i == 0 {
      NoSteps(steps, b, txs, st, locals, gasPrice, config.priceBump);
    } else {
      var step, last := steps[i - 1], txs[i - 1];
      OneMore(steps, i);
      OneMore(txs, i);
      RepliesExactly(steps, b, locals, st, config, gasPrice, txs, i - 1);
      RepliesAt(steps, b, locals, st, config, gasPrice, txs, i - 1);
      RemoteLocals(steps, b, locals, st, config, gasPrice, txs, i - 1);
      ReinjectedKeeps(b, st, locals, gasPrice, config.priceBump, txs[..i - 1]);
      AdmissionExact(step.before, step.items, step.room, step.after, st, locals, config, gasPrice, last.0, last.1, step.answer);
      LastStep(steps[..i - 1], step, b, locals, txs[..i - 1], last, false);
      ReinjectedMore(b, st, locals, gasPrice, config.priceBump, txs[..i - 1], last);
    }
  }

  lemma RangedStill(p: Lists, p': Lists)
    requires AllRanged(p) && forall a :: ListOf(p', a).Keys == ListOf(p, a).Keys
    ensures AllRanged(p')
  {
    hide ListOf;
    forall a ensures Ranged(ListOf(p', a)) {
      assert Ranged(ListOf(p, a));
      assert forall n :: n in ListOf(p', a) <==> n in ListOf(p, a);
    }
  }

  lemma {:induction false} ListedHashes(txs: seq<(Tx, bool)>)
    ensures |set i | 0 <= i < |txs| :: TxHash(txs[i].0)| <= |txs|
    decreases |txs|
  {
    if txs != [] {
      var rest, k := txs[..|txs| - 1], |txs| - 1;
      ListedHashes(rest);
      assert (set i | 0 <= i < |txs| :: TxHash(txs[i].0)) == (set i | 0 <= i < |rest| :: TxHash(rest[i].0)) + {TxHash(txs[k].0)};
    }
  }

  lemma ListedSize(b: Books, b': Books, txs: seq<(Tx, bool)>, results: seq<AddResult>)
    requires OnlyListed(b, b', txs, results) && WellKeyed(b'.all)
    ensures |b'.all| <= |b.all| + |txs|
  {
    var listed := set i | 0 <= i < |txs| :: TxHash(txs[i].0);
    ListedHashes(txs);
    forall h | h in b'.all.Keys ensures h in b.all.Keys + listed {
      assert Live(b'.all, h.of);
      if !Live(b.all, h.of) {
        var i :| 0 <= i < |txs| && txs[i].0 == h.of;
      }
    }
    SubsetSize(b'.all.Keys, b.all.Keys + listed);
    KeysSize(b.all);
    KeysSize(b'.all);
  }

  lemma LessLiveSize(b: Books, b': Books)
    requires NothingNew(b, b') && WellKeyed(b'.all)
    ensures |b'.all| <= |b.all|
  {
    forall h | h in b'.all.Keys ensures h in b.all.Keys {
      assert Live(b'.all, h.of);
    }
    SubsetSize(b'.all.Keys, b.all.Keys);
    KeysSize(b.all);
    KeysSize(b'.all);
  }

  lemma NoneTornIs(b: Books, dirty: set<Address>, st: ChainState)
    ensures NoneTorn((b, dirty), st) <==> forall a | a in dirty :: !Torn(b, st, a)
  {
    hide Torn;
  }

  lemma RoomySizes(b1: Books, b2: Books, b3: Books, txs: seq<(Tx, bool)>, results: seq<AddResult>)
    requires Coherent(b2, {}) && Coherent(b3, {}) && OnlyListed(b1, b2, txs, results) && NothingNew(b2, b3)
    ensures |b3.all| <= |b1.all| + |txs|
  {
    CoherentKeyed(b2, b3);
    hide *;
    ListedSize(b1, b2, txs, results);
    LessLiveSize(b2, b3);
  }

  lemma RoomyBooks(b0: Books, b1: Books, st0: ChainState, st: ChainState, locals: set<Address>, config: Config,
                   gasPrice: nat, txs: seq<(Tx, bool)>, steps: seq<Addition>)
    requires Coherent(b1, {}) && b1 == b0.(virtuals := map[]) && GapFree(b0, st0)
    requires Replies(steps, b1, locals, st, config, gasPrice, txs, false)
    requires |b0.all| + |txs| <= config.globalSlots + config.globalQueue
    ensures |steps| == |txs|
    ensures var (added, dirty) := Reinjected(b1, st, locals, gasPrice, config.priceBump, txs);
      && (BooksAfter(steps, b1), NewSenders(steps, txs)) == (added, dirty)
      && Coherent(added, {}) && added.virtuals == map[] && AllRanged(added.pending) && |added.all| <= |b0.all| + |txs|
      && (forall a :: ListOf(added.pending, a).Keys == ListOf(b0.pending, a).Keys) && forall a | a in dirty :: !NoneOf(txs, a)
  {
    assert |steps| == |txs|;
    assert steps[..|txs|] == steps && txs[..|txs|] == txs;
    hide *;
    RepliesExactly(steps, b1, locals, st, config, gasPrice, txs, |txs|);
    ReinjectedKeeps(b1, st, locals, gasPrice, config.priceBump, txs);
    GapFreeRanged(b0, st0);
    RangedStill(b1.pending, Reinjected(b1, st, locals, gasPrice, config.priceBump, txs).0.pending);
  }

  ghost function PassList(added: (Books, set<Address>), st: ChainState, a: Address): map<nat, Tx> {
    ListOf(added.0.pending, a) + if a in added.1 then Executable(added.0, st, a) else map[]
  }

  /** The pending lists after the first promotion of a reset. */
  ghost function PassLists(added: (Books, set<Address>), st: ChainState): Lists {
    map a | a in added.0.pending.Keys + added.1 :: PassList(added, st, a)
  }

  /** The pool does not fill up while the transactions are reinjected, and what is promoted then fits the slots. */
  ghost predicate HasRoom(b: Books, added: (Books, set<Address>), st: ChainState, config: Config, txs: seq<(Tx, bool)>) {
    |b.all| + |txs| <= config.globalSlots + config.globalQueue && Total(PassLists(added, st)) <= config.globalSlots
  }

  lemma PassListIs(added: (Books, set<Address>), st: ChainState, a: Address)
    ensures ListOf(PassLists(added, st), a) == PassList(added, st, a)
  {
    hide Executable;
  }

  lemma PassHeld(m: Lists, all: Lookup)
    requires forall a | a in m :: FiledAt(m[a], a) && forall n | n in m[a] :: Live(all, m[a][n])
    ensures Filed(m) && forall t | Holds(m, t) :: TxHash(t) in all.Keys
  {
  }

  lemma PassLive(added: (Books, set<Address>), st: ChainState, a: Address)
    requires Coherent(added.0, {})
    ensures var l := PassList(added, st, a); FiledAt(l, a) && forall n | n in l :: Live(added.0.all, l[n])
  {
    var b, l := added.0, PassList(added, st, a);
    assert Filed(b.queue);
    PartsOf(b, st, {}, 0, a);
    QueuedApart(b, a);
    hide Executable, Current, Retained;
    forall n | n in l ensures Holds(b.pending, l[n]) || Holds(b.queue, l[n]) {
      if a in added.1 && n in Executable(b, st, a) {
        assert n in ListOf(b.queue, a) && l[n] == ListOf(b.queue, a)[n];
      } else {
        assert n in ListOf(b.pending, a) && l[n] == ListOf(b.pending, a)[n];
      }
    }
  }

  /** The first promotion leaves no more pending transactions than there are in the pool. */
  lemma PassFits(added: (Books, set<Address>), st: ChainState)
    requires Coherent(added.0, {})
    ensures Total(PassLists(added, st)) <= |added.0.all|
  {
    var b, m := added.0, PassLists(added, st);
    forall a | a in m ensures FiledAt(m[a], a) && forall n | n in m[a] :: Live(b.all, m[a][n]) {
      PassListIs(added, st, a);
      PassLive(added, st, a);
    }
    hide *;
    PassHeld(m, b.all);
    ListsFit(m, b.all.Keys);
    KeysSize(b.all);
  }

  lemma PassTotal(b: Books, mid: Books, st: ChainState, locals: set<Address>, cap: nat, dirty: set<Address>)
    requires Coherent(b, {}) && b.virtuals == map[] && PromotedIn(b, mid, st, locals, cap, dirty)
    ensures Total(mid.pending) <= Total(PassLists((b, dirty), st))
  {
    assert Filed(b.queue);
    hide Coherent, Filed, Promoted, Executable, Total, PassLists, SameLists, ListOf;
    var m := PassLists((b, dirty), st);
    forall a ensures |ListOf(mid.pending, a)| <= |ListOf(m, a)| {
      assert SameLists(if a in dirty then Promoted(b, st, locals, cap, a) else b, mid, st, a);
      FreshPromotion(b, mid, st, locals, cap, dirty, a);
      PassListIs((b, dirty), st, a);
    }
    TotalNoLonger(m, mid.pending);
  }

  lemma PromotesSomeIs(b: Books, mid: Books, b': Books, st: ChainState, locals: set<Address>, config: Config,
                       accounts: set<Address>)
    ensures PromotesSome(b, mid, b', st, locals, config, accounts) <==>
      if accounts == {} then b' == b else Promotes(b, mid, b', st, locals, config, accounts)
  {
    hide Promotes;
  }

  lemma TrimmedLess(q: Lists, q': Lists, locals: set<Address>, limit: nat)
    requires Trimmed(q, q', locals, limit)
    ensures forall a :: ListOf(q', a).Keys <= ListOf(q, a).Keys
  {
    hide Lowest, ListOf, Total;
    forall a ensures ListOf(q', a).Keys <= ListOf(q, a).Keys {
      assert ListOf(q', a) == Lowest(ListOf(q, a), |ListOf(q', a)|);
    }
  }

  /** With room, nothing is cut after the first promotion. */
  lemma RoomyPass(b: Books, mid: Books, b2: Books, st: ChainState, locals: set<Address>, config: Config, dirty: set<Address>)
    returns (pass: Books)
    requires PromotesSome(b, mid, b2, st, locals, config, dirty) && Coherent(b, {}) && b.virtuals == map[]
    requires Total(PassLists((b, dirty), st)) <= config.globalSlots
    ensures PromotedIn(b, pass, st, locals, config.accountQueue, dirty) && b2.pending == pass.pending && b2.virtuals == pass.virtuals
    ensures forall a :: ListOf(b2.queue, a).Keys <= ListOf(pass.queue, a).Keys
  {
    hide *;
    PromotesSomeIs(b, mid, b2, st, locals, config, dirty);
    if dirty == {} {
      PromotedInNone(b, st, locals, config.accountQueue);
      pass := b;
    } else {
      pass := mid;
      PromotesIs(b, mid, b2, st, locals, config, dirty);
      PassTotal(b, mid, st, locals, config.accountQueue, dirty);
      NotLeveled(mid.pending, b2.pending, locals, config.accountSlots, config.globalSlots);
      TrimmedLess(mid.queue, b2.queue, locals, config.globalQueue);
    }
  }

  lemma KeysSame(l: map<nat, Tx>, l': map<nat, Tx>)
    requires l.Keys == l'.Keys
    ensures forall n :: n in l <==> n in l'
    ensures l != map[] ==> exists n :: n in l
  {
  }

  lemma SafeSender(b0: Books, added: Books, st0: ChainState, st: ChainState, a: Address)
    requires GapFree(b0, st0) && Coherent(added, {}) && added.virtuals == map[]
    requires ListOf(added.pending, a).Keys == ListOf(b0.pending, a).Keys && NonceOf(st0, a) <= NonceOf(st, a)
    ensures !Torn(added, st, a)
  {
    assert GapFreeAt(b0, st0, a) && VirtualNonce(st, added.virtuals, a) == NonceOf(st, a);
    GapFreeList(b0, st0, a);
    hide *;
    TornIs(added, st, a);
    KeysSame(ListOf(added.pending, a), ListOf(b0.pending, a));
    if ListOf(added.pending, a) != map[] {
      assert NonceOf(st0, a) in ListOf(added.pending, a);
      RisenNotTorn(added, st, a);
    }
  }

  /** A sender whose nonce did not fall, or with nothing reinjected, is not torn. */
  lemma SafeSenders(b0: Books, added: Books, dirty: set<Address>, st0: ChainState, st: ChainState, txs: seq<(Tx, bool)>)
    requires GapFree(b0, st0) && Coherent(added, {}) && added.virtuals == map[]
    requires forall a :: ListOf(added.pending, a).Keys == ListOf(b0.pending, a).Keys
    requires forall a | a in dirty :: !NoneOf(txs, a)
    requires forall a: Address :: NonceOf(st0, a) <= NonceOf(st, a) || NoneOf(txs, a)
    ensures forall a | a in dirty :: !Torn(added, st, a)
  {
    hide *;
    forall a | a in dirty ensures !Torn(added, st, a) {
      assert NonceOf(st0, a) <= NonceOf(st, a);
      SafeSender(b0, added, st0, st, a);
    }
  }

  lemma HasRoomIs(b: Books, added: (Books, set<Address>), st: ChainState, config: Config, txs: seq<(Tx, bool)>)
    ensures HasRoom(b, added, st, config, txs) <==>
      |b.all| + |txs| <= config.globalSlots + config.globalQueue && Total(PassLists(added, st)) <= config.globalSlots
  {
    hide Total, PassLists;
  }

  lemma AllIdle(b: Books, st: ChainState)
    requires forall a :: IdleAt(b, st, a)
    ensures NothingWaits(b, st)
  {
    hide IdleAt;
  }

  /** What the passes of a reset say of one account. */
  lemma EachOf(b: Books, pass: Books, b2: Books, b3: Books, p: Books, b5: Books, st: ChainState, locals: set<Address>, cap: nat,
               dirty: set<Address>, a: Address)
    requires AllRanged(b.pending) && NoEmpty(b3.pending) && AllClean(b3, st) && Rooted(b3, st)
    requires PromotedIn(b, pass, st, locals, cap, dirty) && b2.pending == pass.pending && b2.virtuals == pass.virtuals
    requires DemotedIn(b2, b3, st, b2.pending.Keys)
    requires PromotedIn(Renumbered(b3), p, st, locals, cap, b3.queue.Keys) && RolledBack(p, b5, st)
    ensures Ranged(ListOf(b.pending, a)) && CleanAt(b3, st, a) && RootedAt(b3, st, a)
    ensures SameLists(if a in dirty then Promoted(b, st, locals, cap, a) else b, pass, st, a) && SameAt(pass, b2, st, a)
    ensures SameLists(if a in b2.pending then Demoted(b2, st, a) else b2, b3, st, a)
    ensures SameLists(if a in b3.queue then Promoted(Renumbered(b3), st, locals, cap, a) else Renumbered(b3), p, st, a)
    ensures ListOf(b5.pending, a).Keys <= ListOf(p.pending, a).Keys
  {
    hide Ranged, CleanAt, RootedAt, SameLists, Promoted, Demoted, Renumbered, RolledTo, ListOf, NoEmpty;
    assert SameLists(if a in b2.pending.Keys then Demoted(b2, st, a) else b2, b3, st, a);
    assert SameLists(if a in b3.queue.Keys then Promoted(Renumbered(b3), st, locals, cap, a) else Renumbered(b3), p, st, a);
    assert RolledAt(p, b5, st, a);
  }

  lemma RoomyIdle(b: Books, pass: Books, b2: Books, b3: Books, promoted: Books, b5: Books, st: ChainState,
                  locals: set<Address>, config: Config, dirty: set<Address>)
    requires Coherent(b, {}) && b.virtuals == map[] && AllRanged(b.pending)
    requires PromotedIn(b, pass, st, locals, config.accountQueue, dirty) && b2.pending == pass.pending && b2.virtuals == pass.virtuals
    requires forall a :: ListOf(b2.queue, a).Keys <= ListOf(pass.queue, a).Keys
    requires DemotedIn(b2, b3, st, b2.pending.Keys)
    requires NoEmpty(b3.pending) && AllClean(b3, st) && Rooted(b3, st) && Coherent(Renumbered(b3), {})
    requires Promotes(Renumbered(b3), promoted, b5, st, locals, config, b3.queue.Keys)
    ensures NothingWaits(b5, st)
  {
    hide *;
    PromotesIs(Renumbered(b3), promoted, b5, st, locals, config, b3.queue.Keys);
    RenumberedAll(b3, st);
    TrimmedLess(promoted.queue, b5.queue, locals, config.globalQueue);
    forall a ensures IdleAt(b5, st, a) {
      EachOf(b, pass, b2, b3, promoted, b5, st, locals, config.accountQueue, dirty, a);
      ResetIdleAt(b, pass, b2, b3, promoted, b5, st, locals, config.accountQueue, dirty, a);
    }
    AllIdle(b5, st);
  }

  /** With room for everything reinjected, the demotion leaves a gap exactly for a torn sender, and nothing waits after the
      reset, torn sender or not. */
  lemma RoomyReset(b0: Books, b1: Books, mid: Books, b2: Books, b3: Books, promoted: Books, b5: Books, st0: ChainState,
                   st: ChainState, locals: set<Address>, config: Config, gasPrice: nat, txs: seq<(Tx, bool)>,
                   steps: seq<Addition>)
    requires Coherent(b1, {}) && b1 == b0.(virtuals := map[]) && GapFree(b0, st0)
    requires Replies(steps, b1, locals, st, config, gasPrice, txs, false)
    requires PromotesSome(BooksAfter(steps, b1), mid, b2, st, locals, config, NewSenders(steps, txs))
    requires DemotedIn(b2, b3, st, b2.pending.Keys)
    requires NoEmpty(b3.pending) && AllClean(b3, st) && Rooted(b3, st) && Coherent(Renumbered(b3), {})
    requires Promotes(Renumbered(b3), promoted, b5, st, locals, config, b3.queue.Keys)
    requires HasRoom(b0, Reinjected(b1, st, locals, gasPrice, config.priceBump, txs), st, config, txs)
    ensures AllCaughtUp(b3, st) && NothingWaits(b5, st)
    ensures var added := Reinjected(b1, st, locals, gasPrice, config.priceBump, txs);
      && (AllClosed(b3, st) <==> NoneTorn(added, st))
      && ((forall a: Address :: NonceOf(st0, a) <= NonceOf(st, a) || NoneOf(txs, a)) ==> NoneTorn(added, st))
  {
    hide *;
    var (added, dirty) := Reinjected(b1, st, locals, gasPrice, config.priceBump, txs);
    HasRoomIs(b0, (added, dirty), st, config, txs);
    RoomyBooks(b0, b1, st0, st, locals, config, gasPrice, txs, steps);
    var pass := RoomyPass(added, mid, b2, st, locals, config, dirty);
    ReinjectedExactly(added, pass, b2, b3, st, locals, config.accountQueue, dirty);
    NoneTornIs(added, dirty, st);
    if forall a: Address :: NonceOf(st0, a) <= NonceOf(st, a) || NoneOf(txs, a) {
      SafeSenders(b0, added, dirty, st0, st, txs);
    }
    RoomyIdle(added, pass, b2, b3, promoted, b5, st, locals, config, dirty);
  }

  /** A pool with slots for all its transactions and all reinjected ones has room, and nothing is cut at all. */
  lemma SmallHasRoom(b0: Books, b1: Books, b2: Books, b3: Books, promoted: Books, b5: Books, st0: ChainState, st: ChainState,
                     locals: set<Address>, config: Config, gasPrice: nat, txs: seq<(Tx, bool)>, results: seq<AddResult>,
                     steps: seq<Addition>)
    requires Coherent(b1, {}) && Coherent(b2, {}) && Coherent(b3, {}) && b1 == b0.(virtuals := map[]) && GapFree(b0, st0)
    requires Replies(steps, b1, locals, st, config, gasPrice, txs, false) && OnlyListed(b1, b2, txs, results) && NothingNew(b2, b3)
    requires NoEmpty(b3.pending) && Promotes(Renumbered(b3), promoted, b5, st, locals, config, b3.queue.Keys)
    requires |b0.all| + |txs| <= config.globalSlots
    ensures HasRoom(b0, Reinjected(b1, st, locals, gasPrice, config.priceBump, txs), st, config, txs)
    ensures Total(promoted.pending) <= config.globalSlots
  {
    hide *;
    var added := Reinjected(b1, st, locals, gasPrice, config.priceBump, txs);
    RoomyBooks(b0, b1, st0, st, locals, config, gasPrice, txs, steps);
    PassFits(added, st);
    HasRoomIs(b0, added, st, config, txs);
    RoomySizes(b1, b2, b3, txs, results);
    RenumberedAll(b3, st);
    PromotesIs(Renumbered(b3), promoted, b5, st, locals, config, b3.queue.Keys);
  }

  lemma ResetLoss(b0: Books, b2: Books, b3: Books, b4: Books, b5: Books, st: ChainState, locals: set<Address>)
    requires b2.all == b0.all && LocalsKept(b2, b3, st, locals) && b4.all == b3.all && Keeps(b4, b5, st, locals)
    ensures LocalsKept(b0, b5, st, locals)
  {
    hide KeepsOrder, StaySettled, CanPay;
  }

  // Runs.

  ghost predicate InOrder(b: Books, st: ChainState) {
    Rooted(b, st) && Started(b, st) && AllSettled(b, st)
  }

  /** No new head of the run sets a transaction free. */
  ghost predicate NothingFreed(ops: seq<PoolOp>) {
    forall i | 0 <= i < |ops| && ops[i].NewHead? :: ops[i].reinject == []
  }

  lemma FreedNone(ops: seq<PoolOp>, i: nat)
    requires i < |ops|
    ensures NothingFreed(ops) && ops[i].NewHead? ==> ops[i].reinject == []
  {
  }

  lemma OrderKept(b: Books, b': Books, st: ChainState)
    requires KeepsOrder(b, b', st) && InOrder(b, st) && (AllSettled(b, st) ==> AllSettled(b', st))
    ensures InOrder(b', st) && (GapFree(b, st) ==> GapFree(b', st))
  {
    hide GapFree, Rooted, Started, AllSettled;
  }

  lemma KeepsInOrder(b: Books, b': Books, st: ChainState, locals: set<Address>)
    requires Keeps(b, b', st, locals) && InOrder(b, st)
    ensures InOrder(b', st) && (GapFree(b, st) ==> GapFree(b', st))
  {
    hide GapFree, Rooted, Started, LocalsKept, NothingNew;
    SettledThrough(b, b', st);
  }

  lemma OrderSettled(b: Books, st: ChainState)
    requires InOrder(b, st)
    ensures AllSettled(b, st)
  {
    hide AllSettled, Rooted, Started;
  }

  lemma ResetInOrder(b: Books, st: ChainState)
    requires Rooted(b, st) && Started(b, st) && AllSettled(b, st)
    ensures InOrder(b, st)
  {
  }

  /** The empty pool a run starts from. */
  lemma EmptyInOrder(st: ChainState)
    ensures InOrder(Books(map[], map[], map[], map[]), st) && GapFree(Books(map[], map[], map[], map[]), st)
  {
  }
}
