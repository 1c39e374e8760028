/** Admission of a transaction: into the queue, or in place of a pending one it outbids
    (core/tx_pool.go, enqueueTx and the replacement branch of add). */
module PoolAdmission {
  import opened Transactions
  import opened TxLists
  import opened PricedLists
  import opened PoolBooks
  import opened PoolSteps

  /** What the list holds at the transaction's nonce. */
  function Displaced(m: Lists, tx: Tx): map<nat, Tx> {
    if Slot(m, tx.from, tx.nonce) then map[tx.nonce := m[tx.from][tx.nonce]] else map[]
  }

  function Filing(m: Lists, tx: Tx): Lists {
    m[tx.from := ListOf(m, tx.from)[tx.nonce := tx]]
  }

  function Enqueued(b: Books, tx: Tx): Books {
    b.(queue := Filing(b.queue, tx),
       all := (b.all - Hashes(Values(Displaced(b.queue, tx))))[TxHash(tx) := tx])
  }

  function Replaced(b: Books, tx: Tx): Books {
    b.(pending := Filing(b.pending, tx),
       all := (b.all - Hashes(Values(Displaced(b.pending, tx))))[TxHash(tx) := tx])
  }

  lemma FilingIs(m: Lists, tx: Tx)
    ensures Filing(m, tx) == Put(Take(m, tx.from, Displaced(m, tx)), tx.from, map[tx.nonce := tx])
  {
    var a, gone := tx.from, Displaced(m, tx);
    assert tx.nonce in map[tx.nonce := tx];
    assert (ListOf(m, a) - gone.Keys) + map[tx.nonce := tx] == ListOf(m, a)[tx.nonce := tx];
  }

  lemma DisplacedFacts(m: Lists, tx: Tx)
    requires Filed(m)
    ensures PartOf(Displaced(m, tx), ListOf(m, tx.from))
    ensures forall t | t in Values(Displaced(m, tx)) :: t.from == tx.from && t.nonce == tx.nonce && Holds(m, t)
    ensures !Slot(Take(m, tx.from, Displaced(m, tx)), tx.from, tx.nonce)
  {
  }

  lemma EnqueuedCoherent(b: Books, tx: Tx)
    requires Coherent(b, {}) && !Slot(b.pending, tx.from, tx.nonce)
    ensures Coherent(Enqueued(b, tx), {})
  {
    hide *;
    EnqueuedIs(b, tx);
    FilingIs(b.queue, tx);
    OneValue(tx);
    var a, gone, one := tx.from, Displaced(b.queue, tx), map[tx.nonce := tx];
    DisplacedReady(b, tx);
    TakeQueued(b, {}, a, gone);
    var b1 := b.(queue := Take(b.queue, a, gone));
    EmptyLimbo(Values(gone));
    Forget(b1, Values(gone), Values(gone));
    var b2 := b1.(all := b1.all - Hashes(Values(gone)));
    Admit(b2, {}, tx);
    PutQueued(b2.(all := b2.all[TxHash(tx) := tx]), {tx}, a, one);
  }

  lemma EmptyLimbo(s: set<Tx>)
    ensures {} + s == s && s - s == {}
  {
  }

  lemma OneValue(tx: Tx)
    ensures {} + {tx} == {tx} && {tx} - Values(map[tx.nonce := tx]) == {}
    ensures Values(map[tx.nonce := tx]) <= {tx} && FiledAt(map[tx.nonce := tx], tx.from)
  {
    assert map[tx.nonce := tx][tx.nonce] == tx;
  }

  lemma DisplacedReady(b: Books, tx: Tx)
    requires Coherent(b, {})
    ensures PartOf(Displaced(b.queue, tx), ListOf(b.queue, tx.from))
    ensures !Slot(Take(b.queue, tx.from, Displaced(b.queue, tx)), tx.from, tx.nonce)
  {
    DisplacedFacts(b.queue, tx);
  }

  lemma EnqueuedIs(b: Books, tx: Tx)
    ensures Enqueued(b, tx) ==
              Books(b.pending, Filing(b.queue, tx),
                    (b.all - Hashes(Values(Displaced(b.queue, tx))))[TxHash(tx) := tx], b.virtuals)
  {
  }

  lemma ReplacedCoherent(b: Books, tx: Tx)
    requires Coherent(b, {}) && !Slot(b.queue, tx.from, tx.nonce)
    ensures Coherent(Replaced(b, tx), {})
  {
    UseSwap(b, {});
    var sb := b.(pending := b.queue, queue := b.pending);
    EnqueuedCoherent(sb, tx);
    UnSwap(Replaced(b, tx), {});
  }

  // ---------------------------------------------------------------- what admission keeps

  lemma EnqueuedKeeps(b: Books, st: ChainState, tx: Tx)
    ensures KeepsOrder(b, Enqueued(b, tx), st)
    ensures StaySettled(b, Enqueued(b, tx), st, {tx.from})
    ensures Slot(b.queue, tx.from, tx.nonce) ==> StaySettled(b, Enqueued(b, tx), st, {})
  {
    EnqueuedIs(b, tx);
    hide Displaced;
    var b' := Enqueued(b, tx);
    SameKeeps(b, b', st, tx.from);
    OrderFrom(b, b', st, tx.from);
    assert forall x, n: nat :: Slot(b'.queue, x, n) <==> Slot(b.queue, x, n) || (x == tx.from && n == tx.nonce);
  }

  lemma ReplacedKeeps(b: Books, st: ChainState, tx: Tx)
    requires Slot(b.pending, tx.from, tx.nonce) && CanPay(st, tx)
    ensures KeepsOrder(b, Replaced(b, tx), st)
    ensures StaySettled(b, Replaced(b, tx), st, {})
  {
    hide Displaced;
    var b', a := Replaced(b, tx), tx.from;
    assert forall n: nat :: Slot(b'.pending, a, n) <==> Slot(b.pending, a, n);
    assert forall n: nat | Slot(b.pending, a, n) && n != tx.nonce :: b'.pending[a][n] == b.pending[a][n];
    OrderFrom(b, b', st, a);
  }

  lemma FilingTidy(m: Lists, tx: Tx)
    requires NoEmpty(m)
    ensures NoEmpty(Filing(m, tx))
  {
    assert tx.nonce in ListOf(m, tx.from)[tx.nonce := tx];
  }

  /** Going from `b` to `b'`, a local sender lost only transactions that are too old, unpayable, or
      outbid by `tx` at the same nonce. */
  ghost predicate LostOnlyTo(b: Books, b': Books, st: ChainState, locals: set<Address>, tx: Tx, bump: nat) {
    forall t | Live(b.all, t) && !Live(b'.all, t) && t.from in locals ::
      t.nonce < NonceOf(st, t.from) || !CanPay(st, t) ||
      (t.from == tx.from && t.nonce == tx.nonce && Outbids(tx, t, bump))
  }

  lemma EnqueuedLoss(b: Books, st: ChainState, locals: set<Address>, tx: Tx, bump: nat)
    requires Coherent(b, {}) && Accepts(ListOf(b.queue, tx.from), tx, bump)
    ensures LostOnlyTo(b, Enqueued(b, tx), st, locals, tx, bump) && Live(Enqueued(b, tx).all, tx)
  {
    DisplacedFacts(b.queue, tx);
    DisplacedOutbid(b.queue, b.all, tx, bump);
  }

  lemma ReplacedLoss(b: Books, st: ChainState, locals: set<Address>, tx: Tx, bump: nat)
    requires Coherent(b, {}) && Accepts(ListOf(b.pending, tx.from), tx, bump)
    ensures LostOnlyTo(b, Replaced(b, tx), st, locals, tx, bump) && Live(Replaced(b, tx).all, tx)
  {
    DisplacedFacts(b.pending, tx);
    DisplacedOutbid(b.pending, b.all, tx, bump);
  }

  lemma DisplacedOutbid(m: Lists, all: Lookup, tx: Tx, bump: nat)
    requires Filed(m) && Accepts(ListOf(m, tx.from), tx, bump)
    ensures forall t | Live(all, t) && !Live((all - Hashes(Values(Displaced(m, tx))))[TxHash(tx) := tx], t) ::
              t.from == tx.from && t.nonce == tx.nonce && Outbids(tx, t, bump)
  {
    forall t | Live(all, t) && !Live((all - Hashes(Values(Displaced(m, tx))))[TxHash(tx) := tx], t)
      ensures t.from == tx.from && t.nonce == tx.nonce && Outbids(tx, t, bump)
    {
      assert TxHash(t) in Hashes(Values(Displaced(m, tx)));
    }
  }
}
