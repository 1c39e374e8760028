/** The transaction pool's books as values: the pending and queued lists, the table of all
    transactions and the virtual nonces (core/tx_pool.go), with the invariants that tie them together. */
module PoolBooks {
  import opened Transactions
  import opened PricedLists

  type Lists = map<Address, map<nat, Tx>>

  datatype Books = Books(pending: Lists, queue: Lists, all: Lookup, virtuals: map<Address, nat>)

  /** The chain state the pool validates against. */
  datatype ChainState = ChainState(nonces: map<Address, nat>, balances: map<Address, nat>, gasLimit: nat)

  function NonceOf(st: ChainState, a: Address): nat {
    if a in st.nonces then st.nonces[a] else 0
  }

  function BalanceOf(st: ChainState, a: Address): nat {
    if a in st.balances then st.balances[a] else 0
  }

  /** An account the state does not know has no balance and starts at nonce zero. */
  lemma UnknownAccount(st: ChainState, a: Address)
    requires a !in st.nonces && a !in st.balances
    ensures NonceOf(st, a) == 0 && BalanceOf(st, a) == 0
  {
  }

  /** The managed nonce: the state nonce until the pool sets another. */
  function VirtualNonce(st: ChainState, virtuals: map<Address, nat>, a: Address): nat {
    if a in virtuals then virtuals[a] else NonceOf(st, a)
  }

  predicate CanPay(st: ChainState, tx: Tx) {
    Affordable(tx, BalanceOf(st, tx.from), st.gasLimit)
  }

  function ListOf(m: Lists, a: Address): map<nat, Tx> {
    if a in m then m[a] else map[]
  }

  predicate Slot(m: Lists, a: Address, n: nat) {
    a in m && n in m[a]
  }

  predicate Holds(m: Lists, t: Tx) {
    Slot(m, t.from, t.nonce) && m[t.from][t.nonce] == t
  }

  function Values(txs: map<nat, Tx>): set<Tx> {
    set n | n in txs :: txs[n]
  }

  function Hashes(txs: set<Tx>): set<TxHash> {
    set t | t in txs :: TxHash(t)
  }

  // ---------------------------------------------------------------- coherence

  ghost predicate FiledAt(txs: map<nat, Tx>, a: Address) {
    forall n | n in txs :: txs[n].from == a && txs[n].nonce == n
  }

  /** Every transaction is filed under its sender and nonce. */
  ghost predicate Filed(m: Lists) {
    forall a | a in m :: FiledAt(m[a], a)
  }

  ghost predicate NoEmpty(m: Lists) {
    forall a | a in m :: m[a] != map[]
  }

  /** No sender has the same nonce in both lists. */
  ghost predicate Disjoint(p: Lists, q: Lists) {
    forall a, n :: !(Slot(p, a, n) && Slot(q, a, n))
  }

  /** No transaction of `limbo` has its nonce taken in `m`. */
  ghost predicate Free(m: Lists, limbo: set<Tx>) {
    forall t | t in limbo :: !Slot(m, t.from, t.nonce)
  }

  ghost predicate Separate(limbo: set<Tx>) {
    forall t, u | t in limbo && u in limbo && t.from == u.from && t.nonce == u.nonce :: t == u
  }

  /** The table holds exactly the listed transactions and those in limbo. */
  ghost predicate Complete(p: Lists, q: Lists, all: Lookup, limbo: set<Tx>) {
    forall t :: Live(all, t) <==> Holds(p, t) || Holds(q, t) || t in limbo
  }

  /** `all` is the disjoint union of the pending lists, the queued lists and the transactions `limbo`
      that an operation has taken from one list and not yet put anywhere. */
  ghost predicate Coherent(b: Books, limbo: set<Tx>) {
    && Filed(b.pending) && Filed(b.queue)
    && Disjoint(b.pending, b.queue)
    && Free(b.pending, limbo) && Free(b.queue, limbo) && Separate(limbo)
    && WellKeyed(b.all) && Complete(b.pending, b.queue, b.all, limbo)
  }

  // ---------------------------------------------------------------- elementary moves

  function Take(m: Lists, a: Address, gone: map<nat, Tx>): Lists {
    m[a := ListOf(m, a) - gone.Keys]
  }

  function Put(m: Lists, a: Address, txs: map<nat, Tx>): Lists {
    if txs == map[] then m else m[a := ListOf(m, a) + txs]
  }

  function Tidy(m: Lists, a: Address): Lists {
    if a in m && m[a] == map[] then m - {a} else m
  }

  ghost predicate PartOf(txs: map<nat, Tx>, whole: map<nat, Tx>) {
    forall n | n in txs :: n in whole && txs[n] == whole[n]
  }

  lemma TakeSlots(m: Lists, a: Address, gone: map<nat, Tx>)
    ensures forall x, n :: Slot(Take(m, a, gone), x, n) <==> Slot(m, x, n) && !(x == a && n in gone)
    ensures forall t :: Holds(Take(m, a, gone), t) <==> Holds(m, t) && !(t.from == a && t.nonce in gone)
  {
  }

  lemma TakeQueued(b: Books, limbo: set<Tx>, a: Address, gone: map<nat, Tx>)
    requires Coherent(b, limbo) && PartOf(gone, ListOf(b.queue, a))
    ensures Coherent(b.(queue := Take(b.queue, a, gone)), limbo + Values(gone))
  {
    hide Take;
    var q := Take(b.queue, a, gone);
    TakeSlots(b.queue, a, gone);
    TakeFiled(b.queue, a, gone);
    TakeFree(b, limbo, a, gone);
  }

  lemma TakeFiled(m: Lists, a: Address, gone: map<nat, Tx>)
    requires Filed(m)
    ensures Filed(Take(m, a, gone))
  {
  }

  lemma TakeFree(b: Books, limbo: set<Tx>, a: Address, gone: map<nat, Tx>)
    requires Coherent(b, limbo) && PartOf(gone, ListOf(b.queue, a))
    ensures Free(b.pending, limbo + Values(gone))
    ensures Free(Take(b.queue, a, gone), limbo + Values(gone))
    ensures Separate(limbo + Values(gone))
    ensures forall t :: t in Values(gone) <==> Holds(b.queue, t) && t.from == a && t.nonce in gone
  {
  }

  lemma PutSlots(m: Lists, a: Address, txs: map<nat, Tx>)
    requires FiledAt(txs, a) && forall n | n in txs :: !Slot(m, a, n)
    ensures forall x, n :: Slot(Put(m, a, txs), x, n) <==> Slot(m, x, n) || (x == a && n in txs)
    ensures forall t :: Holds(Put(m, a, txs), t) <==> Holds(m, t) || t in Values(txs)
  {
  }

  lemma PutQueued(b: Books, limbo: set<Tx>, a: Address, txs: map<nat, Tx>)
    requires Coherent(b, limbo) && FiledAt(txs, a) && Values(txs) <= limbo
    ensures Coherent(b.(queue := Put(b.queue, a, txs)), limbo - Values(txs))
  {
    hide Put;
    PutFree(b, limbo, a, txs);
    PutSlots(b.queue, a, txs);
    PutFiled(b.queue, a, txs);
    PutOthers(b, limbo, a, txs);
  }

  lemma PutFree(b: Books, limbo: set<Tx>, a: Address, txs: map<nat, Tx>)
    requires Coherent(b, limbo) && FiledAt(txs, a) && Values(txs) <= limbo
    ensures forall n | n in txs :: txs[n] in limbo && !Slot(b.queue, a, n) && !Slot(b.pending, a, n)
  {
    forall n | n in txs ensures txs[n] in limbo && !Slot(b.queue, a, n) && !Slot(b.pending, a, n) {
      assert txs[n] in Values(txs);
    }
  }

  lemma PutFiled(m: Lists, a: Address, txs: map<nat, Tx>)
    requires Filed(m) && FiledAt(txs, a)
    ensures Filed(Put(m, a, txs))
  {
  }

  lemma PutOthers(b: Books, limbo: set<Tx>, a: Address, txs: map<nat, Tx>)
    requires Coherent(b, limbo) && FiledAt(txs, a) && Values(txs) <= limbo
    ensures Free(Put(b.queue, a, txs), limbo - Values(txs))
  {
    PutFree(b, limbo, a, txs);
    PutSlots(b.queue, a, txs);
    forall t | t in limbo - Values(txs) ensures !(t.from == a && t.nonce in txs) {
      if t.nonce in txs {
        assert txs[t.nonce] in Values(txs);
        assert txs[t.nonce] != t;
      }
    }
  }

  lemma Forget(b: Books, limbo: set<Tx>, gone: set<Tx>)
    requires Coherent(b, limbo) && gone <= limbo
    ensures Coherent(b.(all := b.all - Hashes(gone)), limbo - gone)
  {
    var all := b.all - Hashes(gone);
    forall t ensures Live(all, t) <==> Live(b.all, t) && t !in gone {
      assert TxHash(t) in Hashes(gone) <==> t in gone;
    }
  }

  lemma Admit(b: Books, limbo: set<Tx>, tx: Tx)
    requires Coherent(b, limbo) && !Slot(b.pending, tx.from, tx.nonce) && !Slot(b.queue, tx.from, tx.nonce)
    requires forall t | t in limbo :: !(t.from == tx.from && t.nonce == tx.nonce)
    ensures Coherent(b.(all := b.all[TxHash(tx) := tx]), limbo + {tx})
  {
    assert !Holds(b.pending, tx) && !Holds(b.queue, tx) && tx !in limbo;
  }

  lemma TidyQueued(b: Books, limbo: set<Tx>, a: Address)
    requires Coherent(b, limbo)
    ensures Coherent(b.(queue := Tidy(b.queue, a)), limbo)
  {
    TidySlots(b.queue, a);
    assert Filed(Tidy(b.queue, a));
    hide Tidy;
  }

  lemma TidySlots(m: Lists, a: Address)
    ensures forall x, n :: Slot(Tidy(m, a), x, n) <==> Slot(m, x, n)
    ensures forall t :: Holds(Tidy(m, a), t) <==> Holds(m, t)
  {
  }

  lemma ValuesSplit(gone: map<nat, Tx>, run: map<nat, Tx>, a: Address)
    requires PartOf(run, gone) && FiledAt(gone, a)
    ensures Values(gone - run.Keys) <= Values(gone)
    ensures Values(gone) - Values(gone - run.Keys) == Values(run)
  {
    var lost := gone - run.Keys;
    forall t ensures t in Values(gone) - Values(lost) <==> t in Values(run) {
      if t in Values(gone) {
        var n :| n in gone && gone[n] == t;
        if n in run { assert run[n] == t; } else { assert lost[n] == t; }
        if t in Values(lost) {
          var m :| m in lost && lost[m] == t;
          assert m == n;
        }
      }
    }
  }

  // The same moves on the pending side.

  lemma TakePending(b: Books, limbo: set<Tx>, a: Address, gone: map<nat, Tx>)
    requires Coherent(b, limbo) && PartOf(gone, ListOf(b.pending, a))
    ensures Coherent(b.(pending := Take(b.pending, a, gone)), limbo + Values(gone))
  {
    hide *;
    UseSwap(b, limbo);
    TakeQueued(b.(pending := b.queue, queue := b.pending), limbo, a, gone);
    UnSwap(b.(pending := Take(b.pending, a, gone)), limbo + Values(gone));
  }

  lemma PutPending(b: Books, limbo: set<Tx>, a: Address, txs: map<nat, Tx>)
    requires Coherent(b, limbo) && FiledAt(txs, a) && Values(txs) <= limbo
    ensures Coherent(b.(pending := Put(b.pending, a, txs)), limbo - Values(txs))
  {
    hide *;
    UseSwap(b, limbo);
    PutQueued(b.(pending := b.queue, queue := b.pending), limbo, a, txs);
    UnSwap(b.(pending := Put(b.pending, a, txs)), limbo - Values(txs));
  }

  lemma TidyPending(b: Books, limbo: set<Tx>, a: Address)
    requires Coherent(b, limbo)
    ensures Coherent(b.(pending := Tidy(b.pending, a)), limbo)
  {
    hide *;
    UseSwap(b, limbo);
    TidyQueued(b.(pending := b.queue, queue := b.pending), limbo, a);
    UnSwap(b.(pending := Tidy(b.pending, a)), limbo);
  }

  lemma UseSwap(b: Books, limbo: set<Tx>)
    requires Coherent(b, limbo)
    ensures Coherent(b.(pending := b.queue, queue := b.pending), limbo)
  {
  }

  lemma UnSwap(b: Books, limbo: set<Tx>)
    requires Coherent(b.(pending := b.queue, queue := b.pending), limbo)
    ensures Coherent(b, limbo)
  {
  }
}
