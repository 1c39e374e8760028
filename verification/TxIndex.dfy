/** The transaction lookup index: where on the canonical chain a transaction is
    (core/rawdb/accessors_indexes.go). */
module TxIndexes {
  import opened HeaderTree

  type TxId = nat

  /** A lookup entry: the block, its number and the transaction's position in it. */
  datatype Place = Place(block: Hash, number: nat, index: nat)

  type Bodies = map<Hash, seq<TxId>>
  type Lookup = map<TxId, Place>

  /** Every stored header has a body. */
  ghost predicate Bodied(hs: Headers, bodies: Bodies) {
    hs.Keys == bodies.Keys
  }

  ghost predicate Numbered(bodies: Bodies, p: Numbering, n: nat) {
    forall m: nat | m <= n :: m in p && p[m] in bodies
  }

  /** The entries of the first `k` transactions of a block; a later duplicate wins. */
  ghost function FirstEntries(block: Hash, number: nat, txs: seq<TxId>, k: nat): (r: Lookup)
    requires k <= |txs|
    ensures forall tx :: tx in r <==> tx in txs[..k]
    ensures forall tx | tx in r :: r[tx].block == block && r[tx].number == number && r[tx].index < k && txs[r[tx].index] == tx
  {
    if k == 0 then map[] else FirstEntries(block, number, txs, k - 1)[txs[k - 1] := Place(block, number, k - 1)]
  }

  ghost function Entries(bodies: Bodies, p: Numbering, n: nat): Lookup
    requires n in p && p[n] in bodies
  {
    FirstEntries(p[n], n, bodies[p[n]], |bodies[p[n]]|)
  }

  lemma EntriesKeys(bodies: Bodies, p: Numbering, n: nat)
    requires n in p && p[n] in bodies
    ensures forall tx :: tx in Entries(bodies, p, n) <==> tx in bodies[p[n]]
    ensures forall tx | tx in Entries(bodies, p, n) ::
      var e := Entries(bodies, p, n)[tx];
      e.block == p[n] && e.number == n && e.index < |bodies[p[n]]| && bodies[p[n]][e.index] == tx
  {
    assert bodies[p[n]][..|bodies[p[n]]|] == bodies[p[n]];
  }

  /** The entries of the blocks above `k` up to `n`. */
  ghost function Range(bodies: Bodies, p: Numbering, k: nat, n: nat): Lookup
    requires Numbered(bodies, p, n) && k <= n
  {
    if k == n then map[] else Range(bodies, p, k, n - 1) + Entries(bodies, p, n)
  }

  /** The index of a whole path. */
  ghost function Index(bodies: Bodies, p: Numbering, n: nat): Lookup
    requires Numbered(bodies, p, n)
  {
    if n == 0 then Entries(bodies, p, 0) else Index(bodies, p, n - 1) + Entries(bodies, p, n)
  }

  /** No transaction of a path's block is in a block below it. */
  ghost predicate NoRepeats(bodies: Bodies, p: Numbering, n: nat)
    requires Numbered(bodies, p, n)
  {
    forall m: nat | 0 < m <= n :: FreshAt(bodies, p, m)
  }

  ghost predicate FreshAt(bodies: Bodies, p: Numbering, m: nat)
    requires 0 < m && Numbered(bodies, p, m)
  {
    Entries(bodies, p, m).Keys !! Index(bodies, p, m - 1).Keys
  }

  // ---------------------------------------------------------------- what the index says

  /** A transaction is indexed exactly when some block of the path contains it. */
  lemma {:induction false} IndexedOnPath(bodies: Bodies, p: Numbering, n: nat, tx: TxId)
    requires Numbered(bodies, p, n)
    ensures tx in Index(bodies, p, n) <==> exists m: nat :: m <= n && tx in bodies[p[m]]
    decreases n
  {
    EntriesKeys(bodies, p, n);
    if n > 0 {
      IndexedOnPath(bodies, p, n - 1, tx);
    }
  }

  /** Where no transaction repeats, an indexed transaction's entry points at the block that contains it. */
  lemma {:induction false} IndexPointsAt(bodies: Bodies, p: Numbering, n: nat, m: nat, tx: TxId)
    requires Numbered(bodies, p, n) && NoRepeats(bodies, p, n) && m <= n && tx in bodies[p[m]]
    ensures tx in Index(bodies, p, n)
    ensures var e := Index(bodies, p, n)[tx];
      e.block == p[m] && e.number == m && e.index < |bodies[p[m]]| && bodies[p[m]][e.index] == tx
    decreases n
  {
    hide Entries;
    EntriesKeys(bodies, p, n);
    if m < n {
      IndexPointsAt(bodies, p, n - 1, m, tx);
      assert FreshAt(bodies, p, n);
    }
  }

  // ---------------------------------------------------------------- splitting and moving

  lemma {:induction false} IndexSplits(bodies: Bodies, p: Numbering, k: nat, n: nat)
    requires Numbered(bodies, p, n) && k <= n
    ensures Index(bodies, p, n) == Index(bodies, p, k) + Range(bodies, p, k, n)
    decreases n
  {
    if k == n {
      assert Range(bodies, p, k, n) == map[];
    } else {
      hide Entries, Numbered;
      LowerNumbered(bodies, p, n, n - 1);
      IndexSplits(bodies, p, k, n - 1);
      Associates(Index(bodies, p, k), Range(bodies, p, k, n - 1), Entries(bodies, p, n));
    }
  }

  lemma LowerNumbered(bodies: Bodies, p: Numbering, n: nat, m: nat)
    requires Numbered(bodies, p, n) && m <= n
    ensures Numbered(bodies, p, m) && n in p && p[n] in bodies
  {
  }

  lemma Associates(a: Lookup, b: Lookup, c: Lookup)
    ensures (a + b) + c == a + (b + c)
  {
  }

  /** A range grows at its lower end by the entries of one more block. */
  lemma {:induction false} RangeLower(bodies: Bodies, p: Numbering, k: nat, n: nat)
    requires Numbered(bodies, p, n) && 0 < k <= n
    ensures Range(bodies, p, k - 1, n).Keys == Range(bodies, p, k, n).Keys + Entries(bodies, p, k).Keys
    decreases n
  {
    hide Entries;
    if k < n {
      RangeLower(bodies, p, k, n - 1);
    } else {
      assert Range(bodies, p, k - 1, k - 1) == map[];
    }
  }

  lemma {:induction false} RangeFresh(bodies: Bodies, p: Numbering, k: nat, n: nat)
    requires Numbered(bodies, p, n) && NoRepeats(bodies, p, n) && k <= n
    ensures Range(bodies, p, k, n).Keys !! Index(bodies, p, k).Keys
    decreases n
  {
    hide Entries;
    if k < n {
      RangeFresh(bodies, p, k, n - 1);
      IndexSplits(bodies, p, k, n - 1);
      assert FreshAt(bodies, p, n);
    }
  }

  ghost predicate SameBlocks(bodies: Bodies, bodies': Bodies, p: Numbering, q: Numbering, n: nat)
    requires Numbered(bodies, p, n) && Numbered(bodies', q, n)
  {
    forall m: nat | m <= n :: p[m] == q[m] && bodies[p[m]] == bodies'[q[m]]
  }

  lemma {:induction false} IndexSame(bodies: Bodies, bodies': Bodies, p: Numbering, q: Numbering, n: nat)
    requires Numbered(bodies, p, n) && Numbered(bodies', q, n) && SameBlocks(bodies, bodies', p, q, n)
    ensures Index(bodies, p, n) == Index(bodies', q, n)
    decreases n
  {
    if n > 0 {
      IndexSame(bodies, bodies', p, q, n - 1);
    }
  }

  lemma NoRepeatsSame(bodies: Bodies, bodies': Bodies, p: Numbering, q: Numbering, n: nat)
    requires Numbered(bodies, p, n) && Numbered(bodies', q, n) && SameBlocks(bodies, bodies', p, q, n)
    requires NoRepeats(bodies, p, n)
    ensures NoRepeats(bodies', q, n)
  {
    hide Index, FirstEntries;
    forall m: nat | 0 < m <= n ensures FreshAt(bodies', q, m) {
      assert FreshAt(bodies, p, m);
      IndexSame(bodies, bodies', p, q, m - 1);
    }
  }

  /** Moving the index from one branch to another: the new branch is written over the old, then the
      transactions of the old branch that the new one lacks are deleted. */
  lemma IndexMoves(bodies: Bodies, p: Numbering, q: Numbering, k: nat, m: nat, n: nat, gone: set<TxId>)
    requires k <= m && k <= n && Numbered(bodies, p, m) && Numbered(bodies, q, n) && NoRepeats(bodies, p, m)
    requires forall j: nat | j <= k :: p[j] == q[j]
    requires gone == Range(bodies, p, k, m).Keys - Range(bodies, q, k, n).Keys
    ensures (Index(bodies, p, m) + Range(bodies, q, k, n)) - gone == Index(bodies, q, n)
  {
    IndexSplits(bodies, p, k, m);
    IndexSplits(bodies, q, k, n);
    RangeFresh(bodies, p, k, m);
    assert SameBlocks(bodies, bodies, p, q, k);
    IndexSame(bodies, bodies, p, q, k);
    Overwrites(Index(bodies, q, k), Range(bodies, p, k, m), Range(bodies, q, k, n), gone);
  }

  lemma Overwrites(base: Lookup, was: Lookup, now: Lookup, gone: set<TxId>)
    requires was.Keys !! base.Keys && gone == was.Keys - now.Keys
    ensures ((base + was) + now) - gone == base + now
  {
  }

  // ---------------------------------------------------------------- the operations

  /** Adds a block's entries. */
  method WriteTxLookupEntries(lookup: Lookup, bodies: Bodies, ghost p: Numbering, block: Hash,
                              number: nat) returns (r: Lookup)
    requires block in bodies && number in p && p[number] == block
    ensures r == lookup + Entries(bodies, p, number)
  {
    hide *;
    r := lookup;
    var txs := bodies[block];
    FirstEntriesIs(lookup, block, number, txs, 0);
    for i := 0 to |txs|
      invariant r == lookup + FirstEntries(block, number, txs, i)
    {
      FirstEntriesIs(lookup, block, number, txs, i + 1);
      r := r[txs[i] := Place(block, number, i)];
    }
    EntriesAre(bodies, p, number);
  }

  lemma FirstEntriesIs(lookup: Lookup, block: Hash, number: nat, txs: seq<TxId>, k: nat)
    requires k <= |txs|
    ensures lookup + FirstEntries(block, number, txs, k) ==
      if k == 0 then lookup else (lookup + FirstEntries(block, number, txs, k - 1))[txs[k - 1] := Place(block, number, k - 1)]
  {
    if k > 0 {
      var e := FirstEntries(block, number, txs, k - 1);
      AddsLast(lookup, e, txs[k - 1], Place(block, number, k - 1));
    }
  }

  lemma AddsLast(a: Lookup, b: Lookup, tx: TxId, e: Place)
    ensures a + b[tx := e] == (a + b)[tx := e]
  {
  }

  lemma EntriesAre(bodies: Bodies, p: Numbering, n: nat)
    requires n in p && p[n] in bodies
    ensures Entries(bodies, p, n) == FirstEntries(p[n], n, bodies[p[n]], |bodies[p[n]]|)
  {
  }

  /** The list without every occurrence of the given transactions, in its own order. */
  ghost function Without(a: seq<TxId>, b: seq<TxId>): seq<TxId> {
    if a == [] then [] else Without(a[..|a| - 1], b) + if a[|a| - 1] in b then [] else [a[|a| - 1]]
  }

  /** The transactions of the first list that are not in the second. */
  method TxDifference(a: seq<TxId>, b: seq<TxId>) returns (keep: seq<TxId>)
    ensures keep == Without(a, b) && forall tx :: tx in keep <==> tx in a && tx !in b
  {
    keep := [];
    var remove := {};
    for i := 0 to |b|
      invariant forall tx :: tx in remove <==> tx in b[..i]
    {
      remove := remove + {b[i]};
    }
    for i := 0 to |a|
      invariant keep == Without(a[..i], b) && forall tx :: tx in keep <==> tx in a[..i] && tx !in b
    {
      assert a[..i + 1][..i] == a[..i];
      if a[i] !in remove {
        keep := keep + [a[i]];
      }
    }
    assert a[..|a|] == a;
  }

  /** Deletes the entries of a list of transactions. */
  method DeleteTxLookupEntries(lookup: Lookup, txs: seq<TxId>) returns (r: Lookup)
    ensures r == lookup - set tx | tx in txs
  {
    r := lookup;
    for i := 0 to |txs|
      invariant r == lookup - set tx | tx in txs[..i]
    {
      r := r - {txs[i]};
    }
  }
}
