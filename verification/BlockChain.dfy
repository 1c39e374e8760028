/** The canonical block chain and its reorganisations (core/blockchain.go). The database is the stored
    headers, bodies and total difficulties, the canonical numbering, the heads and the lookup index;
    hashes are collision free. Unlike the header chain, the numbering may keep stale entries above the head. */
module BlockChains {
  import opened Basics
  import opened HeaderTree
  import opened TxIndexes

  datatype WriteStatus = UnknownAncestor | InvalidChain | Canonical | Side

  function GetBlock(hs: Headers, bodies: Bodies, h: Hash, number: nat): Option<Header> {
    if h in bodies then GetHeader(hs, h, number) else None
  }

  // ---------------------------------------------------------------- finding the common block

  /** The walk down the old chain: `b` is the path's block, and `deleted` are the transactions above it. */
  ghost predicate AtOld(hs: Headers, bodies: Bodies, p: Numbering, top: nat, b: Option<Header>, deleted: seq<TxId>) {
    && Keyed(hs) && Descends(hs, p, top) && Bodied(hs, bodies) && Numbered(bodies, p, top)
    && b.Some? && b.value.number <= top && b.value.hash in hs && hs[b.value.hash] == b.value
    && p[b.value.number as nat] == b.value.hash
    && (forall tx :: tx in deleted <==> tx in Range(bodies, p, b.value.number, top))
  }

  /** The walk down the new chain: `b` is the path's block, and `chain` are the blocks above it, highest first. */
  ghost predicate AtNew(hs: Headers, q: Numbering, top: nat, b: Option<Header>, chain: seq<Hash>) {
    && Keyed(hs) && Descends(hs, q, top)
    && b.Some? && b.value.number <= top && b.value.hash in hs && hs[b.value.hash] == b.value
    && q[b.value.number as nat] == b.value.hash
    && |chain| == top - b.value.number && forall i: nat | i < |chain| :: chain[i] == q[top - i]
  }

  /** The chain lists the path's blocks from number `n` down. */
  ghost predicate TopDown(q: Numbering, n: nat, chain: seq<Hash>) {
    |chain| <= n && forall i: nat | i < |chain| :: n - i in q && chain[i] == q[n - i]
  }

  lemma AtOldStart(hs: Headers, bodies: Bodies, p: Numbering, b: Header)
    requires Keyed(hs) && b.hash in hs && hs[b.hash] == b && LeadsTo(hs, p, b.hash) && Bodied(hs, bodies)
    ensures AtOld(hs, bodies, p, b.number, Some(b), [])
  {
  }

  lemma AtOldStep(hs: Headers, bodies: Bodies, p: Numbering, top: nat, b: Option<Header>, deleted: seq<TxId>)
    requires AtOld(hs, bodies, p, top, b, deleted) && 0 < b.value.number
    ensures b.value.hash in bodies
    ensures var b' := GetBlock(hs, bodies, b.value.parent, b.value.number - 1);
      AtOld(hs, bodies, p, top, b', deleted + bodies[b.value.hash]) && b'.value.number == b.value.number - 1
  {
    hide Range, Entries;
    var n: nat := b.value.number;
    assert p[n - 1] == hs[p[n]].parent && p[n - 1] in hs && hs[p[n - 1]].number == n - 1;
    RangeLower(bodies, p, n, top);
    EntriesKeys(bodies, p, n);
  }

  lemma AtNewStart(hs: Headers, q: Numbering, b: Header)
    requires Keyed(hs) && b.hash in hs && hs[b.hash] == b && LeadsTo(hs, q, b.hash)
    ensures AtNew(hs, q, b.number, Some(b), [])
  {
  }

  lemma AtNewStep(hs: Headers, bodies: Bodies, q: Numbering, top: nat, b: Option<Header>, chain: seq<Hash>)
    requires AtNew(hs, q, top, b, chain) && Bodied(hs, bodies) && 0 < b.value.number
    ensures var b' := GetBlock(hs, bodies, b.value.parent, b.value.number - 1);
      AtNew(hs, q, top, b', chain + [b.value.hash]) && b'.value.number == b.value.number - 1
  {
    var n: nat := b.value.number;
    assert q[n - 1] == hs[q[n]].parent && q[n - 1] in hs && hs[q[n - 1]].number == n - 1;
  }

  lemma AtBoth(hs: Headers, bodies: Bodies, genesis: Hash, p: Numbering, q: Numbering, m: nat, n: nat,
               a: Option<Header>, b: Option<Header>, deleted: seq<TxId>, chain: seq<Hash>)
    requires Rooted(hs, genesis) && AtOld(hs, bodies, p, m, a, deleted) && AtNew(hs, q, n, b, chain)
    ensures a.Some? && b.Some? && Bodied(hs, bodies) && a.value.hash in bodies && b.value.hash in bodies
    ensures a.value.number <= m && b.value.number <= n
    ensures a.value.number == b.value.number == 0 ==> a.value.hash == b.value.hash
  {
    StartsAtGenesis(hs, genesis, p, m);
    StartsAtGenesis(hs, genesis, q, n);
  }

  /** The fork: `p` and `q` share the blocks up to number `k` and differ in the next one, if both have one. */
  ghost predicate ForksAt(p: Numbering, q: Numbering, m: nat, n: nat, k: nat) {
    && k <= m && k <= n && k in p && k in q && p[k] == q[k]
    && (k < m && k < n ==> k + 1 in p && k + 1 in q && p[k + 1] != q[k + 1])
  }

  lemma AtCommon(hs: Headers, bodies: Bodies, p: Numbering, q: Numbering, m: nat, n: nat, a: Option<Header>,
                 b: Option<Header>,
                 deleted: seq<TxId>, chain: seq<Hash>)
    requires AtOld(hs, bodies, p, m, a, deleted) && AtNew(hs, q, n, b, chain) && a.value.hash == b.value.hash
    requires var k: nat := a.value.number; k < m && k < n ==> k + 1 in p && k + 1 in q && p[k + 1] != q[k + 1]
    ensures var k: nat := a.value.number;
      && ForksAt(p, q, m, n, k) && Numbered(bodies, p, m)
      && (forall tx :: tx in deleted <==> tx in Range(bodies, p, k, m))
      && |chain| == n - k && TopDown(q, n, chain)
  {
  }

  /** The two chains differ at the number above, when both reach it. */
  ghost predicate DifferAbove(p: Numbering, q: Numbering, m: nat, n: nat, k: nat) {
    k < m && k < n ==> k + 1 in p && k + 1 in q && p[k + 1] != q[k + 1]
  }

  /** Walks both chains down to their last common block. The walk never runs off a chain: the error exits for
      an invalid old or new chain are not taken. */
  method FindCommon(hs: Headers, bodies: Bodies, genesis: Hash, oldHead: Header, newHead: Header, ghost p: Numbering,
                    ghost q: Numbering)
    returns (ok: bool, common: Hash, deleted: seq<TxId>, newChain: seq<Hash>)
    requires Rooted(hs, genesis) && Bodied(hs, bodies)
    requires oldHead.hash in hs && hs[oldHead.hash] == oldHead && LeadsTo(hs, p, oldHead.hash)
    requires newHead.hash in hs && hs[newHead.hash] == newHead && LeadsTo(hs, q, newHead.hash)
    ensures ok && common in hs && Numbered(bodies, p, oldHead.number)
    ensures ForksAt(p, q, oldHead.number, newHead.number, hs[common].number) && p[hs[common].number as nat] == common
    ensures forall tx :: tx in deleted <==> tx in Range(bodies, p, hs[common].number, oldHead.number)
    ensures |newChain| == newHead.number - hs[common].number
    ensures TopDown(q, newHead.number, newChain)
  {
    hide *;
    RootedKeyed(hs, genesis);
    var a, b := Some(oldHead), Some(newHead);
    ghost var m: nat, n: nat := oldHead.number, newHead.number;
    deleted, newChain := [], [];
    AtOldStart(hs, bodies, p, oldHead);
    AtNewStart(hs, q, newHead);
    if oldHead.number > newHead.number {
      while a.Some? && a.value.number != newHead.number
        invariant AtOld(hs, bodies, p, m, a, deleted) && a.Some? && newHead.number <= a.value.number
        decreases if a.Some? then a.value.number + 1 else 0
      {
        AtOldStep(hs, bodies, p, m, a, deleted);
        deleted := deleted + bodies[a.value.hash];
        a := GetBlock(hs, bodies, a.value.parent, a.value.number - 1);
        AtBoth(hs, bodies, genesis, p, q, m, n, a, b, deleted, newChain);
      }
    } else {
      while b.Some? && b.value.number != oldHead.number
        invariant AtNew(hs, q, n, b, newChain) && b.Some? && oldHead.number <= b.value.number
        decreases if b.Some? then b.value.number + 1 else 0
      {
        AtNewStep(hs, bodies, q, n, b, newChain);
        newChain := newChain + [b.value.hash];
        b := GetBlock(hs, bodies, b.value.parent, b.value.number - 1);
        AtBoth(hs, bodies, genesis, p, q, m, n, a, b, deleted, newChain);
      }
    }
    common := oldHead.hash;
    if a == None || b == None {
      return false, common, deleted, newChain;
    }
    NotBothBelow(p, q, m, n, a.value.number);
    while true
      invariant AtOld(hs, bodies, p, m, a, deleted) && AtNew(hs, q, n, b, newChain)
      invariant a.Some? && b.Some? && a.value.number == b.value.number && DifferAbove(p, q, m, n, a.value.number)
      decreases if a.Some? then a.value.number + 1 else 0
    {
      AtBoth(hs, bodies, genesis, p, q, m, n, a, b, deleted, newChain);
      if a.value.hash == b.value.hash {
        common := a.value.hash;
        break;
      }
      DifferHere(hs, bodies, p, q, m, n, a, b, deleted, newChain);
      AtOldStep(hs, bodies, p, m, a, deleted);
      AtNewStep(hs, bodies, q, n, b, newChain);
      newChain := newChain + [b.value.hash];
      deleted := deleted + bodies[a.value.hash];
      a, b := GetBlock(hs, bodies, a.value.parent, a.value.number - 1), GetBlock(hs, bodies, b.value.parent,
                       b.value.number - 1);
      AtBoth(hs, bodies, genesis, p, q, m, n, a, b, deleted, newChain);
      if a == None || b == None {
        return false, common, deleted, newChain;
      }
    }
    DifferIs(p, q, m, n, a.value.number);
    AtCommon(hs, bodies, p, q, m, n, a, b, deleted, newChain);
    AtOldIs(hs, bodies, p, m, a, deleted);
    ok := true;
  }

  lemma RootedKeyed(hs: Headers, genesis: Hash)
    requires Rooted(hs, genesis)
    ensures Keyed(hs)
  {
  }

  lemma NotBothBelow(p: Numbering, q: Numbering, m: nat, n: nat, k: nat)
    requires k == m || k == n
    ensures DifferAbove(p, q, m, n, k)
  {
  }

  lemma DifferHere(hs: Headers, bodies: Bodies, p: Numbering, q: Numbering, m: nat, n: nat, a: Option<Header>,
                   b: Option<Header>,
                   deleted: seq<TxId>, chain: seq<Hash>)
    requires AtOld(hs, bodies, p, m, a, deleted) && AtNew(hs, q, n, b, chain)
    requires a.value.number == b.value.number && a.value.hash != b.value.hash
    ensures a.value.number > 0 ==> DifferAbove(p, q, m, n, a.value.number - 1)
  {
  }

  lemma DifferIs(p: Numbering, q: Numbering, m: nat, n: nat, k: nat)
    requires DifferAbove(p, q, m, n, k)
    ensures k < m && k < n ==> k + 1 in p && k + 1 in q && p[k + 1] != q[k + 1]
  {
  }

  lemma AtOldIs(hs: Headers, bodies: Bodies, p: Numbering, m: nat, a: Option<Header>, deleted: seq<TxId>)
    requires AtOld(hs, bodies, p, m, a, deleted)
    ensures a.value.hash in hs && hs[a.value.hash] == a.value && p[a.value.number as nat] == a.value.hash
  {
  }

  // ---------------------------------------------------------------- the state

  /** The preferred head: more total difficulty, then a lower number. No stored block beats it. */
  ghost predicate Best(hs: Headers, tds: map<Hash, int>, head: Hash)
    requires hs.Keys == tds.Keys
  {
    && head in hs
    && forall h | h in hs :: tds[h] < tds[head] || (tds[h] == tds[head] && hs[h].number >= hs[head].number)
  }

  /** Every canonical number, stale or not, names a stored block of that number. */
  ghost predicate CanonStored(hs: Headers, canon: Numbering) {
    forall m | m in canon :: canon[m] in hs && hs[canon[m]].number == m
  }

  /** No transaction occurs twice on the way to a stored block. */
  ghost predicate NoReplays(hs: Headers, bodies: Bodies, genesis: Hash)
    requires Rooted(hs, genesis) && Bodied(hs, bodies)
  {
    forall h | h in hs :: NoReplayTo(hs, bodies, genesis, h)
  }

  ghost predicate NoReplayTo(hs: Headers, bodies: Bodies, genesis: Hash, h: Hash)
    requires Rooted(hs, genesis) && Bodied(hs, bodies) && h in hs
  {
    NoRepeats(bodies, PathTo(hs, genesis, h), hs[h].number)
  }

  /** The lookup index is exactly the index of the canonical path up to number `n`. */
  ghost predicate Indexed(bodies: Bodies, canon: Numbering, n: nat, lookup: Lookup) {
    Numbered(bodies, canon, n) && lookup == Index(bodies, canon, n)
  }

  /** The numbering agrees with the path up to number `n`. */
  ghost predicate Follows(canon: Numbering, q: Numbering, n: nat) {
    forall m: nat | m <= n :: m in canon && m in q && canon[m] == q[m]
  }

  lemma LeadsNumbered(hs: Headers, bodies: Bodies, p: Numbering, h: Hash)
    requires LeadsTo(hs, p, h) && Bodied(hs, bodies)
    ensures Numbered(bodies, p, hs[h].number) && Descends(hs, p, hs[h].number) && p[hs[h].number as nat] == h
  {
  }

  lemma PathLeads(hs: Headers, p: Numbering, h: Hash)
    requires IsPathTo(hs, p, h)
    ensures LeadsTo(hs, p, h)
  {
  }

  // ---------------------------------------------------------------- storing a block

  lemma StoresBest(hs: Headers, tds: map<Hash, int>, head: Hash, x: Header, td: int)
    requires hs.Keys == tds.Keys && Best(hs, tds, head)
    requires (x.hash in hs ==> hs[x.hash] == x && tds[x.hash] == td)
    ensures hs[x.hash := x].Keys == tds[x.hash := td].Keys
    ensures tds[x.hash := td][head] == tds[head] && hs[x.hash := x][head] == hs[head]
    ensures td > tds[head] || (td == tds[head] && x.number <= hs[head].number) ==> Best(hs[x.hash := x], tds[x.hash := td], x.hash)
    ensures td < tds[head] || (td == tds[head] && x.number >= hs[head].number) ==> Best(hs[x.hash := x], tds[x.hash := td], head)
  {
  }

  /** A stored block that beats or ties the head and is numbered already is the head: the numbering never makes
      an insertion skip the update of the head header. */
  lemma NumberedIsHead(hs: Headers, tds: map<Hash, int>, canon: Numbering, head: Hash, x: Header, td: int,
                       tie: TieBreak)
    requires hs.Keys == tds.Keys && Best(hs, tds, head) && CanonStored(hs, canon) && LeadsTo(hs, canon, head)
    requires x.hash != NO_HASH && (x.hash in hs ==> hs[x.hash] == x && tds[x.hash] == td)
    ensures Wins(tds[head], hs[head].number, td, x.number, tie) ==> (ReadCanonicalHash(canon, x.number) == x.hash <==> x.hash == head)
  {
    assert canon[hs[head].number as nat] == head;
  }

  lemma StoresPath(hs: Headers, genesis: Hash, x: Header, h: Hash)
    requires Rooted(hs, genesis) && Rooted(hs[x.hash := x], genesis) && h in hs && (x.hash in hs ==> hs[x.hash] == x)
    ensures PathTo(hs[x.hash := x], genesis, h) == PathTo(hs, genesis, h)
  {
    hide Rooted, PathTo;
    var hs' := hs[x.hash := x];
    var p := PathTo(hs, genesis, h);
    DescendsStill(hs, hs', p, hs[h].number);
    PathUnique(hs', PathTo(hs', genesis, h), p, h);
  }

  lemma StoresLeads(hs: Headers, x: Header, p: Numbering, h: Hash)
    requires LeadsTo(hs, p, h) && (x.hash in hs ==> hs[x.hash] == x)
    ensures LeadsTo(hs[x.hash := x], p, h)
  {
  }

  lemma StoresIndexed(hs: Headers, bodies: Bodies, canon: Numbering, head: Hash, lookup: Lookup, x: Header,
                      txs: seq<TxId>)
    requires Bodied(hs, bodies) && LeadsTo(hs, canon, head) && Indexed(bodies, canon, hs[head].number, lookup)
    requires x.hash in bodies ==> bodies[x.hash] == txs
    ensures Bodied(hs[x.hash := x], bodies[x.hash := txs])
    ensures Indexed(bodies[x.hash := txs], canon, hs[head].number, lookup)
  {
    hide Index;
    var n: nat := hs[head].number;
    assert SameBlocks(bodies, bodies[x.hash := txs], canon, canon, n);
    IndexSame(bodies, bodies[x.hash := txs], canon, canon, n);
  }

  /** The block's transactions are not on the way to its parent. */
  ghost predicate FreshTxs(hs: Headers, bodies: Bodies, genesis: Hash, x: Header, txs: seq<TxId>)
    requires Rooted(hs, genesis) && Bodied(hs, bodies) && x.parent in hs
  {
    var p := PathTo(hs, genesis, x.parent);
    LeadsNumbered(hs, bodies, p, x.parent);
    forall tx | tx in txs :: tx !in Index(bodies, p, hs[x.parent].number)
  }

  lemma StoresNoReplay(hs: Headers, bodies: Bodies, genesis: Hash, x: Header, txs: seq<TxId>, h: Hash)
    requires Rooted(hs, genesis) && Bodied(hs, bodies) && h in hs && NoReplayTo(hs, bodies, genesis, h)
    requires Rooted(hs[x.hash := x], genesis) && Bodied(hs[x.hash := x], bodies[x.hash := txs])
    requires x.hash in hs ==> hs[x.hash] == x && bodies[x.hash] == txs
    ensures NoReplayTo(hs[x.hash := x], bodies[x.hash := txs], genesis, h)
  {
    hide Rooted, PathTo, NoRepeats, Index;
    StoresPath(hs, genesis, x, h);
    var p := PathTo(hs, genesis, h);
    assert SameBlocks(bodies, bodies[x.hash := txs], p, p, hs[h].number);
    NoRepeatsSame(bodies, bodies[x.hash := txs], p, p, hs[h].number);
  }

  lemma StoresFresh(hs: Headers, bodies: Bodies, genesis: Hash, x: Header, txs: seq<TxId>)
    requires Rooted(hs, genesis) && Bodied(hs, bodies) && ParentStored(hs, x) && x.hash !in hs && x.hash != genesis
    requires NoReplayTo(hs, bodies, genesis, x.parent) && FreshTxs(hs, bodies, genesis, x, txs)
    requires Rooted(hs[x.hash := x], genesis) && Bodied(hs[x.hash := x], bodies[x.hash := txs])
    ensures NoReplayTo(hs[x.hash := x], bodies[x.hash := txs], genesis, x.hash)
  {
    var hs', bodies', n: nat := hs[x.hash := x], bodies[x.hash := txs], x.number;
    StoresPath(hs, genesis, x, x.parent);
    var p, q := PathTo(hs, genesis, x.parent), PathTo(hs', genesis, x.hash);
    assert q == p[n := x.hash];
    LeadsNumbered(hs, bodies, p, x.parent);
    LeadsNumbered(hs', bodies', q, x.hash);
    hide *;
    NoReplayIs(hs, bodies, genesis, x.parent);
    FreshIs(hs, bodies, genesis, x, txs);
    FreshOnTop(bodies, p, n, x.hash, txs);
    NoReplayIs(hs', bodies', genesis, x.hash);
  }

  lemma NoReplayIs(hs: Headers, bodies: Bodies, genesis: Hash, h: Hash)
    requires Rooted(hs, genesis) && Bodied(hs, bodies) && h in hs
    ensures Numbered(bodies, PathTo(hs, genesis, h), hs[h].number)
    ensures NoReplayTo(hs, bodies, genesis, h) <==> NoRepeats(bodies, PathTo(hs, genesis, h), hs[h].number)
  {
  }

  lemma FreshIs(hs: Headers, bodies: Bodies, genesis: Hash, x: Header, txs: seq<TxId>)
    requires Rooted(hs, genesis) && Bodied(hs, bodies) && ParentStored(hs, x) && FreshTxs(hs, bodies, genesis, x, txs)
    ensures x.number > 0 && Numbered(bodies, PathTo(hs, genesis, x.parent), x.number - 1)
    ensures forall tx | tx in txs :: tx !in Index(bodies, PathTo(hs, genesis, x.parent), x.number - 1)
    ensures hs[x.parent].number == x.number - 1
  {
  }

  lemma FreshOnTop(bodies: Bodies, p: Numbering, n: nat, h: Hash, txs: seq<TxId>)
    requires 0 < n && Numbered(bodies, p, n - 1) && NoRepeats(bodies, p, n - 1) && h !in bodies
    requires forall tx | tx in txs :: tx !in Index(bodies, p, n - 1)
    ensures Numbered(bodies[h := txs], p[n := h], n) && NoRepeats(bodies[h := txs], p[n := h], n)
  {
    hide Index, FirstEntries;
    var bodies', q := bodies[h := txs], p[n := h];
    assert SameBlocks(bodies, bodies', p, q, n - 1);
    NoRepeatsSame(bodies, bodies', p, q, n - 1);
    IndexSame(bodies, bodies', p, q, n - 1);
    EntriesKeys(bodies', q, n);
    assert FreshAt(bodies', q, n);
    forall m: nat | 0 < m <= n ensures FreshAt(bodies', q, m) {
      if m < n {
        assert NoRepeats(bodies', q, n - 1);
      }
    }
  }

  /** Storing a block keeps no-replay for all stored blocks. */
  lemma StoresNoReplays(hs: Headers, bodies: Bodies, genesis: Hash, x: Header, txs: seq<TxId>)
    requires Rooted(hs, genesis) && Bodied(hs, bodies) && NoReplays(hs, bodies, genesis) && ParentStored(hs, x)
    requires x.hash != genesis
    requires FreshTxs(hs, bodies, genesis, x, txs)
    requires Rooted(hs[x.hash := x], genesis) && Bodied(hs[x.hash := x], bodies[x.hash := txs])
    requires x.hash in hs ==> hs[x.hash] == x && bodies[x.hash] == txs
    ensures NoReplays(hs[x.hash := x], bodies[x.hash := txs], genesis)
  {
    hide Rooted, Bodied, NoReplayTo, FreshTxs, ParentStored;
    assert x.parent in hs by { ParentIn(hs, x); }
    var hs' := hs[x.hash := x];
    forall h | h in hs' ensures NoReplayTo(hs', bodies[x.hash := txs], genesis, h) {
      if h in hs {
        StoresNoReplay(hs, bodies, genesis, x, txs, h);
      } else {
        StoresFresh(hs, bodies, genesis, x, txs);
      }
    }
  }

  lemma ParentIn(hs: Headers, x: Header)
    requires ParentStored(hs, x)
    ensures x.parent in hs && x.number > 0 && hs[x.parent].number == x.number - 1
  {
  }

  // ---------------------------------------------------------------- moving the numbering

  /** The numbering with the path's blocks above `k` up to `j` written over it. */
  ghost predicate Rerouted(canon0: Numbering, canon: Numbering, q: Numbering, k: nat, j: nat) {
    && (forall m: nat | k < m <= j :: m in canon && m in q && canon[m] == q[m])
    && (forall m: nat | m <= k || j < m :: ReadCanonicalHash(canon, m) == ReadCanonicalHash(canon0, m))
    && (forall m: nat | m in canon :: m in canon0 || k < m <= j)
    && (forall m: nat | m in canon0 :: m in canon)
  }

  lemma ReroutedStep(canon0: Numbering, canon: Numbering, q: Numbering, k: nat, j: nat)
    requires Rerouted(canon0, canon, q, k, j) && j + 1 in q && k <= j
    ensures ReadCanonicalHash(canon, j + 1) == ReadCanonicalHash(canon0, j + 1)
    ensures Rerouted(canon0, canon[j + 1 := q[j + 1]], q, k, j + 1)
  {
  }

  lemma ReroutedEnd(hs: Headers, genesis: Hash, canon0: Numbering, canon: Numbering, q: Numbering, m: nat, n: nat,
                    k: nat)
    requires Keyed(hs) && Descends(hs, canon0, m) && Descends(hs, q, n) && CanonStored(hs, canon0)
    requires ForksAt(canon0, q, m, n, k) && Rerouted(canon0, canon, q, k, n)
    ensures Follows(canon, q, n) && CanonStored(hs, canon)
  {
    forall i: nat | i <= n ensures i in canon && i in q && canon[i] == q[i] {
      if i <= k {
        AgreeBelow(hs, canon0, q, k, i);
        assert ReadCanonicalHash(canon, i) == ReadCanonicalHash(canon0, i) == canon0[i];
      }
    }
    forall i: nat | i in canon ensures canon[i] in hs && hs[canon[i]].number == i {
      if i <= k || n < i {
        assert ReadCanonicalHash(canon, i) == ReadCanonicalHash(canon0, i);
      }
    }
  }

  /** When the new head is on the old path, there is nothing to insert. */
  lemma ForkOnPath(hs: Headers, p: Numbering, q: Numbering, m: nat, n: nat, k: nat)
    requires Descends(hs, p, m) && Descends(hs, q, n) && ForksAt(p, q, m, n, k) && n <= m && p[n] == q[n]
    ensures k == n
  {
    if k < n {
      AgreeBelow(hs, p, q, n, k + 1);
      assert false;
    }
  }

  lemma FollowsIndex(hs: Headers, bodies: Bodies, canon: Numbering, q: Numbering, h: Hash, lookup: Lookup)
    requires LeadsTo(hs, q, h) && Bodied(hs, bodies) && Follows(canon, q, hs[h].number)
    requires Numbered(bodies, q, hs[h].number) && lookup == Index(bodies, q, hs[h].number)
    ensures LeadsTo(hs, canon, h) && Indexed(bodies, canon, hs[h].number, lookup)
  {
    hide Index;
    assert SameBlocks(bodies, bodies, q, canon, hs[h].number);
    IndexSame(bodies, bodies, q, canon, hs[h].number);
  }

  /** Extending the head by a block. */
  lemma ExtendsHead(hs: Headers, bodies: Bodies, canon: Numbering, q: Numbering, head: Hash, x: Header, lookup: Lookup)
    requires LeadsTo(hs, canon, head) && Bodied(hs, bodies) && Indexed(bodies, canon, hs[head].number, lookup)
    requires x.hash in hs && hs[x.hash] == x && LeadsTo(hs, q, x.hash) && x.parent == head && ParentStored(hs, x)
    requires Numbered(bodies, q, x.number)
    ensures lookup + Entries(bodies, q, x.number) == Index(bodies, q, x.number)
    ensures Follows(canon[x.number as nat := x.hash], q, x.number)
  {
    hide Entries;
    var n: nat := x.number;
    assert q[n - 1] == head;
    forall i: nat | i < n ensures canon[i] == q[i] {
      AgreeBelow(hs, canon, q, n - 1, i);
    }
    assert SameBlocks(bodies, bodies, canon, q, n - 1);
    IndexSame(bodies, bodies, canon, q, n - 1);
  }

  /** Writing the top block's entries once more changes nothing. */
  lemma WritesAgain(bodies: Bodies, q: Numbering, n: nat)
    requires Numbered(bodies, q, n)
    ensures Index(bodies, q, n) + Entries(bodies, q, n) == Index(bodies, q, n)
  {
    hide Entries;
  }

  lemma ReroutedStart(bodies: Bodies, p: Numbering, q: Numbering, k: nat, n: nat, lookup: Lookup)
    requires Numbered(bodies, q, n) && k <= n
    ensures Numbered(bodies, q, k) && Rerouted(p, p, q, k, k) && Range(bodies, q, k, k) == map[]
    ensures lookup == lookup + Range(bodies, q, k, k)
  {
  }

  lemma NextNew(hs: Headers, bodies: Bodies, q: Numbering, n: nat, chain: seq<Hash>, i: nat)
    requires Keyed(hs) && Bodied(hs, bodies) && Descends(hs, q, n) && TopDown(q, n, chain) && i < |chain|
    ensures n - i in q && chain[i] == q[n - i] && chain[i] in hs && hs[chain[i]].number == n - i && chain[i] in bodies
    ensures Numbered(bodies, q, n - i)
  {
    assert q[n - i] in hs;
  }

  lemma RangeGrows(bodies: Bodies, q: Numbering, k: nat, j: nat, lookup: Lookup)
    requires Numbered(bodies, q, j) && k < j
    ensures Numbered(bodies, q, j - 1)
    ensures (lookup + Range(bodies, q, k, j - 1)) + Entries(bodies, q, j) == lookup + Range(bodies, q, k, j)
    ensures forall tx :: tx in Range(bodies, q, k, j) <==> tx in Range(bodies, q, k, j - 1) || tx in bodies[q[j]]
  {
    hide Entries;
    EntriesKeys(bodies, q, j);
    Associates(lookup, Range(bodies, q, k, j - 1), Entries(bodies, q, j));
  }

  lemma ForksLow(p: Numbering, q: Numbering, m: nat, n: nat, k: nat)
    requires ForksAt(p, q, m, n, k)
    ensures k <= m && k <= n && k in p && k in q && p[k] == q[k]
  {
  }

  lemma ForkOfHead(hs: Headers, p: Numbering, q: Numbering, m: nat, n: nat, k: nat, h: Hash, head: Hash)
    requires Descends(hs, p, m) && Descends(hs, q, n) && ForksAt(p, q, m, n, k) && p[m] == head && q[n] == h
    ensures h == head ==> k == n
    ensures k == n ==> ReadCanonicalHash(p, n) == h
  {
    if h == head {
      assert hs[p[m]].number == m && hs[q[n]].number == n;
      ForkOnPath(hs, p, q, m, n, k);
    }
  }

  lemma IndexedIs(bodies: Bodies, canon: Numbering, n: nat, lookup: Lookup)
    requires Indexed(bodies, canon, n, lookup)
    ensures Numbered(bodies, canon, n) && lookup == Index(bodies, canon, n)
  {
  }

  lemma IndexMovesTo(hs: Headers, bodies: Bodies, p: Numbering, q: Numbering, k: nat, m: nat, n: nat,
                     deleted: seq<TxId>, added: seq<TxId>, diff: seq<TxId>)
    requires Descends(hs, p, m) && Descends(hs, q, n) && ForksAt(p, q, m, n, k)
    requires k <= m && k <= n && Numbered(bodies, p, m) && Numbered(bodies, q, n) && NoRepeats(bodies, p, m)
    requires forall tx :: tx in deleted <==> tx in Range(bodies, p, k, m)
    requires forall tx :: tx in added <==> tx in Range(bodies, q, k, n)
    requires forall tx :: tx in diff <==> tx in deleted && tx !in added
    ensures (Index(bodies, p, m) + Range(bodies, q, k, n)) - (set tx | tx in diff) == Index(bodies, q, n)
  {
    hide Range, Index, NoRepeats;
    forall j: nat | j <= k ensures p[j] == q[j] {
      AgreeBelow(hs, p, q, k, j);
    }
    IndexMoves(bodies, p, q, k, m, n, set tx | tx in diff);
  }

  /** How ties of the same height are broken: does the local miner want to keep the current block, the new one,
      and what does the coin say? */
  datatype TieBreak = TieBreak(currentPreserve: bool, blockPreserve: bool, coin: bool)

  /** The new block becomes the head. */
  predicate Wins(localTd: int, localNumber: nat, td: int, number: nat, tie: TieBreak) {
    || td > localTd
    || (td == localTd && number < localNumber)
    || (td == localTd && number == localNumber && !tie.currentPreserve && (tie.blockPreserve || tie.coin))
  }

  lemma WinsIs(localTd: int, localNumber: nat, td: int, number: nat, tie: TieBreak)
    ensures Wins(localTd, localNumber, td, number, tie) <==>
      td > localTd || (td == localTd && (number < localNumber ||
        (number == localNumber && !tie.currentPreserve && (tie.blockPreserve || tie.coin))))
  {
  }

  lemma StoresCanon(hs: Headers, canon: Numbering, x: Header, head: Hash)
    requires CanonStored(hs, canon) && (x.hash in hs ==> hs[x.hash] == x) && head in hs && ParentStored(hs, x)
    ensures CanonStored(hs[x.hash := x], canon) && hs[x.hash := x][head] == hs[head] && ParentStored(hs[x.hash := x], x)
  {
  }

  lemma NumberedIs(bodies: Bodies, p: Numbering, n: nat)
    requires Numbered(bodies, p, n)
    ensures forall m: nat | m <= n :: m in p && p[m] in bodies
  {
  }

  lemma FollowsTop(canon: Numbering, q: Numbering, n: nat)
    requires Follows(canon, q, n)
    ensures n in canon && n in q && canon[n] == q[n] && ReadCanonicalHash(canon, n) == q[n] && canon[n := q[n]] == canon
  {
  }

  lemma ExtendsStored(hs: Headers, canon: Numbering, x: Header)
    requires CanonStored(hs, canon) && x.hash in hs && hs[x.hash] == x && ParentStored(hs, x)
    ensures CanonStored(hs, canon[x.number as nat := x.hash]) && x.hash != x.parent
  {
  }

  lemma NoReplayAt(hs: Headers, bodies: Bodies, genesis: Hash, h: Hash)
    requires Rooted(hs, genesis) && Bodied(hs, bodies) && NoReplays(hs, bodies, genesis) && h in hs
    ensures Numbered(bodies, PathTo(hs, genesis, h), hs[h].number)
    ensures NoRepeats(bodies, PathTo(hs, genesis, h), hs[h].number)
  {
    hide NoRepeats, Rooted, PathTo;
    assert NoReplayTo(hs, bodies, genesis, h);
    NoReplayIs(hs, bodies, genesis, h);
  }

  lemma SamePath(hs: Headers, bodies: Bodies, p: Numbering, q: Numbering, n: nat)
    requires Descends(hs, p, n) && Descends(hs, q, n) && p[n] == q[n] && Numbered(bodies, p, n)
    requires Numbered(bodies, q, n)
    ensures SameBlocks(bodies, bodies, p, q, n)
  {
    forall m: nat | m <= n ensures p[m] == q[m] {
      AgreeBelow(hs, p, q, n, m);
    }
  }

  // ---------------------------------------------------------------- many blocks

  /** A block as it is handed to the chain. */
  datatype NewBlock = NewBlock(header: Header, txs: seq<TxId>)

  /** What storing one block leaves: it is stored exactly if its parent is. */
  ghost function StoreOne(hs: Headers, bodies: Bodies, x: NewBlock): (Headers, Bodies) {
    if ParentStored(hs, x.header) then (hs[x.header.hash := x.header], bodies[x.header.hash := x.txs]) else (hs, bodies)
  }

  ghost function StoreAll(hs: Headers, bodies: Bodies, xs: seq<NewBlock>): (Headers, Bodies) {
    if xs == [] then (hs, bodies)
    else
      var (hs', bodies') := StoreAll(hs, bodies, xs[..|xs| - 1]);
      StoreOne(hs', bodies', xs[|xs| - 1])
  }

  lemma StoreMore(hs: Headers, bodies: Bodies, xs: seq<NewBlock>, i: nat)
    requires i < |xs|
    ensures StoreAll(hs, bodies, xs[..i + 1]) == StoreOne(StoreAll(hs, bodies, xs[..i]).0, StoreAll(hs, bodies, xs[..i]).1, xs[i])
  {
    hide StoreOne;
    assert xs[..i + 1][..i] == xs[..i];
  }

  /** A block the chain may be given: its hash names no other block, and it repeats no transaction of its ancestors. */
  ghost predicate Acceptable(hs: Headers, bodies: Bodies, genesis: Hash, x: NewBlock) {
    && Rooted(hs, genesis) && Bodied(hs, bodies) && x.header.hash != NO_HASH && x.header.number < MAX_UINT64
    && (x.header.hash in hs ==> hs[x.header.hash] == x.header && x.header.hash in bodies && bodies[x.header.hash] == x.txs)
    && (x.header.parent in hs ==> FreshTxs(hs, bodies, genesis, x.header, x.txs))
  }

  /** Each block is acceptable after the ones before it. */
  ghost predicate AllAcceptable(hs: Headers, bodies: Bodies, genesis: Hash, xs: seq<NewBlock>) {
    forall i: nat | i < |xs| ::
      Acceptable(StoreAll(hs, bodies, xs[..i]).0, StoreAll(hs, bodies, xs[..i]).1, genesis, xs[i])
  }

  lemma AcceptableIs(hs: Headers, bodies: Bodies, genesis: Hash, xs: seq<NewBlock>, i: nat)
    requires AllAcceptable(hs, bodies, genesis, xs) && i < |xs|
    ensures var (hs', bodies') := StoreAll(hs, bodies, xs[..i]);
      var x := xs[i];
      && Rooted(hs', genesis) && Bodied(hs', bodies') && x.header.hash != NO_HASH && x.header.number < MAX_UINT64
      && (x.header.hash in hs' ==> hs'[x.header.hash] == x.header && x.header.hash in bodies' && bodies'[x.header.hash] == x.txs)
      && (x.header.parent in hs' ==> FreshTxs(hs', bodies', genesis, x.header, x.txs))
  {
    hide StoreAll, FreshTxs, Rooted, Bodied;
  }

  lemma StoreOneIs(hs: Headers, bodies: Bodies, x: NewBlock)
    ensures StoreOne(hs, bodies, x) ==
      if ParentStored(hs, x.header) then (hs[x.header.hash := x.header], bodies[x.header.hash := x.txs]) else (hs, bodies)
  {
    hide ParentStored;
  }

  ghost function TdOf(tds: map<Hash, int>, h: Hash): int {
    if h in tds then tds[h] else 0
  }

  /** The answer to a block: refused exactly if its parent is not stored. */
  ghost predicate Stores(status: WriteStatus, hs: Headers, x: NewBlock) {
    !status.InvalidChain? && (status.UnknownAncestor? <==> !ParentStored(hs, x.header))
  }

  lemma StoresIs(status: WriteStatus, hs: Headers, x: NewBlock)
    ensures Stores(status, hs, x) <==> !status.InvalidChain? && (status.UnknownAncestor? <==> !ParentStored(hs, x.header))
  {
  }

  lemma StoreNone(hs: Headers, bodies: Bodies, xs: seq<NewBlock>)
    ensures StoreAll(hs, bodies, xs[..0]) == (hs, bodies) && xs[..|xs|] == xs
  {
  }

  /** The transaction can be looked up exactly when it is in a block of the path to the head, and then the entry names
      that block and a position that holds the transaction. */
  ghost predicate Located(hs: Headers, bodies: Bodies, canon: Numbering, head: Hash, lookup: Lookup, tx: TxId) {
    && LeadsTo(hs, canon, head) && Numbered(bodies, canon, hs[head].number)
    && (tx in lookup <==> exists m: nat :: m <= hs[head].number && tx in bodies[canon[m]])
    && (forall m: nat | m <= hs[head].number && tx in bodies[canon[m]] ::
          tx in lookup && lookup[tx].block == canon[m] && lookup[tx].number == m &&
          lookup[tx].index < |bodies[canon[m]]| && bodies[canon[m]][lookup[tx].index] == tx)
  }

  lemma LocatedIs(hs: Headers, bodies: Bodies, canon: Numbering, head: Hash, lookup: Lookup, tx: TxId)
    requires LeadsTo(hs, canon, head) && Numbered(bodies, canon, hs[head].number)
    requires tx in lookup <==> exists m: nat :: m <= hs[head].number && tx in bodies[canon[m]]
    requires forall m: nat | m <= hs[head].number && tx in bodies[canon[m]] ::
      tx in lookup && lookup[tx].block == canon[m] && lookup[tx].number == m &&
      lookup[tx].index < |bodies[canon[m]]| && bodies[canon[m]][lookup[tx].index] == tx
    ensures Located(hs, bodies, canon, head, lookup, tx)
  {
  }

  class BlockChain {
    const genesis: Hash
    var headers: Headers
    var bodies: Bodies
    var tds: map<Hash, int>
    var canon: Numbering
    var head: Hash
    var headHeader: Hash
    var lookup: Lookup

    /** The store is a tree of blocks. */
    ghost predicate Stored()
      reads this
    {
      && Rooted(headers, genesis) && Summed(headers, tds, genesis)
      && Bodied(headers, bodies) && NoReplays(headers, bodies, genesis)
      && CanonStored(headers, canon)
    }

    /** The numbering leads to the head and the lookup index is that of the path to it. */
    ghost predicate Current()
      reads this
    {
      LeadsTo(headers, canon, head) && Indexed(bodies, canon, headers[head].number, lookup)
    }

    /** The canonical path from the genesis block to the head is complete, no stored block beats the head, the lookup
        index is exactly that of the path, and the head header is the head block's. */
    ghost predicate Valid()
      reads this
    {
      Stored() && Current() && Best(headers, tds, head) && headHeader == head
    }

    constructor (g: Header)
      requires g.number == 0 && g.hash != NO_HASH
      ensures Valid() && head == genesis == g.hash && headers == map[g.hash := g] && lookup == map[]
    {
      genesis := g.hash;
      headers := map[g.hash := g];
      bodies := map[g.hash := []];
      tds := map[g.hash := g.difficulty];
      canon := map[0 := g.hash];
      head, headHeader := g.hash, g.hash;
      lookup := map[];
      new;
      assert Entries(bodies, canon, 0) == map[];
    }

    /** Makes a block the canonical one of its number and the head; the head header follows unless the number
        named the block already. */
    method Insert(h: Hash, number: nat)
      modifies this`canon, this`head, this`headHeader
      ensures canon == old(canon)[number := h] && head == h
      ensures headHeader == if ReadCanonicalHash(old(canon), number) != h then h else old(headHeader)
    {
      var updateHeads := ReadCanonicalHash(canon, number) != h;
      canon := canon[number := h];
      head := h;
      if updateHeads {
        headHeader := h;
      }
    }

    /** Reroutes the canonical chain from the head to another stored block. */
    method Reorg(x: Header, ghost q: Numbering) returns (ok: bool)
      requires Stored() && Current() && x.hash in headers && headers[x.hash] == x && LeadsTo(headers, q, x.hash)
      requires Numbered(bodies, q, x.number)
      modifies this`canon, this`head, this`headHeader, this`lookup
      ensures ok && Follows(canon, q, x.number) && CanonStored(headers, canon) && lookup == Index(bodies, q, x.number)
      ensures ReadCanonicalHash(old(canon), x.number) != x.hash ==> headHeader == x.hash
      ensures x.hash == old(head) ==> headHeader == old(headHeader)
    {
      hide *;
      Parts();
      PathNoReplay();
      ghost var p, m: nat, n: nat, lookup0 := canon, headers[head].number, x.number, lookup;
      var common, deletedTxs, newChain;
      ok, common, deletedTxs, newChain := FindCommon(headers, bodies, genesis, headers[head], x, p, q);
      if !ok {
        return;
      }
      ghost var k: nat := headers[common].number;
      ForksLow(p, q, m, n, k);
      LeadsNumbered(headers, bodies, q, x.hash);
      LeadsNumbered(headers, bodies, p, head);
      ForkOfHead(headers, p, q, m, n, k, x.hash, head);
      var addedTxs := InsertNewChain(newChain, q, n, k);
      var diff := TxDifference(deletedTxs, addedTxs);
      lookup := DeleteTxLookupEntries(lookup, diff);
      IndexedIs(bodies, p, m, lookup0);
      IndexMovesTo(headers, bodies, p, q, k, m, n, deletedTxs, addedTxs, diff);
      ReroutedEnd(headers, genesis, p, canon, q, m, n, k);
    }

    /** Inserts the new chain's blocks, lowest first, with their lookup entries. */
    method InsertNewChain(newChain: seq<Hash>, ghost q: Numbering, ghost n: nat,
                          ghost k: nat) returns (addedTxs: seq<TxId>)
      requires Keyed(headers) && Bodied(headers, bodies) && Descends(headers, q, n) && Numbered(bodies, q, n)
      requires k <= n && TopDown(q, n, newChain) && |newChain| == n - k
      modifies this`canon, this`head, this`headHeader, this`lookup
      ensures Rerouted(old(canon), canon, q, k, n) && lookup == old(lookup) + Range(bodies, q, k, n)
      ensures forall tx :: tx in addedTxs <==> tx in Range(bodies, q, k, n)
      ensures k == n ==> headHeader == old(headHeader)
      ensures k < n && ReadCanonicalHash(old(canon), n) != q[n] ==> headHeader == q[n]
    {
      hide *;
      ghost var lookup0, p := lookup, canon;
      addedTxs := [];
      var i := |newChain|;
      ReroutedStart(bodies, p, q, k, n, lookup);
      while i > 0
        invariant 0 <= i <= |newChain| && Numbered(bodies, q, n - i)
        invariant Rerouted(p, canon, q, k, n - i) && lookup == lookup0 + Range(bodies, q, k, n - i)
        invariant forall tx :: tx in addedTxs <==> tx in Range(bodies, q, k, n - i)
        invariant i == |newChain| ==> headHeader == old(headHeader)
        invariant i < |newChain| ==> n - i in q && (ReadCanonicalHash(p, n - i) != q[n - i] ==> headHeader == q[n - i])
      {
        i := i - 1;
        ghost var j: nat := n - i;
        NextNew(headers, bodies, q, n, newChain, i);
        ReroutedStep(p, canon, q, k, j - 1);
        Insert(newChain[i], headers[newChain[i]].number);
        RangeGrows(bodies, q, k, j, lookup0);
        lookup := WriteTxLookupEntries(lookup, bodies, q, newChain[i], headers[newChain[i]].number);
        addedTxs := addedTxs + bodies[newChain[i]];
      }
    }

    lemma Parts()
      requires Stored() && Current()
      ensures Rooted(headers, genesis) && Keyed(headers) && Summed(headers, tds, genesis) && headers.Keys == tds.Keys
      ensures Bodied(headers, bodies) && NoReplays(headers, bodies, genesis) && CanonStored(headers, canon)
      ensures LeadsTo(headers, canon, head) && head in headers && headers[head].hash == head
      ensures Indexed(bodies, canon, headers[head].number, lookup)
    {
    }

    /** No transaction repeats on the canonical path. */
    lemma PathNoReplay()
      requires Stored() && LeadsTo(headers, canon, head)
      ensures Numbered(bodies, canon, headers[head].number) && NoRepeats(bodies, canon, headers[head].number)
    {
      hide *;
      StoredParts();
      LeadsNumbered(headers, bodies, canon, head);
      var p, n: nat := PathTo(headers, genesis, head), headers[head].number;
      PathLeads(headers, p, head);
      LeadsNumbered(headers, bodies, p, head);
      NoReplayAt(headers, bodies, genesis, head);
      SamePath(headers, bodies, p, canon, n);
      NoRepeatsSame(bodies, bodies, p, canon, n);
    }

    lemma StoredParts()
      requires Stored() && LeadsTo(headers, canon, head)
      ensures Rooted(headers, genesis) && Bodied(headers, bodies) && NoReplays(headers, bodies, genesis)
      ensures head in headers
    {
    }

    /** A transaction can be looked up exactly when it is in a block of the canonical path, and then the entry names
        that block and a position that holds the transaction. */
    lemma LookupExact(tx: TxId)
      requires Valid()
      ensures LeadsTo(headers, canon, head) && Numbered(bodies, canon, headers[head].number)
      ensures tx in lookup <==> exists m: nat :: m <= headers[head].number && tx in bodies[canon[m]]
      ensures forall m: nat | m <= headers[head].number && tx in bodies[canon[m]] ::
        tx in lookup && lookup[tx].block == canon[m] && lookup[tx].number == m &&
        lookup[tx].index < |bodies[canon[m]]| && bodies[canon[m]][lookup[tx].index] == tx
    {
      hide *;
      ValidParts();
      Parts();
      PathNoReplay();
      var n: nat := headers[head].number;
      IndexedIs(bodies, canon, n, lookup);
      IndexedOnPath(bodies, canon, n, tx);
      forall m: nat | m <= n && m in canon && canon[m] in bodies && tx in bodies[canon[m]] ensures
        tx in lookup && lookup[tx].block == canon[m] && lookup[tx].number == m &&
        lookup[tx].index < |bodies[canon[m]]| && bodies[canon[m]][lookup[tx].index] == tx
      {
        IndexPointsAt(bodies, canon, n, m, tx);
      }
      NumberedIs(bodies, canon, n);
    }

    lemma ValidParts()
      requires Valid()
      ensures Stored() && Current() && headers.Keys == tds.Keys && Best(headers, tds, head) && headHeader == head
    {
    }

    /** Stores a block whose parent is known, with its total difficulty, and makes it the head when it is heavier
        than the head, or as heavy and shorter, or as heavy and as long and preferred or lucky. */
    method WriteBlockWithState(x: Header, txs: seq<TxId>, tie: TieBreak)
      returns (status: WriteStatus)
      requires Valid()
      requires x.hash != NO_HASH && x.number < MAX_UINT64 && (x.hash in headers ==> headers[x.hash] == x && bodies[x.hash] == txs)
      requires x.parent in headers ==> FreshTxs(headers, bodies, genesis, x, txs)
      modifies this`headers, this`bodies, this`tds, this`canon, this`head, this`headHeader, this`lookup
      ensures Valid()
      ensures status.UnknownAncestor? <==> !old(ParentStored(headers, x))
      ensures status.UnknownAncestor? ==> unchanged(this)
      ensures !status.InvalidChain?
      ensures !status.UnknownAncestor? ==> headers == old(headers)[x.hash := x] && bodies == old(bodies)[x.hash := txs]
      ensures status.Canonical? <==> old(ParentStored(headers, x)) && Wins(old(tds[head]), old(headers[head].number), tds[x.hash], x.number, tie)
      ensures head == if status.Canonical? then x.hash else old(head)
      ensures tds[head] >= old(tds[head])
    {
      hide *;
      ValidParts();
      Parts();
      ParentTd(headers, tds, genesis, x);
      var ptd := GetTd(headers, tds, x.parent, Pred64(x.number));
      if ptd == None {
        return UnknownAncestor;
      }
      var localTd, localNumber: nat := tds[head], headers[head].number;
      var externTd := ptd.value + x.difficulty;
      KnownTd(headers, tds, genesis, x);
      StoresBest(headers, tds, head, x, externTd);
      NumberedIsHead(headers, tds, canon, head, x, externTd, tie);
      StoreBlock(x, txs, externTd);
      var reorg := externTd > localTd;
      if !reorg && externTd == localTd {
        if x.number < localNumber {
          reorg := true;
        } else if x.number == localNumber {
          reorg := !tie.currentPreserve && (tie.blockPreserve || tie.coin);
        }
      }
      WinsIs(localTd, localNumber, externTd, x.number, tie);
      if reorg {
        var ok := Adopt(x);
        if !ok {
          return InvalidChain;
        }
        status := Canonical;
      } else {
        status := Side;
      }
      ValidAgain();
    }

    /** Writes any number of blocks, each with its tie break. Exactly the blocks with a stored parent are stored, the head is
        the heaviest of all, and afterwards exactly the transactions of the canonical path can be looked up. */
    method WriteAll(xs: seq<NewBlock>, ties: seq<TieBreak>) returns (statuses: seq<WriteStatus>)
      requires Valid() && |ties| == |xs| && AllAcceptable(headers, bodies, genesis, xs)
      modifies this`headers, this`bodies, this`tds, this`canon, this`head, this`headHeader, this`lookup
      ensures Valid() && |statuses| == |xs| && (headers, bodies) == old(StoreAll(headers, bodies, xs))
      ensures forall i: nat | i < |xs| :: Stores(statuses[i], StoreAll(old(headers), old(bodies), xs[..i]).0, xs[i])
      ensures Best(headers, tds, head) && TdOf(old(tds), old(head)) <= TdOf(tds, head)
      ensures forall tx :: Located(headers, bodies, canon, head, lookup, tx)
    {
      hide *;
      statuses := [];
      StoreNone(headers, bodies, xs);
      HeadStored();
      for i := 0 to |xs|
        invariant Valid() && |statuses| == i && (headers, bodies) == old(StoreAll(headers, bodies, xs[..i]))
        invariant forall j: nat | j < i :: Stores(statuses[j], StoreAll(old(headers), old(bodies), xs[..j]).0, xs[j])
        invariant TdOf(old(tds), old(head)) <= TdOf(tds, head)
      {
        ghost var hs, bs := headers, bodies;
        HeadStored();
        AcceptableIs(old(headers), old(bodies), genesis, xs, i);
        var s := WriteBlockWithState(xs[i].header, xs[i].txs, ties[i]);
        StoreMore(old(headers), old(bodies), xs, i);
        StoreOneIs(hs, bs, xs[i]);
        StoresIs(s, hs, xs[i]);
        HeadStored();
        statuses := statuses + [s];
      }
      HeadStored();
      forall tx ensures Located(headers, bodies, canon, head, lookup, tx) {
        LookupLocates(tx);
      }
    }

    lemma HeadStored()
      requires Valid()
      ensures head in headers && head in tds && headers.Keys == bodies.Keys && Rooted(headers, genesis) && Bodied(headers, bodies)
      ensures Best(headers, tds, head) && TdOf(tds, head) == tds[head]
    {
    }

    lemma LookupLocates(tx: TxId)
      requires Valid()
      ensures Located(headers, bodies, canon, head, lookup, tx)
    {
      hide *;
      LookupExact(tx);
      LocatedIs(headers, bodies, canon, head, lookup, tx);
    }

    lemma ValidAgain()
      requires Stored() && Current() && headers.Keys == tds.Keys && Best(headers, tds, head) && headHeader == head
      ensures Valid()
    {
    }

    /** Writes the block and its total difficulty, irrespective of the canonical status. */
    method StoreBlock(x: Header, txs: seq<TxId>, td: int)
      requires Stored() && Current() && headers.Keys == tds.Keys && ParentStored(headers, x) && x.hash != genesis
      requires x.hash != NO_HASH && 0 < x.number < MAX_UINT64 && (x.hash in headers ==> headers[x.hash] == x && bodies[x.hash] == txs)
      requires x.parent in headers && FreshTxs(headers, bodies, genesis, x, txs) && td == tds[x.parent] + x.difficulty
      modifies this`headers, this`bodies, this`tds
      ensures headers == old(headers)[x.hash := x] && bodies == old(bodies)[x.hash := txs]
      ensures tds == old(tds)[x.hash := td]
      ensures Stored() && Current() && ParentStored(headers, x) && headers.Keys == tds.Keys
    {
      hide *;
      Parts();
      StoresOne(headers, tds, genesis, x);
      StoresIndexed(headers, bodies, canon, head, lookup, x, txs);
      StoresNoReplays(headers, bodies, genesis, x, txs);
      StoresLeads(headers, x, canon, head);
      StoresCanon(headers, canon, x, head);
      headers, bodies, tds := headers[x.hash := x], bodies[x.hash := txs], tds[x.hash := td];
      StoredAgain();
      CurrentAgain();
    }

    lemma StoredAgain()
      requires Rooted(headers, genesis) && Summed(headers, tds, genesis) && Bodied(headers, bodies)
      requires NoReplays(headers, bodies, genesis) && CanonStored(headers, canon)
      ensures Stored()
    {
    }

    lemma CurrentAgain()
      requires LeadsTo(headers, canon, head) && Indexed(bodies, canon, headers[head].number, lookup)
      ensures Current()
    {
    }

    /** Makes a stored block the head, rerouting the canonical chain if it does not extend the head. */
    method Adopt(x: Header) returns (ok: bool)
      requires Stored() && Current() && headHeader == head && ParentStored(headers, x)
      requires x.hash in headers && headers[x.hash] == x
      requires ReadCanonicalHash(canon, x.number) == x.hash <==> x.hash == head
      modifies this`canon, this`head, this`headHeader, this`lookup
      ensures ok && Stored() && Current() && headHeader == head == x.hash
    {
      hide *;
      Parts();
      ghost var q := PathTo(headers, genesis, x.hash);
      PathLeads(headers, q, x.hash);
      LeadsNumbered(headers, bodies, q, x.hash);
      ok := true;
      if x.parent != head {
        ok := Reorg(x, q);
        if !ok {
          return;
        }
        WritesAgain(bodies, q, x.number);
        FollowsTop(canon, q, x.number);
      } else {
        ExtendsHead(headers, bodies, canon, q, head, x, lookup);
        ExtendsStored(headers, canon, x);
      }
      lookup := WriteTxLookupEntries(lookup, bodies, q, x.hash, x.number);
      Insert(x.hash, x.number);
      FollowsIndex(headers, bodies, canon, q, x.hash, lookup);
      StoredAgain();
      CurrentAgain();
    }
  }
}
