/** The stored headers as a tree: parents, paths to the genesis block and total difficulties. Shared by
    the header chain and the block chain. Headers are stored by hash; a lookup names the number as well. */
module HeaderTree {
  import opened Basics

  type Hash = nat

  /** The empty hash, which reads of a missing entry return. No header has it. */
  const NO_HASH: Hash := 0

  datatype Header = Header(hash: Hash, parent: Hash, number: Uint64, difficulty: int)

  type Headers = map<Hash, Header>

  /** A canonical numbering: which header is canonical at a number. */
  type Numbering = map<nat, Hash>

  function GetHeader(hs: Headers, h: Hash, number: nat): Option<Header> {
    if h in hs && hs[h].number == number then Some(hs[h]) else None
  }

  function ReadCanonicalHash(canon: Numbering, number: nat): Hash {
    if number in canon then canon[number] else NO_HASH
  }

  ghost predicate Keyed(hs: Headers) {
    forall h | h in hs :: h != NO_HASH && hs[h].hash == h && hs[h].number < MAX_UINT64
  }

  /** Every stored header but the genesis has its parent stored, one number below. */
  ghost predicate Rooted(hs: Headers, genesis: Hash) {
    && Keyed(hs)
    && genesis in hs && hs[genesis].number == 0
    && (forall h | h in hs && h != genesis :: 0 < hs[h].number && ParentStored(hs, hs[h]))
  }

  ghost predicate ParentStored(hs: Headers, x: Header) {
    x.parent in hs && hs[x.parent].number + 1 == x.number
  }

  // ---------------------------------------------------------------- paths

  /** The numbers up to `n` hold stored headers of those numbers, each the parent of the one above. */
  ghost predicate Descends(hs: Headers, p: Numbering, n: nat) {
    && (forall m: nat | m <= n :: m in p && p[m] in hs && hs[p[m]].number == m)
    && (forall m: nat | 0 < m <= n :: p[m - 1] == hs[p[m]].parent)
  }

  /** The numbering holds the whole path from the genesis block to `h`. */
  ghost predicate LeadsTo(hs: Headers, p: Numbering, h: Hash) {
    h in hs && Descends(hs, p, hs[h].number) && p[hs[h].number] == h
  }

  /** The numbering holds the path to `h` and nothing else. */
  ghost predicate IsPathTo(hs: Headers, p: Numbering, h: Hash) {
    LeadsTo(hs, p, h) && forall m | m in p :: m <= hs[h].number
  }

  ghost function PathTo(hs: Headers, genesis: Hash, h: Hash): (p: Numbering)
    requires Rooted(hs, genesis) && h in hs
    ensures IsPathTo(hs, p, h)
    decreases hs[h].number
  {
    if h == genesis then map[0 := h]
    else
      var p := PathTo(hs, genesis, hs[h].parent);
      Extends(hs, p, h);
      p[hs[h].number as nat := h]
  }

  /** A path to a header's parent, with the header added, is a path to the header. */
  lemma Extends(hs: Headers, p: Numbering, h: Hash)
    requires h in hs && ParentStored(hs, hs[h]) && LeadsTo(hs, p, hs[h].parent)
    ensures LeadsTo(hs, p[hs[h].number as nat := h], h)
    ensures IsPathTo(hs, p, hs[h].parent) ==> IsPathTo(hs, p[hs[h].number as nat := h], h)
  {
  }

  /** Two numberings that agree at a number agree at every number below: a header has one ancestry. */
  lemma {:induction false} AgreeBelow(hs: Headers, p: Numbering, q: Numbering, n: nat, m: nat)
    requires Descends(hs, p, n) && Descends(hs, q, n) && p[n] == q[n] && m <= n
    ensures p[m] == q[m]
    decreases n
  {
    if m < n {
      AgreeBelow(hs, p, q, n - 1, m);
    }
  }

  /** There is only one path to a header. */
  lemma PathUnique(hs: Headers, p: Numbering, q: Numbering, h: Hash)
    requires IsPathTo(hs, p, h) && IsPathTo(hs, q, h)
    ensures p == q
  {
    forall m | m in p ensures p[m] == q[m] {
      AgreeBelow(hs, p, q, hs[h].number, m);
    }
  }

  /** All paths start at the genesis block. */
  lemma StartsAtGenesis(hs: Headers, genesis: Hash, p: Numbering, n: nat)
    requires Rooted(hs, genesis) && Descends(hs, p, n)
    ensures p[0] == genesis
  {
    assert hs[p[0]].number == 0;
  }

  /** Storing one more header keeps the paths there were. */
  lemma DescendsStill(hs: Headers, hs': Headers, p: Numbering, n: nat)
    requires Descends(hs, p, n) && forall h | h in hs :: h in hs' && hs'[h] == hs[h]
    ensures Descends(hs', p, n)
  {
  }

  // ---------------------------------------------------------------- total difficulties

  /** Each total difficulty is the parent's plus the header's own. */
  ghost predicate Summed(hs: Headers, tds: map<Hash, int>, genesis: Hash) {
    && hs.Keys == tds.Keys
    && (genesis in hs ==> tds[genesis] == hs[genesis].difficulty)
    && (forall h | h in hs && h != genesis :: AddsUp(hs, tds, h))
  }

  ghost predicate AddsUp(hs: Headers, tds: map<Hash, int>, h: Hash)
    requires h in hs && hs.Keys == tds.Keys
  {
    hs[h].parent in hs ==> tds[h] == tds[hs[h].parent] + hs[h].difficulty
  }

  ghost function PathDifficulty(hs: Headers, p: Numbering, n: nat): int
    requires Descends(hs, p, n)
  {
    hs[p[n]].difficulty + if n == 0 then 0 else PathDifficulty(hs, p, n - 1)
  }

  /** The stored total difficulty is the sum of the difficulties on the path from the genesis block. */
  lemma {:induction false} TotalIsPathDifficulty(hs: Headers, tds: map<Hash, int>, genesis: Hash, p: Numbering, n: nat)
    requires Rooted(hs, genesis) && Summed(hs, tds, genesis) && Descends(hs, p, n)
    ensures tds[p[n]] == PathDifficulty(hs, p, n)
    decreases n
  {
    if n == 0 {
      StartsAtGenesis(hs, genesis, p, 0);
    } else {
      TotalIsPathDifficulty(hs, tds, genesis, p, n - 1);
    }
  }

  /** Storing a header whose parent is stored, with the parent's total plus its own difficulty. */
  lemma StoresOne(hs: Headers, tds: map<Hash, int>, genesis: Hash, x: Header)
    requires Rooted(hs, genesis) && Summed(hs, tds, genesis)
    requires 0 < x.number < MAX_UINT64 && x.hash != NO_HASH && (x.hash in hs ==> hs[x.hash] == x)
    requires ParentStored(hs, x)
    ensures Rooted(hs[x.hash := x], genesis)
    ensures Summed(hs[x.hash := x], tds[x.hash := tds[x.parent] + x.difficulty], genesis)
  {
    hide ParentStored, AddsUp;
    ParentDiffers(hs, x);
    var hs', tds' := hs[x.hash := x], tds[x.hash := tds[x.parent] + x.difficulty];
    forall h | h in hs' && h != genesis ensures ParentStored(hs', hs'[h]) && AddsUp(hs', tds', h) {
      if x.hash in hs {
        StoredAlready(hs, tds, x);
      } else if h == x.hash {
        NewStored(hs, tds, x);
      } else {
        OldStored(hs, tds, x, h);
      }
    }
  }

  lemma ParentDiffers(hs: Headers, x: Header)
    requires ParentStored(hs, x) && (x.hash in hs ==> hs[x.hash] == x)
    ensures x.parent in hs && x.parent != x.hash
  {
  }

  lemma StoredAlready(hs: Headers, tds: map<Hash, int>, x: Header)
    requires hs.Keys == tds.Keys && ParentStored(hs, x) && x.hash in hs && hs[x.hash] == x && AddsUp(hs, tds, x.hash)
    ensures hs[x.hash := x] == hs && tds[x.hash := tds[x.parent] + x.difficulty] == tds
  {
  }

  lemma NewStored(hs: Headers, tds: map<Hash, int>, x: Header)
    requires hs.Keys == tds.Keys && ParentStored(hs, x) && x.hash !in hs
    ensures hs[x.hash := x].Keys == tds[x.hash := tds[x.parent] + x.difficulty].Keys
    ensures ParentStored(hs[x.hash := x], x)
    ensures AddsUp(hs[x.hash := x], tds[x.hash := tds[x.parent] + x.difficulty], x.hash)
  {
  }

  lemma OldStored(hs: Headers, tds: map<Hash, int>, x: Header, h: Hash)
    requires hs.Keys == tds.Keys && ParentStored(hs, x) && x.hash !in hs
    requires h in hs && ParentStored(hs, hs[h]) && AddsUp(hs, tds, h)
    ensures hs[x.hash := x].Keys == tds[x.hash := tds[x.parent] + x.difficulty].Keys
    ensures ParentStored(hs[x.hash := x], hs[h])
    ensures AddsUp(hs[x.hash := x], tds[x.hash := tds[x.parent] + x.difficulty], h)
  {
  }

  /** The stored total difficulty of the header with this hash and number. */
  function GetTd(hs: Headers, tds: map<Hash, int>, h: Hash, number: nat): Option<int>
    requires hs.Keys == tds.Keys
  {
    if GetHeader(hs, h, number).Some? then Some(tds[h]) else None
  }

  /** The lookup of the parent's total finds it exactly if the parent is stored. */
  lemma ParentTd(hs: Headers, tds: map<Hash, int>, genesis: Hash, x: Header)
    requires Rooted(hs, genesis) && hs.Keys == tds.Keys && x.number < MAX_UINT64
    ensures var t := GetTd(hs, tds, x.parent, Pred64(x.number));
      if ParentStored(hs, x) then x.parent in hs && x.number > 0 && t == Some(tds[x.parent]) else t == None
  {
  }

  /** A header stored before has the total it would get now. */
  lemma KnownTd(hs: Headers, tds: map<Hash, int>, genesis: Hash, x: Header)
    requires Rooted(hs, genesis) && Summed(hs, tds, genesis) && ParentStored(hs, x) && (x.hash in hs ==> hs[x.hash] == x)
    ensures x.parent in tds && (x.hash in tds ==> tds[x.hash] == tds[x.parent] + x.difficulty) && x.hash != genesis
  {
    assert x.hash in hs ==> x.hash != genesis && AddsUp(hs, tds, x.hash);
  }
}
