/** The canonical header chain (core/headerchain.go). The database is the set of stored headers with their
    total difficulties, the canonical numbering and the head; hashes are collision free. */
module HeaderChains {
  import opened Basics
  import opened HeaderTree

  datatype WriteStatus = UnknownAncestor | Canonical | Side

  ghost predicate Heaviest(tds: map<Hash, int>, head: Hash) {
    head in tds && forall h | h in tds :: tds[h] <= tds[head]
  }

  // ---------------------------------------------------------------- rewriting the numbering

  /** Deletes the canonical assignments above a number. */
  method DeleteAbove(canon: Numbering, number: nat, ghost top: nat) returns (c: Numbering)
    requires forall m: nat :: m in canon <==> m <= top
    ensures c == map m | m in canon && m <= number :: canon[m]
  {
    c := canon;
    var i := number + 1;
    while i in canon
      invariant number < i && (number < top ==> i <= top + 1) && (top <= number ==> i == number + 1)
      invariant c == map m | m in canon && !(number < m < i) :: canon[m]
      decreases top + 1 - i
    {
      c := c - {i};
      i := i + 1;
    }
  }

  /** Overwrites the stale canonical assignments from a header down to the first that is right already. */
  method OverwriteStale(hs: Headers, genesis: Hash, canon: Numbering, ghost top: nat, h: Hash, number: nat)
    returns (c: Numbering)
    requires Rooted(hs, genesis) && h in hs && hs[h].number == number
    requires Descends(hs, canon, top) && forall m | m in canon :: m <= top
    ensures Descends(hs, c, number) && c[number] == h
    ensures forall m | m in c :: m in canon || m <= number
  {
    hide *;
    ghost var p := PathTo(hs, genesis, h);
    PathNumbers(hs, p, h);
    StartsAtGenesis(hs, genesis, p, number);
    StartsAtGenesis(hs, genesis, canon, top);
    c := canon;
    var headHash, headNumber: nat := h, number;
    StalePathStart(hs, p, canon, h, number);
    while ReadCanonicalHash(c, headNumber) != headHash
      invariant StalePath(hs, p, canon, c, number, headHash, headNumber)
      decreases headNumber
    {
      StalePathStep(hs, genesis, p, canon, c, top, number, headHash, headNumber);
      c := c[headNumber := headHash];
      headHash, headNumber := hs[headHash].parent, headNumber - 1;
    }
    StalePathEnd(hs, genesis, p, canon, c, top, number, headHash, headNumber);
  }

  /** The overwriting so far: above `n` the numbering follows the path, from `n` down it is as it was. */
  ghost predicate StalePath(hs: Headers, p: Numbering, canon: Numbering, c: Numbering, number: nat, h: Hash, n: nat) {
    && n <= number && n in p && h == p[n] && h in hs
    && (forall m: nat | n < m <= number :: m in c && m in p && c[m] == p[m])
    && (forall m: nat | m <= n :: ReadCanonicalHash(c, m) == ReadCanonicalHash(canon, m))
    && (forall m | m in c :: m in canon || m <= number)
  }

  lemma StalePathStart(hs: Headers, p: Numbering, canon: Numbering, h: Hash, number: nat)
    requires Descends(hs, p, number) && p[number] == h
    ensures StalePath(hs, p, canon, canon, number, h, number)
  {
  }

  lemma StalePathStep(hs: Headers, genesis: Hash, p: Numbering, canon: Numbering, c: Numbering, top: nat, number: nat,
                      h: Hash, n: nat)
    requires StalePath(hs, p, canon, c, number, h, n) && Descends(hs, p, number) && Descends(hs, canon, top)
    requires p[0] == genesis == canon[0] && ReadCanonicalHash(c, n) != h
    ensures n > 0 && h in hs && StalePath(hs, p, canon, c[n := h], number, hs[h].parent, n - 1)
  {
    assert n == 0 ==> ReadCanonicalHash(canon, n) == h;
    assert n > 0 ==> p[n - 1] == hs[p[n]].parent && p[n - 1] in hs;
  }

  lemma StalePathEnd(hs: Headers, genesis: Hash, p: Numbering, canon: Numbering, c: Numbering, top: nat, number: nat,
                     h: Hash, n: nat)
    requires Rooted(hs, genesis) && StalePath(hs, p, canon, c, number, h, n) && Descends(hs, p, number)
    requires Descends(hs, canon, top) && (forall m | m in canon :: m <= top) && ReadCanonicalHash(c, n) == h
    ensures Descends(hs, c, number) && c[number] == p[number]
    ensures forall m | m in c :: m in canon || m <= number
  {
    hide Rooted;
    StoredHash(hs, genesis, h);
    assert ReadCanonicalHash(c, n) == ReadCanonicalHash(canon, n) == h;
    forall m: nat | m <= number ensures m in c && c[m] == p[m] {
      if m <= n {
        AgreeBelow(hs, canon, p, n, m);
        StoredHash(hs, genesis, canon[m]);
        assert ReadCanonicalHash(c, m) == ReadCanonicalHash(canon, m) == canon[m];
      }
    }
  }

  lemma StoredHash(hs: Headers, genesis: Hash, h: Hash)
    requires Rooted(hs, genesis) && h in hs
    ensures h != NO_HASH
  {
  }

  /** The path to the parent with the new header on top. */
  lemma NewPath(hs: Headers, c: Numbering, x: Header)
    requires x.hash in hs && hs[x.hash] == x && ParentStored(hs, x)
    requires Descends(hs, c, hs[x.parent].number) && c[hs[x.parent].number as nat] == x.parent
    requires forall m | m in c :: m <= x.number
    ensures IsPathTo(hs, c[x.number as nat := x.hash], x.hash)
  {
  }

  // ---------------------------------------------------------------- ancestors

  /** How many headers of the path, from number `n` down, are not canonical. */
  ghost function Detached(hs: Headers, genesis: Hash, canon: Numbering, p: Numbering, n: nat): (d: nat)
    requires Rooted(hs, genesis) && Descends(hs, p, n) && 0 in canon && canon[0] == genesis
    ensures d <= n
  {
    if ReadCanonicalHash(canon, n) == p[n] then 0
    else
      StartsAtGenesis(hs, genesis, p, n);
      1 + Detached(hs, genesis, canon, p, n - 1)
  }

  /** A header is canonical exactly when no header of its path is detached. */
  lemma CanonicalIsAttached(hs: Headers, genesis: Hash, canon: Numbering, head: Hash, h: Hash)
    requires Rooted(hs, genesis) && IsPathTo(hs, canon, head) && h in hs
    ensures canon[0] == genesis
    ensures Detached(hs, genesis, canon, PathTo(hs, genesis, h), hs[h].number) == 0 <==> h in canon.Values
  {
    StartsAtGenesis(hs, genesis, canon, hs[head].number);
    var n: nat := hs[h].number;
    if m: nat :| m in canon && canon[m] == h {
      assert m == n;
    }
    assert ReadCanonicalHash(canon, n) == h ==> n in canon && canon[n] == h;
  }

  /** Removes the canonical assignments from a number down to just above another. */
  method DeleteDown(canon: Numbering, height: nat, target: nat) returns (c: Numbering)
    requires forall m: nat :: m in canon <==> m <= height
    ensures c == map m | m in canon && m <= Min(target, height) :: canon[m]
  {
    c := canon;
    var i := height;
    while i > target
      invariant Min(target, height) <= i <= height
      invariant c == map m | m in canon && m <= i :: canon[m]
    {
      c := c - {i};
      i := i - 1;
    }
  }

  /** The header is canonical and above the target, so a rewind to the target deletes it. */
  ghost predicate Above(hs: Headers, canon: Numbering, target: nat, h: Hash) {
    h in hs && h in canon.Values && hs[h].number > target
  }

  /** `h` is on the path above number `n`. */
  ghost predicate Deleted(hs: Headers, p: Numbering, n: nat, h: Hash) {
    h in hs && hs[h].number > n && hs[h].number as nat in p && p[hs[h].number as nat] == h
  }

  /** The headers of the path above number `n` are deleted, and nothing else is. */
  ghost predicate Rewinding(hs: Headers, t: map<Hash, int>, p: Numbering, hs': Headers, t': map<Hash, int>, top: nat,
                            n: nat) {
    && n <= top && hs'.Keys == t'.Keys && hs'.Keys <= hs.Keys && hs.Keys == t.Keys
    && (forall h | h in hs :: h in hs' <==> !Deleted(hs, p, n, h))
    && (forall h | h in hs' :: hs'[h] == hs[h] && t'[h] == t[h])
  }

  lemma RewindStart(hs: Headers, t: map<Hash, int>, p: Numbering, top: nat)
    requires Descends(hs, p, top) && hs.Keys == t.Keys && forall m | m in p :: m <= top
    ensures Rewinding(hs, t, p, hs, t, top, top)
  {
  }

  lemma RewindStep(hs: Headers, t: map<Hash, int>, p: Numbering, hs': Headers, t': map<Hash, int>, top: nat, n: nat)
    requires Rewinding(hs, t, p, hs', t', top, n) && Descends(hs, p, top) && 0 < n
    ensures p[n] in hs' && p[n - 1] in hs' && hs'[p[n]].parent == p[n - 1] && hs'[p[n - 1]].number == n - 1
    ensures p[n - 1] != p[n]
    ensures Rewinding(hs, t, p, hs' - {p[n]}, t' - {p[n]}, top, n - 1)
  {
    forall h | h in hs ensures Deleted(hs, p, n - 1, h) <==> h == p[n] || Deleted(hs, p, n, h) {
    }
    assert !Deleted(hs, p, n, p[n]) && !Deleted(hs, p, n, p[n - 1]);
  }

  lemma DeletedIs(hs: Headers, p: Numbering, top: nat, n: nat, target: nat, h: Hash)
    requires Descends(hs, p, top) && (forall m | m in p :: m <= top) && n == Min(target, top)
    ensures Deleted(hs, p, n, h) <==> Above(hs, p, target, h)
  {
    if h in p.Values {
      var m :| m in p && p[m] == h;
      assert hs[p[m]].number == m;
    }
  }

  lemma Rewound(hs: Headers, t: map<Hash, int>, hs': Headers, t': map<Hash, int>, p: Numbering, c: Numbering,
                top: nat, n: nat)
    requires Rewinding(hs, t, p, hs', t', top, n) && Descends(hs, p, top) && c == map m | m in p && m <= n :: p[m]
    ensures IsPathTo(hs', c, p[n]) && p[n] in hs' && hs'.Keys == t'.Keys && hs'.Keys <= hs.Keys
    ensures forall h :: h in hs' <==> h in hs && !Deleted(hs, p, n, h)
    ensures forall h | h in hs' :: hs'[h] == hs[h] && t'[h] == t[h]
  {
    forall m: nat | m <= n ensures m in c && c[m] in hs' && hs'[c[m]].number == m {
      assert p[m] in hs && !Deleted(hs, p, n, p[m]);
    }
  }

  lemma RewoundRoot(hs: Headers, hs': Headers, genesis: Hash, p: Numbering, top: nat, n: nat)
    requires Rooted(hs, genesis) && (forall h | h in hs' :: h in hs && hs'[h] == hs[h])
    requires forall h | h in hs :: h in hs' <==> !Deleted(hs, p, n, h)
    ensures Rooted(hs', genesis) <==> forall h | h in hs' && h != genesis :: hs'[h].parent in hs'
  {
    assert !Deleted(hs, p, n, genesis);
  }

  /** Whether rewinding to `target` leaves a valid chain: no header that stays has a parent that goes, and none is heavier
      than the canonical header that becomes the head. */
  ghost predicate RewindKeeps(hs: Headers, tds: map<Hash, int>, genesis: Hash, canon: Numbering, head: Hash, target: nat)
    requires hs.Keys == tds.Keys && IsPathTo(hs, canon, head)
  {
    && (forall h | h in hs && h != genesis && !Above(hs, canon, target, h) :: !Above(hs, canon, target, hs[h].parent))
    && (forall h | h in hs && !Above(hs, canon, target, h) :: tds[h] <= tds[canon[Min(target, hs[head].number)]])
  }

  lemma RewoundKeeps(hs: Headers, t: map<Hash, int>, hs': Headers, t': map<Hash, int>, genesis: Hash, p: Numbering,
                     head: Hash, target: nat, n: nat)
    requires Rooted(hs, genesis) && hs.Keys == t.Keys && IsPathTo(hs, p, head) && n == Min(target, hs[head].number)
    requires hs'.Keys == t'.Keys && p[n] in hs' && (forall h | h in hs' :: h in hs && hs'[h] == hs[h] && t'[h] == t[h])
    requires forall h | h in hs :: h in hs' <==> !Above(hs, p, target, h)
    ensures RewindKeeps(hs, t, genesis, p, head, target) <==>
      (forall h | h in hs' && h != genesis :: hs'[h].parent in hs') && Heaviest(t', p[n])
  {
    hide IsPathTo, Above;
    PathNumbers(hs, p, head);
    MinIs(target, hs[head].number);
    forall h | h in hs && h != genesis ensures ParentStored(hs, hs[h]) {
    }
  }

  // A chain with a fork: header 3 on header 2 on the genesis block 1 is canonical, and header 4 is a side header on 2.

  ghost function Forked(): Headers {
    map[1 := Header(1, 0, 0, 1), 2 := Header(2, 1, 1, 1), 3 := Header(3, 2, 2, 2), 4 := Header(4, 2, 2, 1)]
  }

  ghost function ForkedTotals(): map<Hash, int> {
    map[1 := 1, 2 := 2, 3 := 4, 4 := 3]
  }

  ghost function ForkedCanon(): Numbering {
    map[0 := 1, 1 := 2, 2 := 3]
  }

  lemma ForkedRooted()
    ensures Rooted(Forked(), 1)
  {
  }

  lemma ForkedSummed()
    ensures Summed(Forked(), ForkedTotals(), 1) && Heaviest(ForkedTotals(), 3)
  {
  }

  lemma ForkedPath()
    ensures IsPathTo(Forked(), ForkedCanon(), 3)
  {
  }

  /** A rewind that orphans: to the genesis block it leaves the side header without its parent, and to header 2 it leaves
      the side header heavier than the head. */
  lemma RewindOrphans()
    ensures Rooted(Forked(), 1) && Summed(Forked(), ForkedTotals(), 1) && IsPathTo(Forked(), ForkedCanon(), 3)
    ensures Forked().Keys == ForkedTotals().Keys && Heaviest(ForkedTotals(), 3)
    ensures Above(Forked(), ForkedCanon(), 0, Forked()[4].parent) && !Above(Forked(), ForkedCanon(), 0, 4)
    ensures !RewindKeeps(Forked(), ForkedTotals(), 1, ForkedCanon(), 3, 0)
    ensures !RewindKeeps(Forked(), ForkedTotals(), 1, ForkedCanon(), 3, 1)
  {
    ForkedRooted();
    ForkedSummed();
    ForkedPath();
    hide Rooted, Summed, Heaviest, IsPathTo;
    assert ForkedCanon()[1] == 2 && 2 in ForkedCanon().Values && 4 !in ForkedCanon().Values;
    assert !Above(Forked(), ForkedCanon(), 1, 4) && Above(Forked(), ForkedCanon(), 0, 2);
  }

  lemma RewoundSums(hs: Headers, t: map<Hash, int>, hs': Headers, t': map<Hash, int>, genesis: Hash)
    requires Summed(hs, t, genesis) && hs'.Keys == t'.Keys && hs'.Keys <= hs.Keys
    requires forall h | h in hs' :: hs'[h] == hs[h] && t'[h] == t[h]
    ensures Summed(hs', t', genesis)
  {
    forall h | h in hs' && h != genesis ensures AddsUp(hs', t', h) {
      assert AddsUp(hs, t, h);
    }
  }

  lemma StoresHeavier(hs: Headers, tds: map<Hash, int>, head: Hash, x: Header, td: int)
    requires Heaviest(tds, head) && hs.Keys == tds.Keys && (x.hash in tds ==> tds[x.hash] == td)
    ensures td <= tds[head] ==> Heaviest(tds[x.hash := td], head)
    ensures td >= tds[head] ==> Heaviest(tds[x.hash := td], x.hash)
    ensures tds[x.hash := td][head] == tds[head]
  {
  }

  lemma StillPath(hs: Headers, x: Header, p: Numbering, h: Hash)
    requires IsPathTo(hs, p, h) && (x.hash in hs ==> hs[x.hash] == x)
    ensures IsPathTo(hs[x.hash := x], p, h) && hs[x.hash := x][h] == hs[h]
  {
  }

  lemma PathNumbers(hs: Headers, p: Numbering, h: Hash)
    requires IsPathTo(hs, p, h)
    ensures Descends(hs, p, hs[h].number) && (forall m: nat :: m in p <==> m <= hs[h].number) && p[hs[h].number as nat] == h
  {
  }

  lemma CutPath(hs: Headers, p: Numbering, c: Numbering, top: nat, n: nat)
    requires Descends(hs, p, top) && (forall m: nat :: m in p <==> m <= top) && c == map m | m in p && m <= n :: p[m]
    ensures Descends(hs, c, Min(top, n)) && forall m | m in c :: m <= Min(top, n)
  {
  }

  lemma ParentNumber(hs: Headers, x: Header)
    requires ParentStored(hs, x)
    ensures x.parent in hs && x.number > 0 && hs[x.parent].number == x.number - 1
  {
  }

  /** What writing the headers in turn stores: each exactly if its parent is stored by then. */
  ghost function StoredAll(hs: Headers, xs: seq<Header>): Headers {
    if xs == [] then hs
    else
      var before, x := StoredAll(hs, xs[..|xs| - 1]), xs[|xs| - 1];
      if ParentStored(before, x) then before[x.hash := x] else before
  }

  lemma StoredMore(hs: Headers, xs: seq<Header>, i: nat)
    requires i < |xs|
    ensures var before := StoredAll(hs, xs[..i]);
      StoredAll(hs, xs[..i + 1]) == if ParentStored(before, xs[i]) then before[xs[i].hash := xs[i]] else before
  {
    hide ParentStored;
    assert xs[..i + 1][..i] == xs[..i];
  }

  lemma StoredNone(hs: Headers, xs: seq<Header>)
    ensures StoredAll(hs, xs[..0]) == hs && xs[..|xs|] == xs
  {
  }

  class HeaderChain {
    const genesis: Hash
    var headers: Headers
    var tds: map<Hash, int>
    var canon: Numbering
    var head: Hash

    /** The canonical numbering is the whole ancestor path of the head, nothing is numbered above it, and no
        stored header has more total difficulty. */
    ghost predicate Valid()
      reads this
    {
      && Rooted(headers, genesis)
      && Summed(headers, tds, genesis)
      && IsPathTo(headers, canon, head)
      && Heaviest(tds, head)
    }

    constructor (g: Header)
      requires g.number == 0 && g.hash != NO_HASH
      ensures Valid() && headers == map[g.hash := g] && head == genesis == g.hash
    {
      genesis := g.hash;
      headers := map[g.hash := g];
      tds := map[g.hash := g.difficulty];
      canon := map[0 := g.hash];
      head := g.hash;
    }

    /** Stores a header whose parent is known. It becomes the head when it is heavier than the head, or as
        heavy and the coin says so. */
    method WriteHeader(x: Header, coin: bool) returns (status: WriteStatus)
      requires Valid()
      requires x.hash != NO_HASH && x.number < MAX_UINT64 && (x.hash in headers ==> headers[x.hash] == x)
      modifies this`headers, this`tds, this`canon, this`head
      ensures Valid()
      ensures status.UnknownAncestor? <==> !old(ParentStored(headers, x))
      ensures status.UnknownAncestor? ==> unchanged(this)
      ensures !status.UnknownAncestor? ==> headers == old(headers)[x.hash := x]
      ensures status.Canonical? <==>
        ParentStored(old(headers), x) && (tds[x.hash] > old(tds[head]) || (tds[x.hash] == old(tds[head]) && coin))
      ensures head == if status.Canonical? then x.hash else old(head)
      ensures tds[head] >= old(tds[head])
    {
      hide *;
      HeadersKeyed();
      var ptd := GetTd(headers, tds, x.parent, Pred64(x.number));
      ParentTd(headers, tds, genesis, x);
      if ptd == None {
        return UnknownAncestor;
      }
      var localTd := tds[head];
      var externTd := x.difficulty + ptd.value;
      ghost var top: nat := headers[head].number;
      StoresOne(headers, tds, genesis, x);
      KnownTd(headers, tds, genesis, x);
      ParentNumber(headers, x);
      StoresHeavier(headers, tds, head, x, externTd);
      StillPath(headers, x, canon, head);
      headers, tds := headers[x.hash := x], tds[x.hash := externTd];
      if externTd > localTd || (externTd == localTd && coin) {
        PathNumbers(headers, canon, head);
        var c := DeleteAbove(canon, x.number, top);
        CutPath(headers, canon, c, top, x.number);
        c := OverwriteStale(headers, genesis, c, Min(top, x.number), x.parent, x.number - 1);
        NewPath(headers, c, x);
        canon := c[x.number as nat := x.hash];
        head := x.hash;
        status := Canonical;
      } else {
        status := Side;
      }
      ValidAgain();
    }

    lemma ValidAgain()
      requires Rooted(headers, genesis) && Summed(headers, tds, genesis) && IsPathTo(headers, canon, head)
      requires Heaviest(tds, head)
      ensures Valid()
    {
    }

    lemma HeadersKeyed()
      requires Valid()
      ensures headers.Keys == tds.Keys && head in headers
      ensures Rooted(headers, genesis) && Summed(headers, tds, genesis) && IsPathTo(headers, canon, head)
      ensures Heaviest(tds, head)
    {
    }

    /** Over every run of writes, in any order and with any coin, the chain stays valid and the head never gets
        lighter; exactly the headers whose parent was stored when their turn came are stored. */
    method WriteAll(xs: seq<Header>, coins: seq<bool>) returns (statuses: seq<WriteStatus>)
      requires Valid() && |coins| == |xs|
      requires forall i | 0 <= i < |xs| :: xs[i].hash != NO_HASH && xs[i].number < MAX_UINT64
      requires forall i | 0 <= i < |xs| :: xs[i].hash in headers ==> headers[xs[i].hash] == xs[i]
      requires forall i, j | 0 <= i < j < |xs| :: xs[i].hash == xs[j].hash ==> xs[i] == xs[j]
      modifies this`headers, this`tds, this`canon, this`head
      ensures Valid() && |statuses| == |xs|
      ensures head in tds && old(tds[head]) <= tds[head] && forall h | h in headers :: h in tds && tds[h] <= tds[head]
      ensures headers == StoredAll(old(headers), xs)
      ensures forall i: nat | i < |xs| :: statuses[i].UnknownAncestor? <==> !ParentStored(StoredAll(old(headers), xs[..i]), xs[i])
    {
      hide *;
      HeadersKeyed();
      StoredNone(headers, xs);
      statuses := [];
      for i := 0 to |xs|
        invariant Valid() && |statuses| == i && head in tds && old(tds[head]) <= tds[head]
        invariant headers == StoredAll(old(headers), xs[..i])
        invariant forall j: nat | j < i :: statuses[j].UnknownAncestor? <==> !ParentStored(StoredAll(old(headers), xs[..j]), xs[j])
        invariant forall j | i <= j < |xs| :: xs[j].hash in headers ==> headers[xs[j].hash] == xs[j]
      {
        HeadersKeyed();
        StoredMore(old(headers), xs, i);
        var s := WriteHeader(xs[i], coins[i]);
        statuses := statuses + [s];
        HeadersKeyed();
      }
      HeaviestOf();
    }

    lemma HeaviestOf()
      requires Valid()
      ensures head in tds && forall h | h in headers :: h in tds && tds[h] <= tds[head]
    {
    }

    /** The n-th ancestor of a header. Headers off the canonical chain are walked one by one, at most `budget` of
        them; from a canonical header the ancestor is read from the numbering. */
    method GetAncestor(hash: Hash, number: Uint64, ancestor: Uint64, budget: nat) returns (r: Hash, n: Uint64,
                       left: nat)
      requires Valid()
      ensures left <= budget
      ensures ancestor == 0 ==> r == hash && n == number
      ensures ancestor > number ==> r == NO_HASH && n == 0 && left == budget
      // The empty hash is taken for the canonical one of a number above the head.
      ensures 0 < ancestor <= number && GetHeader(headers, hash, number) == None ==>
        if hash == NO_HASH && ancestor > 1 && number as nat !in canon then
          r == ReadCanonicalHash(canon, number - ancestor) && n == number - ancestor && left == budget
        else r == NO_HASH && n == 0 && left == if ancestor == 1 || budget == 0 then budget else budget - 1
      ensures GetHeader(headers, hash, number).Some? && ancestor <= number ==>
        var p := PathTo(headers, genesis, hash);
        var walked := if ancestor == 1 then 0 else Min(ancestor, Off(hash));
        if walked <= budget then r == p[number - ancestor] && n == number - ancestor && left == budget - walked
        else r == NO_HASH && n == 0 && left == 0
    {
      hide *;
      HeadersKeyed();
      if ancestor > number {
        return NO_HASH, 0, budget;
      }
      ghost var known := GetHeader(headers, hash, number).Some?;
      if known {
        WalkStart(hash, number);
      } else {
        NotCanonical(hash, number);
      }
      if ancestor == 1 {
        var header := GetHeader(headers, hash, number);
        if header == None {
          return NO_HASH, 0, budget;
        }
        WalkDown(hash, hash, number, 0);
        return header.value.parent, number - 1, budget;
      }
      MinIs(ancestor, if known then Off(hash) else 0);
      var toGo: nat := ancestor;
      r, n, left := hash, number, budget;
      while toGo != 0
        invariant toGo <= ancestor && n == number - (ancestor - toGo) && left == budget - (ancestor - toGo)
        invariant if known then Walked(hash, r, n, ancestor - toGo) else r == hash && toGo == ancestor
        invariant known ==> Off(hash) >= ancestor - toGo
      {
        ghost var steps := ancestor - toGo;
        if ReadCanonicalHash(canon, n) == r {
          if known {
            CanonicalRest(hash, r, n, toGo, steps);
          }
          n := n - toGo;
          return ReadCanonicalHash(canon, n), n, left;
        }
        if known {
          WalkDetached(hash, r, n, steps);
          WalkDown(hash, r, n, steps);
        }
        if left == 0 {
          return NO_HASH, 0, 0;
        }
        left, toGo := left - 1, toGo - 1;
        var header := GetHeader(headers, r, n);
        if header == None {
          return NO_HASH, 0, left;
        }
        r, n := header.value.parent, n - 1;
      }
      if known {
        WalkedTo(hash, r, n, ancestor);
      }
    }

    /** After `steps` steps down from `hash` the walk is at header `r` with number `n`. */
    ghost predicate Walked(hash: Hash, r: Hash, n: nat, steps: nat)
      requires Valid()
      reads this
    {
      && hash in headers && headers[hash].number == n + steps && r in headers && headers[r].number == n
      && n in PathTo(headers, genesis, hash) && PathTo(headers, genesis, hash)[n] == r
      && (Off(hash) >= steps ==> Off(hash) == steps + OffBelow(hash, n))
    }

    lemma WalkStart(hash: Hash, number: nat)
      requires Valid() && GetHeader(headers, hash, number).Some?
      ensures hash in headers && headers[hash].number == number && Walked(hash, hash, number, 0)
    {
      StartsAtGenesis(headers, genesis, canon, headers[head].number);
    }

    lemma NotCanonical(hash: Hash, number: nat)
      requires Valid() && GetHeader(headers, hash, number) == None
      ensures ReadCanonicalHash(canon, number) == hash <==> hash == NO_HASH && number !in canon
    {
    }

    lemma WalkedTo(hash: Hash, r: Hash, n: nat, steps: nat)
      requires Valid() && Walked(hash, r, n, steps)
      ensures n in PathTo(headers, genesis, hash) && PathTo(headers, genesis, hash)[n] == r
    {
    }

    lemma WalkDown(hash: Hash, r: Hash, n: nat, steps: nat)
      requires Valid() && Walked(hash, r, n, steps) && 0 < n
      ensures GetHeader(headers, r, n) == Some(headers[r]) && Walked(hash, headers[r].parent, n - 1, steps + 1)
      ensures n - 1 in PathTo(headers, genesis, hash) && PathTo(headers, genesis, hash)[n - 1] == headers[r].parent
    {
      hide Rooted, PathTo;
      var p := PathTo(headers, genesis, hash);
      assert IsPathTo(headers, p, hash);
      assert p[n - 1] == headers[p[n]].parent && p[n - 1] in headers;
    }

    lemma WalkDetached(hash: Hash, r: Hash, n: nat, steps: nat)
      requires Valid() && Walked(hash, r, n, steps) && Off(hash) >= steps && ReadCanonicalHash(canon, n) != r
      ensures Off(hash) >= steps + 1
    {
    }

    lemma CanonicalRest(hash: Hash, r: Hash, n: nat, toGo: nat, steps: nat)
      requires Valid() && Walked(hash, r, n, steps) && Off(hash) >= steps && ReadCanonicalHash(canon, n) == r
      requires toGo <= n
      ensures Off(hash) == steps && n - toGo in PathTo(headers, genesis, hash)
      ensures ReadCanonicalHash(canon, n - toGo) == PathTo(headers, genesis, hash)[n - toGo]
    {
      hide PathTo;
      var p := PathTo(headers, genesis, hash);
      StoredHash(headers, genesis, r);
      assert IsPathTo(headers, p, hash);
      AgreeBelow(headers, canon, p, n, n - toGo);
    }

    /** How many headers of the path to `hash` are off the canonical chain. */
    ghost function Off(hash: Hash): nat
      requires Valid() && hash in headers
      reads this
    {
      OffBelow(hash, headers[hash].number)
    }

    ghost function OffBelow(hash: Hash, n: nat): nat
      requires Valid() && hash in headers && n <= headers[hash].number
      reads this
    {
      StartsAtGenesis(headers, genesis, canon, headers[head].number);
      Detached(headers, genesis, canon, PathTo(headers, genesis, hash), n)
    }

    /** Rewinds to an ancestor of the head at a number: it becomes the head, and the canonical numbering is its
        path. The headers above are deleted. What is left is a valid chain exactly if no side header hangs from a
        deleted one and none is heavier than the new head. */
    method SetHead(target: nat)
      requires Valid()
      modifies this`headers, this`tds, this`canon, this`head
      ensures IsPathTo(headers, canon, head)
      ensures head == old(canon[Min(target, headers[head].number)])
      ensures forall h :: h in headers <==> h in old(headers) && !old(Above(headers, canon, target, h))
      ensures forall h | h in headers :: headers[h] == old(headers)[h] && h in tds && tds[h] == old(tds)[h]
      ensures Valid() <==> old(RewindKeeps(headers, tds, genesis, canon, head, target))
    {
      hide *;
      HeadersKeyed();
      PathNumbers(headers, canon, head);
      var height: nat := headers[head].number;
      ghost var hs, p, t := headers, canon, tds;
      MinIs(target, height);
      DeleteHeaders(target);
      ghost var n: nat := Min(target, height);
      canon := DeleteDown(canon, height, target);
      Rewound(hs, t, headers, tds, p, canon, height, n);
      forall h ensures Deleted(hs, p, n, h) <==> Above(hs, p, target, h) {
        DeletedIs(hs, p, height, n, target, h);
      }
      RewoundSums(hs, t, headers, tds, genesis);
      RewoundRoot(hs, headers, genesis, p, height, n);
      RewoundKeeps(hs, t, headers, tds, genesis, p, old(head), target, n);
      ValidMeans();
    }

    /** Walks the head down, deleting the headers it leaves. */
    method DeleteHeaders(target: nat)
      requires Valid() && head in headers && canon[headers[head].number as nat] == head
      requires Descends(headers, canon, headers[head].number) && forall m: nat :: m in canon <==> m <= headers[head].number
      modifies this`headers, this`tds, this`head
      ensures Rewinding(old(headers), old(tds), canon, headers, tds, old(headers[head].number), Min(target, old(headers[head].number)))
      ensures head == canon[Min(target, old(headers[head].number))]
    {
      hide *;
      HeadersKeyed();
      ghost var hs, p, t, height: nat := headers, canon, tds, headers[head].number;
      MinIs(target, height);
      RewindStart(hs, t, p, height);
      while headers[head].number > target
        invariant head in headers && Rewinding(hs, t, p, headers, tds, height, headers[head].number)
        invariant p[headers[head].number as nat] == head && Min(target, height) <= headers[head].number <= height
        decreases headers[head].number
      {
        var hdr := headers[head];
        RewindStep(hs, t, p, headers, tds, height, hdr.number);
        headers, tds := headers - {head}, tds - {head};
        head := hdr.parent;
      }
    }

    lemma ValidMeans()
      ensures Valid() <==>
        Rooted(headers, genesis) && Summed(headers, tds, genesis) && IsPathTo(headers, canon, head) && Heaviest(tds, head)
    {
    }
  }
}
