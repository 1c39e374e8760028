/** The nonce-sorted transaction map of one account (core/tx_list.go, txSortedMap).

    The first part says what each operation does to the plain nonce map; the class is the
    heap-indexed, order-caching implementation of exactly those functions.

    The Go standard library's `container/heap` and `sort` are represented by their contracts: a
    heap is a sequence whose front is a least element, in an otherwise unspecified arrangement. */
module SortedMap {
  import opened Basics
  import opened Transactions

  // ---------------------------------------------------------------- the plain nonce map

  /** Every transaction is filed under its own nonce. */
  ghost predicate Keyed(m: map<nat, Tx>) {
    forall n | n in m :: m[n].nonce == n
  }

  function Below(m: map<nat, Tx>, threshold: nat): map<nat, Tx> {
    map n | n in m && n < threshold :: m[n]
  }

  function From(m: map<nat, Tx>, threshold: nat): map<nat, Tx> {
    map n | n in m && n >= threshold :: m[n]
  }

  function Satisfying(m: map<nat, Tx>, f: Tx -> bool): map<nat, Tx> {
    map n | n in m && f(m[n]) :: m[n]
  }

  predicate IsLeast(s: set<nat>, lo: nat) {
    lo in s && forall n | n in s :: lo <= n
  }

  predicate IsGreatest(s: set<nat>, hi: nat) {
    hi in s && forall n | n in s :: n <= hi
  }

  function MinKey(m: map<nat, Tx>): (lo: nat)
    requires m != map[]
    ensures lo in m && forall n | n in m :: lo <= n
  {
    LeastExists(m.Keys);
    var lo :| lo in m.Keys && IsLeast(m.Keys, lo);
    lo
  }

  function MaxKey(m: map<nat, Tx>): (hi: nat)
    requires m != map[]
    ensures hi in m && forall n | n in m :: n <= hi
  {
    GreatestExists(m.Keys);
    var hi :| hi in m.Keys && IsGreatest(m.Keys, hi);
    hi
  }

  /** The first nonce from `lo` on that `m` does not hold. */
  function RunEnd(m: map<nat, Tx>, lo: nat): (end: nat)
    ensures lo <= end && end !in m
    ensures forall n | lo <= n < end :: n in m
    decreases |m|
  {
    if lo in m then
      var rest := m - {lo};
      assert |rest| < |m| by { assert rest.Keys == m.Keys - {lo}; }
      assert forall n | n > lo :: n in m <==> n in rest;
      RunEnd(rest, lo + 1)
    else lo
  }

  /** The `k` lowest transactions of `m` (all of them if there are no more than `k`). */
  function Lowest(m: map<nat, Tx>, k: nat): (r: map<nat, Tx>)
    ensures |r| == if |m| <= k then |m| else k
    ensures forall n | n in r :: n in m && r[n] == m[n]
    ensures forall n, d | n in r && d in m && d !in r :: n < d
    decreases |m|
  {
    if |m| <= k then m
    else
      var hi := MaxKey(m);
      var rest := m - {hi};
      assert rest.Keys == m.Keys - {hi};
      Lowest(rest, k)
  }

  /** The transactions `Ready` hands out: the consecutive run from the lowest nonce on, or nothing
      if the lowest nonce lies beyond `start`. */
  function ReadyRun(m: map<nat, Tx>, start: nat): map<nat, Tx> {
    if m == map[] || MinKey(m) > start then map[]
    else Below(m, RunEnd(m, MinKey(m)))
  }

  /** What `Ready` leaves behind. */
  function NotReady(m: map<nat, Tx>, start: nat): map<nat, Tx> {
    m - ReadyRun(m, start).Keys
  }

  /** What lies above the `k` lowest transactions. */
  function Excess(m: map<nat, Tx>, k: nat): map<nat, Tx> {
    m - Lowest(m, k).Keys
  }

  lemma LeastExists(s: set<nat>)
    requires s != {}
    ensures exists lo | lo in s :: IsLeast(s, lo)
  {
    var lo := Least(s);
  }

  lemma GreatestExists(s: set<nat>)
    requires s != {}
    ensures exists hi | hi in s :: IsGreatest(s, hi)
  {
    var hi := Greatest(s);
  }

  lemma Least(s: set<nat>) returns (lo: nat)
    requires s != {}
    ensures IsLeast(s, lo)
    decreases |s|
  {
    lo :| lo in s;
    var rest := s - {lo};
    assert forall n | n in s :: n == lo || n in rest;
    if rest != {} {
      var k := Least(rest);
      lo := if k < lo then k else lo;
    }
  }

  lemma Greatest(s: set<nat>) returns (hi: nat)
    requires s != {}
    ensures IsGreatest(s, hi)
    decreases |s|
  {
    hi :| hi in s;
    var rest := s - {hi};
    assert forall n | n in s :: n == hi || n in rest;
    if rest != {} {
      var k := Greatest(rest);
      hi := if k > hi then k else hi;
    }
  }

  // ---------------------------------------------------------------- listings of a map

  /** `s` holds every transaction of `m` once, in any order. */
  ghost predicate Enumerates(s: seq<Tx>, m: map<nat, Tx>) {
    && (forall i | 0 <= i < |s| :: s[i].nonce in m && m[s[i].nonce] == s[i])
    && (forall n | n in m :: m[n] in s)
    && (forall i, j | 0 <= i < j < |s| :: s[i].nonce != s[j].nonce)
  }

  ghost predicate Increasing(s: seq<Tx>) {
    forall i, j | 0 <= i < j < |s| :: s[i].nonce < s[j].nonce
  }

  /** `s` is the nonce-sorted listing of `m`. */
  ghost predicate Flat(s: seq<Tx>, m: map<nat, Tx>) {
    Enumerates(s, m) && Increasing(s)
  }

  lemma {:induction false} EnumeratesSize(s: seq<Tx>, m: map<nat, Tx>)
    requires Keyed(m) && Enumerates(s, m)
    ensures |s| == |m|
  {
    if s == [] {
      assert m == map[];
    } else {
      var last := s[|s| - 1];
      var rest := m - {last.nonce};
      assert rest.Keys == m.Keys - {last.nonce};
      forall n | n in rest ensures rest[n] in s[..|s| - 1] {
        var i :| 0 <= i < |s| && s[i] == m[n];
      }
      EnumeratesSize(s[..|s| - 1], rest);
    }
  }

  /** Increasing sequences of the same transactions are equal. */
  lemma {:induction false} SameIncreasing(s: seq<Tx>, t: seq<Tx>)
    requires Increasing(s) && Increasing(t)
    requires forall x :: x in s <==> x in t
    ensures s == t
    decreases |s|
  {
    if s == [] {
      assert forall i | 0 <= i < |t| :: t[i] in s;
    } else {
      assert s[0] in t;
      var a, b := s[|s| - 1], t[|t| - 1];
      assert a in t && b in s;
      assert a.nonce <= b.nonce <= a.nonce;
      assert a == b;
      var s', t' := s[..|s| - 1], t[..|t| - 1];
      IncreasingFront(s);
      IncreasingFront(t);
      forall x ensures x in s' <==> x in t' { assert x in s <==> x in t; }
      SameIncreasing(s', t');
    }
  }

  lemma IncreasingFront(s: seq<Tx>)
    requires Increasing(s) && s != []
    ensures Increasing(s[..|s| - 1])
    ensures forall x :: x in s[..|s| - 1] <==> x in s && x != s[|s| - 1]
  {
    forall x | x in s && x != s[|s| - 1] ensures x in s[..|s| - 1] {
      var i :| 0 <= i < |s| && s[i] == x;
      assert s[..|s| - 1][i] == x;
    }
  }

  /** A map has only one nonce-sorted listing. */
  lemma FlatUnique(s: seq<Tx>, t: seq<Tx>, m: map<nat, Tx>)
    requires Flat(s, m) && Flat(t, m)
    ensures s == t
  {
    EnumeratesElements(s, m);
    EnumeratesElements(t, m);
    SameIncreasing(s, t);
  }

  lemma EnumeratesElements(s: seq<Tx>, m: map<nat, Tx>)
    requires Enumerates(s, m)
    ensures forall x :: x in s <==> x.nonce in m && m[x.nonce] == x
  {
    forall x | x in s ensures x.nonce in m && m[x.nonce] == x {
      var i :| 0 <= i < |s| && s[i] == x;
    }
  }

  lemma FlatMembers(s: seq<Tx>, m: map<nat, Tx>)
    requires Flat(s, m)
    ensures forall i | 0 <= i < |s| :: s[i].nonce in m
  {
  }

  /** Cutting a sorted listing at a nonce lists the two halves of the map. */
  lemma FlatSplit(s: seq<Tx>, m: map<nat, Tx>, threshold: nat, k: nat)
    requires Keyed(m) && Flat(s, m) && k <= |s|
    requires forall i | 0 <= i < k :: s[i].nonce < threshold
    requires forall i | k <= i < |s| :: s[i].nonce >= threshold
    ensures Flat(s[..k], Below(m, threshold)) && Flat(s[k..], From(m, threshold))
  {
    hide Flat;
    assert s[0..k] == s[..k] && s[k..|s|] == s[k..];
    FlatMembers(s, m);
    FlatHalf(s, m, Below(m, threshold), 0, k);
    FlatHalf(s, m, From(m, threshold), k, |s|);
  }

  lemma FlatHalf(s: seq<Tx>, m: map<nat, Tx>, half: map<nat, Tx>, a: nat, b: nat)
    requires Keyed(m) && Flat(s, m) && a <= b <= |s|
    requires forall n | n in half :: n in m && half[n] == m[n]
    requires forall i | 0 <= i < |s| :: s[i].nonce in half <==> a <= i < b
    ensures Flat(s[a..b], half)
  {
    forall n | n in half ensures half[n] in s[a..b] {
      HalfHas(s, m, half, a, b, n);
    }
    var t := s[a..b];
    assert forall i | 0 <= i < |t| :: t[i] == s[a + i];
  }

  lemma HalfHas(s: seq<Tx>, m: map<nat, Tx>, half: map<nat, Tx>, a: nat, b: nat, n: nat)
    requires Keyed(m) && Flat(s, m) && a <= b <= |s| && n in half && n in m && half[n] == m[n]
    requires forall i | 0 <= i < |s| :: s[i].nonce in half <==> a <= i < b
    ensures half[n] in s[a..b]
  {
    assert m[n] in s;
    var i :| 0 <= i < |s| && s[i] == m[n];
    assert s[i].nonce == n;
    assert s[a..b][i - a] == m[n];
  }

  /** The sorted listing of a map contains, at its front, the listing of everything below a nonce;
      so slicing that many transactions off a cached order leaves the order of the rest. */
  lemma CachedForward(cache: seq<Tx>, m: map<nat, Tx>, threshold: nat, removed: nat)
    requires Keyed(m) && Flat(cache, m) && removed == |Below(m, threshold)|
    ensures removed <= |cache|
    ensures Flat(cache[..removed], Below(m, threshold)) && Flat(cache[removed..], From(m, threshold))
  {
    var k := 0;
    while k < |cache| && cache[k].nonce < threshold
      invariant 0 <= k <= |cache|
      invariant forall i | 0 <= i < k :: cache[i].nonce < threshold
    {
      k := k + 1;
    }
    FlatSplit(cache, m, threshold, k);
    EnumeratesSize(cache[..k], Below(m, threshold));
  }

  lemma LowestIsBelow(m: map<nat, Tx>, k: nat) returns (threshold: nat)
    requires Keyed(m)
    ensures Lowest(m, k) == Below(m, threshold)
  {
    hide Lowest, MaxKey;
    var low := Lowest(m, k);
    var gone := m.Keys - low.Keys;
    if gone == {} {
      assert forall n | n in m :: n in m.Keys - gone;
      threshold := if m == map[] then 0 else MaxKey(m) + 1;
    } else {
      threshold := Least(gone);
    }
    forall n | n in m ensures n in low <==> n < threshold {
      if n !in low { assert n in gone; }
    }
    assert Lowest(m, k) == Below(m, threshold);
  }

  /** Slicing the back off a cached order leaves the order of the lowest transactions. */
  lemma {:induction false} CachedCap(cache: seq<Tx>, m: map<nat, Tx>, k: nat)
    requires Keyed(m) && Flat(cache, m) && k <= |m|
    ensures |cache| == |m| && Flat(cache[..k], Lowest(m, k))
  {
    EnumeratesSize(cache, m);
    var t := LowestIsBelow(m, k);
    CachedForward(cache, m, t, k);
  }

  // ---------------------------------------------------------------- heaps by contract

  ghost predicate IsHeap(s: seq<nat>) {
    forall i | 0 <= i < |s| :: s[0] <= s[i]
  }

  method HeapInit(s: seq<nat>) returns (h: seq<nat>)
    ensures IsHeap(h) && multiset(h) == multiset(s) && |h| == |s|
  {
    h := s;
    var k := 1;
    while k < |h|
      invariant |h| == |s| && multiset(h) == multiset(s)
      invariant forall i | 0 <= i < k && i < |h| :: h[0] <= h[i]
    {
      if h[k] < h[0] {
        h := h[0 := h[k]][k := h[0]];
      }
      k := k + 1;
    }
  }

  method HeapPush(s: seq<nat>, x: nat) returns (h: seq<nat>)
    requires IsHeap(s)
    ensures IsHeap(h) && multiset(h) == multiset(s) + multiset{x}
  {
    h := if s == [] || s[0] <= x then s + [x] else [x] + s;
  }

  method HeapRemove(s: seq<nat>, k: nat) returns (h: seq<nat>)
    requires IsHeap(s) && k < |s|
    ensures IsHeap(h) && multiset(h) == multiset(s) - multiset{s[k]}
  {
    assert s == s[..k] + [s[k]] + s[k + 1..];
    h := HeapInit(s[..k] + s[k + 1..]);
  }

  method Sort(s: seq<nat>) returns (r: seq<nat>)
    ensures multiset(r) == multiset(s) && |r| == |s|
    ensures forall i, j | 0 <= i < j < |r| :: r[i] <= r[j]
  {
    r := [];
    var rest := s;
    while rest != []
      invariant multiset(r) + multiset(rest) == multiset(s)
      invariant |r| + |rest| == |s|
      invariant forall i, j | 0 <= i < j < |r| :: r[i] <= r[j]
      invariant forall i, j | 0 <= i < |r| && 0 <= j < |rest| :: r[i] <= rest[j]
      decreases |rest|
    {
      ghost var before := rest;
      var h := HeapInit(rest);
      assert h == [h[0]] + h[1..];
      forall j | 0 <= j < |h| ensures h[j] in before {
        assert h[j] in multiset(h);
      }
      r, rest := r + [h[0]], h[1..];
    }
  }

  /** `index` is a heap of exactly the nonces of `items`, each once. */
  ghost predicate Indexes(index: seq<nat>, items: map<nat, Tx>) {
    IsHeap(index) && multiset(index) == multiset(items.Keys)
  }

  lemma HeapFront(index: seq<nat>, items: map<nat, Tx>)
    requires Indexes(index, items)
    ensures (index == []) == (items == map[])
    ensures index != [] ==> index[0] in items && forall n | n in items :: index[0] <= n
  {
    if index != [] {
      assert index[0] in multiset(index);
      forall n | n in items ensures index[0] <= n {
        assert n in multiset(index);
      }
    } else {
      assert forall n :: n in items.Keys <==> n in multiset(index);
    }
  }

  method PopIndex(index: seq<nat>, items: map<nat, Tx>) returns (rest: seq<nat>)
    requires Indexes(index, items) && index != []
    ensures index[0] in items && forall n | n in items :: index[0] <= n
    ensures Indexes(rest, items - {index[0]}) && |items - {index[0]}| < |items|
  {
    rest := RemoveIndex(index, items, 0);
    HeapFront(index, items);
  }

  method RemoveIndex(index: seq<nat>, items: map<nat, Tx>, k: nat) returns (rest: seq<nat>)
    requires Indexes(index, items) && k < |index|
    ensures index[k] in items && Indexes(rest, items - {index[k]}) && |items - {index[k]}| < |items|
  {
    assert index[k] in multiset(index);
    rest := HeapRemove(index, k);
    assert (items - {index[k]}).Keys == items.Keys - {index[k]};
  }

  method PushIndex(index: seq<nat>, items: map<nat, Tx>, tx: Tx) returns (more: seq<nat>)
    requires Indexes(index, items) && tx.nonce !in items
    ensures Indexes(more, items[tx.nonce := tx])
  {
    more := HeapPush(index, tx.nonce);
    assert items[tx.nonce := tx].Keys == items.Keys + {tx.nonce};
  }

  method ReheapIndex(index: seq<nat>, ghost items: map<nat, Tx>) returns (heap: seq<nat>)
    requires Indexes(index, items)
    ensures Indexes(heap, items)
  {
    heap := HeapInit(index);
  }

  method RebuildIndex(items: map<nat, Tx>) returns (index: seq<nat>)
    ensures Indexes(index, items)
  {
    index := AnyOrder(items.Keys);
    index := HeapInit(index);
  }

  method AnyOrder(keys: set<nat>) returns (s: seq<nat>)
    ensures multiset(s) == multiset(keys)
  {
    s := [];
    var todo := keys;
    while todo != {}
      invariant todo <= keys && multiset(s) == multiset(keys - todo)
    {
      var n :| n in todo;
      assert keys - (todo - {n}) == (keys - todo) + {n};
      s, todo := s + [n], todo - {n};
    }
    assert keys - todo == keys;
  }

  /** Taking the lowest remaining nonce advances the split point past it. */
  lemma PopLowest(m: map<nat, Tx>, done: nat, nonce: nat, removed: seq<Tx>)
    requires Keyed(m) && Flat(removed, Below(m, done))
    requires nonce in From(m, done) && forall n | n in From(m, done) :: nonce <= n
    ensures nonce in m && From(m, done)[nonce] == m[nonce] && m[nonce].nonce == nonce
    ensures From(m, done) - {nonce} == From(m, nonce + 1)
    ensures Flat(removed + [m[nonce]], Below(m, nonce + 1))
  {
    assert (From(m, done) - {nonce}).Keys == From(m, done).Keys - {nonce};
    var listed := removed + [m[nonce]];
    forall n | n in Below(m, nonce + 1) ensures m[n] in listed {
      if n < done {
        assert n in Below(m, done);
      } else {
        assert n in From(m, done);
        assert listed[|removed|] == m[n];
      }
    }
  }

  /** Taking the highest remaining nonce moves the split point down to it. */
  lemma PopHighest(m: map<nat, Tx>, cut: nat, nonce: nat, dropped: seq<Tx>)
    requires Keyed(m) && Enumerates(dropped, From(m, cut))
    requires nonce in Below(m, cut) && forall n | n in Below(m, cut) :: n <= nonce
    ensures nonce in m && Below(m, cut)[nonce] == m[nonce]
    ensures Below(m, cut) - {nonce} == Below(m, nonce)
    ensures |Below(m, nonce)| == |Below(m, cut)| - 1
    ensures Enumerates(dropped + [m[nonce]], From(m, nonce))
  {
    assert (Below(m, cut) - {nonce}).Keys == Below(m, cut).Keys - {nonce};
    EnumerateOneMore(dropped, From(m, cut), m[nonce]);
    forall n | n in From(m, nonce) ensures n == nonce || n in From(m, cut) {
      if n < cut { assert n in Below(m, cut); }
    }
    assert From(m, cut)[nonce := m[nonce]] == From(m, nonce);
  }

  lemma BelowSame(m: map<nat, Tx>, a: nat, b: nat)
    requires a <= b && From(m, a) == From(m, b)
    ensures Below(m, a) == Below(m, b)
  {
    forall n | n in Below(m, b) ensures n in Below(m, a) {
      if n >= a { assert n in From(m, a); }
    }
  }

  lemma EnumerateOneMore(s: seq<Tx>, m: map<nat, Tx>, tx: Tx)
    requires Enumerates(s, m) && tx.nonce !in m
    ensures Enumerates(s + [tx], m[tx.nonce := tx])
  {
    var t, more := s + [tx], m[tx.nonce := tx];
    assert t[|s|] == tx;
    forall n | n in more ensures more[n] in t {
      if n != tx.nonce { assert m[n] in s; }
    }
  }

  /** The lowest `k` transactions are the only downward closed part of size `k`. */
  lemma LowestUnique(m: map<nat, Tx>, cut: nat, k: nat)
    requires k <= |m| && |Below(m, cut)| == k
    ensures Below(m, cut) == Lowest(m, k)
  {
    var r, low := Below(m, cut), Lowest(m, k);
    if low.Keys <= r.Keys {
      SubsetEqual(low.Keys, r.Keys);
    } else {
      var y :| y in low.Keys && y !in r.Keys;
      forall n | n in r ensures n in low {
        assert n !in low ==> y < n;
      }
      SubsetEqual(r.Keys, low.Keys);
    }
  }

  lemma {:induction false} SubsetSize(a: set<nat>, b: set<nat>)
    requires a <= b
    ensures |a| <= |b|
    decreases |a|
  {
    if a != {} {
      var x :| x in a;
      SubsetSize(a - {x}, b - {x});
    }
  }

  lemma SubsetEqual(a: set<nat>, b: set<nat>)
    requires a <= b && |a| == |b|
    ensures a == b
  {
    if a != b {
      var x :| x in b && x !in a;
      SubsetSize(a + {x}, b);
      assert false;
    }
  }

  /** The transactions outside `todo` that satisfy `f`. */
  ghost function Hits(m: map<nat, Tx>, todo: set<nat>, f: Tx -> bool): map<nat, Tx> {
    map n | n in m && n !in todo && f(m[n]) :: m[n]
  }

  /** What is left of `m` when the hits outside `todo` are gone. */
  ghost function Misses(m: map<nat, Tx>, todo: set<nat>, f: Tx -> bool): map<nat, Tx> {
    m - Hits(m, todo, f).Keys
  }

  lemma FilterStep(m: map<nat, Tx>, todo: set<nat>, f: Tx -> bool, nonce: nat, removed: seq<Tx>)
    requires Keyed(m) && todo <= m.Keys && nonce in todo && Enumerates(removed, Hits(m, todo, f))
    ensures nonce in Misses(m, todo, f) && Misses(m, todo, f)[nonce] == m[nonce]
    ensures f(m[nonce]) ==> Enumerates(removed + [m[nonce]], Hits(m, todo - {nonce}, f))
    ensures f(m[nonce]) ==> Misses(m, todo, f) - {nonce} == Misses(m, todo - {nonce}, f)
    ensures !f(m[nonce]) ==> Misses(m, todo, f) == Misses(m, todo - {nonce}, f)
    ensures !f(m[nonce]) ==> Enumerates(removed, Hits(m, todo - {nonce}, f))
  {
    var hits, more := Hits(m, todo, f), Hits(m, todo - {nonce}, f);
    if f(m[nonce]) {
      EnumerateOneMore(removed, hits, m[nonce]);
      assert more == hits[nonce := m[nonce]];
    } else {
      assert more == hits;
    }
  }

  lemma NoHitsYet(m: map<nat, Tx>, f: Tx -> bool)
    ensures m == Misses(m, m.Keys, f) && Enumerates([], Hits(m, m.Keys, f))
  {
  }

  lemma AllHits(m: map<nat, Tx>, f: Tx -> bool, removed: seq<Tx>)
    requires Keyed(m) && Enumerates(removed, Hits(m, {}, f))
    ensures Misses(m, {}, f) == m - Satisfying(m, f).Keys && Keyed(Misses(m, {}, f))
    ensures Enumerates(removed, Satisfying(m, f))
    ensures |removed| == 0 ==> Misses(m, {}, f) == m
  {
    assert Hits(m, {}, f) == Satisfying(m, f);
  }

  /** `sorted` lists the nonces of `m` once each, in order. */
  ghost predicate SortedIndex(sorted: seq<nat>, m: map<nat, Tx>) {
    multiset(sorted) == multiset(m.Keys) && forall i, j | 0 <= i < j < |sorted| :: sorted[i] <= sorted[j]
  }

  /** Taking the last nonce off a sorted index leaves a sorted index of the rest. */
  lemma IndexFront(sorted: seq<nat>, size: nat, m: map<nat, Tx>)
    requires 0 < size <= |sorted| && SortedIndex(sorted[..size], m)
    ensures sorted[size - 1] in m && forall n | n in m :: n <= sorted[size - 1]
    ensures SortedIndex(sorted[..size - 1], m - {sorted[size - 1]})
  {
    var k, front := sorted[size - 1], sorted[..size - 1];
    assert sorted[..size] == front + [k];
    assert k in multiset(sorted[..size]);
    forall n | n in m ensures n <= k {
      assert n in multiset(sorted[..size]);
    }
    assert (m - {k}).Keys == m.Keys - {k};
    assert multiset(m.Keys - {k}) == multiset(m.Keys) - multiset{k};
    assert forall i | 0 <= i < |front| :: front[i] == sorted[..size][i];
  }

  lemma StartCap(m: map<nat, Tx>, index: seq<nat>, sorted: seq<nat>) returns (cut: nat)
    requires m != map[] && Indexes(index, m) && multiset(sorted) == multiset(index)
    requires forall i, j | 0 <= i < j < |sorted| :: sorted[i] <= sorted[j]
    ensures |sorted| == |m| && SortedIndex(sorted[..|m|], m)
    ensures m == Below(m, cut) && Enumerates([], From(m, cut))
  {
    assert |sorted| == |multiset(sorted)| == |m.Keys|;
    assert sorted[..|m|] == sorted;
    cut := MaxKey(m) + 1;
  }

  lemma CapDone(m: map<nat, Tx>, cut: nat, k: nat, kept: seq<nat>)
    requires Keyed(m) && k <= |m| && |kept| == k && SortedIndex(kept, Below(m, cut))
    ensures Below(m, cut) == Lowest(m, k) && From(m, cut) == Excess(m, k)
    ensures Keyed(Lowest(m, k)) && Keyed(Excess(m, k)) && Indexes(kept, Lowest(m, k))
    ensures |Excess(m, k)| == |m| - k
  {
    hide *;
    SortedIsHeap(kept, Below(m, cut));
    LowestUnique(m, cut, k);
    ExcessSize(m, k);
    CapKeyed(m, cut, k);
  }

  lemma CapKeyed(m: map<nat, Tx>, cut: nat, k: nat)
    requires Keyed(m) && Below(m, cut) == Lowest(m, k)
    ensures From(m, cut) == Excess(m, k) && Keyed(Lowest(m, k)) && Keyed(Excess(m, k))
  {
    hide Lowest;
    assert From(m, cut) == m - Below(m, cut).Keys;
  }

  lemma SortedIsHeap(sorted: seq<nat>, m: map<nat, Tx>)
    requires SortedIndex(sorted, m)
    ensures |sorted| == |m| && Indexes(sorted, m)
  {
    assert |sorted| == |multiset(sorted)| == |m.Keys|;
  }

  lemma ExcessSize(m: map<nat, Tx>, k: nat)
    requires k <= |m|
    ensures |Excess(m, k)| == |m| - k
  {
    hide Lowest;
    assert Excess(m, k).Keys == m.Keys - Lowest(m, k).Keys;
    assert Lowest(m, k).Keys <= m.Keys;
  }

  lemma NothingAbove(m: map<nat, Tx>, k: nat)
    requires |m| <= k
    ensures Lowest(m, k) == m && Enumerates([], Excess(m, k))
  {
  }

  lemma FlatSize(s: seq<Tx>, m: map<nat, Tx>, threshold: nat)
    requires Keyed(m) && Flat(s, Below(m, threshold))
    ensures |s| == |Below(m, threshold)|
  {
    EnumeratesSize(s, Below(m, threshold));
  }

  lemma NothingBelowZero(m: map<nat, Tx>)
    ensures From(m, 0) == m && Flat([], Below(m, 0))
  {
  }

  lemma ForwardDone(m: map<nat, Tx>, done: nat, threshold: nat, index: seq<nat>)
    requires Keyed(m) && Indexes(index, From(m, done)) && done <= threshold
    requires index == [] || index[0] >= threshold
    ensures From(m, done) == From(m, threshold) && Below(m, done) == Below(m, threshold)
    ensures Keyed(From(m, threshold))
  {
    HeapFront(index, From(m, done));
    assert forall n | n in From(m, done) :: n >= threshold;
    assert From(m, done) == From(m, threshold);
    BelowSame(m, done, threshold);
  }

  lemma NothingReady(m: map<nat, Tx>, start: nat, index: seq<nat>)
    requires Indexes(index, m) && (index == [] || index[0] > start)
    ensures Flat([], ReadyRun(m, start)) && m == NotReady(m, start)
  {
    HeapFront(index, m);
  }

  ghost predicate Consecutive(m: map<nat, Tx>, lo: nat, next: nat) {
    lo <= next && forall n | lo <= n < next :: n in m
  }

  lemma ReadyStart(m: map<nat, Tx>, index: seq<nat>)
    requires Indexes(index, m) && index != []
    ensures index[0] in m && MinKey(m) == index[0] && Consecutive(m, index[0], index[0])
    ensures m == From(m, index[0]) && Flat([], Below(m, index[0]))
  {
    HeapFront(index, m);
  }

  lemma ReadyStep(m: map<nat, Tx>, lo: nat, next: nat)
    requires Consecutive(m, lo, next) && next in From(m, next)
    ensures Consecutive(m, lo, next + 1)
  {
  }

  lemma ReadyDone(m: map<nat, Tx>, start: nat, next: nat, index: seq<nat>)
    requires Keyed(m) && m != map[] && MinKey(m) <= start && Consecutive(m, MinKey(m), next)
    requires Indexes(index, From(m, next)) && (index == [] || index[0] != next)
    ensures ReadyRun(m, start) == Below(m, next) && From(m, next) == NotReady(m, start)
    ensures Keyed(From(m, next))
  {
    HeapFront(index, From(m, next));
    assert next !in From(m, next);
    assert RunEnd(m, MinKey(m)) == next;
  }

  /** Collects the transactions and sorts them by nonce. */
  method SortByNonce(m: map<nat, Tx>) returns (s: seq<Tx>)
    requires Keyed(m)
    ensures Flat(s, m)
  {
    hide *;
    s := [];
    var rest := m;
    ghost var done: nat := 0;
    NothingBelowZero(m);
    while rest != map[]
      invariant rest == From(m, done) && Flat(s, Below(m, done))
      decreases |rest|
    {
      var nonce := MinKey(rest);
      PopLowest(m, done, nonce, s);
      assert (rest - {nonce}).Keys == rest.Keys - {nonce};
      s, rest, done := s + [rest[nonce]], rest - {nonce}, nonce + 1;
    }
    AllBelow(m, done);
  }

  lemma AllBelow(m: map<nat, Tx>, done: nat)
    requires From(m, done) == map[]
    ensures Below(m, done) == m
  {
    forall n | n in m ensures n < done {
      assert n >= done ==> n in From(m, done);
    }
  }

  // ---------------------------------------------------------------- the implementation

  class TxSortedMap {
    var items: map<nat, Tx>
    var index: seq<nat>
    var cache: Option<seq<Tx>>

    ghost predicate Valid()
      reads this
    {
      && Keyed(items)
      && Indexes(index, items)
      && (cache.Some? ==> Flat(cache.value, items))
    }

    constructor ()
      ensures Valid() && items == map[]
    {
      items, index, cache := map[], [], None;
    }

    method Put(tx: Tx)
      requires Valid()
      modifies this
      ensures Valid() && items == old(items)[tx.nonce := tx]
    {
      if tx.nonce !in items {
        index := PushIndex(index, items, tx);
      } else {
        assert items[tx.nonce := tx].Keys == items.Keys;
      }
      items, cache := items[tx.nonce := tx], None;
    }

    method Forward(threshold: nat) returns (removed: seq<Tx>)
      requires Valid()
      modifies this
      ensures Valid() && items == From(old(items), threshold)
      ensures Flat(removed, Below(old(items), threshold))
    {
      hide *;
      ValidParts();
      ghost var m: map<nat, Tx> := items;
      ghost var done: nat := 0;  // everything below `done` has been moved to `removed`
      NothingBelowZero(m);
      removed := [];
      while index != [] && index[0] < threshold
        invariant done <= threshold && Indexes(index, items) && cache == old(cache)
        invariant items == From(m, done) && Flat(removed, Below(m, done))
        decreases |items|
      {
        var nonce := index[0];
        index := PopIndex(index, items);
        PopLowest(m, done, nonce, removed);
        removed := removed + [items[nonce]];
        items := items - {nonce};
        done := nonce + 1;
      }
      ForwardDone(m, done, threshold, index);
      if cache.Some? {
        FlatSize(removed, m, threshold);
        CachedForward(cache.value, m, threshold, |removed|);
        cache := Some(cache.value[|removed|..]);
      }
      ValidWhole();
    }

    method Filter(f: Tx -> bool) returns (removed: seq<Tx>)
      requires Valid()
      modifies this
      ensures Valid() && Enumerates(removed, Satisfying(old(items), f))
      ensures items == old(items) - Satisfying(old(items), f).Keys
    {
      hide *;
      ValidParts();
      ghost var m: map<nat, Tx> := items;
      removed := [];
      var todo := items.Keys;
      NoHitsYet(m, f);
      while todo != {}
        invariant todo <= m.Keys && cache == old(cache) && index == old(index)
        invariant items == Misses(m, todo, f) && Enumerates(removed, Hits(m, todo, f))
      {
        var nonce :| nonce in todo;
        FilterStep(m, todo, f, nonce, removed);
        if f(items[nonce]) {
          removed := removed + [items[nonce]];
          items := items - {nonce};
        }
        todo := todo - {nonce};
      }
      AllHits(m, f, removed);
      if |removed| > 0 {
        index := RebuildIndex(items);
        cache := None;
      }
      ValidWhole();
    }

    method Cap(threshold: nat) returns (drops: seq<Tx>)
      requires Valid()
      modifies this
      ensures Valid() && items == Lowest(old(items), threshold)
      ensures Enumerates(drops, Excess(old(items), threshold))
    {
      hide *;
      ValidParts();
      ghost var m: map<nat, Tx> := items;
      drops := [];
      if |items| <= threshold {
        NothingAbove(m, threshold);
        return;
      }
      var sorted := Sort(index);
      var size := |items|;
      ghost var cut: nat := StartCap(m, index, sorted);  // everything from `cut` on has been dropped
      while size > threshold
        invariant threshold <= size <= |sorted| && SortedIndex(sorted[..size], items)
        invariant items == Below(m, cut) && Enumerates(drops, From(m, cut))
        invariant cache == old(cache)
      {
        var nonce := sorted[size - 1];
        IndexFront(sorted, size, items);
        PopHighest(m, cut, nonce, drops);
        drops := drops + [items[nonce]];
        items := items - {nonce};
        size, cut := size - 1, nonce;
      }
      CapDone(m, cut, threshold, sorted[..threshold]);
      index := ReheapIndex(sorted[..threshold], items);
      if cache.Some? {
        EnumeratesSize(drops, Excess(m, threshold));
        CachedCap(cache.value, m, threshold);
        cache := Some(cache.value[..|cache.value| - |drops|]);
      }
      ValidWhole();
    }

    method Remove(nonce: nat) returns (found: bool)
      requires Valid()
      modifies this
      ensures Valid() && found == (nonce in old(items)) && items == old(items) - {nonce}
    {
      if nonce !in items {
        assert items - {nonce} == items;
        return false;
      }
      var i := 0;
      assert nonce in index[i..] by { assert nonce in multiset(index); }
      while index[i] != nonce
        invariant 0 <= i < |index| && nonce in index[i..]
        decreases |index| - i
      {
        i := i + 1;
      }
      index := RemoveIndex(index, items, i);
      items, cache := items - {nonce}, None;
      return true;
    }

    method Ready(start: nat) returns (ready: seq<Tx>)
      requires Valid()
      modifies this
      ensures Valid() && Flat(ready, ReadyRun(old(items), start))
      ensures items == NotReady(old(items), start)
    {
      hide *;
      ValidParts();
      ghost var m: map<nat, Tx> := items;
      ready := [];
      if index == [] || index[0] > start {
        NothingReady(m, start, index);
        return;
      }
      ReadyStart(m, index);
      var next := index[0];
      while index != [] && index[0] == next
        invariant Consecutive(m, MinKey(m), next) && Indexes(index, items)
        invariant items == From(m, next) && Flat(ready, Below(m, next))
        decreases |items|
      {
        index := PopIndex(index, items);
        ReadyStep(m, MinKey(m), next);
        PopLowest(m, next, next, ready);
        ready := ready + [items[next]];
        items := items - {next};
        next := next + 1;
      }
      ReadyDone(m, start, next, index);
      cache := None;
      ValidWhole();
    }

    /** The nonce-sorted contents; the cached order is reused when there is one. */
    method Flatten() returns (txs: seq<Tx>)
      requires Valid()
      modifies this`cache
      ensures Valid() && Flat(txs, items)
    {
      if cache.None? {
        var sorted := SortByNonce(items);
        cache := Some(sorted);
      }
      txs := cache.value;
    }

    lemma ValidParts()
      requires Valid()
      ensures Keyed(items) && Indexes(index, items) && (cache.Some? ==> Flat(cache.value, items))
    {
    }

    lemma ValidWhole()
      requires Keyed(items) && Indexes(index, items) && (cache.Some? ==> Flat(cache.value, items))
      ensures Valid()
    {
    }
  }
}
