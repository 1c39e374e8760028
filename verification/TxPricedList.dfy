/** The lazily cleaned price heap over all pooled transactions (core/tx_list.go, txPricedList).

    `container/heap` is represented by its contract: the heap is a multiset, and its front is any
    entry that no other entry precedes. The transaction table `all` that the source shares by
    reference is passed to each operation. */
module PricedLists {
  import opened Basics
  import opened Transactions

  type Lookup = map<TxHash, Tx>

  predicate Live(all: Lookup, tx: Tx) {
    TxHash(tx) in all
  }

  /** Every live transaction has an entry in the heap. */
  ghost predicate Covers(items: multiset<Tx>, all: Lookup) {
    forall t :: Live(all, t) ==> t in items
  }

  /** Every live transaction has an entry in the heap or was handed out in `drop`. */
  ghost predicate CoversExcept(items: multiset<Tx>, all: Lookup, drop: seq<Tx>) {
    forall t :: Live(all, t) ==> t in items || t in drop
  }

  /** No entry of a live transaction disappeared. */
  ghost predicate KeepsLive(items: multiset<Tx>, items': multiset<Tx>, all: Lookup) {
    forall t | t in items && Live(all, t) :: t in items'
  }

  /** The lookup table files every transaction under its own hash. */
  ghost predicate WellKeyed(all: Lookup) {
    forall h | h in all :: all[h] == h.of
  }

  predicate IsFront(tx: Tx, items: multiset<Tx>) {
    tx in items && forall u | u in items :: !Cheaper(u, tx)
  }

  /** The front of the heap. */
  method Front(items: multiset<Tx>) returns (tx: Tx)
    requires items != multiset{}
    ensures IsFront(tx, items)
  {
    tx :| tx in items;
    var todo := items;
    while todo != multiset{}
      invariant tx in items && todo <= items
      invariant forall u | u in items :: u in todo || !Cheaper(u, tx)
      decreases |todo|
    {
      var u :| u in todo;
      if Cheaper(u, tx) {
        tx := u;
      }
      todo := todo - multiset{u};
    }
  }

  /** What the price floor evicts. */
  predicate BelowFloor(tx: Tx, all: Lookup, threshold: nat, locals: set<Address>) {
    Live(all, tx) && tx.from !in locals && tx.price < threshold
  }

  ghost predicate CapProgress(all: Lookup, threshold: nat, locals: set<Address>, items: multiset<Tx>,
                              save: multiset<Tx>, drop: seq<Tx>)
  {
    && CoversExcept(items + save, all, drop)
    && (forall t | t in drop :: BelowFloor(t, all, threshold, locals))
    && (forall t | t in save :: Live(all, t) && !BelowFloor(t, all, threshold, locals))
  }

  lemma FrontIsCheapest(tx: Tx, items: multiset<Tx>)
    requires IsFront(tx, items)
    ensures tx in items && forall u | u in items :: tx.price <= u.price
  {
  }

  lemma StartCap(all: Lookup, threshold: nat, locals: set<Address>, items: multiset<Tx>)
    requires Covers(items, all)
    ensures CapProgress(all, threshold, locals, items, multiset{}, [])
  {
  }

  lemma CapStep(all: Lookup, threshold: nat, locals: set<Address>, items: multiset<Tx>,
                save: multiset<Tx>, drop: seq<Tx>, tx: Tx)
    requires CapProgress(all, threshold, locals, items, save, drop) && tx in items
    ensures var rest := items - multiset{tx};
            if !Live(all, tx) then CapProgress(all, threshold, locals, rest, save, drop)
            else if BelowFloor(tx, all, threshold, locals)
            then CapProgress(all, threshold, locals, rest, save, drop + [tx])
            else CapProgress(all, threshold, locals, rest, save + multiset{tx}, drop)
  {
  }

  lemma CapDone(all: Lookup, threshold: nat, locals: set<Address>, items: multiset<Tx>,
                save: multiset<Tx>, drop: seq<Tx>)
    requires CapProgress(all, threshold, locals, items, save, drop)
    requires forall u | u in items :: u.price >= threshold
    ensures CoversExcept(items + save, all, drop)
    ensures forall t :: t in drop <==> BelowFloor(t, all, threshold, locals)
  {
    forall t | BelowFloor(t, all, threshold, locals) ensures t in drop {
      assert t !in items && t !in save;
    }
  }

  // ---------------------------------------------------------------- discarding

  /** The entries of a heap that satisfy a condition. */
  ghost function Those(c: multiset<Tx>, p: Tx -> bool): (r: multiset<Tx>)
    ensures r <= c && forall t :: r[t] == if p(t) then c[t] else 0
    decreases |c|
  {
    if c == multiset{} then multiset{}
    else
      var t :| t in c;
      Those(c - multiset{t}, p) + if p(t) then multiset{t} else multiset{}
  }

  /** The entries that may be discarded: those of live remote transactions. */
  ghost function Candidates(items: multiset<Tx>, all: Lookup, locals: set<Address>): (c: multiset<Tx>)
    ensures c <= items && forall t :: c[t] == if Live(all, t) && t.from !in locals then items[t] else 0
  {
    Those(items, t => Live(all, t) && t.from !in locals)
  }

  /** The entries of transactions that are no longer live. */
  ghost function Stale(items: multiset<Tx>, all: Lookup): (r: multiset<Tx>)
    ensures r <= items && forall t :: r[t] == if Live(all, t) then 0 else items[t]
  {
    Those(items, t => !Live(all, t))
  }

  lemma StaleLess(items: multiset<Tx>, all: Lookup, t: Tx)
    requires t in items
    ensures |Stale(items - multiset{t}, all)| == |Stale(items, all)| - if Live(all, t) then 0 else 1
  {
    hide Stale, Live;
    if Live(all, t) {
      assert Stale(items - multiset{t}, all) == Stale(items, all);
    } else {
      assert Stale(items - multiset{t}, all) == Stale(items, all) - multiset{t};
    }
  }

  /** Only entries of transactions that are no longer live are gone, and every live one has an entry. */
  ghost predicate KeptLive(items: multiset<Tx>, items': multiset<Tx>, all: Lookup) {
    Covers(items', all) && forall t | Live(all, t) :: items'[t] == items[t]
  }

  lemma KeptLiveIs(items: multiset<Tx>, items': multiset<Tx>, all: Lookup)
    ensures KeptLive(items, items', all) <==> Covers(items', all) && forall t | Live(all, t) :: items'[t] == items[t]
  {
  }

  lemma AllLive(items: multiset<Tx>, all: Lookup)
    requires Covers(items, all)
    ensures KeptLive(items, items, all)
  {
  }

  lemma DropsStale(items: multiset<Tx>, items': multiset<Tx>, all: Lookup, t: Tx)
    requires KeptLive(items, items', all) && !Live(all, t)
    ensures KeptLive(items, items' - multiset{t}, all)
  {
  }

  lemma FrontPrice(items: multiset<Tx>, items': multiset<Tx>, all: Lookup, head: Tx, tx: Tx)
    requires KeptLive(items, items', all) && IsFront(head, items') && Live(all, head)
    ensures all != map[] && (head.price >= tx.price <==> forall t :: Live(all, t) ==> t.price >= tx.price)
  {
  }

  lemma NoneLive(items: multiset<Tx>, all: Lookup)
    requires Covers(items, all) && items == multiset{}
    ensures all == map[]
  {
    assert forall h | h in all :: Live(all, h.of);
  }

  lemma StaleMore(items: multiset<Tx>, all: Lookup, save: multiset<Tx>)
    requires forall t | t in save :: Live(all, t)
    ensures |Stale(items + save, all)| == |Stale(items, all)|
  {
    hide Stale, Live;
    assert Stale(items + save, all) == Stale(items, all);
  }

  /** `drop` is a legal choice of the `count` worst entries; entries of the same rank may come in any order. */
  ghost predicate Worst(c: multiset<Tx>, drop: seq<Tx>, count: nat) {
    && multiset(drop) <= c && |drop| == Min(count, |c|)
    && forall d, u | d in drop && u in c - multiset(drop) :: !Cheaper(u, d)
  }

  ghost predicate Repeats(drop: seq<Tx>) {
    exists t :: multiset(drop)[t] >= 2
  }

  /** The entries of lower rank than a transaction. */
  ghost function Lower(c: multiset<Tx>, t: Tx): (r: multiset<Tx>)
    ensures r <= c && forall u :: r[u] == if Cheaper(u, t) then c[u] else 0
  {
    Those(c, u => Cheaper(u, t))
  }

  /** The entries of other transactions of lower or the same rank. */
  ghost function NotHigher(c: multiset<Tx>, t: Tx): (r: multiset<Tx>)
    ensures r <= c && forall u :: r[u] == if u != t && !Cheaper(t, u) then c[u] else 0
  {
    Those(c, u => u != t && !Cheaper(t, u))
  }

  /** A transaction with two entries can be reached twice: there are fewer than `count - 1` entries of lower rank. */
  ghost predicate Crowded(c: multiset<Tx>, count: nat) {
    exists t :: c[t] >= 2 && |Lower(c, t)| + 2 <= count
  }

  /** A transaction with two entries is reached twice, in whatever order entries of the same rank come. */
  ghost predicate SurelyCrowded(c: multiset<Tx>, count: nat) {
    exists t :: c[t] >= 2 && |NotHigher(c, t)| + 2 <= count
  }

  /** No two transactions have the same rank. */
  ghost predicate Untied(c: multiset<Tx>) {
    forall t, u | t in c && u in c && t != u :: Cheaper(t, u) || Cheaper(u, t)
  }

  lemma PartSize(a: multiset<Tx>, b: multiset<Tx>)
    requires a <= b
    ensures |a| <= |b|
  {
    assert b == a + (b - a);
  }

  /** Only a crowded heap makes a discard repeat a transaction. */
  lemma RepeatsIfCrowded(c: multiset<Tx>, drop: seq<Tx>, count: nat)
    requires Worst(c, drop, count) && Repeats(drop)
    ensures Crowded(c, count)
  {
    hide Lower, Cheaper;
    var t :| multiset(drop)[t] >= 2;
    var lower := Lower(c, t);
    assert !Cheaper(t, t) by { Irreflexive(t); }
    forall u ensures (lower + multiset{t, t})[u] <= multiset(drop)[u] {
      if u in lower {
        assert t in drop && u !in c - multiset(drop);
      }
    }
    PartSize(lower + multiset{t, t}, multiset(drop));
  }

  lemma Irreflexive(t: Tx)
    ensures !Cheaper(t, t)
  {
  }

  /** A transaction with two entries of which at most one is handed out is not reached in time. */
  lemma NotReachedTwice(c: multiset<Tx>, drop: seq<Tx>, count: nat, t: Tx)
    requires Worst(c, drop, count) && c[t] >= 2 && multiset(drop)[t] < 2
    ensures |NotHigher(c, t)| + 2 > count
  {
    hide NotHigher, Cheaper;
    var lower := NotHigher(c, t);
    assert t in c - multiset(drop);
    forall d ensures multiset(drop)[d] <= (lower + multiset{t})[d] {
      if d in multiset(drop) && d != t {
        assert d in drop;
      }
    }
    PartSize(multiset(drop), lower + multiset{t});
    forall u ensures (lower + multiset{t, t})[u] <= c[u] {
    }
    PartSize(lower + multiset{t, t}, c);
  }

  /** In a surely crowded heap every discard repeats a transaction. */
  lemma SurelyCrowdedRepeats(c: multiset<Tx>, drop: seq<Tx>, count: nat)
    requires Worst(c, drop, count) && SurelyCrowded(c, count)
    ensures Repeats(drop)
  {
    hide Worst, NotHigher;
    var t :| c[t] >= 2 && |NotHigher(c, t)| + 2 <= count;
    if multiset(drop)[t] < 2 {
      NotReachedTwice(c, drop, count, t);
    }
  }

  /** Where no two transactions tie, crowded and surely crowded are the same. */
  lemma UntiedCrowded(c: multiset<Tx>, count: nat)
    requires Untied(c)
    ensures Crowded(c, count) <==> SurelyCrowded(c, count)
  {
    hide Lower, NotHigher, Untied;
    forall t | c[t] >= 2 ensures Lower(c, t) == NotHigher(c, t) {
      UntiedLower(c, t);
    }
  }

  lemma UntiedLower(c: multiset<Tx>, t: Tx)
    requires Untied(c) && t in c
    ensures Lower(c, t) == NotHigher(c, t)
  {
    hide Lower, NotHigher;
    forall u ensures Lower(c, t)[u] == NotHigher(c, t)[u] {
    }
  }

  /** In a crowded heap some legal discard does repeat. */
  lemma CrowdedCanRepeat(c: multiset<Tx>, count: nat) returns (drop: seq<Tx>)
    requires Crowded(c, count)
    ensures Worst(c, drop, count) && Repeats(drop)
  {
    hide Lower, Listed;
    var t :| c[t] >= 2 && |Lower(c, t)| + 2 <= count;
    drop := Listed(Lower(c, t)) + [t, t];
    StartsWorst(c, t, drop);
    drop := FillsUp(c, count, drop);
    assert multiset(drop)[t] >= 2;
  }

  /** All entries that may come next rank at least as high as those taken. */
  ghost predicate Taken(c: multiset<Tx>, drop: seq<Tx>) {
    multiset(drop) <= c && forall d, u | d in drop && u in c - multiset(drop) :: !Cheaper(u, d)
  }

  lemma StartsWorst(c: multiset<Tx>, t: Tx, drop: seq<Tx>)
    requires c[t] >= 2 && drop == Listed(Lower(c, t)) + [t, t]
    ensures Taken(c, drop) && |drop| == |Lower(c, t)| + 2 <= |c| && multiset(drop)[t] >= 2
  {
    hide Lower, Listed;
    var lower := Lower(c, t);
    assert multiset(drop) == lower + multiset{t, t};
    forall u ensures multiset(drop)[u] <= c[u] {
    }
    PartSize(multiset(drop), c);
    forall d, u | d in drop && u in c - multiset(drop) ensures !Cheaper(u, d) {
      assert d in multiset(drop) && u !in lower;
    }
  }

  /** A legal choice of fewer entries extends to one of `count`. */
  lemma FillsUp(c: multiset<Tx>, count: nat, drop: seq<Tx>) returns (more: seq<Tx>)
    requires Taken(c, drop) && |drop| <= Min(count, |c|)
    ensures Worst(c, more, count) && drop <= more
    ensures forall t :: multiset(more)[t] >= multiset(drop)[t]
    decreases |c| - |drop|
  {
    if |drop| == Min(count, |c|) {
      more := drop;
    } else {
      var rest := c - multiset(drop);
      assert |rest| == |c| - |drop|;
      var f := FrontOf(rest);
      TakesNext(c, drop, f);
      more := FillsUp(c, count, drop + [f]);
    }
  }

  lemma TakesNext(c: multiset<Tx>, drop: seq<Tx>, f: Tx)
    requires Taken(c, drop) && IsFront(f, c - multiset(drop))
    ensures Taken(c, drop + [f]) && forall t :: multiset(drop + [f])[t] >= multiset(drop)[t]
  {
    hide Cheaper;
    assert multiset(drop + [f]) == multiset(drop) + multiset{f};
    forall d, u | d in drop + [f] && u in c - multiset(drop + [f]) ensures !Cheaper(u, d) {
      assert u in c - multiset(drop);
    }
  }

  ghost function Listed(c: multiset<Tx>): (s: seq<Tx>)
    ensures multiset(s) == c
    decreases |c|
  {
    if c == multiset{} then [] else var t :| t in c; [t] + Listed(c - multiset{t})
  }

  lemma FrontOf(c: multiset<Tx>) returns (f: Tx)
    requires c != multiset{}
    ensures IsFront(f, c)
    decreases |c|
  {
    f :| f in c;
    var rest := c - multiset{f};
    if rest != multiset{} {
      var g := FrontOf(rest);
      if Cheaper(g, f) { f := g; }
    }
  }

  /** A transaction entered twice, because it was added again while its stale entry was still there: asked for two, the
      heap hands out the same one twice. */
  lemma EnteredTwice(c: multiset<Tx>, t: Tx, drop: seq<Tx>)
    requires c[t] >= 2 && (forall u | u in c && u != t :: Cheaper(t, u)) && Worst(c, drop, 2)
    ensures drop == [t, t] && SurelyCrowded(c, 2)
  {
    hide NotHigher;
    PartSize(multiset{t, t}, c);
    assert NotHigher(c, t) == multiset{} by {
      forall v ensures NotHigher(c, t)[v] == 0 {
      }
    }
    assert drop == [drop[0], drop[1]];
    if multiset(drop)[t] < 2 {
      NotReachedTwice(c, drop, 2, t);
    }
    assert multiset(drop)[t] >= 2;
    assert drop[0] == t && drop[1] == t by { BothAre(drop, t); }
  }

  lemma BothAre(drop: seq<Tx>, t: Tx)
    requires |drop| == 2 && multiset(drop)[t] >= 2
    ensures drop[0] == t && drop[1] == t
  {
    assert drop == [drop[0], drop[1]];
    assert multiset(drop) == multiset{drop[0]} + multiset{drop[1]};
  }

  /** No remote transaction that stays is cheaper than one dropped, nor as cheap with a higher nonce. */
  ghost predicate DropsWorst(all: Lookup, locals: set<Address>, drop: seq<Tx>) {
    forall t, d | Live(all, t) && t.from !in locals && t !in drop && d in drop ::
      t.price > d.price || (t.price == d.price && t.nonce <= d.nonce)
  }

  /** The entries handed out so far precede everything that is left. */
  ghost predicate DiscardProgress(all: Lookup, locals: set<Address>, items: multiset<Tx>,
                                  save: multiset<Tx>, drop: seq<Tx>)
  {
    && CoversExcept(items + save, all, drop)
    && (forall t | t in drop :: Live(all, t) && t.from !in locals)
    && (forall t | t in save :: t.from in locals)
    && (forall d, u | d in drop && u in items :: !Cheaper(u, d))
  }

  /** What was handed out and what is left to hand out are the candidates there were. */
  ghost predicate Accounted(c: multiset<Tx>, all: Lookup, locals: set<Address>, items: multiset<Tx>, drop: seq<Tx>) {
    c == Candidates(items, all, locals) + multiset(drop)
  }

  lemma AccountedStep(c: multiset<Tx>, all: Lookup, locals: set<Address>, items: multiset<Tx>, drop: seq<Tx>, tx: Tx)
    requires Accounted(c, all, locals, items, drop) && tx in items
    ensures var rest := items - multiset{tx};
      Accounted(c, all, locals, rest, if Live(all, tx) && tx.from !in locals then drop + [tx] else drop)
  {
    hide Candidates;
    var rest := items - multiset{tx};
    var before, after := Candidates(items, all, locals), Candidates(rest, all, locals);
    if Live(all, tx) && tx.from !in locals {
      forall t ensures before[t] == (after + multiset{tx})[t] {
      }
      assert multiset(drop + [tx]) == multiset(drop) + multiset{tx};
    } else {
      forall t ensures before[t] == after[t] {
      }
    }
  }

  lemma AccountedWorst(c: multiset<Tx>, all: Lookup, locals: set<Address>, items: multiset<Tx>, save: multiset<Tx>,
                       drop: seq<Tx>, count: nat)
    requires Accounted(c, all, locals, items, drop) && DiscardProgress(all, locals, items, save, drop)
    requires |drop| <= count && (items == multiset{} || |drop| == count)
    ensures Worst(c, drop, count)
  {
    assert |c| == |Candidates(items, all, locals)| + |drop|;
    assert c - multiset(drop) == Candidates(items, all, locals);
  }

  lemma StartAccount(all: Lookup, locals: set<Address>, items: multiset<Tx>)
    ensures Accounted(Candidates(items, all, locals), all, locals, items, [])
  {
  }

  lemma FrontThere(tx: Tx, items: multiset<Tx>)
    requires IsFront(tx, items)
    ensures tx in items
  {
  }

  lemma StartDiscard(all: Lookup, locals: set<Address>, items: multiset<Tx>)
    requires Covers(items, all)
    ensures DiscardProgress(all, locals, items, multiset{}, [])
  {
  }

  lemma DiscardStep(all: Lookup, locals: set<Address>, items: multiset<Tx>,
                    save: multiset<Tx>, drop: seq<Tx>, tx: Tx)
    requires DiscardProgress(all, locals, items, save, drop) && IsFront(tx, items)
    ensures var rest := items - multiset{tx};
            if !Live(all, tx) then DiscardProgress(all, locals, rest, save, drop)
            else if tx.from in locals
            then DiscardProgress(all, locals, rest, save + multiset{tx}, drop)
            else DiscardProgress(all, locals, rest, save, drop + [tx])
  {
    var rest := items - multiset{tx};
    assert forall u | u in rest :: u in items;
  }

  lemma DiscardDone(all: Lookup, locals: set<Address>, items: multiset<Tx>,
                    save: multiset<Tx>, drop: seq<Tx>)
    requires DiscardProgress(all, locals, items, save, drop)
    ensures CoversExcept(items + save, all, drop)
    ensures forall t | t in drop :: Live(all, t) && t.from !in locals
    ensures DropsWorst(all, locals, drop)
    ensures items == multiset{} ==> forall t | Live(all, t) && t.from !in locals :: t in drop
  {
  }

  class TxPricedList {
    var items: multiset<Tx>
    var stales: int

    constructor ()
      ensures items == multiset{} && stales == 0
    {
      items, stales := multiset{}, 0;
    }

    method Put(tx: Tx)
      modifies this
      ensures items == old(items) + multiset{tx} && stales == old(stales)
    {
      items := items + multiset{tx};
    }

    /** Counts a stale entry; once a quarter of the heap may be stale it is rebuilt from `all`. */
    method Removed(all: Lookup)
      requires WellKeyed(all)
      modifies this
      ensures if old(stales) + 1 <= |old(items)| / 4 then items == old(items) && stales == old(stales) + 1
              else stales == 0 && forall t :: items[t] == if Live(all, t) then 1 else 0
      ensures KeepsLive(old(items), items, all)
    {
      stales := stales + 1;
      if stales <= |items| / 4 {
        return;
      }
      stales, items := 0, multiset(set h | h in all :: all[h]);
      forall t | Live(all, t) ensures t in items {
        assert all[TxHash(t)] == t;
      }
    }

    /** Hands out exactly the live remote transactions priced below `threshold`. */
    method Cap(all: Lookup, threshold: nat, locals: set<Address>) returns (drop: seq<Tx>)
      requires Covers(items, all)
      modifies this
      ensures forall t :: t in drop <==> BelowFloor(t, all, threshold, locals)
      ensures CoversExcept(items, all, drop)
      ensures old(stales) - stales == |Stale(old(items), all)| - |Stale(items, all)|
    {
      hide CapProgress, IsFront, Stale;
      StartCap(all, threshold, locals, items);
      drop := [];
      var save := multiset{};
      while items != multiset{}
        invariant CapProgress(all, threshold, locals, items, save, drop) && forall t | t in save :: Live(all, t)
        invariant old(stales) - stales == |Stale(old(items), all)| - |Stale(items, all)|
        decreases |items|
      {
        var tx := Front(items);
        FrontThere(tx, items);
        StaleLess(items, all, tx);
        CapStep(all, threshold, locals, items, save, drop, tx);
        FrontIsCheapest(tx, items);
        items := items - multiset{tx};
        if !Live(all, tx) {
          stales := stales - 1;
          continue;
        }
        if tx.price >= threshold {
          save := save + multiset{tx};
          break;
        }
        if tx.from in locals {
          save := save + multiset{tx};
        } else {
          drop := drop + [tx];
        }
      }
      CapDone(all, threshold, locals, items, save, drop);
      StaleMore(items, all, save);
      items := items + save;
    }

    /** Whether a remote transaction is no dearer than the cheapest live one. */
    method Underpriced(all: Lookup, tx: Tx, locals: set<Address>) returns (b: bool)
      requires Covers(items, all)
      modifies this
      ensures Covers(items, all) && forall t | Live(all, t) :: items[t] == old(items)[t]
      ensures old(stales) - stales == |Stale(old(items), all)| - |Stale(items, all)|
      ensures b <==> tx.from !in locals && all != map[] && forall t :: Live(all, t) ==> t.price >= tx.price
    {
      hide *;
      AllLive(items, all);
      if tx.from in locals {
        return false;
      }
      var head: Tx;
      while items != multiset{}
        invariant KeptLive(old(items), items, all)
        invariant old(stales) - stales == |Stale(old(items), all)| - |Stale(items, all)|
        decreases |items|
      {
        head := Front(items);
        FrontThere(head, items);
        StaleLess(items, all, head);
        if !Live(all, head) {
          DropsStale(old(items), items, all, head);
          stales := stales - 1;
          items := items - multiset{head};
          continue;
        }
        FrontPrice(old(items), items, all, head, tx);
        KeptLiveIs(old(items), items, all);
        return head.price >= tx.price;
      }
      KeptLiveIs(old(items), items, all);
      NoneLive(items, all);
      return false;
    }

    /** Hands out up to `count` of the worst remote transactions. */
    method Discard(all: Lookup, count: nat, locals: set<Address>) returns (drop: seq<Tx>)
      requires Covers(items, all)
      modifies this
      ensures |drop| <= count && CoversExcept(items, all, drop)
      ensures forall t | t in drop :: Live(all, t) && t.from !in locals
      ensures DropsWorst(all, locals, drop)
      ensures |drop| < count ==> forall t | Live(all, t) && t.from !in locals :: t in drop
      ensures Worst(Candidates(old(items), all, locals), drop, count)
      ensures old(stales) - stales == |Stale(old(items), all)| - |Stale(items, all)|
    {
      hide DiscardProgress, IsFront, Accounted, Candidates, Worst, Stale;
      StartDiscard(all, locals, items);
      ghost var c := Candidates(items, all, locals);
      StartAccount(all, locals, items);
      drop := [];
      var save := multiset{};
      while items != multiset{} && |drop| < count
        invariant |drop| <= count && DiscardProgress(all, locals, items, save, drop) && Accounted(c, all, locals, items, drop)
        invariant old(stales) - stales == |Stale(old(items), all)| - |Stale(items, all)| && forall t | t in save :: Live(all, t)
        decreases |items|
      {
        var tx := Front(items);
        FrontThere(tx, items);
        StaleLess(items, all, tx);
        DiscardStep(all, locals, items, save, drop, tx);
        AccountedStep(c, all, locals, items, drop, tx);
        items := items - multiset{tx};
        if !Live(all, tx) {
          stales := stales - 1;
        } else if tx.from in locals {
          save := save + multiset{tx};
        } else {
          drop := drop + [tx];
        }
      }
      DiscardDone(all, locals, items, save, drop);
      AccountedWorst(c, all, locals, items, save, drop, count);
      StaleMore(items, all, save);
      items := items + save;
    }
  }

  lemma AllEntered(t: Tx, u: Tx, v: Tx, w: Tx)
    requires Cheaper(t, u) && Cheaper(t, v) && Cheaper(t, w)
    ensures var all := map[TxHash(u) := u, TxHash(v) := v, TxHash(w) := w];
      var entries := multiset{} + multiset{t} + multiset{u} + multiset{v} + multiset{w};
      && WellKeyed(all) && |entries| == 4 && Covers(entries + multiset{t}, all[TxHash(t) := t])
      && Candidates(entries + multiset{t}, all[TxHash(t) := t], {})[t] >= 2
      && forall x | x in Candidates(entries + multiset{t}, all[TxHash(t) := t], {}) && x != t :: Cheaper(t, x)
  {
    hide Candidates, Cheaper;
    var entries := multiset{} + multiset{t} + multiset{u} + multiset{v} + multiset{w};
    assert forall x | x in entries :: x == t || x == u || x == v || x == w;
  }

  /** How a transaction gets two entries: it is added, removed while the heap is still too fresh to be rebuilt, and added
      again. Asked for two, the heap then hands it out twice and none of the others. */
  method AddedAgain(t: Tx, u: Tx, v: Tx, w: Tx) returns (drop: seq<Tx>)
    requires Cheaper(t, u) && Cheaper(t, v) && Cheaper(t, w)
    ensures drop == [t, t]
  {
    hide *;
    AllEntered(t, u, v, w);
    var all := map[TxHash(u) := u, TxHash(v) := v, TxHash(w) := w];
    var heap := new TxPricedList();
    heap.Put(t);
    heap.Put(u);
    heap.Put(v);
    heap.Put(w);
    heap.Removed(all);
    heap.Put(t);
    ghost var entries := heap.items;
    drop := heap.Discard(all[TxHash(t) := t], 2, {});
    EnteredTwice(Candidates(entries, all[TxHash(t) := t], {}), t, drop);
  }
}
