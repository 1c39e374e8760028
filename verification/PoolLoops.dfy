/** The loops of the transaction pool (core/tx_pool.go), step by step: what holds while one of them runs, and what each of
    its turns adds. */
module PoolLoops {
  import opened Transactions
  import opened SortedMap
  import opened TxLists
  import opened PricedLists
  import opened PoolBooks
  import opened PoolSteps
  import opened PoolAdmission
  import opened PoolPromotion
  import opened PoolDemotion
  import opened PoolFairness
  import opened PoolPasses
  import opened PoolResets

  datatype Config = Config(priceBump: nat, accountSlots: nat, globalSlots: nat, accountQueue: nat, globalQueue: nat)

  lemma WellKeyedLess(all: Lookup, gone: set<TxHash>)
    requires WellKeyed(all)
    ensures WellKeyed(all - gone)
  {
  }

  lemma ForgetMore(all: Lookup, gone: set<Tx>, t: Tx)
    ensures all - Hashes(gone) - {TxHash(t)} == all - Hashes(gone + {t})
  {
    assert Hashes(gone + {t}) == Hashes(gone) + {TxHash(t)};
  }

  lemma KeepsLiveChain(i0: multiset<Tx>, i1: multiset<Tx>, i2: multiset<Tx>, all1: Lookup, all2: Lookup)
    requires KeepsLive(i0, i1, all1) && KeepsLive(i1, i2, all2)
    requires forall t | Live(all2, t) :: Live(all1, t)
    ensures KeepsLive(i0, i2, all2)
  {
  }

  lemma KeepsLiveMore(i0: multiset<Tx>, i1: multiset<Tx>, i2: multiset<Tx>, all: Lookup)
    requires KeepsLive(i0, i1, all) && KeepsLive(i1, i2, all)
    ensures KeepsLive(i0, i2, all)
  {
  }

  lemma LessLive(all: Lookup, gone: set<TxHash>)
    ensures forall t | Live(all - gone, t) :: Live(all, t)
  {
  }

  lemma NotThere(b: Books, st: ChainState, h: TxHash)
    requires h !in b.all
    ensures Removed(b, st, h.of) == b
  {
  }

  lemma CoherentTable(b: Books)
    requires Coherent(b, {})
    ensures WellKeyed(b.all)
  {
  }

  /** Live transactions of account `a` whose nonces the lists do not hold. */
  ghost predicate Unlisted(m: Lists, all: Lookup, a: Address, txs: map<nat, Tx>) {
    FiledAt(txs, a) && forall n | n in txs :: !Slot(m, a, n) && Live(all, txs[n])
  }

  lemma RemovalReady(b: Books, st: ChainState, tx: Tx)
    requires Coherent(b, {}) && Live(b.all, tx) && Slot(b.pending, tx.from, tx.nonce)
    ensures Unlisted(b.queue, b.all - Hashes({tx}), tx.from, From(b.pending[tx.from], tx.nonce + 1))
  {
    var later := From(b.pending[tx.from], tx.nonce + 1);
    forall n | n in later ensures !Slot(b.queue, tx.from, n) && Live(b.all - Hashes({tx}), later[n]) {
      assert Slot(b.pending, tx.from, n) && Holds(b.pending, later[n]);
    }
  }

  /** What the two kinds of removal come to. */
  lemma RemovalKinds(b: Books, st: ChainState, tx: Tx)
    requires Coherent(b, {}) && Live(b.all, tx)
    ensures var a, n, all := tx.from, tx.nonce, b.all - Hashes({tx});
            if a in b.pending && n in b.pending[a]
            then && Unlisted(b.queue, all, a, From(b.pending[a], n + 1))
                 && Removed(b, st, tx) ==
                      Books(Tidy(Take(b.pending, a, From(b.pending[a], n)), a),
                            Put(b.queue, a, From(b.pending[a], n + 1)), all,
                            if VirtualNonce(st, b.virtuals, a) > n then b.virtuals[a := n] else b.virtuals)
            else a in b.queue &&
                 Removed(b, st, tx) == Books(b.pending, Tidy(Take(b.queue, a, map[n := tx]), a), all, b.virtuals)
  {
    hide Tidy, Take, Put, Hashes, From, Coherent, Unlisted;
    if Slot(b.pending, tx.from, tx.nonce) {
      RemovalReady(b, st, tx);
    } else {
      QueuedThere(b, tx);
    }
  }

  lemma CutKeepsBelow(m: Lists, a: Address, n: nat)
    requires a in m
    ensures m[a := Below(m[a], n)] == Take(m, a, From(m[a], n))
  {
    assert m[a] - From(m[a], n).Keys == Below(m[a], n);
  }

  lemma OneHash(all: Lookup, h: TxHash)
    requires WellKeyed(all) && h in all
    ensures all[h] == h.of && all - {h} == all - Hashes({h.of}) && WellKeyed(all - {h})
    ensures Live(all, h.of)
  {
    assert Hashes({h.of}) == {h};
  }

  lemma RemoveOneQueued(m: Lists, tx: Tx)
    requires tx.from in m
    ensures m[tx.from := m[tx.from] - {tx.nonce}] == Take(m, tx.from, map[tx.nonce := tx])
  {
    assert m[tx.from] - {tx.nonce} == m[tx.from] - map[tx.nonce := tx].Keys;
  }

  lemma NotQueued(b: Books, st: ChainState, locals: set<Address>, cap: nat, a: Address)
    requires a !in b.queue
    ensures Promoted(b, st, locals, cap, a) == b
  {
  }

  lemma KeptTake(b: Books, st: ChainState, locals: set<Address>, cap: nat, a: Address)
    requires Filed(b.queue) && a in b.queue
    ensures Take(b.queue, a, Leaving(b, st, locals, cap, a)) == b.queue[a := Retained(b, st, locals, cap, a)]
  {
    PartsOf(b, st, locals, cap, a);
    hide Retained, Current, Executable;
    CutBack(b.queue[a], Retained(b, st, locals, cap, a));
  }

  /** Dropping other parts of a list from the table leaves this part in it. */
  lemma SurviveDrops(all: Lookup, l: map<nat, Tx>, a: Address, txs: map<nat, Tx>, x: map<nat, Tx>, y: map<nat, Tx>)
    requires FiledAt(l, a) && PartOf(txs, l) && PartOf(x, l) && PartOf(y, l)
    requires forall n | n in txs :: n !in x && n !in y && Live(all, txs[n])
    ensures forall n | n in txs :: Live(all - Hashes(Values(x)) - Hashes(Values(y)), txs[n])
  {
    forall n | n in txs ensures txs[n] !in Values(x) && txs[n] !in Values(y) {
    }
  }

  lemma RunUnlisted(b: Books, st: ChainState, a: Address)
    requires Coherent(b, {}) && a in b.queue
    ensures var l := b.queue[a];
            var past, cur := Below(l, NonceOf(st, a)), From(l, NonceOf(st, a));
            var bad := Unpayable(cur, BalanceOf(st, a), st.gasLimit);
            Unlisted(b.pending, b.all - Hashes(Values(past)) - Hashes(Values(bad)), a, Executable(b, st, a))
  {
    var l, run := b.queue[a], Executable(b, st, a);
    var past, cur := Below(l, NonceOf(st, a)), From(l, NonceOf(st, a));
    var bad := Unpayable(cur, BalanceOf(st, a), st.gasLimit);
    assert FiledAt(l, a);
    PartsOf(b, st, {}, 0, a);
    CurrentPart(l, st, a);
    UnpayableKeys(l, st, a);
    ExecutableFacts(b, st, a);
    hide Executable, Retained, Current, Unpayable;
    assert PartOf(run, l) && FiledAt(run, a) && PartOf(past, l);
    forall n | n in run ensures Live(b.all, run[n]) && n !in past && n !in bad {
      assert Holds(b.queue, run[n]);
    }
    hide Coherent, FiledAt, PartOf, Below;
    SurviveDrops(b.all, l, a, run, past, bad);
  }

  lemma HashesOfThree(all: Lookup, x: set<Tx>, y: set<Tx>, z: set<Tx>)
    ensures all - Hashes(x + y + z) == all - Hashes(x) - Hashes(y) - Hashes(z)
  {
    assert Hashes(x + y + z) == Hashes(x) + Hashes(y) + Hashes(z);
  }

  /** What promoting one account comes to, step by step. */
  lemma PromotePlan(b: Books, st: ChainState, locals: set<Address>, cap: nat, a: Address)
    requires Coherent(b, {}) && a in b.queue
    ensures var l := b.queue[a];
            var past, cur := Below(l, NonceOf(st, a)), From(l, NonceOf(st, a));
            var bad, m := Unpayable(cur, BalanceOf(st, a), st.gasLimit), Payable(cur, BalanceOf(st, a), st.gasLimit);
            var run, waiting := ReadyRun(m, VirtualNonce(st, b.virtuals, a)), NotReady(m, VirtualNonce(st,
                                         b.virtuals, a));
            var all := b.all - Hashes(Values(past)) - Hashes(Values(bad));
            && WellKeyed(b.all) && Unlisted(b.pending, all, a, run)
            && Promoted(b, st, locals, cap, a) ==
                 Books(Put(b.pending, a, run),
                       Tidy(b.queue[a := if a in locals then waiting else Lowest(waiting, cap)], a),
                       if a in locals then all else all - Hashes(Values(Excess(waiting, cap))),
                       RaisedVirtuals(b.virtuals, a, run))
  {
    var l := b.queue[a];
    var past, cur := Below(l, NonceOf(st, a)), From(l, NonceOf(st, a));
    var bad, over := Unpayable(cur, BalanceOf(st, a), st.gasLimit), Over(b, st, locals, cap, a);
    PromotedIs(b, st, locals, cap, a);
    LostParts(b, st, locals, cap, a);
    KeptTake(b, st, locals, cap, a);
    RunUnlisted(b, st, a);
    HashesOfThree(b.all, Values(past), Values(bad), Values(over));
    assert Hashes(Values(map[])) == {};
    hide Promoted, Put, Tidy, Take, Below, From, ReadyRun, NotReady, Lowest, Unlisted, RaisedVirtuals, Lost, Hashes, Values;
  }

  lemma HashesOfTwo(all: Lookup, x: set<Tx>, y: set<Tx>)
    ensures all - Hashes(x + y) == all - Hashes(x) - Hashes(y)
  {
    assert Hashes(x + y) == Hashes(x) + Hashes(y);
  }

  lemma DemotePartsAre(l: map<nat, Tx>, st: ChainState, a: Address)
    ensures Payables(l, st, a) == Kept(From(l, NonceOf(st, a)), true, BalanceOf(st, a), st.gasLimit)
    ensures StrandedBehind(l, st, a) == Stranded(From(l, NonceOf(st, a)), true, BalanceOf(st, a), st.gasLimit)
    ensures Firm(l, st, a) == if NonceOf(st, a) in Payables(l, st, a) then Payables(l, st, a) else map[]
    ensures Postponed(l, st, a) ==
              if NonceOf(st, a) in Payables(l, st, a) then StrandedBehind(l, st, a) else StrandedBehind(l, st, a) + Payables(l, st, a)
  {
    hide From, Kept, Stranded;
  }

  lemma FirmPart(l: map<nat, Tx>, st: ChainState, a: Address)
    requires FiledAt(l, a)
    ensures PartOf(Firm(l, st, a), l)
  {
    hide *;
    DemotedParts(l, st, a);
  }

  lemma FirmTake(m: Lists, a: Address, firm: map<nat, Tx>)
    requires a in m && PartOf(firm, m[a])
    ensures Take(m, a, m[a] - firm.Keys) == m[a := firm]
  {
    CutBack(m[a], firm);
  }

  lemma PutTwice(m: Lists, a: Address, x: map<nat, Tx>, y: map<nat, Tx>)
    ensures Put(Put(m, a, x), a, y) == Put(m, a, x + y)
  {
    if y == map[] {
      assert x + y == x;
    } else if x == map[] {
      assert x + y == y;
    } else {
      var k :| k in y;
      assert k in x + y;
      assert ListOf(m, a) + x + y == ListOf(m, a) + (x + y);
    }
  }

  lemma StrandedPayable(l: map<nat, Tx>, st: ChainState, a: Address)
    requires FiledAt(l, a)
    ensures forall n: nat | n in StrandedBehind(l, st, a) :: n in l && n >= NonceOf(st, a) && CanPay(st, l[n])
  {
    UnpayableKeys(l, st, a);
    hide MinKey;
  }

  lemma PostponedPayable(l: map<nat, Tx>, st: ChainState, a: Address)
    requires FiledAt(l, a)
    ensures forall n: nat | n in Postponed(l, st, a) :: n in l && n >= NonceOf(st, a) && CanPay(st, l[n])
  {
    PayablesPart(l, st, a);
    StrandedPayable(l, st, a);
    hide Payables, StrandedBehind;
  }

  lemma DemoteLostKeys(l: map<nat, Tx>, st: ChainState, a: Address)
    requires FiledAt(l, a)
    ensures var past, cur := Below(l, NonceOf(st, a)), From(l, NonceOf(st, a));
            var bad, lost := Unpayable(cur, BalanceOf(st, a), st.gasLimit), (l - Firm(l, st, a).Keys) - Postponed(l, st, a).Keys;
            && PartOf(past, lost) && PartOf(bad, lost)
            && forall n: nat :: n in lost <==> n in past || n in bad
  {
    hide Firm, Postponed, Unpayable, CanPay, FiledAt;
    DemotedParts(l, st, a);
    UnpayableKeys(l, st, a);
    PostponedPayable(l, st, a);
  }

  /** What demotion loses is what is too old or unpayable. */
  lemma DemoteLost(l: map<nat, Tx>, st: ChainState, a: Address)
    requires FiledAt(l, a)
    ensures var past, cur := Below(l, NonceOf(st, a)), From(l, NonceOf(st, a));
            Values((l - Firm(l, st, a).Keys) - Postponed(l, st, a).Keys) ==
              Values(past) + Values(Unpayable(cur, BalanceOf(st, a), st.gasLimit))
  {
    var past, cur := Below(l, NonceOf(st, a)), From(l, NonceOf(st, a));
    var bad, lost := Unpayable(cur, BalanceOf(st, a), st.gasLimit), (l - Firm(l, st, a).Keys) - Postponed(l, st, a).Keys;
    DemoteLostKeys(l, st, a);
    hide Firm, Postponed, Unpayable, Below, From;
    ThreeParts(lost, past, bad, map[]);
    assert Values(map[]) == {};
  }

  lemma DemoteUnlisted(b: Books, st: ChainState, a: Address)
    requires Coherent(b, {}) && a in b.pending
    ensures var l := b.pending[a];
            var past, cur := Below(l, NonceOf(st, a)), From(l, NonceOf(st, a));
            var bad := Unpayable(cur, BalanceOf(st, a), st.gasLimit);
            var all := b.all - Hashes(Values(past)) - Hashes(Values(bad));
            && Unlisted(b.queue, all, a, StrandedBehind(l, st, a))
            && Unlisted(Put(b.queue, a, StrandedBehind(l, st, a)), all, a, Payables(l, st, a))
  {
    var l := b.pending[a];
    var past, cur := Below(l, NonceOf(st, a)), From(l, NonceOf(st, a));
    var bad := Unpayable(cur, BalanceOf(st, a), st.gasLimit);
    var keep, back := Payables(l, st, a), StrandedBehind(l, st, a);
    assert FiledAt(l, a);
    PayablesPart(l, st, a);
    StrandedPayable(l, st, a);
    UnpayableKeys(l, st, a);
    hide Payables, StrandedBehind, Unpayable;
    assert PartOf(past, l) && FiledAt(keep, a) && FiledAt(back, a);
    forall n: nat | n in keep || n in back ensures !Slot(b.queue, a, n) && Live(b.all, l[n]) && n !in past && n !in bad {
      assert Slot(b.pending, a, n) && Holds(b.pending, l[n]);
    }
    hide Coherent, Below;
    PutSlots(b.queue, a, back);
    SurviveDrops(b.all, l, a, keep, past, bad);
    SurviveDrops(b.all, l, a, back, past, bad);
  }

  /** What demoting one account comes to, step by step. */
  lemma DemotePlan(b: Books, st: ChainState, a: Address)
    requires Coherent(b, {}) && a in b.pending
    ensures var l := b.pending[a];
            var past, cur := Below(l, NonceOf(st, a)), From(l, NonceOf(st, a));
            var bad := Unpayable(cur, BalanceOf(st, a), st.gasLimit);
            var keep, back := Kept(cur, true, BalanceOf(st, a), st.gasLimit), Stranded(cur, true, BalanceOf(st, a),
                                   st.gasLimit);
            var all, gap := b.all - Hashes(Values(past)) - Hashes(Values(bad)), NonceOf(st, a) !in keep;
            && WellKeyed(b.all) && Unlisted(b.queue, all, a, back)
            && Unlisted(Put(b.queue, a, back), all, a, keep)
            && Demoted(b, st, a) ==
                 Books(Tidy(b.pending[a := if gap then map[] else keep], a),
                       if gap then Put(Put(b.queue, a, back), a, keep) else Put(b.queue, a, back), all, b.virtuals)
  {
    var l := b.pending[a];
    assert FiledAt(l, a) && l == ListOf(b.pending, a) && WellKeyed(b.all);
    DemotePartsAre(l, st, a);
    hide *;
    DemotedIs(b, st, a, l);
    FirmPart(l, st, a);
    FirmTake(b.pending, a, Firm(l, st, a));
    DemoteLost(l, st, a);
    HashesOfTwo(b.all, Values(Below(l, NonceOf(st, a))),
                Values(Unpayable(From(l, NonceOf(st, a)), BalanceOf(st, a), st.gasLimit)));
    DemoteUnlisted(b, st, a);
    PutTwice(b.queue, a, StrandedBehind(l, st, a), Payables(l, st, a));
  }

  lemma CutTopVirtual(b: Books, st: ChainState, a: Address)
    requires a in b.pending && b.pending[a] != map[]
    ensures var hi := MaxKey(b.pending[a]);
            CutTop(b, st, a).virtuals == if VirtualNonce(st, b.virtuals, a) > hi then b.virtuals[a := hi] else b.virtuals
  {
  }

  lemma NoMembers(s: seq<Address>)
    ensures Members(s[..0]) == {}
  {
  }

  lemma RemoteMember(accounts: set<Address>, p0: Lists, locals: set<Address>, atLeast: nat, a: Address)
    requires Remote(accounts, p0, locals, atLeast) && a in accounts
    ensures a in p0 && a !in locals && |p0[a]| >= atLeast
  {
  }

  lemma NotBefore(s: seq<Address>, i: nat)
    requires i < |s| && Distinct(s)
    ensures s[i] !in Members(s[..i])
  {
  }

  lemma OffenderReady(p: Lists, p0: Lists, locals: set<Address>, level: nat, offenders: seq<Address>, i: nat)
    requires i < |offenders| && AtLevel(p, p0, locals, level, Members(offenders[..i]))
    requires Distinct(offenders) && Remote(Members(offenders), p0, locals, level) && level >= 1
    ensures var a := offenders[i];
            && a in p && a !in locals && a !in Members(offenders[..i]) && p[a] != map[] && |p[a]| == level
            && Members(offenders[..i]) + {a} == Members(offenders[..i + 1])
  {
    hide AtLevel, Remote;
    var a := offenders[i];
    assert a in Members(offenders);
    assert offenders[..i + 1] == offenders[..i] + [a];
    MembersMore(offenders[..i], a);
    NotBefore(offenders, i);
    hide Members, Distinct;
    RemoteMember(Members(offenders), p0, locals, level, a);
    ReachesLevel(p, p0, locals, level, Members(offenders[..i]), a);
  }

  /** The priority queue: an account with the longest list. */
  method PopTallest(spammers: set<Address>, lists: Lists) returns (tallest: Address)
    requires spammers != {} && spammers <= lists.Keys
    ensures tallest in spammers && forall x | x in spammers :: |lists[x]| <= |lists[tallest]|
  {
    tallest :| tallest in spammers;
    var todo := spammers;
    while todo != {}
      invariant tallest in spammers && todo <= spammers
      invariant forall x | x in spammers && x !in todo :: |lists[x]| <= |lists[tallest]|
    {
      var x :| x in todo;
      if |lists[x]| > |lists[tallest]| {
        tallest := x;
      }
      todo := todo - {x};
    }
  }

  lemma NoneLeft()
    ensures Total(map[]) == 0
  {
  }

  method CountLists(m: Lists) returns (count: nat)
    ensures count == Total(m)
  {
    hide *;
    count := 0;
    var todo := m;
    while todo != map[]
      invariant count + Total(todo) == Total(m)
      decreases |todo|
    {
      var a :| a in todo;
      TotalSplit(todo, a);
      assert (todo - {a}).Keys == todo.Keys - {a};
      count, todo := count + |todo[a]|, todo - {a};
    }
    NoneLeft();
  }

  lemma OffendersAtLevel(p: Lists, p0: Lists, locals: set<Address>, slots: nat, limit: nat,
                         offenders: seq<Address>, others: set<Address>, level: nat)
    requires Equalizing(p, p0, locals, slots, limit, offenders, others, level) && Total(p) > limit && offenders != []
    ensures AtLevel(p, p0, locals, level, {}) && Distinct(offenders) && Remote(Members(offenders), p0, locals, level)
    ensures |ListOf(p, offenders[|offenders| - 1])| == level
  {
    var a := offenders[|offenders| - 1];
    assert a in Members(offenders);
    hide AtLevel, Total, Leveled, Members, Remote, OthersBelow;
    RemoteMember(Members(offenders), p0, locals, level, a);
    ReachesLevel(p, p0, locals, level, {}, a);
  }

  lemma SpammersListed(p: Lists, p0: Lists, locals: set<Address>, slots: nat, limit: nat,
                       offenders: seq<Address>, spammers: set<Address>, level: nat)
    requires Equalizing(p, p0, locals, slots, limit, offenders, spammers, level)
    ensures forall a | a in spammers :: a in p && a in p0 && p[a] == p0[a] && slots <= |p0[a]| <= level
  {
    forall a | a in spammers ensures a in p && a in p0 && p[a] == p0[a] && slots <= |p0[a]| <= level {
      assert a in Members(offenders) + spammers;
    }
  }

  lemma LevelAboveSlots(p: Lists, p0: Lists, locals: set<Address>, slots: nat, limit: nat,
                        offenders: seq<Address>, spammers: set<Address>, level: nat)
    requires Equalizing(p, p0, locals, slots, limit, offenders, spammers, level)
    ensures slots <= level
  {
    hide AtLevel, Total, Leveled, Members, Remote, OthersBelow;
  }

  /** Of the lists only that of account `a` changed: it lost its `k` highest transactions. */
  ghost predicate OnlyShorter(q: Lists, q': Lists, a: Address, k: nat) {
    && NoEmpty(q') && a in q && k <= |q[a]|
    && ListOf(q', a) == Lowest(q[a], |q[a]| - k) && |ListOf(q', a)| == |q[a]| - k
    && (forall x | x != a :: ListOf(q', x) == ListOf(q, x) && (x in q' <==> x in q))
    && Total(q') + k == Total(q)
  }

  /** Every list is a lower part of what it was. */
  ghost predicate ShrunkLists(q: Lists, q': Lists) {
    forall a :: a in q' ==> a in q && |q'[a]| <= |q[a]| && q'[a].Keys <= q[a].Keys
  }

  lemma ShrunkRefl(q: Lists)
    ensures ShrunkLists(q, q)
  {
  }

  lemma ShrunkTrans(q: Lists, q': Lists, q'': Lists)
    requires ShrunkLists(q, q') && ShrunkLists(q', q'')
    ensures ShrunkLists(q, q'')
  {
  }

  lemma ShorterNone(q: Lists, a: Address)
    requires NoEmpty(q) && a in q
    ensures OnlyShorter(q, q, a, 0)
  {
  }

  lemma StillListed(q: Lists, q': Lists, a: Address, k: nat)
    requires OnlyShorter(q, q', a, k) && k < |q[a]|
    ensures a in q' && q'[a] != map[]
  {
  }

  lemma TakeOne(q: Lists, a: Address, n: nat)
    requires a in q && n in q[a]
    ensures Take(q, a, map[n := q[a][n]]) == q[a := q[a] - {n}]
    ensures q[a] - map[n := q[a][n]].Keys == q[a] - {n}
  {
    assert q[a] - map[n := q[a][n]].Keys == q[a] - {n};
  }

  lemma ShorterParts(q: Lists, q': Lists, a: Address, k: nat)
    requires OnlyShorter(q, q', a, k)
    ensures NoEmpty(q') && a in q && k <= |q[a]|
    ensures a in q' ==> q'[a] == Lowest(q[a], |q[a]| - k) && |q'[a]| == |q[a]| - k
    ensures forall x | x != a :: ListOf(q', x) == ListOf(q, x) && (x in q' <==> x in q)
    ensures Total(q') + k == Total(q)
  {
    hide Lowest, Total;
  }

  lemma ShorterWhole(q: Lists, q': Lists, a: Address, k: nat)
    requires NoEmpty(q') && a in q && k <= |q[a]|
    requires ListOf(q', a) == Lowest(q[a], |q[a]| - k) && |ListOf(q', a)| == |q[a]| - k
    requires forall x | x != a :: ListOf(q', x) == ListOf(q, x) && (x in q' <==> x in q)
    requires Total(q') + k == Total(q)
    ensures OnlyShorter(q, q', a, k)
  {
    hide Lowest, Total;
  }

  lemma OffTheTop(l: map<nat, Tx>, n: nat)
    requires l != map[] && n == MaxKey(l)
    ensures Lowest(l, |l| - 1) == l - {n} && |l - {n}| == |l| - 1
  {
    assert (l - {n}).Keys == l.Keys - {n};
  }

  lemma TidyTotal(q: Lists, a: Address, l: map<nat, Tx>)
    requires a in q
    ensures Total(Tidy(q[a := l], a)) == Total(q) - |q[a]| + |l|
  {
    TotalUpdate(q, a, l);
    if l == map[] {
      TotalSplit(q[a := l], a);
    }
  }

  lemma TidyNoEmpty(q: Lists, a: Address, gone: map<nat, Tx>)
    requires NoEmpty(q)
    ensures NoEmpty(Tidy(Take(q, a, gone), a))
  {
  }

  lemma ShorterMore(q: Lists, q': Lists, a: Address, k: nat, n: nat)
    requires OnlyShorter(q, q', a, k) && k < |q[a]| && a in q' && q'[a] != map[] && n == MaxKey(q'[a])
    ensures OnlyShorter(q, Tidy(Take(q', a, map[n := q'[a][n]]), a), a, k + 1)
  {
    hide *;
    ShorterParts(q, q', a, k);
    var l, l' := q[a], q'[a];
    var one := map[n := l'[n]];
    LowestOfLowest(l, |l| - k - 1, |l| - k);
    OffTheTop(l', n);
    TakeTidied(q', a, one);
    TakeOne(q', a, n);
    TidyTotal(q', a, l' - {n});
    TidyNoEmpty(q', a, one);
    ShorterWhole(q, Tidy(Take(q', a, one), a), a, k + 1);
  }

  lemma ShorterFacts(q: Lists, q': Lists, a: Address, k: nat)
    requires OnlyShorter(q, q', a, k)
    ensures NoEmpty(q') && ShrunkLists(q, q') && Total(q') == Total(q) - k
    ensures q'.Keys == if k == |q[a]| then q.Keys - {a} else q.Keys
  {
    hide Lowest, Total;
    assert a in q' <==> k != |q[a]|;
    assert forall x | x != a :: x in q' <==> x in q;
    forall x | x in q' ensures x in q && |q'[x]| <= |q[x]| && q'[x].Keys <= q[x].Keys {
      assert q'[x] == ListOf(q', x);
    }
  }

  lemma ShorterGone(q: Lists, q': Lists, a: Address, k: nat)
    requires OnlyShorter(q, q', a, k) && a in q && k == |q[a]| && q'.Keys == q.Keys - {a}
    ensures q' == q - {a}
  {
    hide Lowest, Total;
    forall x | x in q' ensures q'[x] == q[x] {
      assert ListOf(q', x) == ListOf(q, x);
    }
  }

  lemma WholeList(q: Lists, x: Address)
    ensures ListOf(q, x) == Lowest(ListOf(q, x), |ListOf(q, x)|)
  {
    WholeLowest(ListOf(q, x));
  }

  lemma ShorterLower(q0: Lists, q: Lists, q': Lists, locals: set<Address>, a: Address, k: nat)
    requires LowerParts(q0, q, locals) && OnlyShorter(q, q', a, k) && a !in locals
    ensures LowerParts(q0, q', locals)
  {
    hide Lowest, Total;
    forall x ensures ListOf(q', x) == Lowest(ListOf(q, x), |ListOf(q', x)|) && |ListOf(q', x)| <= |ListOf(q, x)| {
      if x != a { WholeList(q, x); }
    }
    assert LowerParts(q, q', locals);
    LowerTrans(q0, q, q', locals);
  }

  lemma TrimsNothing(q: Lists, locals: set<Address>, limit: nat)
    ensures Total(q) <= limit ==> Trimmed(q, q, locals, limit)
  {
    LowerRefl(q, locals);
  }

  /** The trimming so far: `drop` more transactions have to go, and the remote accounts left are `addresses`. */
  ghost predicate Trimming(q0: Lists, q: Lists, locals: set<Address>, addresses: set<Address>, limit: nat, drop: nat) {
    && NoEmpty(q) && ShrunkLists(q0, q) && LowerParts(q0, q, locals) && Total(q0) > limit
    && Total(q) == limit + drop && addresses <= q.Keys && addresses !! locals
    && (drop > 0 ==> q.Keys <= locals + addresses)
  }

  lemma TrimmingStarts(q: Lists, locals: set<Address>, limit: nat)
    requires NoEmpty(q) && Total(q) > limit
    ensures Trimming(q, q, locals, q.Keys - locals, limit, Total(q) - limit)
  {
    hide Total, LowerParts;
    LowerRefl(q, locals);
  }

  lemma TrimmingIs(q0: Lists, q: Lists, locals: set<Address>, addresses: set<Address>, limit: nat, drop: nat)
    requires Trimming(q0, q, locals, addresses, limit, drop)
    ensures addresses <= q.Keys && addresses !! locals
  {
  }

  lemma TrimmingOn(q0: Lists, q: Lists, q': Lists, locals: set<Address>, addresses: set<Address>, limit: nat,
                   drop: nat, a: Address, k: nat)
    requires Trimming(q0, q, locals, addresses, limit, drop) && a in addresses && a in q && OnlyShorter(q, q', a, k)
    requires drop > 0
    requires k == if |q[a]| <= drop then |q[a]| else drop
    ensures NoEmpty(q') && Trimming(q0, q', locals, addresses - {a}, limit, drop - k)
  {
    hide Total, LowerParts, OnlyShorter, ShrunkLists, NoEmpty;
    ShorterFacts(q, q', a, k);
    ShrunkTrans(q0, q, q');
    ShorterLower(q0, q, q', locals, a, k);
  }

  lemma TrimmingDone(q0: Lists, q: Lists, locals: set<Address>, addresses: set<Address>, limit: nat, drop: nat)
    requires Trimming(q0, q, locals, addresses, limit, drop) && (drop == 0 || addresses == {})
    ensures ShrunkLists(q0, q) && Trimmed(q0, q, locals, limit) && (Total(q) <= limit || q.Keys <= locals)
  {
    hide Total, LowerParts, ShrunkLists, NoEmpty;
    if drop > 0 {
      assert locals + addresses == locals;
    }
  }

  lemma QueuedRemoval(b: Books, st: ChainState, a: Address, n: nat)
    requires Coherent(b, {}) && a in b.queue && n in b.queue[a]
    ensures var tx := b.queue[a][n];
            && tx.from == a && Live(b.all, tx)
            && Removed(b, st, tx).queue == Tidy(Take(b.queue, a, map[n := tx]), a)
            && Removed(b, st, tx).pending == b.pending && Removed(b, st, tx).virtuals == b.virtuals
  {
    var tx := b.queue[a][n];
    assert Slot(b.queue, a, n) && Holds(b.queue, tx);
    assert !Slot(b.pending, a, n);
    hide Tidy, Take, Hashes;
  }

  ghost predicate SettledIn(b: Books, st: ChainState, accounts: set<Address>) {
    forall a | a in accounts :: SettledAt(b, st, a)
  }

  ghost predicate CappedIn(queue: Lists, accounts: set<Address>, locals: set<Address>, cap: nat) {
    forall a | a in accounts && a !in locals :: |ListOf(queue, a)| <= cap
  }

  /** The pending total fits, or every remote sender is down to its guaranteed slots. */
  ghost predicate WithinSlots(pending: Lists, locals: set<Address>, slots: nat, limit: nat) {
    Total(pending) <= limit || forall a | a in pending && a !in locals :: |pending[a]| <= slots
  }

  /** The given remote accounts are within their cap; the queued total fits, or only locals are queued. */
  ghost predicate WithinQueue(queue: Lists, accounts: set<Address>, locals: set<Address>, cap: nat, limit: nat) {
    CappedIn(queue, accounts, locals, cap) && (Total(queue) <= limit || queue.Keys <= locals)
  }

  /** No list got longer. */
  ghost predicate NoLonger(p: Lists, p': Lists) {
    forall a :: |ListOf(p', a)| <= |ListOf(p, a)|
  }

  lemma NoLongerRefl(p: Lists)
    ensures NoLonger(p, p)
  {
  }

  lemma NoLongerTrans(p: Lists, p': Lists, p'': Lists)
    requires NoLonger(p, p') && NoLonger(p', p'')
    ensures NoLonger(p, p'')
  {
    hide ListOf;
    forall a ensures |ListOf(p'', a)| <= |ListOf(p, a)| {
      assert |ListOf(p', a)| <= |ListOf(p, a)|;
    }
  }

  lemma {:induction false} TotalNoLonger(p: Lists, p': Lists)
    requires NoLonger(p, p')
    ensures Total(p') <= Total(p)
    decreases |p'|
  {
    if p' != map[] {
      var a :| a in p';
      TotalSplit(p', a);
      assert |ListOf(p', a)| <= |ListOf(p, a)|;
      var rest, rest' := p - {a}, p' - {a};
      assert rest'.Keys == p'.Keys - {a};
      forall x ensures |ListOf(rest', x)| <= |ListOf(rest, x)| {
        assert |ListOf(p', x)| <= |ListOf(p, x)|;
      }
      TotalNoLonger(rest, rest');
      if a in p {
        TotalSplit(p, a);
      } else {
        assert rest == p;
      }
    }
  }

  /** Pending lists that did not grow, with at least the same local senders, stay within the limit. */
  lemma StaysWithin(p: Lists, p': Lists, locals: set<Address>, locals': set<Address>, slots: nat, limit: nat)
    requires NoLonger(p, p') && locals <= locals'
    ensures WithinSlots(p, locals, slots, limit) ==> WithinSlots(p', locals', slots, limit)
  {
    TotalNoLonger(p, p');
    forall a | a in p' && a !in locals' ensures |p'[a]| <= |ListOf(p, a)| {
      assert |ListOf(p', a)| <= |ListOf(p, a)|;
    }
    hide Total;
  }

  lemma LessSize(l: map<nat, Tx>, gone: map<nat, Tx>)
    ensures |l - gone.Keys| <= |l|
  {
    var less := l - gone.Keys;
    assert less.Keys <= l.Keys;
    assert l.Keys == less.Keys + (l.Keys - less.Keys);
    assert |less.Keys| == |less| && |l.Keys| == |l|;
  }

  lemma RemovedNoLonger(b: Books, st: ChainState, tx: Tx)
    ensures NoLonger(b.pending, Removed(b, st, tx).pending)
  {
    var a, n := tx.from, tx.nonce;
    if Live(b.all, tx) && Slot(b.pending, a, n) {
      TakeTidied(b.pending, a, From(b.pending[a], n));
      LessSize(b.pending[a], From(b.pending[a], n));
      hide Tidy, Take, From;
    }
  }

  lemma FairCutFits(before: Lists, after: Lists, locals: set<Address>, slots: nat, limit: nat)
    requires FairCut(before, after, locals, slots, limit)
    ensures WithinSlots(after, locals, slots, limit)
  {
    var level := FairCutMeans(before, after, locals, slots, limit);
  }

  lemma SparedAnyway(p: Lists, locals: set<Address>, slots: nat, limit: nat)
    ensures slots >= 1 ==> SparesAll(p, locals, slots, limit)
  {
  }

  /** Trimming the queue moves no virtual nonce. */
  lemma RolledStill(b: Books, b': Books, b'': Books, st: ChainState)
    requires RolledBack(b, b', st) && b''.pending == b'.pending && b''.virtuals == b'.virtuals
    ensures RolledBack(b, b'', st)
  {
    hide RolledTo;
    forall a ensures RolledAt(b, b'', st, a) {
      assert RolledAt(b, b', st, a);
    }
  }

  lemma FitsAlready(pending: Lists, locals: set<Address>, slots: nat, limit: nat)
    requires Total(pending) <= limit
    ensures WithinSlots(pending, locals, slots, limit)
  {
  }

  lemma KeysSize(all: Lookup)
    ensures |all.Keys| == |all|
  {
  }

  lemma {:induction false} ValuesSize(l: map<nat, Tx>, a: Address)
    requires FiledAt(l, a)
    ensures |Values(l)| == |l|
    decreases |l|
  {
    if l != map[] {
      var n :| n in l;
      var rest := l - {n};
      assert rest.Keys == l.Keys - {n};
      ValuesSize(rest, a);
      forall t ensures t in Values(l) <==> t in Values(rest) || t == l[n] {
        if t in Values(l) && t != l[n] {
          var k :| k in l && l[k] == t;
          assert k in rest && rest[k] == t;
        }
      }
      assert Values(l) == Values(rest) + {l[n]};
      assert l[n] !in Values(rest);
    }
  }

  lemma {:induction false} HashesSize(s: set<Tx>)
    ensures |Hashes(s)| == |s|
    decreases |s|
  {
    if s != {} {
      var t :| t in s;
      HashesSize(s - {t});
      assert Hashes(s) == Hashes(s - {t}) + {TxHash(t)};
    }
  }

  lemma OwnHashes(l: map<nat, Tx>, a: Address)
    requires FiledAt(l, a)
    ensures |Hashes(Values(l))| == |l|
    ensures forall h | h in Hashes(Values(l)) :: h.of.from == a && h.of.nonce in l && l[h.of.nonce] == h.of
  {
    HashesSize(Values(l));
    ValuesSize(l, a);
  }

  lemma {:induction false} ListsFit(m: Lists, known: set<TxHash>)
    requires Filed(m) && forall t | Holds(m, t) :: TxHash(t) in known
    ensures Total(m) <= |known|
    decreases |m|
  {
    if m != map[] {
      var a :| a in m;
      var rest, own := m - {a}, Hashes(Values(m[a]));
      OwnHashes(m[a], a);
      TotalSplit(m, a);
      forall t | Holds(rest, t) ensures TxHash(t) in known - own {
        assert Holds(m, t) && t.from != a;
      }
      forall h | h in own ensures h in known {
        assert Holds(m, h.of);
      }
      assert |known - own| == |known| - |own|;
      assert rest.Keys == m.Keys - {a};
      ListsFit(rest, known - own);
    }
  }

  /** There are no more pending transactions than there were transactions before a step that admits none. */
  lemma PendingFits(b: Books, b': Books, st: ChainState, locals: set<Address>)
    requires Coherent(b, {}) && Coherent(b', {}) && Keeps(b, b', st, locals)
    ensures Total(b'.pending) <= |b.all|
  {
    forall t | Holds(b'.pending, t) ensures TxHash(t) in b.all.Keys {
      assert Live(b'.all, t);
      assert Live(b.all, t);
    }
    assert Filed(b'.pending);
    hide *;
    ListsFit(b'.pending, b.all.Keys);
    KeysSize(b.all);
  }

  lemma QueueFits(queue: Lists, accounts: set<Address>, locals: set<Address>, cap: nat, limit: nat)
    requires CappedIn(queue, accounts, locals, cap) && (Total(queue) <= limit || queue.Keys <= locals)
    ensures WithinQueue(queue, accounts, locals, cap, limit)
  {
  }

  lemma SettledStays(b: Books, b': Books, st: ChainState, locals: set<Address>, accounts: set<Address>)
    requires SettledIn(b, st, accounts) && Keeps(b, b', st, locals)
    ensures SettledIn(b', st, accounts)
  {
    hide KeepsOrder, LocalsKept, NothingNew, SettledAt;
  }

  lemma LevelingIs(p: Lists, locals: set<Address>, slots: nat, limit: nat)
    ensures Total(p) <= limit ==> Leveling(p, p, locals, slots, limit)
  {
  }

  lemma LevelingCut(p: Lists, p': Lists, locals: set<Address>, slots: nat, limit: nat)
    requires Total(p) > limit && FairCut(p, p', locals, slots, limit)
    ensures Leveling(p, p', locals, slots, limit)
  {
  }

  lemma ShrunkCapped(q: Lists, q': Lists, accounts: set<Address>, locals: set<Address>, cap: nat)
    requires CappedIn(q, accounts, locals, cap) && ShrunkLists(q, q')
    ensures CappedIn(q', accounts, locals, cap)
  {
  }

  lemma NoAccounts(b: Books, st: ChainState, queue: Lists, locals: set<Address>, cap: nat)
    ensures SettledIn(b, st, {}) && CappedIn(queue, {}, locals, cap)
  {
  }

  lemma CoversAfter(b: Books, b': Books, st: ChainState, locals: set<Address>, items: multiset<Tx>,
                    items': multiset<Tx>)
    requires Covers(items, b.all) && Keeps(b, b', st, locals) && KeepsLive(items, items', b'.all)
    ensures Covers(items', b'.all)
  {
    hide KeepsOrder, LocalsKept, StaySettled;
  }

  lemma OneMoreAccount(b: Books, b': Books, st: ChainState, locals: set<Address>, cap: nat, a: Address,
                       done: set<Address>)
    requires SettledIn(b', st, done) && SettledAt(b', st, a) && CappedIn(b.queue, done, locals, cap)
    requires a !in locals ==> |ListOf(b'.queue, a)| <= cap
    requires forall x | x != a :: ListOf(b'.queue, x) == ListOf(b.queue, x)
    ensures SettledIn(b', st, done + {a}) && CappedIn(b'.queue, done + {a}, locals, cap)
  {
    hide SettledAt;
  }

  lemma NothingWaiting(b: Books, st: ChainState, locals: set<Address>, cap: nat, a: Address, done: set<Address>)
    requires a !in b.queue && SettledIn(b, st, done) && CappedIn(b.queue, done, locals, cap)
    ensures SettledIn(b, st, done + {a}) && CappedIn(b.queue, done + {a}, locals, cap)
  {
  }

  lemma PromotedAllKept(b: Books, st: ChainState, locals: set<Address>, cap: nat, a: Address, done: set<Address>)
    requires Coherent(b, {}) && NoEmpty(b.pending) && NoEmpty(b.queue)
    requires SettledIn(b, st, done) && CappedIn(b.queue, done, locals, cap)
    ensures var b' := Promoted(b, st, locals, cap, a);
            && Coherent(b', {}) && NoEmpty(b'.pending) && NoEmpty(b'.queue) && Keeps(b, b', st, locals)
            && SettledIn(b', st, done + {a}) && CappedIn(b'.queue, done + {a}, locals, cap)
  {
    var b' := Promoted(b, st, locals, cap, a);
    hide *;
    if a in b.queue {
      PromotedCoherent(b, st, locals, cap, a);
      PromotedTidy(b, st, locals, cap, a);
      PromotedKeeps(b, st, locals, cap, a);
      PromotedLoss(b, st, locals, cap, a);
      PromotedElsewhere(b, st, locals, cap, a);
      KeepsFrom(b, b', st, locals);
      SettledStays(b, b', st, locals, done);
      OneMoreAccount(b, b', st, locals, cap, a, done);
    } else {
      NotQueued(b, st, locals, cap, a);
      KeepsRefl(b, st, locals);
      NothingWaiting(b, st, locals, cap, a, done);
    }
  }

  // Demotion of all accounts.

  /** What holds while the accounts `todo` still have to be demoted. */
  ghost predicate Demoting(b0: Books, b: Books, st: ChainState, locals: set<Address>, todo: set<Address>) {
    && LocalsKept(b0, b, st, locals) && NothingNew(b0, b) && b.virtuals == b0.virtuals
    && (forall a | a !in todo :: CleanAt(b, st, a))
    && (Rooted(b0, st) ==> Rooted(b, st))
    && (AllClosed(b0, st) ==> AllClosed(b, st))
    && todo <= b0.pending.Keys && DemotedIn(b0, b, st, b0.pending.Keys - todo)
  }

  lemma StartDemotion(b: Books, st: ChainState, locals: set<Address>, todo: set<Address>)
    requires todo == b.pending.Keys
    ensures Demoting(b, b, st, locals, todo)
  {
    hide Rooted, AllClosed, DemotedIn;
    assert b.pending.Keys - todo == {};
    DemotedInNone(b, st);
  }

  lemma SameClean(b: Books, b': Books, st: ChainState, x: Address)
    requires SameAt(b, b', st, x)
    ensures CleanAt(b, st, x) ==> CleanAt(b', st, x)
    ensures ClosedAt(b, st, x) ==> ClosedAt(b', st, x)
  {
    assert forall n: nat :: Slot(b.pending, x, n) <==> n in ListOf(b.pending, x);
    assert forall n: nat :: Slot(b'.pending, x, n) <==> n in ListOf(b'.pending, x);
  }

  lemma DemotingOn(b0: Books, b: Books, b': Books, st: ChainState, locals: set<Address>, todo: set<Address>, a: Address)
    requires Demoting(b0, b, st, locals, todo) && b'.virtuals == b.virtuals
    requires LocalsKept(b, b', st, locals) && NothingNew(b, b')
    requires CleanAt(b', st, a) && (RootedAt(b, st, a) ==> RootedAt(b', st, a)) && (ClosedAt(b, st, a) ==> ClosedAt(b', st, a))
    requires forall x | x != a :: SameAt(b, b', st, x)
    requires DemotedIn(b0, b', st, b0.pending.Keys - (todo - {a}))
    ensures Demoting(b0, b', st, locals, todo - {a})
    ensures forall t | Live(b'.all, t) :: Live(b.all, t)
  {
    hide CleanAt, RootedAt, ClosedAt, SameAt, CanPay, DemotedIn;
    forall x | x != a
      ensures CleanAt(b, st, x) ==> CleanAt(b', st, x)
      ensures RootedAt(b, st, x) ==> RootedAt(b', st, x)
      ensures ClosedAt(b, st, x) ==> ClosedAt(b', st, x)
    {
      SameKeeps(b, b', st, x);
      SameClean(b, b', st, x);
    }
  }

  lemma DemotingIn(b0: Books, b: Books, st: ChainState, locals: set<Address>, todo: set<Address>, a: Address)
    requires Demoting(b0, b, st, locals, todo) && a in todo
    ensures DemotedIn(b0, Demoted(b, st, a), st, b0.pending.Keys - (todo - {a}))
  {
    hide DemotedIn, Demoted, CleanAt, Rooted, AllClosed, LocalsKept, NothingNew;
    DemotedInOne(b0, b, st, b0.pending.Keys - todo, a);
    assert b0.pending.Keys - (todo - {a}) == b0.pending.Keys - todo + {a};
  }

  lemma DemotedStep(b0: Books, b: Books, st: ChainState, locals: set<Address>, todo: set<Address>, a: Address)
    requires Coherent(b, {}) && NoEmpty(b.pending) && NoEmpty(b.queue)
    requires Demoting(b0, b, st, locals, todo) && a in todo && todo <= b.pending.Keys
    ensures var b' := Demoted(b, st, a);
            && Coherent(b', {}) && NoEmpty(b'.pending) && NoEmpty(b'.queue)
            && todo - {a} <= b'.pending.Keys <= b.pending.Keys
            && Demoting(b0, b', st, locals, todo - {a})
            && forall t | Live(b'.all, t) :: Live(b.all, t)
  {
    var b' := Demoted(b, st, a);
    hide *;
    DemotedCoherent(b, st, a);
    DemotedTidy(b, st, a);
    DemotedLists(b, st, a);
    DemotedClean(b, st, a);
    DemotedLoss(b, st, locals, a);
    if ClosedAt(b, st, a) { DemotedClosed(b, st, a); }
    DemotingIn(b0, b, st, locals, todo, a);
    DemotingOn(b0, b, b', st, locals, todo, a);
  }

  lemma DemotionDone(b0: Books, b: Books, st: ChainState, locals: set<Address>)
    requires Demoting(b0, b, st, locals, {})
    ensures LocalsKept(b0, b, st, locals) && NothingNew(b0, b) && AllClean(b, st)
    ensures Rooted(b0, st) ==> Rooted(b, st)
    ensures AllClosed(b0, st) ==> AllClosed(b, st)
    ensures DemotedIn(b0, b, st, b0.pending.Keys)
  {
    hide CleanAt, Rooted, AllClosed, DemotedIn;
    assert b0.pending.Keys - {} == b0.pending.Keys;
  }

  lemma CoversStill(b: Books, b': Books, items: multiset<Tx>, items': multiset<Tx>)
    requires Covers(items, b.all) && NothingNew(b, b') && KeepsLive(items, items', b'.all)
    ensures Covers(items', b'.all)
  {
  }

  // Renumbering.

  ghost function RenumberedFor(v: map<Address, nat>, pending: Lists, accounts: set<Address>): map<Address, nat>
    requires NoEmpty(pending)
  {
    v + map a | a in accounts && a in pending :: MaxKey(pending[a]) + 1
  }

  lemma RenumberedAt(v: map<Address, nat>, pending: Lists, accounts: set<Address>)
    requires NoEmpty(pending)
    ensures RenumberedFor(v, pending, accounts).Keys == v.Keys + (accounts * pending.Keys)
    ensures forall x | x in accounts && x in pending :: RenumberedFor(v, pending, accounts)[x] == MaxKey(pending[x]) + 1
    ensures forall x | x in v && !(x in accounts && x in pending) :: RenumberedFor(v, pending, accounts)[x] == v[x]
  {
    hide MaxKey;
  }

  lemma StartRenumber(v: map<Address, nat>, pending: Lists)
    requires NoEmpty(pending)
    ensures v == RenumberedFor(v, pending, pending.Keys - pending.Keys)
  {
    hide MaxKey, RenumberedFor;
    RenumberedAt(v, pending, pending.Keys - pending.Keys);
  }

  lemma RenumberStep(v: map<Address, nat>, pending: Lists, todo: set<Address>, a: Address)
    requires NoEmpty(pending) && a in todo && todo <= pending.Keys
    ensures pending[a] != map[]
    ensures RenumberedFor(v, pending, pending.Keys - todo)[a := MaxKey(pending[a]) + 1] ==
              RenumberedFor(v, pending, pending.Keys - (todo - {a}))
  {
    hide MaxKey;
    var now, next := RenumberedFor(v, pending, pending.Keys - todo), RenumberedFor(v, pending, pending.Keys - (todo - {a}));
    RenumberedAt(v, pending, pending.Keys - todo);
    RenumberedAt(v, pending, pending.Keys - (todo - {a}));
    hide RenumberedFor, NoEmpty;
    assert now[a := MaxKey(pending[a]) + 1].Keys == next.Keys;
  }

  lemma SameNumbers(pending: Lists, accounts: set<Address>)
    requires NoEmpty(pending) && accounts == pending.Keys
    ensures (map a | a in accounts && a in pending :: MaxKey(pending[a]) + 1) == (map a | a in pending :: MaxKey(pending[a]) + 1)
  {
    hide MaxKey;
  }

  lemma RenumberDone(v: map<Address, nat>, b: Books, accounts: set<Address>)
    requires NoEmpty(b.pending) && b.virtuals == v && accounts == b.pending.Keys
    ensures Books(b.pending, b.queue, b.all, RenumberedFor(v, b.pending, accounts)) == Renumbered(b)
  {
    hide MaxKey, NoEmpty;
    SameNumbers(b.pending, accounts);
  }

  lemma RemovedExactly(b: Books, st: ChainState, tx: Tx)
    ensures forall t :: Live(Removed(b, st, tx).all, t) <==> Live(b.all, t) && t != tx
  {
    hide Tidy, Take, Put;
  }

  lemma FloorDrops(drop: seq<Tx>, all: Lookup, price: nat, locals: set<Address>)
    requires forall t :: t in drop <==> BelowFloor(t, all, price, locals)
    ensures forall t | t in drop :: t.from !in locals
    ensures forall t :: Live(all, t) && t !in drop <==> Live(all, t) && (t.from in locals || t.price >= price)
  {
  }

  lemma CoversDropped(all: Lookup, all': Lookup, items: multiset<Tx>, items': multiset<Tx>, drop: seq<Tx>)
    requires CoversExcept(items, all, drop) && KeepsLive(items, items', all')
    requires forall t :: Live(all', t) <==> Live(all, t) && t !in drop
    ensures Covers(items', all')
  {
  }

  // Admission.

  /** A full pool refuses a remote transaction exactly if every pooled one is at least as dear. */
  ghost predicate RefusesCheap(all: Lookup, config: Config, locals: set<Address>, tx: Tx, local: bool) {
    && |all| >= config.globalSlots + config.globalQueue && !local
    && tx.from !in locals && all != map[] && forall t :: Live(all, t) ==> t.price >= tx.price
  }

  lemma Refusal(all: Lookup, config: Config, locals: set<Address>, tx: Tx, local: bool)
    ensures RefusesCheap(all, config, locals, tx, local) <==>
              |all| >= config.globalSlots + config.globalQueue && !local &&
              tx.from !in locals && all != map[] && forall t :: Live(all, t) ==> t.price >= tx.price
  {
  }

  /** Only remote transactions are dropped, and no remote one that stays ranks below one that was. */
  ghost predicate WorstFirst(all: Lookup, all': Lookup, locals: set<Address>) {
    && (forall d | Live(all, d) && !Live(all', d) :: d.from !in locals)
    && (forall t, d | Live(all', t) && t.from !in locals && Live(all, d) && !Live(all', d) ::
          t.price > d.price || (t.price == d.price && t.nonce <= d.nonce))
  }

  /** Of a sender's transactions at one price only the highest nonces leave. */
  lemma HighestNoncesLeave(b: Books, all': Lookup, locals: set<Address>, t: Tx, d: Tx)
    requires Coherent(b, {}) && WorstFirst(b.all, all', locals) && Live(b.all, t) && Live(b.all, d)
    requires Live(all', t) && !Live(all', d) && t.from == d.from && t.price == d.price
    ensures t.nonce < d.nonce
  {
    assert t != d;
    assert t.from !in locals;
    assert Holds(b.pending, t) || Holds(b.queue, t);
    assert Holds(b.pending, d) || Holds(b.queue, d);
  }

  lemma NothingDropped(all: Lookup, locals: set<Address>)
    ensures WorstFirst(all, all, locals)
  {
  }

  lemma CoherentKeyed(b: Books, b': Books)
    requires Coherent(b, {}) && Coherent(b', {})
    ensures WellKeyed(b.all) && WellKeyed(b'.all)
  {
  }

  ghost function Distinctly(drop: seq<Tx>): set<Tx> {
    set t | t in drop
  }

  /** Exactly the distinct listed transactions leave. */
  lemma DropCount(all: Lookup, all': Lookup, drop: seq<Tx>)
    requires WellKeyed(all) && WellKeyed(all') && (forall t | t in drop :: Live(all, t))
    requires forall t :: Live(all', t) <==> Live(all, t) && t !in drop
    ensures |all'| + |Distinctly(drop)| == |all|
  {
    var gone := Hashes(Distinctly(drop));
    forall h | h in all ensures h in all' || h in gone {
      assert Live(all, all[h]);
    }
    forall h | h in all' ensures h in all && h !in gone {
      assert Live(all', all'[h]);
    }
    assert all.Keys == all'.Keys + gone && all'.Keys !! gone;
    HashesSize(Distinctly(drop));
  }

  lemma RepeatsRest(drop: seq<Tx>)
    requires drop != [] && drop[0] !in drop[1..]
    ensures Repeats(drop) ==> Repeats(drop[1..])
  {
    var x, rest := drop[0], drop[1..];
    assert drop == [x] + rest;
    assert multiset(rest)[x] == 0;
    if Repeats(drop) {
      var t :| multiset(drop)[t] >= 2;
      assert multiset(rest)[t] >= 2;
    }
  }

  lemma RepeatsMore(drop: seq<Tx>)
    requires drop != []
    ensures Repeats(drop[1..]) ==> Repeats(drop)
  {
    var x, rest := drop[0], drop[1..];
    assert drop == [x] + rest;
    if Repeats(rest) {
      var t :| multiset(rest)[t] >= 2;
      assert multiset(drop)[t] >= 2;
    }
  }

  /** A list is as long as the set of its elements exactly if it does not repeat. */
  lemma {:induction false} DistinctCount(drop: seq<Tx>)
    ensures |Distinctly(drop)| <= |drop| && (|Distinctly(drop)| == |drop| <==> !Repeats(drop))
    decreases |drop|
  {
    if drop == [] {
      assert multiset(drop) == multiset{};
    } else {
      var x, rest := drop[0], drop[1..];
      assert drop == [x] + rest;
      DistinctCount(rest);
      forall t ensures multiset(drop)[t] == multiset(rest)[t] + (if t == x then 1 else 0) {
      }
      assert x in rest <==> multiset(rest)[x] >= 1;
      if x in rest {
        assert Distinctly(drop) == Distinctly(rest);
        assert multiset(drop)[x] >= 2;
      } else {
        assert Distinctly(drop) == Distinctly(rest) + {x};
        assert Repeats(drop) ==> Repeats(rest) by { RepeatsRest(drop); }
        assert Repeats(rest) ==> Repeats(drop) by { RepeatsMore(drop); }
      }
    }
  }

  /** How much room a full pool gets. `c` are the heap entries that may go and `count` is how many transactions have to.
      Unless the heap is crowded with repeated entries, there is room afterwards exactly if there were enough entries, and
      with too few no remote transaction is left; if it is surely crowded, there is no room. */
  ghost predicate RoomMade(c: multiset<Tx>, all: Lookup, all': Lookup, locals: set<Address>, limit: nat)
    requires |all| >= limit
  {
    var count := |all| + 1 - limit;
    && (!Crowded(c, count) ==> (|all'| < limit <==> |c| >= count))
    && (|c| < count ==> forall t | Live(all', t) :: t.from in locals)
    && (SurelyCrowded(c, count) ==> |all'| >= limit)
  }

  lemma MakesRoom(c: multiset<Tx>, all: Lookup, all': Lookup, locals: set<Address>, limit: nat, drop: seq<Tx>)
    requires |all| >= limit && WellKeyed(all) && WellKeyed(all') && Worst(c, drop, |all| + 1 - limit)
    requires (forall t | t in drop :: Live(all, t)) && forall t :: Live(all', t) <==> Live(all, t) && t !in drop
    requires |drop| < |all| + 1 - limit ==> forall t | Live(all, t) && t.from !in locals :: t in drop
    ensures RoomMade(c, all, all', locals, limit) && |all'| + 1 >= limit
  {
    hide WellKeyed, Crowded, SurelyCrowded, Repeats, Cheaper;
    var count := |all| + 1 - limit;
    DropCount(all, all', drop);
    DistinctCount(drop);
    if Repeats(drop) {
      RepeatsIfCrowded(c, drop, count);
    }
    if SurelyCrowded(c, count) {
      SurelyCrowdedRepeats(c, drop, count);
    }
  }

  lemma SameCandidates(items: multiset<Tx>, items': multiset<Tx>, all: Lookup, locals: set<Address>)
    requires forall t | Live(all, t) :: items'[t] == items[t]
    ensures Candidates(items', all, locals) == Candidates(items, all, locals)
  {
    hide Candidates;
    forall t ensures Candidates(items', all, locals)[t] == Candidates(items, all, locals)[t] {
    }
  }

  lemma DroppedWorst(all: Lookup, all': Lookup, locals: set<Address>, drop: seq<Tx>)
    requires DropsWorst(all, locals, drop)
    requires forall t :: Live(all', t) <==> Live(all, t) && t !in drop
    requires forall d | d in drop :: d.from !in locals
    ensures WorstFirst(all, all', locals)
  {
  }

  function Doomed(keys: set<Address>, expired: set<Address>, locals: set<Address>): set<Address> {
    keys * (expired - locals)
  }

  ghost predicate Evicting(q: Lists, kept: Lists, todo: set<Address>, locals: set<Address>) {
    q - todo == kept && todo <= q.Keys && todo !! locals
  }

  lemma EvictStart(q: Lists, expired: set<Address>, locals: set<Address>)
    ensures var todo := Doomed(q.Keys, expired, locals);
            Evicting(q, q - todo, todo, locals) && q - todo == q - (expired - locals)
  {
  }

  lemma EvictStep(q: Lists, kept: Lists, todo: set<Address>, locals: set<Address>, a: Address)
    requires Evicting(q, kept, todo, locals) && a in todo
    ensures a in q && a !in locals && Evicting(q - {a}, kept, todo - {a}, locals)
  {
    assert q - {a} - (todo - {a}) == q - todo;
  }

  lemma EvictDone(q: Lists, kept: Lists, locals: set<Address>)
    requires Evicting(q, kept, {}, locals)
    ensures q == kept
  {
    assert q - {} == q;
  }

  lemma LiveAfter(b: Books, b': Books, st: ChainState, locals: set<Address>)
    requires Keeps(b, b', st, locals)
    ensures forall t | Live(b'.all, t) :: Live(b.all, t)
  {
    hide KeepsOrder, StaySettled, LocalsKept;
  }

  lemma CutTopAllKept(b: Books, st: ChainState, a: Address, locals: set<Address>)
    requires Coherent(b, {}) && a in b.pending && b.pending[a] != map[] && a !in locals
    ensures Coherent(CutTop(b, st, a), {}) && Keeps(b, CutTop(b, st, a), st, locals)
  {
    hide *;
    CutTopCoherent(b, st, a);
    CutTopKeeps(b, st, a);
    CutTopLoss(b, st, locals, a);
    KeepsFrom(b, CutTop(b, st, a), st, locals);
  }

  lemma StartRun(p: Lists, v: map<Address, nat>, a: Address, run: map<nat, Tx>)
    ensures run == From(run, 0) && p == Put(p, a, Below(run, 0)) && v == RaisedVirtuals(v, a, Below(run, 0))
  {
  }

  lemma RunGrows(run: map<nat, Tx>, k: nat, n: nat)
    requires n in From(run, k) && forall m | m in From(run, k) :: n <= m
    ensures n in run && n !in Below(run, k) && From(run, k)[n] == run[n]
    ensures Below(run, k)[n := run[n]] == Below(run, n + 1) && From(run, k) - {n} == From(run, n + 1)
    ensures |From(run, k) - {n}| < |From(run, k)|
  {
    assert (From(run, k) - {n}).Keys == From(run, k).Keys - {n};
    forall m: nat | m in Below(run, n + 1) ensures m in Below(run, k) || m == n {
      assert m >= k ==> m in From(run, k);
    }
    forall m: nat | m in From(run, n + 1) ensures m in From(run, k) {
    }
  }

  lemma RunVirtuals(v: map<Address, nat>, a: Address, run: map<nat, Tx>, k: nat, n: nat)
    requires n in From(run, k) && forall m | m in From(run, k) :: n <= m
    ensures RaisedVirtuals(v, a, Below(run, k))[a := n + 1] == RaisedVirtuals(v, a, Below(run, n + 1))
  {
    RunGrows(run, k, n);
    assert n in Below(run, n + 1);
    assert MaxKey(Below(run, n + 1)) == n;
  }

  /** Filing one more live transaction at a free nonce extends what has been put, and nothing else. */
  lemma FileMore(m: Lists, all: Lookup, a: Address, done: map<nat, Tx>, tx: Tx, bump: nat)
    requires WellKeyed(all) && Live(all, tx) && tx.from == a && !Slot(m, a, tx.nonce) && tx.nonce !in done
    ensures Accepts(ListOf(Put(m, a, done), a), tx, bump)
    ensures Filing(Put(m, a, done), tx) == Put(m, a, done[tx.nonce := tx])
    ensures (all - Hashes(Values(Displaced(Put(m, a, done), tx))))[TxHash(tx) := tx] == all
  {
    var now := Put(m, a, done);
    assert !Slot(now, a, tx.nonce);
    assert Displaced(now, tx) == map[];
    assert tx.nonce in done[tx.nonce := tx];
    assert ListOf(now, a)[tx.nonce := tx] == ListOf(m, a) + done[tx.nonce := tx];
    assert all - Hashes(Values(map[])) == all;
  }

  lemma RunStep(p: Lists, v: map<Address, nat>, all: Lookup, bump: nat, a: Address, run: map<nat, Tx>, k: nat, n: nat)
    requires WellKeyed(all) && Unlisted(p, all, a, run) && n in From(run, k)
    requires forall m | m in From(run, k) :: n <= m
    ensures var tx, now := From(run, k)[n], Put(p, a, Below(run, k));
            && tx.from == a && tx.nonce == n && From(run, k) - {n} == From(run, n + 1)
            && |From(run, k) - {n}| < |From(run, k)|
            && Accepts(ListOf(now, a), tx, bump) && Filing(now, tx) == Put(p, a, Below(run, n + 1))
            && (all - Hashes(Values(Displaced(now, tx))))[TxHash(tx) := tx] == all
            && RaisedVirtuals(v, a, Below(run, k))[a := n + 1] == RaisedVirtuals(v, a, Below(run, n + 1))
  {
    RunGrows(run, k, n);
    hide Put, Filing, Accepts, Displaced, Values, Hashes, From, Below, RaisedVirtuals;
    FileMore(p, all, a, Below(run, k), run[n], bump);
    RunVirtuals(v, a, run, k, n);
  }

  lemma StartEnqueue(q: Lists, a: Address, txs: map<nat, Tx>)
    ensures q == Put(q, a, txs - txs.Keys)
  {
  }

  lemma EnqueueStep(q: Lists, all: Lookup, bump: nat, a: Address, txs: map<nat, Tx>, rest: map<nat, Tx>, n: nat)
    requires WellKeyed(all) && Unlisted(q, all, a, txs) && n in rest && rest.Keys <= txs.Keys
    ensures var tx, now := txs[n], Put(q, a, txs - rest.Keys);
            && tx.from == a && |rest - {n}| < |rest| && (rest - {n}).Keys <= txs.Keys
            && Accepts(ListOf(now, a), tx, bump) && Filing(now, tx) == Put(q, a, txs - (rest - {n}).Keys)
            && (all - Hashes(Values(Displaced(now, tx))))[TxHash(tx) := tx] == all
  {
    var done := txs - rest.Keys;
    assert (rest - {n}).Keys == rest.Keys - {n};
    FileMore(q, all, a, done, txs[n], bump);
    assert done[n := txs[n]] == txs - (rest - {n}).Keys;
  }

  lemma EnqueueDone(txs: map<nat, Tx>, rest: map<nat, Tx>)
    requires rest == map[]
    ensures txs - rest.Keys == txs
  {
  }

  lemma EntersTable(all: Lookup, tx: Tx, items: multiset<Tx>, items0: multiset<Tx>)
    requires WellKeyed(all) && KeepsLive(items0, items, all)
    ensures WellKeyed(all[TxHash(tx) := tx]) && KeepsLive(items0, items + multiset{tx}, all[TxHash(tx) := tx])
    ensures Live(all, tx) ==> all[TxHash(tx) := tx] == all
  {
  }

  lemma NoHashes(all: Lookup)
    ensures all == all - Hashes({})
  {
  }

  lemma KeepsLiveRefl(items: multiset<Tx>, all: Lookup)
    ensures KeepsLive(items, items, all)
  {
  }
}
