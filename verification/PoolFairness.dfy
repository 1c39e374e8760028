/** The equalisation of pending lists when the pool holds too many executable transactions
    (core/tx_pool.go, promoteExecutables lines 1114-1186). */
module PoolFairness {
  import opened Transactions
  import opened SortedMap
  import opened PoolBooks
  import opened PoolSteps

  // ---------------------------------------------------------------- counting

  /** The number of transactions in all lists. */
  ghost function Total(m: Lists): nat {
    if m == map[] then 0
    else
      var a :| a in m;
      |m[a]| + Total(m - {a})
  }

  lemma TotalPick(m: Lists) returns (x: Address)
    requires m != map[]
    ensures x in m && Total(m) == |m[x]| + Total(m - {x})
  {
    x :| x in m && Total(m) == |m[x]| + Total(m - {x});
  }

  lemma {:induction false} TotalSplit(m: Lists, a: Address)
    requires a in m
    ensures Total(m) == |m[a]| + Total(m - {a})
    decreases |m|
  {
    hide Total;
    var x := TotalPick(m);
    if x != a {
      assert (m - {x}).Keys == m.Keys - {x};
      assert (m - {a}).Keys == m.Keys - {a};
      TotalSplit(m - {x}, a);
      TotalSplit(m - {a}, x);
      assert m - {x} - {a} == m - {a} - {x};
    }
  }

  lemma TotalUpdate(m: Lists, a: Address, l: map<nat, Tx>)
    requires a in m
    ensures Total(m[a := l]) == Total(m) - |m[a]| + |l|
  {
    hide Total;
    TotalSplit(m, a);
    TotalSplit(m[a := l], a);
    assert m[a := l] - {a} == m - {a};
  }

  // ---------------------------------------------------------------- levels

  /** Every remote list cut to its `level` lowest nonces. */
  function Leveled(m: Lists, locals: set<Address>, level: nat): Lists {
    map a | a in m :: if a in locals then m[a] else Lowest(m[a], level)
  }

  /** The cut is max-min fair: it cuts all remote senders at one common level, not below
      `accountSlots`; the level fits the limit unless it is already the guaranteed minimum; and no
      higher level fits. */
  ghost predicate FairCut(before: Lists, after: Lists, locals: set<Address>, accountSlots: nat, limit: nat) {
    exists level: nat :: IsFairLevel(before, after, locals, accountSlots, limit, level)
  }

  ghost predicate IsFairLevel(before: Lists, after: Lists, locals: set<Address>, accountSlots: nat, limit: nat,
                              level: nat)
  {
    && accountSlots <= level
    && after == Leveled(before, locals, level)
    && (Total(after) <= limit || level == accountSlots)
    && (forall higher: nat | higher > level :: Total(Leveled(before, locals, higher)) > limit)
  }

  lemma {:induction false} LowestOfLowest(m: map<nat, Tx>, j: nat, k: nat)
    requires j <= k
    ensures Lowest(Lowest(m, k), j) == Lowest(m, j)
    decreases |m|
  {
    if |m| > k {
      var rest := m - {MaxKey(m)};
      assert rest.Keys == m.Keys - {MaxKey(m)};
      LowestOfLowest(rest, j, k);
    }
  }

  /** What the level leaves of one account. */
  function Share(m: Lists, locals: set<Address>, level: nat, a: Address): nat
    requires a in m
  {
    if a in locals || |m[a]| <= level then |m[a]| else level
  }

  lemma LevelSplit(m: Lists, locals: set<Address>, level: nat, a: Address)
    requires a in m
    ensures Total(Leveled(m, locals, level)) == Share(m, locals, level, a) + Total(Leveled(m - {a}, locals, level))
    ensures |m - {a}| < |m|
  {
    hide Lowest, Total;
    assert (m - {a}).Keys == m.Keys - {a};
    TotalSplit(Leveled(m, locals, level), a);
    assert Leveled(m, locals, level) - {a} == Leveled(m - {a}, locals, level);
  }

  /** A higher level keeps at least as many transactions. */
  lemma {:induction false} LevelMonotone(m: Lists, locals: set<Address>, j: nat, k: nat)
    requires j <= k
    ensures Total(Leveled(m, locals, j)) <= Total(Leveled(m, locals, k))
    decreases |m|
  {
    if m == map[] {
      assert Leveled(m, locals, j) == Leveled(m, locals, k);
    } else {
      hide Leveled, Total;
      var a :| a in m;
      LevelSplit(m, locals, j, a);
      LevelSplit(m, locals, k, a);
      LevelMonotone(m - {a}, locals, j, k);
    }
  }

  /** The accounts a level actually cuts. */
  function CutAccounts(m: Lists, locals: set<Address>, level: nat): set<Address> {
    set a | a in m && a !in locals && |m[a]| > level
  }

  /** One level higher holds one transaction more for every account that is cut. */
  lemma {:induction false} LevelStep(m: Lists, locals: set<Address>, level: nat)
    ensures Total(Leveled(m, locals, level + 1)) == Total(Leveled(m, locals, level)) + |CutAccounts(m, locals, level)|
    decreases |m|
  {
    hide *;
    if m == map[] {
      NothingToCut(locals, level);
    } else {
      var a :| a in m;
      LevelSplit(m, locals, level, a);
      LevelSplit(m, locals, level + 1, a);
      LevelStep(m - {a}, locals, level);
      ShareStep(m, locals, level, a);
      CutSplit(m, locals, level, a);
    }
  }

  lemma ShareStep(m: Lists, locals: set<Address>, level: nat, a: Address)
    requires a in m
    ensures Share(m, locals, level + 1, a) == Share(m, locals, level, a) + if a !in locals && |m[a]| > level then 1 else 0
  {
  }

  lemma NothingToCut(locals: set<Address>, level: nat)
    ensures Leveled(map[], locals, level) == Leveled(map[], locals, level + 1)
    ensures CutAccounts(map[], locals, level) == {}
  {
  }

  lemma CutSplit(m: Lists, locals: set<Address>, level: nat, a: Address)
    requires a in m
    ensures |CutAccounts(m, locals, level)| ==
              |CutAccounts(m - {a}, locals, level)| + if a !in locals && |m[a]| > level then 1 else 0
  {
    var c, d := CutAccounts(m, locals, level), CutAccounts(m - {a}, locals, level);
    if a !in locals && |m[a]| > level {
      assert c == d + {a};
    } else {
      assert c == d;
    }
  }

  /** Consequences of fairness: every cut account ends at the same length, every uncut remote list
      is no longer than that, no remote list falls below its guaranteed slots, and the total misses
      the limit by fewer transactions than there are cut accounts. */
  lemma FairCutMeans(before: Lists, after: Lists, locals: set<Address>, slots: nat, limit: nat) returns (level: nat)
    requires FairCut(before, after, locals, slots, limit)
    ensures after.Keys == before.Keys
    ensures forall a | a in before && a in locals :: after[a] == before[a]
    ensures forall a | a in before && a !in locals :: after[a] == Lowest(before[a], |after[a]|)
    ensures forall a | a in before && a !in locals && |after[a]| < |before[a]| :: |after[a]| == level
    ensures forall a | a in before && a !in locals && |after[a]| == |before[a]| :: |after[a]| <= level
    ensures forall a | a in before && a !in locals && |before[a]| >= slots :: |after[a]| >= slots
    ensures Total(after) <= limit || forall a | a in after && a !in locals :: |after[a]| <= slots
    ensures Total(before) > limit ==> Total(after) + |CutAccounts(before, locals, level)| > limit
  {
    hide Lowest, Leveled, Total, CutAccounts;
    level :| IsFairLevel(before, after, locals, slots, limit, level);
    LevelStep(before, locals, level);
    assert Total(Leveled(before, locals, level + 1)) > limit;
    LeveledLists(before, locals, level);
  }

  lemma LeveledLists(m: Lists, locals: set<Address>, level: nat)
    ensures var after := Leveled(m, locals, level);
            && after.Keys == m.Keys
            && (forall a | a in m && a in locals :: after[a] == m[a])
            && (forall a | a in m && a !in locals :: after[a] == Lowest(m[a], |after[a]|))
            && (forall a | a in m && a !in locals :: |after[a]| == if |m[a]| <= level then |m[a]| else level)
  {
    hide Lowest;
    forall a | a in m && a !in locals ensures Leveled(m, locals, level)[a] == Lowest(m[a], |Leveled(m, locals, level)[a]|) {
      ShortLowest(m[a], level);
    }
  }

  /** A cut leaves no empty list behind exactly if it spares at least one transaction of each remote sender: with no
      guaranteed slots, empty lists can stay until the next demotion. */
  lemma LeveledTidy(m: Lists, locals: set<Address>, level: nat)
    requires NoEmpty(m)
    ensures NoEmpty(Leveled(m, locals, level)) <==> level >= 1 || m.Keys <= locals
  {
    hide Lowest;
    LeveledLists(m, locals, level);
    var after := Leveled(m, locals, level);
    if level >= 1 {
      forall a | a in after ensures after[a] != map[] {
        assert a in m && m[a] != map[];
      }
    } else {
      forall a | a in m && a !in locals ensures after[a] == map[] {
        assert |after[a]| == 0;
      }
    }
  }

  /** What the local senders hold. */
  ghost function LocalLists(m: Lists, locals: set<Address>): Lists {
    map a | a in m && a in locals :: m[a]
  }

  ghost function Remotes(m: Lists, locals: set<Address>): set<Address> {
    m.Keys - locals
  }

  /** At level one, every remote sender keeps one transaction. */
  lemma {:induction false} LevelOneTotal(m: Lists, locals: set<Address>)
    requires NoEmpty(m)
    ensures Total(Leveled(m, locals, 1)) == Total(LocalLists(m, locals)) + |Remotes(m, locals)|
    decreases |m|
  {
    if m == map[] {
      NothingLeveled(m, locals);
    } else {
      var a :| a in m;
      var rest := m - {a};
      assert NoEmpty(rest);
      hide *;
      LevelSplit(m, locals, 1, a);
      LevelOneTotal(rest, locals);
      OneShare(m, locals, a);
      LocalSplit(m, locals, a);
      RemoteSplit(m, locals, a);
    }
  }

  lemma NothingLeveled(m: Lists, locals: set<Address>)
    requires m == map[]
    ensures Total(Leveled(m, locals, 1)) == 0 && Total(LocalLists(m, locals)) == 0 && Remotes(m, locals) == {}
  {
    NoTotal();
    hide Total;
    assert Leveled(m, locals, 1) == map[] && LocalLists(m, locals) == map[];
  }

  lemma LocalSplit(m: Lists, locals: set<Address>, a: Address)
    requires a in m
    ensures Total(LocalLists(m, locals)) == (if a in locals then |m[a]| else 0) + Total(LocalLists(m - {a}, locals))
  {
    hide Total;
    if a in locals {
      TotalSplit(LocalLists(m, locals), a);
      assert LocalLists(m, locals) - {a} == LocalLists(m - {a}, locals);
    } else {
      assert LocalLists(m, locals) == LocalLists(m - {a}, locals);
    }
  }

  lemma RemoteSplit(m: Lists, locals: set<Address>, a: Address)
    requires a in m
    ensures |Remotes(m, locals)| == (if a in locals then 0 else 1) + |Remotes(m - {a}, locals)|
  {
    assert (m - {a}).Keys == m.Keys - {a};
    assert Remotes(m, locals) == Remotes(m - {a}, locals) + if a in locals then {} else {a};
  }

  lemma NoTotal()
    ensures Total(map[]) == 0
  {
  }

  lemma OneShare(m: Lists, locals: set<Address>, a: Address)
    requires a in m && NoEmpty(m)
    ensures Share(m, locals, 1, a) == if a in locals then |m[a]| else 1
  {
    assert m[a] != map[];
    LeveledLists(m, locals, 1);
  }

  /** A fair cut spares at least one transaction of every sender exactly if that is guaranteed, or there is no remote
      sender, or one transaction of each remote sender fits beside the local ones. */
  ghost predicate SparesAll(m: Lists, locals: set<Address>, slots: nat, limit: nat) {
    slots >= 1 || m.Keys <= locals || Total(LocalLists(m, locals)) + |Remotes(m, locals)| <= limit
  }

  lemma CutSpares(before: Lists, after: Lists, locals: set<Address>, slots: nat, limit: nat)
    requires NoEmpty(before) && FairCut(before, after, locals, slots, limit)
    ensures NoEmpty(after) <==> SparesAll(before, locals, slots, limit)
  {
    hide Total, Leveled, LocalLists, Remotes, NoEmpty;
    var level :| IsFairLevel(before, after, locals, slots, limit, level);
    LeveledTidy(before, locals, level);
    LevelOneTotal(before, locals);
    if level >= 1 {
      LevelMonotone(before, locals, 1, level);
    }
  }

  /** Two remote senders with one pending transaction each, room for one, and no guaranteed slots: both lists end empty. */
  lemma BothEmptied(before: Lists, after: Lists)
    requires before.Keys == {1, 2} && |before[1]| == |before[2]| == 1 && FairCut(before, after, {}, 0, 1)
    ensures after.Keys == {1, 2} && after[1] == map[] && after[2] == map[]
  {
    hide *;
    NoneLonger(before[1]);
    NoneLonger(before[2]);
    OneEach(before);
    var level := PickLevel(before, after, {}, 0, 1);
    if level >= 1 {
      LevelMonotone(before, {}, 1, level);
    }
    LeveledLists(before, {}, level);
    NoneLonger(after[1]);
    NoneLonger(after[2]);
  }

  lemma PickLevel(before: Lists, after: Lists, locals: set<Address>, slots: nat, limit: nat) returns (level: nat)
    requires FairCut(before, after, locals, slots, limit)
    ensures after == Leveled(before, locals, level) && (Total(after) <= limit || level == slots)
  {
    hide Total, Leveled;
    level :| IsFairLevel(before, after, locals, slots, limit, level);
  }

  lemma NoneLonger(l: map<nat, Tx>)
    ensures |l| == 0 <==> l == map[]
  {
  }

  lemma SomeNonEmpty(before: Lists)
    requires before.Keys == {1, 2} && before[1] != map[] && before[2] != map[]
    ensures NoEmpty(before)
  {
    forall a | a in before ensures before[a] != map[] {
      assert a in before.Keys;
    }
  }

  lemma NoLocals(before: Lists)
    requires before.Keys == {1, 2}
    ensures LocalLists(before, {}) == map[] && |Remotes(before, {})| == 2
  {
    assert Remotes(before, {}) == {1, 2};
  }

  lemma OneEach(before: Lists)
    requires before.Keys == {1, 2} && before[1] != map[] && before[2] != map[]
    ensures Total(Leveled(before, {}, 1)) == 2
  {
    hide *;
    SomeNonEmpty(before);
    LevelOneTotal(before, {});
    NoLocals(before);
    NoTotal();
  }

  lemma ShortLowest(m: map<nat, Tx>, k: nat)
    ensures Lowest(m, |Lowest(m, k)|) == Lowest(m, k)
  {
    LowestOfLowest(m, |Lowest(m, k)|, k);
  }

  // ---------------------------------------------------------------- cutting one transaction

  /** Drops the account's highest pending transaction and rolls its virtual nonce back to it. */
  function CutTop(b: Books, st: ChainState, a: Address): Books
    requires a in b.pending && b.pending[a] != map[]
  {
    var hi := MaxKey(b.pending[a]);
    Books(Take(b.pending, a, map[hi := b.pending[a][hi]]), b.queue, b.all - Hashes({b.pending[a][hi]}),
          if VirtualNonce(st, b.virtuals, a) > hi then b.virtuals[a := hi] else b.virtuals)
  }

  lemma CutTopCoherent(b: Books, st: ChainState, a: Address)
    requires Coherent(b, {}) && a in b.pending && b.pending[a] != map[]
    ensures Coherent(CutTop(b, st, a), {})
  {
    var hi := MaxKey(b.pending[a]);
    var t := b.pending[a][hi];
    var gone := map[hi := t];
    assert PartOf(gone, ListOf(b.pending, a));
    assert {} + Values(gone) == {t} && {t} - {t} == {};
    var virtuals := CutTop(b, st, a).virtuals;
    CutTopIs(b, st, a);
    hide *;
    TakePending(b, {}, a, gone);
    var b1 := b.(pending := Take(b.pending, a, gone));
    Forget(b1, {t}, {t});
    ReVirtual(b1.(all := b1.all - Hashes({t})), virtuals, {});
  }

  lemma CutTopIs(b: Books, st: ChainState, a: Address)
    requires a in b.pending && b.pending[a] != map[]
    ensures var l := b.pending[a];
            var hi := MaxKey(l);
            && CutTop(b, st, a) == Books(Take(b.pending, a, map[hi := l[hi]]), b.queue, b.all - Hashes({l[hi]}),
                                         CutTop(b, st, a).virtuals)
            && CutTop(b, st, a).pending == b.pending[a := Lowest(l, |l| - 1)]
            && Lowest(l, |l| - 1) == l - {hi} && |Lowest(l, |l| - 1)| == |l| - 1
  {
    var l := b.pending[a];
    var hi := MaxKey(l);
    assert (l - {hi}).Keys == l.Keys - {hi};
    assert l - map[hi := l[hi]].Keys == l - {hi};
  }

  lemma CutTopKeeps(b: Books, st: ChainState, a: Address)
    requires Coherent(b, {}) && a in b.pending && b.pending[a] != map[]
    ensures KeepsOrder(b, CutTop(b, st, a), st)
    ensures StaySettled(b, CutTop(b, st, a), st, {})
  {
    var b', hi := CutTop(b, st, a), MaxKey(b.pending[a]);
    assert Slot(b.pending, a, hi) && !Slot(b.queue, a, hi) && forall n: nat | Slot(b.pending, a, n) :: n <= hi;
    hide *;
    CutTopSlots(b, st, a);
    CutTopOthers(b, st, a);
    CutTopKeepsAt(b, b', st, a, hi);
    OrderFrom(b, b', st, a);
    CutTopSettled(b, b', st, a, hi);
  }

  lemma CutTopOthers(b: Books, st: ChainState, a: Address)
    requires a in b.pending && b.pending[a] != map[]
    ensures var b', v, hi := CutTop(b, st, a), VirtualNonce(st, b.virtuals, a), MaxKey(b.pending[a]);
            && (forall x | x != a :: SameAt(b, b', st, x)) && b'.queue == b.queue
            && (forall x | x != a :: VirtualNonce(st, b'.virtuals, x) == VirtualNonce(st, b.virtuals, x))
            && VirtualNonce(st, b'.virtuals, a) == if v > hi then hi else v
  {
    hide MaxKey, Lowest;
  }

  lemma CutTopSettled(b: Books, b': Books, st: ChainState, a: Address, hi: nat)
    requires b'.queue == b.queue && !Slot(b.queue, a, hi)
    requires forall x | x != a :: VirtualNonce(st, b'.virtuals, x) == VirtualNonce(st, b.virtuals, x)
    requires var v := VirtualNonce(st, b.virtuals, a); VirtualNonce(st, b'.virtuals, a) == if v > hi then hi else v
    ensures StaySettled(b, b', st, {})
  {
    hide Slot, VirtualNonce;
  }

  lemma CutTopSlots(b: Books, st: ChainState, a: Address)
    requires a in b.pending && b.pending[a] != map[]
    ensures var b', hi := CutTop(b, st, a), MaxKey(b.pending[a]);
            && (forall n: nat :: Slot(b'.pending, a, n) <==> Slot(b.pending, a, n) && n < hi)
            && (forall n: nat | Slot(b'.pending, a, n) && Slot(b.pending, a, n) :: b'.pending[a][n] == b.pending[a][n])
  {
    var l := b.pending[a];
    CutTopIs(b, st, a);
    hide Lowest, CutTop;
    assert forall n: nat :: n in l - {MaxKey(l)} <==> n in l && n < MaxKey(l);
  }

  lemma CutTopKeepsAt(b: Books, b': Books, st: ChainState, a: Address, hi: nat)
    requires Slot(b.pending, a, hi) && forall n: nat | Slot(b.pending, a, n) :: n <= hi
    requires forall n: nat :: Slot(b'.pending, a, n) <==> Slot(b.pending, a, n) && n < hi
    requires forall n: nat | Slot(b'.pending, a, n) && Slot(b.pending, a, n) :: b'.pending[a][n] == b.pending[a][n]
    requires var v := VirtualNonce(st, b.virtuals, a); VirtualNonce(st, b'.virtuals, a) == if v > hi then hi else v
    ensures GapFreeAt(b, st, a) ==> GapFreeAt(b', st, a)
    ensures RootedAt(b, st, a) ==> RootedAt(b', st, a)
    ensures StartedAt(b, st, a) ==> StartedAt(b', st, a)
  {
    hide Slot;
  }

  /** The virtual nonce after the transactions of `l` outside `l'` were cut: it falls back to the lowest of them. */
  ghost function RolledTo(l: map<nat, Tx>, l': map<nat, Tx>, v: nat): nat {
    var gone := l - l'.Keys;
    if gone == map[] || v <= MinKey(gone) then v else MinKey(gone)
  }

  /** Pending transactions were only cut, and every virtual nonce fell back accordingly. */
  ghost predicate RolledBack(b: Books, b': Books, st: ChainState) {
    forall a :: RolledAt(b, b', st, a)
  }

  ghost predicate RolledAt(b: Books, b': Books, st: ChainState, a: Address) {
    && ListOf(b'.pending, a).Keys <= ListOf(b.pending, a).Keys
    && VirtualNonce(st, b'.virtuals, a) == RolledTo(ListOf(b.pending, a), ListOf(b'.pending, a), VirtualNonce(st, b.virtuals, a))
  }

  lemma NotRolled(l: map<nat, Tx>, v: nat)
    ensures RolledTo(l, l, v) == v
  {
    assert l - l.Keys == map[];
  }

  lemma RolledRefl(b: Books, st: ChainState)
    ensures RolledBack(b, b, st)
  {
    forall a ensures RolledAt(b, b, st, a) {
      NotRolled(ListOf(b.pending, a), VirtualNonce(st, b.virtuals, a));
    }
  }

  lemma RolledTwice(l: map<nat, Tx>, l': map<nat, Tx>, l'': map<nat, Tx>, v: nat)
    requires l''.Keys <= l'.Keys <= l.Keys
    ensures RolledTo(l', l'', RolledTo(l, l', v)) == RolledTo(l, l'', v)
  {
    var first, second, both := l - l'.Keys, l' - l''.Keys, l - l''.Keys;
    hide MinKey;
    assert both.Keys == first.Keys + second.Keys;
    if both != map[] { assert MinKey(both) in both.Keys; }
    if first != map[] { assert MinKey(first) in both.Keys; }
    if second != map[] { assert MinKey(second) in both.Keys; }
  }

  lemma RolledTrans(b: Books, b': Books, b'': Books, st: ChainState)
    requires RolledBack(b, b', st) && RolledBack(b', b'', st)
    ensures RolledBack(b, b'', st)
  {
    hide RolledTo, ListOf, VirtualNonce;
    forall a ensures RolledAt(b, b'', st, a) {
      assert RolledAt(b, b', st, a) && RolledAt(b', b'', st, a);
      RolledTwice(ListOf(b.pending, a), ListOf(b'.pending, a), ListOf(b''.pending, a), VirtualNonce(st, b.virtuals, a));
    }
  }

  lemma RolledOne(l: map<nat, Tx>, n: nat, v: nat)
    requires n in l
    ensures (l - {n}).Keys <= l.Keys && RolledTo(l, l - {n}, v) == if v > n then n else v
  {
    var gone := l - (l - {n}).Keys;
    assert gone.Keys == {n};
    assert n in gone;
    assert MinKey(gone) in gone.Keys;
  }

  lemma CutTopRolls(b: Books, st: ChainState, a: Address)
    requires a in b.pending && b.pending[a] != map[]
    ensures RolledBack(b, CutTop(b, st, a), st)
  {
    var b', l, hi := CutTop(b, st, a), b.pending[a], MaxKey(b.pending[a]);
    CutTopIs(b, st, a);
    CutTopOthers(b, st, a);
    RolledOne(l, hi, VirtualNonce(st, b.virtuals, a));
    assert ListOf(b'.pending, a) == l - {hi} && ListOf(b.pending, a) == l;
    forall x | x != a ensures ListOf(b'.pending, x) == ListOf(b.pending, x) {
      assert SameAt(b, b', st, x);
    }
    hide CutTop, Lowest, MaxKey, RolledTo, ListOf, VirtualNonce, SameAt;
    forall x ensures RolledAt(b, b', st, x) {
      NotRolled(ListOf(b.pending, x), VirtualNonce(st, b.virtuals, x));
    }
  }

  lemma CutTopLoss(b: Books, st: ChainState, locals: set<Address>, a: Address)
    requires Coherent(b, {}) && a in b.pending && b.pending[a] != map[] && a !in locals
    ensures LocalsKept(b, CutTop(b, st, a), st, locals) && NothingNew(b, CutTop(b, st, a))
  {
    var hi := MaxKey(b.pending[a]);
    assert b.pending[a][hi].from == a;
  }

  lemma CutTopTotal(b: Books, st: ChainState, a: Address)
    requires a in b.pending && b.pending[a] != map[]
    ensures Total(CutTop(b, st, a).pending) == Total(b.pending) - 1
  {
    CutTopIs(b, st, a);
    hide CutTop, MaxKey, Lowest;
    TotalUpdate(b.pending, a, Lowest(b.pending[a], |b.pending[a]| - 1));
  }

  // ---------------------------------------------------------------- rounds

  function Height(level: nat, low: set<Address>, a: Address): nat {
    if a in low && level > 0 then level - 1 else level
  }

  /** Every remote list is cut to `level`, those of `low` to one below. */
  ghost predicate AtLevel(p: Lists, p0: Lists, locals: set<Address>, level: nat, low: set<Address>) {
    && p.Keys == p0.Keys
    && forall a | a in p0 :: p[a] == if a in locals then p0[a] else Lowest(p0[a], Height(level, low, a))
  }

  lemma RoundStep(p: Lists, p0: Lists, locals: set<Address>, level: nat, low: set<Address>, a: Address)
    requires AtLevel(p, p0, locals, level, low) && a in p && a !in locals && a !in low
    requires level > 0 && |p[a]| == level
    ensures AtLevel(p[a := Lowest(p[a], level - 1)], p0, locals, level, low + {a})
  {
    hide Lowest;
    LowestOfLowest(p0[a], level - 1, level);
  }

  /** A round over all accounts that reach the level lowers it by one. */
  lemma RoundDone(p: Lists, p0: Lists, locals: set<Address>, level: nat, low: set<Address>)
    requires AtLevel(p, p0, locals, level, low) && level > 0
    requires forall a | a in p0 && a !in locals && a !in low :: |p0[a]| < level
    ensures AtLevel(p, p0, locals, level - 1, {})
  {
    hide AtLevel;
    AtLevelParts(p, p0, locals, level, low);
    forall a | a in p0 ensures p[a] == if a in locals then p0[a] else Lowest(p0[a], Height(level - 1, {}, a)) {
      if a !in locals && a !in low { assert Lowest(p0[a], level) == p0[a] == Lowest(p0[a], level - 1); }
    }
    AtLevelWhole(p, p0, locals, level - 1, {});
  }

  lemma AtLevelParts(p: Lists, p0: Lists, locals: set<Address>, level: nat, low: set<Address>)
    requires AtLevel(p, p0, locals, level, low)
    ensures p.Keys == p0.Keys
    ensures forall a | a in p0 :: p[a] == if a in locals then p0[a] else Lowest(p0[a], Height(level, low, a))
  {
  }

  lemma AtLevelWhole(p: Lists, p0: Lists, locals: set<Address>, level: nat, low: set<Address>)
    requires p.Keys == p0.Keys
    requires forall a | a in p0 :: p[a] == if a in locals then p0[a] else Lowest(p0[a], Height(level, low, a))
    ensures AtLevel(p, p0, locals, level, low)
  {
  }

  lemma AtLevelIsLeveled(p: Lists, p0: Lists, locals: set<Address>, level: nat)
    requires AtLevel(p, p0, locals, level, {})
    ensures p == Leveled(p0, locals, level)
  {
  }

  /** A level no remote list exceeds leaves everything alone. */
  lemma HighLevel(p0: Lists, locals: set<Address>, level: nat)
    requires forall a | a in p0 && a !in locals :: |p0[a]| <= level
    ensures AtLevel(p0, p0, locals, level, {}) && Leveled(p0, locals, level) == p0
  {
    assert forall a | a in p0 && a !in locals :: Lowest(p0[a], level) == p0[a];
  }

  lemma FairLevel(p: Lists, p0: Lists, locals: set<Address>, slots: nat, limit: nat, level: nat)
    requires AtLevel(p, p0, locals, level, {}) && slots <= level
    requires Total(p) <= limit || level == slots
    requires Total(Leveled(p0, locals, level + 1)) > limit
    ensures FairCut(p0, p, locals, slots, limit)
  {
    hide Total, Leveled;
    AtLevelIsLeveled(p, p0, locals, level);
    forall higher: nat | higher > level ensures Total(Leveled(p0, locals, higher)) > limit {
      LevelMonotone(p0, locals, level + 1, higher);
    }
    assert IsFairLevel(p0, p, locals, slots, limit, level);
  }

  // ---------------------------------------------------------------- the equalisation in progress

  function Members(s: seq<Address>): set<Address> {
    set i | 0 <= i < |s| :: s[i]
  }

  ghost predicate Distinct(s: seq<Address>) {
    forall i, j | 0 <= i < j < |s| :: s[i] != s[j]
  }

  /** Remote accounts with more than `atLeast` transactions to begin with. */
  ghost predicate Remote(accounts: set<Address>, p0: Lists, locals: set<Address>, atLeast: nat) {
    forall a | a in accounts :: a in p0 && a !in locals && |p0[a]| >= atLeast
  }

  /** Every remote account outside `accounts` has fewer than `bound` transactions. */
  ghost predicate OthersBelow(accounts: set<Address>, p0: Lists, locals: set<Address>, bound: nat) {
    forall a | a in p0 && a !in locals && a !in accounts :: |p0[a]| < bound
  }

  /** The lists are cut to a level, one level higher would still exceed the limit, and the accounts
      that are being cut are exactly those that reach the level (as long as there is more to cut). */
  ghost predicate Equalizing(p: Lists, p0: Lists, locals: set<Address>, slots: nat, limit: nat,
                             offenders: seq<Address>, spammers: set<Address>, level: nat)
  {
    && AtLevel(p, p0, locals, level, {}) && slots <= level
    && Total(Leveled(p0, locals, level + 1)) > limit
    && Distinct(offenders) && Members(offenders) !! spammers
    && Remote(Members(offenders) + spammers, p0, locals, slots + 1)
    && OthersBelow(Members(offenders) + spammers, p0, locals, slots + 1)
    && (forall a | a in spammers :: |p0[a]| <= level)
    && (offenders == [] ==> p == p0)
    && (Total(p) > limit ==> Remote(Members(offenders), p0, locals, level))
  }

  lemma EqualizeStart(p0: Lists, locals: set<Address>, slots: nat, limit: nat,
                      spammers: set<Address>) returns (level: nat)
    requires Total(p0) > limit
    requires forall a :: a in spammers <==> a in p0 && a !in locals && |p0[a]| > slots
    ensures Equalizing(p0, p0, locals, slots, limit, [], spammers, level)
  {
    level := TallestRemote(p0, locals, slots);
    HighLevel(p0, locals, level);
    HighLevel(p0, locals, level + 1);
    assert Members([]) == {};
  }

  lemma {:induction false} TallestRemote(p0: Lists, locals: set<Address>, slots: nat) returns (level: nat)
    ensures slots <= level && forall a | a in p0 && a !in locals :: |p0[a]| <= level
    decreases |p0|
  {
    if p0 == map[] {
      level := slots;
    } else {
      var x :| x in p0;
      assert (p0 - {x}).Keys == p0.Keys - {x};
      level := TallestRemote(p0 - {x}, locals, slots);
      forall a | a in p0 && a != x ensures a in p0 - {x} {}
      if |p0[x]| > level { level := |p0[x]|; }
    }
  }

  /** Taking on the first offender: nothing is cut yet. */
  lemma EqualizeFirst(p: Lists, p0: Lists, locals: set<Address>, slots: nat, limit: nat,
                      spammers: set<Address>, level: nat, a: Address)
    requires Equalizing(p, p0, locals, slots, limit, [], spammers, level) && Total(p) > limit
    requires a in spammers && forall x | x in spammers :: x in p0 && |p0[x]| <= |p0[a]|
    ensures Equalizing(p, p0, locals, slots, limit, [a], spammers - {a}, |p0[a]|)
  {
    hide *;
    OnlyMember(a);
    EqualizeNone(p, p0, locals, slots, limit, spammers, level);
    Tallest(p0, locals, slots, spammers, a);
    HighLevel(p0, locals, |p0[a]|);
    HighLevel(p0, locals, |p0[a]| + 1);
    EqualizeOne(p0, locals, slots, limit, spammers, a);
  }

  lemma OnlyMember(a: Address)
    ensures Members([a]) == {a}
  {
    assert [a][0] == a;
  }

  lemma EqualizeNone(p: Lists, p0: Lists, locals: set<Address>, slots: nat, limit: nat, spammers: set<Address>,
                     level: nat)
    requires Equalizing(p, p0, locals, slots, limit, [], spammers, level)
    ensures p == p0 && Remote(spammers, p0, locals, slots + 1) && OthersBelow(spammers, p0, locals, slots + 1)
  {
    assert Members([]) + spammers == spammers;
    hide AtLevel, Total, Leveled, Members, Remote, OthersBelow;
  }

  lemma EqualizeOne(p0: Lists, locals: set<Address>, slots: nat, limit: nat, spammers: set<Address>, a: Address)
    requires Remote(spammers, p0, locals, slots + 1) && OthersBelow(spammers, p0, locals, slots + 1)
    requires a in spammers && a in p0 && |p0[a]| > slots && Remote({a}, p0, locals, |p0[a]|) && Members([a]) == {a}
    requires forall x | x in spammers :: x in p0 && |p0[x]| <= |p0[a]|
    requires AtLevel(p0, p0, locals, |p0[a]|, {}) && Total(Leveled(p0, locals, |p0[a]| + 1)) > limit
    ensures Equalizing(p0, p0, locals, slots, limit, [a], spammers - {a}, |p0[a]|)
  {
    assert {a} + (spammers - {a}) == spammers;
    hide AtLevel, Total, Leveled, Members, Remote, OthersBelow;
  }

  lemma Tallest(p0: Lists, locals: set<Address>, slots: nat, spammers: set<Address>, a: Address)
    requires Remote(spammers, p0, locals, slots + 1) && OthersBelow(spammers, p0, locals, slots + 1)
    requires a in spammers && forall x | x in spammers :: x in p0 && |p0[x]| <= |p0[a]|
    ensures forall x | x in p0 && x !in locals :: |p0[x]| <= |p0[a]|
    ensures |p0[a]| > slots && Remote({a}, p0, locals, |p0[a]|)
  {
  }

  /** The length of a list whose original length reaches the level. */
  lemma ReachesLevel(p: Lists, p0: Lists, locals: set<Address>, level: nat, low: set<Address>, a: Address)
    requires AtLevel(p, p0, locals, level, low) && a in p0 && a !in locals && a !in low && |p0[a]| >= level
    ensures a in p && |p[a]| == level
  {
  }

  /** A round over the old offenders lowers the level by one. */
  lemma EqualizeRound(p: Lists, p': Lists, p0: Lists, locals: set<Address>, slots: nat, limit: nat,
                      offenders: seq<Address>, others: set<Address>, level: nat)
    requires Equalizing(p, p0, locals, slots, limit, offenders, others, level) && Total(p) > limit
    requires level > slots && offenders != [] && forall a | a in others :: |p0[a]| < level
    requires AtLevel(p', p0, locals, level, Members(offenders)) && Total(p') <= Total(p)
    ensures Equalizing(p', p0, locals, slots, limit, offenders, others, level - 1)
  {
    hide Lowest, Total;
    RoundDone(p', p0, locals, level, Members(offenders));
    AtLevelIsLeveled(p, p0, locals, level);
  }

  /** Once the level has come down to the next spammer, it joins the offenders. */
  lemma EqualizeJoin(p: Lists, p0: Lists, locals: set<Address>, slots: nat, limit: nat,
                     offenders: seq<Address>, spammers: set<Address>, level: nat, a: Address)
    requires Equalizing(p, p0, locals, slots, limit, offenders, spammers, level) && offenders != []
    requires a in spammers && (Total(p) > limit ==> level == |p0[a]|)
    ensures Equalizing(p, p0, locals, slots, limit, offenders + [a], spammers - {a}, level)
  {
    hide Lowest, Total, AtLevel, Leveled;
    MembersMore(offenders, a);
    assert a !in Members(offenders);
    assert Members(offenders + [a]) + (spammers - {a}) == Members(offenders) + spammers;
    forall i, j | 0 <= i < j < |offenders + [a]| ensures (offenders + [a])[i] != (offenders + [a])[j] {
      assert offenders[i] in Members(offenders);
    }
  }

  lemma MembersMore(s: seq<Address>, a: Address)
    ensures Members(s + [a]) == Members(s) + {a}
  {
    var t := s + [a];
    assert t[|s|] == a;
    forall x | x in Members(s) ensures x in Members(t) {
      var i :| 0 <= i < |s| && s[i] == x;
      assert t[i] == x;
    }
  }

  lemma EqualizeEnd(p: Lists, p0: Lists, locals: set<Address>, slots: nat, limit: nat,
                    offenders: seq<Address>, spammers: set<Address>, level: nat)
    requires Equalizing(p, p0, locals, slots, limit, offenders, spammers, level)
    requires Total(p) > limit ==> spammers == {} && (offenders == [] || level == slots)
    ensures FairCut(p0, p, locals, slots, limit)
  {
    hide Lowest, Total;
    if Total(p) > limit && offenders == [] {
      assert Members([]) == {};
      HighLevel(p0, locals, slots);
      HighLevel(p0, locals, slots + 1);
      FairLevel(p, p0, locals, slots, limit, slots);
    } else {
      FairLevel(p, p0, locals, slots, limit, level);
    }
  }
}
