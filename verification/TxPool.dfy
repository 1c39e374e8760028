/** The transaction pool (core/tx_pool.go). The lists of the accounts are values here; their
    heap-indexed implementation is proved against the same functions in TxList.dfy. */
module TxPools {
  import opened Transactions
  import opened SortedMap
  import opened TxLists
  import opened PricedLists
  import opened PoolBooks
  import opened PoolSteps
  import opened PoolAdmission
  import opened PoolPromotion
  import opened PoolDemotion
  import opened PoolFairness
  import opened PoolPasses
  import opened PoolResets
  import opened PoolLoops
  import opened PoolAnswers

  class TxPool {
    const config: Config
    const priced: TxPricedList
    var gasPrice: nat
    var st: ChainState
    var locals: set<Address>
    var pending: Lists
    var queue: Lists
    var all: Lookup
    var virtuals: map<Address, nat>

    ghost function View(): Books
      reads this
    {
      Books(pending, queue, all, virtuals)
    }

    /** The pool's books are coherent and every transaction has an entry in the price heap. */
    ghost predicate Valid()
      reads this, priced
    {
      Coherent(View(), {}) && NoEmpty(pending) && NoEmpty(queue) && Covers(priced.items, all)
    }

    constructor (config: Config, priceLimit: nat, st: ChainState, locals: set<Address>)
      ensures Valid() && View() == Books(map[], map[], map[], map[]) && fresh(priced)
      ensures this.config == config && this.st == st && this.locals == locals && gasPrice == priceLimit
      ensures AboveFloor(all, locals, gasPrice)
      ensures InOrder(View(), st) && GapFree(View(), st) && WithinSlots(pending, locals, config.accountSlots, config.globalSlots)
    {
      this.config, this.st, this.locals, gasPrice := config, st, locals, priceLimit;
      pending, queue, all, virtuals := map[], map[], map[], map[];
      priced := new TxPricedList();
      new;
      EmptyInOrder(st);
    }

    lemma ViewIs()
      ensures View() == Books(pending, queue, all, virtuals)
    {
    }

    lemma ValidParts()
      requires Valid()
      ensures Coherent(View(), {}) && NoEmpty(pending) && NoEmpty(queue) && Covers(priced.items, all)
      ensures View() == Books(pending, queue, all, virtuals)
    {
    }

    lemma ValidIs()
      ensures Valid() <==> Coherent(View(), {}) && NoEmpty(pending) && NoEmpty(queue) && Covers(priced.items, all)
    {
    }

    lemma ValidWhole()
      requires Coherent(View(), {}) && NoEmpty(pending) && NoEmpty(queue) && Covers(priced.items, all)
      ensures Valid()
    {
    }

    lemma ValidAgain(b: Books)
      requires Coherent(b, {}) && NoEmpty(b.pending) && NoEmpty(b.queue) && Covers(priced.items, b.all)
      requires View() == Renumbered(b)
      ensures Valid()
    {
      hide Covers;
      ReVirtual(b, virtuals, {});
    }

    /** Composes what an earlier and a later step keep. */
    lemma ChainSteps(b0: Books, b: Books, items0: multiset<Tx>, items: multiset<Tx>)
      requires Keeps(b0, b, st, locals) && Keeps(b, View(), st, locals)
      requires KeepsLive(items0, items, b.all) && KeepsLive(items, priced.items, all)
      ensures Keeps(b0, View(), st, locals) && KeepsLive(items0, priced.items, all)
      ensures View() == Books(pending, queue, all, virtuals)
    {
      hide *;
      ViewIs();
      LiveAfter(b, View(), st, locals);
      KeepsLiveChain(items0, items, priced.items, b.all, all);
      KeepsTrans(b0, b, View(), st, locals);
    }

    /** Drops transactions that have already left their list from the table. */
    method DropAll(txs: set<Tx>)
      requires WellKeyed(all)
      modifies this`all, priced
      ensures all == old(all) - Hashes(txs) && WellKeyed(all)
      ensures KeepsLive(old(priced.items), priced.items, all)
    {
      hide *;
      ghost var gone: set<Tx> := {};
      var todo := txs;
      NoHashes(all);
      KeepsLiveRefl(priced.items, all);
      while todo != {}
        invariant gone + todo == txs && gone !! todo
        invariant all == old(all) - Hashes(gone) && WellKeyed(all)
        invariant KeepsLive(old(priced.items), priced.items, all)
      {
        var t :| t in todo;
        WellKeyedLess(all, {TxHash(t)});
        ForgetMore(old(all), gone, t);
        LessLive(all, {TxHash(t)});
        ghost var before, was := priced.items, all;
        all := all - {TxHash(t)};
        priced.Removed(all);
        KeepsLiveChain(old(priced.items), before, priced.items, was, all);
        todo, gone := todo - {t}, gone + {t};
      }
      assert gone == txs;
    }

    /** Files the transaction in its sender's queue unless a better one holds the nonce. */
    method EnqueueTx(tx: Tx) returns (replaced: bool, ok: bool)
      requires WellKeyed(all)
      modifies this`queue, this`all, priced
      ensures ok == Accepts(ListOf(old(queue), tx.from), tx, config.priceBump)
      ensures replaced == (ok && Slot(old(queue), tx.from, tx.nonce))
      ensures !ok ==> queue == old(queue) && all == old(all) && priced.items == old(priced.items)
      ensures ok ==> queue == Filing(old(queue), tx) && WellKeyed(all)
      ensures ok ==> all == (old(all) - Hashes(Values(Displaced(old(queue), tx))))[TxHash(tx) := tx]
      ensures KeepsLive(old(priced.items), priced.items, all)
      ensures ok && !Live(old(all), tx) ==> tx in priced.items
    {
      hide Filing, Displaced, Values, Accepts, KeepsLive, WellKeyed, Hashes;
      KeepsLiveRefl(priced.items, all);
      if !Accepts(ListOf(queue, tx.from), tx, config.priceBump) {
        return false, false;
      }
      var listed := Displaced(queue, tx);
      replaced, ok := Slot(queue, tx.from, tx.nonce), true;
      queue := Filing(queue, tx);
      DropAll(Values(listed));
      EntersTable(all, tx, priced.items, old(priced.items));
      if TxHash(tx) !in all {
        all := all[TxHash(tx) := tx];
        priced.Put(tx);
      }
    }

    /** Puts demoted transactions back into the queue, in any order. */
    method EnqueueAll(a: Address, txs: map<nat, Tx>)
      requires WellKeyed(all) && Unlisted(queue, all, a, txs)
      modifies this`queue, this`all, priced
      ensures queue == Put(old(queue), a, txs) && all == old(all)
      ensures KeepsLive(old(priced.items), priced.items, all)
    {
      hide *;
      var rest := txs;
      StartEnqueue(queue, a, txs);
      KeepsLiveRefl(priced.items, all);
      while rest != map[]
        invariant rest.Keys <= txs.Keys && all == old(all) && WellKeyed(all)
        invariant queue == Put(old(queue), a, txs - rest.Keys)
        invariant KeepsLive(old(priced.items), priced.items, all)
        decreases |rest|
      {
        var n :| n in rest;
        EnqueueStep(old(queue), all, config.priceBump, a, txs, rest, n);
        ghost var before := priced.items;
        var replaced, ok := EnqueueTx(txs[n]);
        KeepsLiveMore(old(priced.items), before, priced.items, all);
        rest := rest - {n};
      }
      EnqueueDone(txs, rest);
    }

    /** Adds the transaction to its sender's pending list, or drops it if a better one is there. */
    method PromoteTx(tx: Tx) returns (inserted: bool)
      requires WellKeyed(all)
      modifies this`pending, this`all, this`virtuals, priced
      ensures inserted == Accepts(ListOf(old(pending), tx.from), tx, config.priceBump)
      ensures !inserted ==> pending == old(pending) && virtuals == old(virtuals) && all == old(all) - Hashes({tx})
      ensures inserted ==> pending == Filing(old(pending), tx) && virtuals == old(virtuals)[tx.from := tx.nonce + 1]
      ensures inserted ==> all == (old(all) - Hashes(Values(Displaced(old(pending), tx))))[TxHash(tx) := tx]
      ensures WellKeyed(all) && KeepsLive(old(priced.items), priced.items, all)
      ensures inserted && !Live(old(all), tx) ==> tx in priced.items
    {
      hide Filing, Displaced, Values, Accepts, KeepsLive, WellKeyed, Hashes;
      if !Accepts(ListOf(pending, tx.from), tx, config.priceBump) {
        DropAll({tx});
        return false;
      }
      var listed := Displaced(pending, tx);
      pending := Filing(pending, tx);
      DropAll(Values(listed));
      EntersTable(all, tx, priced.items, old(priced.items));
      if TxHash(tx) !in all {
        all := all[TxHash(tx) := tx];
        priced.Put(tx);
      }
      virtuals := virtuals[tx.from := tx.nonce + 1];
      return true;
    }

    /** Promotes a run of transactions, lowest nonce first. */
    method PromoteRun(a: Address, run: map<nat, Tx>)
      requires WellKeyed(all) && Unlisted(pending, all, a, run)
      modifies this`pending, this`all, this`virtuals, priced
      ensures pending == Put(old(pending), a, run) && virtuals == RaisedVirtuals(old(virtuals), a, run)
      ensures all == old(all) && KeepsLive(old(priced.items), priced.items, all)
    {
      hide *;
      var rest := run;
      ghost var k: nat := 0;
      StartRun(pending, virtuals, a, run);
      KeepsLiveRefl(priced.items, all);
      while rest != map[]
        invariant rest == From(run, k) && all == old(all) && WellKeyed(all)
        invariant pending == Put(old(pending), a, Below(run, k))
        invariant virtuals == RaisedVirtuals(old(virtuals), a, Below(run, k))
        invariant KeepsLive(old(priced.items), priced.items, all)
        decreases |rest|
      {
        var n := MinKey(rest);
        RunStep(old(pending), old(virtuals), all, config.priceBump, a, run, k, n);
        ghost var before := priced.items;
        var inserted := PromoteTx(rest[n]);
        KeepsLiveMore(old(priced.items), before, priced.items, all);
        rest, k := rest - {n}, n + 1;
      }
      AllBelow(run, k);
    }

    /** Removes one transaction; the later pending nonces of its sender go back to the queue. */
    method RemoveTx(hash: TxHash, outofbound: bool)
      requires Coherent(View(), {})
      modifies this`pending, this`queue, this`all, this`virtuals, priced
      ensures View() == Removed(old(View()), st, hash.of)
      ensures KeepsLive(old(priced.items), priced.items, all)
    {
      hide Removed, KeepsLive, Coherent, Take, Put, Tidy, Hashes, From, Below, Unlisted, WellKeyed, Live;
      if hash !in all {
        NotThere(View(), st, hash);
        KeepsLiveRefl(priced.items, all);
        return;
      }
      CoherentTable(View());
      OneHash(all, hash);
      var tx := all[hash];
      var a, n := tx.from, tx.nonce;
      RemovalKinds(View(), st, tx);
      LessLive(all, {hash});
      all := all - {hash};
      KeepsLiveRefl(priced.items, all);
      if outofbound {
        priced.Removed(all);
      }
      if a in pending && n in pending[a] {
        var l := pending[a];
        CutKeepsBelow(pending, a, n);
        pending := Tidy(pending[a := Below(l, n)], a);
        ghost var before := priced.items;
        EnqueueAll(a, From(l, n + 1));
        KeepsLiveMore(old(priced.items), before, priced.items, all);
        if VirtualNonce(st, virtuals, a) > n {
          virtuals := virtuals[a := n];
        }
        return;
      }
      if a in queue {
        RemoveOneQueued(queue, tx);
        queue := Tidy(queue[a := queue[a] - {n}], a);
      }
    }

    /** One turn of the account loop of promoteExecutables. The list is shared in the source, so
        the queue sees its changes at once; here it is written back at the end. */
    method PromoteAccount(a: Address)
      requires Coherent(View(), {})
      modifies this`pending, this`queue, this`all, this`virtuals, priced
      ensures View() == Promoted(old(View()), st, locals, config.accountQueue, a)
      ensures KeepsLive(old(priced.items), priced.items, all)
    {
      hide *;
      ViewIs();
      if a !in queue {
        NotQueued(View(), st, locals, config.accountQueue, a);
        KeepsLiveRefl(priced.items, all);
        return;
      }
      PromotePlan(View(), st, locals, config.accountQueue, a);
      // drop transactions that are too old
      var past := Below(queue[a], NonceOf(st, a));
      var list := From(queue[a], NonceOf(st, a));
      DropAll(Values(past));
      ghost var items1, all1 := priced.items, all;
      // drop transactions that are too costly
      var drops := Unpayable(list, BalanceOf(st, a), st.gasLimit);
      list := Payable(list, BalanceOf(st, a), st.gasLimit);
      LessLive(all, Hashes(Values(drops)));
      DropAll(Values(drops));
      KeepsLiveChain(old(priced.items), items1, priced.items, all1, all);
      ghost var items2 := priced.items;
      // promote what has become executable
      var run := ReadyRun(list, VirtualNonce(st, virtuals, a));
      list := NotReady(list, VirtualNonce(st, virtuals, a));
      PromoteRun(a, run);
      KeepsLiveMore(old(priced.items), items2, priced.items, all);
      ghost var items3, all3 := priced.items, all;
      // drop transactions over the allowed limit
      if a !in locals {
        var over := Excess(list, config.accountQueue);
        list := Lowest(list, config.accountQueue);
        LessLive(all, Hashes(Values(over)));
        DropAll(Values(over));
        KeepsLiveChain(old(priced.items), items3, priced.items, all3, all);
      }
      queue := Tidy(queue[a := list], a);
      ViewIs();
    }

    /** One turn of the loop of demoteUnexecutables. */
    method DemoteAccount(a: Address)
      requires Coherent(View(), {}) && a in pending
      modifies this`pending, this`queue, this`all, priced
      ensures View() == Demoted(old(View()), st, a)
      ensures KeepsLive(old(priced.items), priced.items, all)
    {
      hide *;
      ViewIs();
      DemotePlan(View(), st, a);
      var past := Below(pending[a], NonceOf(st, a));
      var list := From(pending[a], NonceOf(st, a));
      DropAll(Values(past));
      ghost var items1, all1 := priced.items, all;
      // drop unpayable transactions and queue what comes after them
      var drops := Unpayable(list, BalanceOf(st, a), st.gasLimit);
      var invalids := Stranded(list, true, BalanceOf(st, a), st.gasLimit);
      list := Kept(list, true, BalanceOf(st, a), st.gasLimit);
      LessLive(all, Hashes(Values(drops)));
      DropAll(Values(drops));
      KeepsLiveChain(old(priced.items), items1, priced.items, all1, all);
      ghost var items2 := priced.items;
      EnqueueAll(a, invalids);
      KeepsLiveMore(old(priced.items), items2, priced.items, all);
      ghost var items3 := priced.items;
      // a gap in front postpones everything
      if NonceOf(st, a) !in list {
        EnqueueAll(a, list);
        KeepsLiveMore(old(priced.items), items3, priced.items, all);
        list := map[];
      }
      pending := Tidy(pending[a := list], a);
      ViewIs();
    }

    /** Cuts the highest transaction off the account's pending list: `Cap` to one less than its length. */
    method CutOne(a: Address)
      requires Coherent(View(), {}) && a in pending && pending[a] != map[]
      modifies this`pending, this`all, this`virtuals, priced
      ensures View() == CutTop(old(View()), st, a)
      ensures KeepsLive(old(priced.items), priced.items, all)
    {
      hide *;
      ViewIs();
      CoherentTable(View());
      CutTopIs(View(), st, a);
      CutTopVirtual(View(), st, a);
      var list := pending[a];
      var nonce := MaxKey(list);
      pending := pending[a := Lowest(list, |list| - 1)];
      DropAll({list[nonce]});
      if VirtualNonce(st, virtuals, a) > nonce {
        virtuals := virtuals[a := nonce];
      }
      ViewIs();
    }

    /** Cuts every offender by one transaction and returns the new count. */
    method CutRound(offenders: seq<Address>, count: nat, ghost p0: Lists, ghost level: nat) returns (left: nat)
      requires Coherent(View(), {}) && count == Total(pending)
      requires AtLevel(pending, p0, locals, level, {}) && level >= 1
      requires Distinct(offenders) && Remote(Members(offenders), p0, locals, level)
      modifies this`pending, this`all, this`virtuals, priced
      ensures Coherent(View(), {}) && Keeps(old(View()), View(), st, locals)
      ensures left == Total(pending) <= count && (offenders != [] ==> left < count)
      ensures AtLevel(pending, p0, locals, level, Members(offenders))
      ensures KeepsLive(old(priced.items), priced.items, all) && RolledBack(old(View()), View(), st)
    {
      hide *;
      left := count;
      KeepsRefl(View(), st, locals);
      KeepsLiveRefl(priced.items, all);
      NoMembers(offenders);
      RolledRefl(View(), st);
      ViewIs();
      for i := 0 to |offenders|
        invariant Coherent(View(), {}) && Keeps(old(View()), View(), st, locals)
        invariant left + i == count && left == Total(pending)
        invariant AtLevel(pending, p0, locals, level, Members(offenders[..i]))
        invariant KeepsLive(old(priced.items), priced.items, all) && RolledBack(old(View()), View(), st)
        invariant View() == Books(pending, queue, all, virtuals) && queue == old(queue)
      {
        var a := offenders[i];
        ghost var b, items := View(), priced.items;
        OffenderReady(pending, p0, locals, level, offenders, i);
        CutTopAllKept(b, st, a, locals);
        CutTopTotal(b, st, a);
        CutTopIs(b, st, a);
        CutTopRolls(b, st, a);
        RoundStep(pending, p0, locals, level, Members(offenders[..i]), a);
        CutOne(a);
        ChainSteps(old(View()), b, old(priced.items), items);
        RolledTrans(old(View()), b, View(), st);
        left := left - 1;
      }
      assert offenders[..|offenders|] == offenders;
    }

    /** Cuts all offenders round by round until the count fits or they are down to `floor`. */
    method LevelDown(offenders: seq<Address>, floor: nat, count: nat, ghost p0: Lists, ghost others: set<Address>,
                     ghost level0: nat) returns (left: nat, ghost level: nat)
      requires Coherent(View(), {}) && count == Total(pending)
      requires Equalizing(pending, p0, locals, config.accountSlots, config.globalSlots, offenders, others, level0)
      requires offenders != [] && config.accountSlots <= floor <= level0
      requires forall a | a in others :: a in p0 && |p0[a]| <= floor
      modifies this`pending, this`all, this`virtuals, priced
      ensures Coherent(View(), {}) && Keeps(old(View()), View(), st, locals)
      ensures Equalizing(pending, p0, locals, config.accountSlots, config.globalSlots, offenders, others, level)
      ensures left == Total(pending) && floor <= level && (left > config.globalSlots ==> level == floor)
      ensures KeepsLive(old(priced.items), priced.items, all) && RolledBack(old(View()), View(), st)
    {
      hide *;
      left, level := count, level0;
      RolledRefl(View(), st);
      KeepsRefl(View(), st, locals);
      KeepsLiveRefl(priced.items, all);
      ViewIs();
      while left > config.globalSlots && |ListOf(pending, offenders[|offenders| - 1])| > floor
        invariant Coherent(View(), {}) && Keeps(old(View()), View(), st, locals)
        invariant Equalizing(pending, p0, locals, config.accountSlots, config.globalSlots, offenders, others, level)
        invariant left == Total(pending) && floor <= level
        invariant KeepsLive(old(priced.items), priced.items, all) && RolledBack(old(View()), View(), st)
        invariant View() == Books(pending, queue, all, virtuals) && queue == old(queue)
        decreases left
      {
        ghost var b, items := View(), priced.items;
        OffendersAtLevel(pending, p0, locals, config.accountSlots, config.globalSlots, offenders, others, level);
        left := CutRound(offenders, left, p0, level);
        ChainSteps(old(View()), b, old(priced.items), items);
        RolledTrans(old(View()), b, View(), st);
        EqualizeRound(b.pending, pending, p0, locals, config.accountSlots, config.globalSlots, offenders, others,
                      level);
        level := level - 1;
      }
      if left > config.globalSlots {
        OffendersAtLevel(pending, p0, locals, config.accountSlots, config.globalSlots, offenders, others, level);
      }
    }

    /** Takes the next largest sender among the offenders, after cutting the others down to its length. */
    method TakeOn(offenders: seq<Address>, spammers: set<Address>, count: nat, ghost p0: Lists, ghost level0: nat)
      returns (offender: Address, left: nat, ghost level: nat)
      requires Coherent(View(), {}) && count == Total(pending) > config.globalSlots
      requires Equalizing(pending, p0, locals, config.accountSlots, config.globalSlots, offenders, spammers, level0)
      requires spammers != {}
      modifies this`pending, this`all, this`virtuals, priced
      ensures Coherent(View(), {}) && Keeps(old(View()), View(), st, locals)
      ensures offender in spammers && left == Total(pending)
      ensures Equalizing(pending, p0, locals, config.accountSlots, config.globalSlots,
                         offenders + [offender], spammers - {offender}, level)
      ensures KeepsLive(old(priced.items), priced.items, all) && RolledBack(old(View()), View(), st)
    {
      hide *;
      SpammersListed(pending, p0, locals, config.accountSlots, config.globalSlots, offenders, spammers, level0);
      offender := PopTallest(spammers, pending);
      if offenders == [] {
        RolledRefl(View(), st);
        KeepsRefl(View(), st, locals);
        KeepsLiveRefl(priced.items, all);
        EqualizeFirst(pending, p0, locals, config.accountSlots, config.globalSlots, spammers, level0, offender);
        left, level := count, |p0[offender]|;
        assert [] + [offender] == [offender];
      } else {
        left, level := LevelDown(offenders, |pending[offender]|, count, p0, spammers, level0);
        EqualizeJoin(pending, p0, locals, config.accountSlots, config.globalSlots, offenders, spammers, level,
                     offender);
      }
    }

    /** Equalises the pending lists of the largest remote senders until the total fits. */
    method EqualizePending(count: nat)
      requires Coherent(View(), {})
      requires count == Total(pending) > config.globalSlots
      modifies this`pending, this`all, this`virtuals, priced
      ensures Coherent(View(), {}) && Keeps(old(View()), View(), st, locals)
      ensures FairCut(old(pending), pending, locals, config.accountSlots, config.globalSlots)
      ensures NoEmpty(old(pending)) ==>
        (NoEmpty(pending) <==> SparesAll(old(pending), locals, config.accountSlots, config.globalSlots))
      ensures KeepsLive(old(priced.items), priced.items, all) && RolledBack(old(View()), View(), st)
    {
      hide *;
      ghost var p0 := pending;
      var left := count;
      var spammers := set a | a in pending && a !in locals && |pending[a]| > config.accountSlots;
      var offenders: seq<Address> := [];
      ghost var level: nat := EqualizeStart(p0, locals, config.accountSlots, config.globalSlots, spammers);
      ghost var b, items := View(), priced.items;
      KeepsRefl(b, st, locals);
      RolledRefl(b, st);
      KeepsLiveRefl(items, all);
      ViewIs();
      while left > config.globalSlots && spammers != {}
        invariant Coherent(View(), {}) && Keeps(old(View()), View(), st, locals)
        invariant Equalizing(pending, p0, locals, config.accountSlots, config.globalSlots, offenders, spammers, level)
        invariant left == Total(pending)
        invariant KeepsLive(old(priced.items), priced.items, all) && RolledBack(old(View()), View(), st)
        invariant View() == Books(pending, queue, all, virtuals) && queue == old(queue)
        decreases |spammers|
      {
        b, items := View(), priced.items;
        var offender;
        offender, left, level := TakeOn(offenders, spammers, left, p0, level);
        ChainSteps(old(View()), b, old(priced.items), items);
        RolledTrans(old(View()), b, View(), st);
        offenders, spammers := offenders + [offender], spammers - {offender};
      }
      if left > config.globalSlots && offenders != [] {
        LevelAboveSlots(pending, p0, locals, config.accountSlots, config.globalSlots, offenders, spammers, level);
        b, items := View(), priced.items;
        left, level := LevelDown(offenders, config.accountSlots, left, p0, spammers, level);
        ChainSteps(old(View()), b, old(priced.items), items);
        RolledTrans(old(View()), b, View(), st);
      }
      EqualizeEnd(pending, p0, locals, config.accountSlots, config.globalSlots, offenders, spammers, level);
      if NoEmpty(p0) {
        CutSpares(p0, pending, locals, config.accountSlots, config.globalSlots);
      }
    }

    /** Removes the `k` highest transactions of a remote sender's queue. */
    method DropHighest(a: Address, k: nat)
      requires Coherent(View(), {}) && NoEmpty(queue) && a in queue && a !in locals && k <= |queue[a]|
      modifies this`pending, this`queue, this`all, this`virtuals, priced
      ensures Coherent(View(), {}) && Keeps(old(View()), View(), st, locals)
      ensures pending == old(pending) && virtuals == old(virtuals) && OnlyShorter(old(queue), queue, a, k)
      ensures KeepsLive(old(priced.items), priced.items, all)
    {
      hide *;
      ghost var b, items := View(), priced.items;
      KeepsRefl(b, st, locals);
      KeepsLiveRefl(items, all);
      ShorterNone(queue, a);
      ViewIs();
      for i := 0 to k
        invariant Coherent(View(), {}) && Keeps(old(View()), View(), st, locals)
        invariant pending == old(pending) && virtuals == old(virtuals) && OnlyShorter(old(queue), queue, a, i)
        invariant KeepsLive(old(priced.items), priced.items, all)
        invariant View() == Books(pending, queue, all, virtuals)
      {
        b, items := View(), priced.items;
        StillListed(old(queue), queue, a, i);
        var tx := queue[a][MaxKey(queue[a])];
        QueuedRemoval(b, st, a, MaxKey(queue[a]));
        RemovedAllKept(b, st, tx, locals);
        ShorterMore(old(queue), queue, a, i, MaxKey(queue[a]));
        RemoveTx(TxHash(tx), true);
        ChainSteps(old(View()), b, old(priced.items), items);
      }
    }

    /** Removes everything a remote sender has queued. */
    method DropAllQueued(a: Address)
      requires Coherent(View(), {}) && NoEmpty(queue) && a in queue && a !in locals
      modifies this`pending, this`queue, this`all, this`virtuals, priced
      ensures Coherent(View(), {}) && NoEmpty(queue) && Keeps(old(View()), View(), st, locals)
      ensures pending == old(pending) && queue == old(queue) - {a}
      ensures KeepsLive(old(priced.items), priced.items, all)
    {
      hide *;
      var k := |queue[a]|;
      DropHighest(a, k);
      ShorterFacts(old(queue), queue, a, k);
      ShorterGone(old(queue), queue, a, k);
    }

    /** If more is queued than the hard limit, drops from remote senders until it fits or only locals
        remain. The source takes the senders in heartbeat order; any order is allowed here. */
    method TrimQueue()
      requires Coherent(View(), {}) && NoEmpty(queue)
      modifies this`pending, this`queue, this`all, this`virtuals, priced
      ensures Coherent(View(), {}) && NoEmpty(queue) && Keeps(old(View()), View(), st, locals)
      ensures pending == old(pending) && virtuals == old(virtuals) && ShrunkLists(old(queue), queue)
      ensures Trimmed(old(queue), queue, locals, config.globalQueue)
      ensures Total(queue) <= config.globalQueue || queue.Keys <= locals
      ensures KeepsLive(old(priced.items), priced.items, all)
    {
      hide *;
      ghost var b, items := View(), priced.items;
      KeepsRefl(b, st, locals);
      KeepsLiveRefl(items, all);
      ShrunkRefl(queue);
      TrimsNothing(queue, locals, config.globalQueue);
      ViewIs();
      var queued := CountLists(queue);
      if queued <= config.globalQueue {
        return;
      }
      TrimmingStarts(queue, locals, config.globalQueue);
      var drop: nat := queued - config.globalQueue;
      var addresses := queue.Keys - locals;
      while drop > 0 && addresses != {}
        invariant Coherent(View(), {}) && NoEmpty(queue) && Keeps(old(View()), View(), st, locals)
        invariant pending == old(pending) && virtuals == old(virtuals)
        invariant Trimming(old(queue), queue, locals, addresses, config.globalQueue, drop)
        invariant KeepsLive(old(priced.items), priced.items, all)
        invariant View() == Books(pending, queue, all, virtuals)
        decreases |addresses|
      {
        var a :| a in addresses;
        TrimmingIs(old(queue), queue, locals, addresses, config.globalQueue, drop);
        var size := |queue[a]|;
        var k := if size <= drop then size else drop;
        ghost var q := queue;
        b, items := View(), priced.items;
        DropHighest(a, k);
        ChainSteps(old(View()), b, old(priced.items), items);
        TrimmingOn(old(queue), q, queue, locals, addresses, config.globalQueue, drop, a, k);
        drop := drop - k;
        addresses := addresses - {a};
      }
      TrimmingDone(old(queue), queue, locals, addresses, config.globalQueue, drop);
    }

    /** The account loop of promoteExecutables. */
    method PromoteEach(accounts: set<Address>)
      requires Coherent(View(), {}) && NoEmpty(pending) && NoEmpty(queue)
      modifies this`pending, this`queue, this`all, this`virtuals, priced
      ensures Coherent(View(), {}) && NoEmpty(pending) && NoEmpty(queue) && Keeps(old(View()), View(), st, locals)
      ensures SettledIn(View(), st, accounts) && CappedIn(queue, accounts, locals, config.accountQueue)
      ensures PromotedIn(old(View()), View(), st, locals, config.accountQueue, accounts)
      ensures KeepsLive(old(priced.items), priced.items, all)
    {
      hide *;
      var todo := accounts;
      ghost var done: set<Address> := {};
      ghost var b, items := View(), priced.items;
      KeepsRefl(b, st, locals);
      KeepsLiveRefl(items, all);
      NoAccounts(b, st, queue, locals, config.accountQueue);
      PromotedInNone(b, st, locals, config.accountQueue);
      ViewIs();
      ghost var q0 := queue;
      while todo != {}
        invariant done + todo == accounts && done !! todo
        invariant PromotedIn(old(View()), View(), st, locals, config.accountQueue, done)
        invariant Coherent(View(), {}) && NoEmpty(pending) && NoEmpty(queue) && Keeps(old(View()), View(), st, locals)
        invariant SettledIn(View(), st, done) && CappedIn(queue, done, locals, config.accountQueue)
        invariant KeepsLive(old(priced.items), priced.items, all)
        invariant View() == Books(pending, queue, all, virtuals)
        decreases |todo|
      {
        var a :| a in todo;
        b, items := View(), priced.items;
        PromotedAllKept(b, st, locals, config.accountQueue, a, done);
        PromotedInOne(old(View()), b, st, locals, config.accountQueue, done, a);
        PromoteAccount(a);
        ChainSteps(old(View()), b, old(priced.items), items);
        todo, done := todo - {a}, done + {a};
      }
      assert done == accounts;
    }

    /** Promotes what has become executable for the given accounts, then enforces the pool's limits. */
    method PromoteExecutables(accounts: set<Address>) returns (ghost mid: Books)
      requires Valid()
      modifies this`pending, this`queue, this`all, this`virtuals, priced
      ensures config.accountSlots >= 1 ==> Valid()
      ensures Valid() <==> Total(mid.pending) <= config.globalSlots
                           || SparesAll(mid.pending, locals, config.accountSlots, config.globalSlots)
      ensures Coherent(View(), {}) && NoEmpty(queue) && Covers(priced.items, all) && Keeps(old(View()), View(), st, locals)
      ensures Promotes(old(View()), mid, View(), st, locals, config, accounts)
      ensures SettledIn(View(), st, accounts)
      ensures WithinSlots(pending, locals, config.accountSlots, config.globalSlots)
      ensures WithinQueue(queue, accounts, locals, config.accountQueue, config.globalQueue)
    {
      hide *;
      ValidParts();
      ghost var b, items := View(), priced.items;
      PromoteEach(accounts);
      var count := CountLists(pending);
      ghost var b1, items1 := View(), priced.items;
      mid := b1;
      ViewIs();
      PendingFits(b, b1, st, locals);
      RolledRefl(b1, st);
      LevelingIs(pending, locals, config.accountSlots, config.globalSlots);
      if count > config.globalSlots {
        EqualizePending(count);
        LevelingCut(b1.pending, pending, locals, config.accountSlots, config.globalSlots);
        FairCutFits(b1.pending, pending, locals, config.accountSlots, config.globalSlots);
        SettledStays(b1, View(), st, locals, accounts);
        ChainSteps(b, b1, items, items1);
      } else {
        FitsAlready(pending, locals, config.accountSlots, config.globalSlots);
      }
      ghost var b2, items2 := View(), priced.items;
      ViewIs();
      TrimQueue();
      SettledStays(b2, View(), st, locals, accounts);
      ChainSteps(b, b2, items, items2);
      ShrunkCapped(b2.queue, queue, accounts, locals, config.accountQueue);
      QueueFits(queue, accounts, locals, config.accountQueue, config.globalQueue);
      CoversAfter(b, View(), st, locals, items, priced.items);
      RolledStill(b1, b2, View(), st);
      PromotesIs(b, mid, View(), st, locals, config, accounts);
      ValidIs();
      SparedAnyway(mid.pending, locals, config.accountSlots, config.globalSlots);
    }

    /** Removes stale and unpayable transactions from the pending lists and postpones what comes after. */
    method DemoteUnexecutables()
      requires Valid()
      modifies this`pending, this`queue, this`all, priced
      ensures Valid() && LocalsKept(old(View()), View(), st, locals) && NothingNew(old(View()), View())
      ensures AllClean(View(), st)
      ensures Rooted(old(View()), st) ==> Rooted(View(), st)
      ensures AllClosed(old(View()), st) ==> AllClosed(View(), st)
      ensures DemotedIn(old(View()), View(), st, old(pending).Keys)
      ensures forall a :: a in pending ==> a in old(pending)
    {
      hide *;
      ValidParts();
      var todo := pending.Keys;
      ghost var b, items := View(), priced.items;
      StartDemotion(b, st, locals, todo);
      KeepsLiveRefl(items, all);
      while todo != {}
        invariant todo <= pending.Keys <= old(pending).Keys
        invariant Coherent(View(), {}) && NoEmpty(pending) && NoEmpty(queue)
        invariant Demoting(old(View()), View(), st, locals, todo)
        invariant KeepsLive(old(priced.items), priced.items, all)
        invariant View() == Books(pending, queue, all, virtuals)
        decreases |todo|
      {
        var a :| a in todo;
        b, items := View(), priced.items;
        DemotedStep(old(View()), b, st, locals, todo, a);
        DemoteAccount(a);
        ViewIs();
        KeepsLiveChain(old(priced.items), items, priced.items, b.all, all);
        todo := todo - {a};
      }
      DemotionDone(old(View()), View(), st, locals);
      CoversStill(old(View()), View(), old(priced.items), priced.items);
      ValidWhole();
    }

    /** Sets every account with pending transactions to continue after its last one. */
    method Renumber()
      requires NoEmpty(pending)
      modifies this`virtuals
      ensures View() == Renumbered(old(View()))
    {
      hide *;
      ViewIs();
      var todo := pending.Keys;
      ghost var v := virtuals;
      StartRenumber(v, pending);
      while todo != {}
        invariant todo <= pending.Keys && virtuals == RenumberedFor(v, pending, pending.Keys - todo)
      {
        var a :| a in todo;
        RenumberStep(v, pending, todo, a);
        virtuals := virtuals[a := MaxKey(pending[a]) + 1];
        todo := todo - {a};
      }
      ViewIs();
      RenumberDone(v, Books(pending, queue, all, v), pending.Keys - todo);
    }

    /** Removes the listed transactions one by one. */
    method RemoveEach(drop: seq<Tx>)
      requires Coherent(View(), {}) && NoEmpty(pending) && NoEmpty(queue)
      requires forall t | t in drop :: t.from !in locals
      modifies this`pending, this`queue, this`all, this`virtuals, priced
      ensures Coherent(View(), {}) && NoEmpty(pending) && NoEmpty(queue) && Keeps(old(View()), View(), st, locals)
      ensures forall t :: Live(all, t) <==> Live(old(all), t) && t !in drop
      ensures KeepsLive(old(priced.items), priced.items, all) && NoLonger(old(pending), pending)
    {
      hide *;
      ghost var b, items := View(), priced.items;
      KeepsRefl(b, st, locals);
      KeepsLiveRefl(items, all);
      ViewIs();
      NoLongerRefl(pending);
      for i := 0 to |drop|
        invariant Coherent(View(), {}) && NoEmpty(pending) && NoEmpty(queue) && Keeps(old(View()), View(), st, locals)
        invariant forall t :: Live(all, t) <==> Live(old(all), t) && t !in drop[..i]
        invariant KeepsLive(old(priced.items), priced.items, all) && NoLonger(old(pending), pending)
        invariant View() == Books(pending, queue, all, virtuals)
      {
        b, items := View(), priced.items;
        RemovedAllKept(b, st, drop[i], locals);
        RemovedTidy(b, st, drop[i]);
        RemovedExactly(b, st, drop[i]);
        RemovedNoLonger(b, st, drop[i]);
        RemoveTx(TxHash(drop[i]), false);
        ChainSteps(old(View()), b, old(priced.items), items);
        NoLongerTrans(old(pending), b.pending, pending);
        assert drop[..i + 1] == drop[..i] + [drop[i]];
      }
      assert drop[..|drop|] == drop;
    }

    /** Raises or lowers the price floor; exactly the remote transactions below it leave the pool. */
    method SetGasPrice(price: nat)
      requires Valid()
      modifies this`gasPrice, this`pending, this`queue, this`all, this`virtuals, priced
      ensures Valid() && gasPrice == price && Keeps(old(View()), View(), st, locals)
      ensures forall t :: Live(all, t) <==> Live(old(all), t) && (t.from in locals || t.price >= price)
      ensures NoLonger(old(pending), pending) && AboveFloor(all, locals, gasPrice)
    {
      hide *;
      ValidParts();
      gasPrice := price;
      var drop := priced.Cap(all, price, locals);
      ghost var items := priced.items;
      ViewIs();
      FloorDrops(drop, all, price, locals);
      RemoveEach(drop);
      ViewIs();
      CoversDropped(old(all), all, items, priced.items, drop);
      FloorSet(all, locals, gasPrice);
      ValidWhole();
    }

    /** Drops the queues of remote senders that have been inactive too long. */
    method Evict(expired: set<Address>)
      requires Valid()
      modifies this`pending, this`queue, this`all, this`virtuals, priced
      ensures Valid() && Keeps(old(View()), View(), st, locals) && pending == old(pending)
      ensures queue == old(queue) - (expired - locals)
    {
      hide *;
      ValidParts();
      ghost var b, items := View(), priced.items;
      KeepsRefl(b, st, locals);
      KeepsLiveRefl(items, all);
      ViewIs();
      var todo := Doomed(queue.Keys, expired, locals);
      ghost var kept := queue - todo;
      EvictStart(queue, expired, locals);
      while todo != {}
        invariant Coherent(View(), {}) && NoEmpty(queue) && Keeps(old(View()), View(), st, locals)
        invariant pending == old(pending) && Evicting(queue, kept, todo, locals)
        invariant KeepsLive(old(priced.items), priced.items, all)
        invariant View() == Books(pending, queue, all, virtuals)
        decreases |todo|
      {
        var a :| a in todo;
        b, items := View(), priced.items;
        EvictStep(queue, kept, todo, locals, a);
        DropAllQueued(a);
        ChainSteps(old(View()), b, old(priced.items), items);
        todo := todo - {a};
      }
      EvictDone(queue, kept, locals);
      CoversAfter(old(View()), View(), st, locals, old(priced.items), priced.items);
      ValidWhole();
    }

    /** Makes room in a full pool: refuses a remote transaction that is no dearer than the cheapest
        one, and otherwise drops the worst remote transactions. */
    method MakeRoom(tx: Tx, local: bool) returns (ok: bool)
      requires Valid()
      modifies this`pending, this`queue, this`all, this`virtuals, priced
      ensures Valid() && Keeps(old(View()), View(), st, locals)
      ensures NoLonger(old(pending), pending)
      ensures !ok <==> RefusesCheap(old(all), config, locals, tx, local)
      ensures !ok || |old(all)| < config.globalSlots + config.globalQueue ==> View() == old(View())
      ensures WorstFirst(old(all), all, locals)
      ensures ok && |old(all)| >= config.globalSlots + config.globalQueue ==> |all| + 1 >= config.globalSlots + config.globalQueue
      ensures ok && |old(all)| >= config.globalSlots + config.globalQueue ==>
        RoomMade(Candidates(old(priced.items), old(all), locals), old(all), all, locals, config.globalSlots + config.globalQueue)
    {
      hide *;
      ValidParts();
      KeepsRefl(View(), st, locals);
      NoLongerRefl(pending);
      NothingDropped(all, locals);
      Refusal(all, config, locals, tx, local);
      if |all| < config.globalSlots + config.globalQueue {
        return true;
      }
      if !local {
        var cheap := priced.Underpriced(all, tx, locals);
        if cheap {
          ValidWhole();
          return false;
        }
      }
      SameCandidates(old(priced.items), priced.items, all, locals);
      var drop := priced.Discard(all, |all| + 1 - (config.globalSlots + config.globalQueue), locals);
      ghost var items := priced.items;
      ViewIs();
      RemoveEach(drop);
      ViewIs();
      CoversDropped(old(all), all, items, priced.items, drop);
      DroppedWorst(old(all), all, locals, drop);
      CoherentKeyed(old(View()), View());
      MakesRoom(Candidates(old(priced.items), old(all), locals), old(all), all, locals, config.globalSlots + config.globalQueue, drop);
      ValidWhole();
      return true;
    }

    /** Puts a validated transaction in its place: over a pending one it outbids, or into the queue. */
    method Place(tx: Tx) returns (r: AddResult)
      requires Valid() && !Live(all, tx)
      modifies this`pending, this`queue, this`all, priced
      ensures Valid()
      ensures Placed(old(View()), View(), config.priceBump, tx, r) && NoLonger(old(pending), pending)
    {
      hide *;
      ValidParts();
      CoherentTable(View());
      ghost var b := View();
      AdmissionIs(b, tx);
      if Slot(pending, tx.from, tx.nonce) {
        if !Accepts(ListOf(pending, tx.from), tx, config.priceBump) {
          PlacedIs(b, b, config.priceBump, tx, Refused(ReplaceUnderpriced));
          PlacedNoLonger(b, b, config.priceBump, tx, Refused(ReplaceUnderpriced));
          return Refused(ReplaceUnderpriced);
        }
        ReplacedSound(b, tx);
        var listed := Displaced(pending, tx);
        pending := Filing(pending, tx);
        DropAll(Values(listed));
        EntersTable(all, tx, priced.items, old(priced.items));
        all := all[TxHash(tx) := tx];
        priced.Put(tx);
        r := Added(true);
      } else {
        EnqueuedSound(b, tx);
        var replaced, ok := EnqueueTx(tx);
        if !ok {
          ViewIs();
          ValidWhole();
          PlacedIs(b, View(), config.priceBump, tx, Refused(ReplaceUnderpriced));
          PlacedNoLonger(b, View(), config.priceBump, tx, Refused(ReplaceUnderpriced));
          return Refused(ReplaceUnderpriced);
        }
        r := Added(replaced);
      }
      ViewIs();
      CoversAdmitted(b, all, Hashes(Values(Displaced(if r == Added(true) && Slot(b.pending, tx.from, tx.nonce) then b.pending else b.queue, tx))),
                     tx, old(priced.items), priced.items);
      ValidWhole();
      PlacedIs(b, View(), config.priceBump, tx, r);
      PlacedNoLonger(b, View(), config.priceBump, tx, r);
    }

    /** Validates a transaction and places it, making room for it if the pool is full. */
    method Add(tx: Tx, local: bool, sane: bool) returns (r: AddResult, ghost mid: Books)
      requires Valid()
      modifies this`pending, this`queue, this`all, this`virtuals, this`locals, priced
      ensures Valid()
      ensures AddKeeps(old(View()), old(priced.items), mid, View(), st, old(locals), config, gasPrice, tx, local, sane, r)
      ensures locals == old(locals) + NewLocal(mid, tx, local, r) && NoLonger(old(pending), pending)
      ensures AboveFloor(old(all), old(locals), gasPrice) ==> AboveFloor(all, locals, gasPrice)
    {
      hide *;
      ValidParts();
      ghost var b := View();
      mid := b;
      ViewIs();
      NoLongerRefl(pending);
      if Live(all, tx) {
        RefusedKeeps(b, old(priced.items), st, locals, config, gasPrice, tx, local, sane, Known);
        NoNewLocal(mid, tx, local, Refused(Known), locals);
        return Refused(Known), mid;
      }
      var invalid := Validate(st, gasPrice, locals, tx, local, sane);
      if invalid.Some? {
        RefusedKeeps(b, old(priced.items), st, locals, config, gasPrice, tx, local, sane, invalid.value);
        NoNewLocal(mid, tx, local, Refused(invalid.value), locals);
        return Refused(invalid.value), mid;
      }
      var ok := MakeRoom(tx, local);
      if !ok {
        ViewIs();
        RefusedKeeps(b, old(priced.items), st, locals, config, gasPrice, tx, local, sane, Underpriced);
        NoNewLocal(mid, tx, local, Refused(Underpriced), locals);
        return Refused(Underpriced), mid;
      }
      mid := View();
      RoomedIs(b, old(priced.items), mid, st, locals, config.globalSlots + config.globalQueue);
      StillUnknown(b, mid, st, locals, tx);
      ViewIs();
      ValidParts();
      var overlaps := Slot(pending, tx.from, tx.nonce);
      r := Place(tx);
      ViewIs();
      NoLongerTrans(b.pending, mid.pending, pending);
      PlacedKeeps(b, old(priced.items), mid, View(), st, locals, config, gasPrice, tx, local, sane, r);
      NoNewLocal(mid, tx, local, r, locals);
      ViewIs();
      if AboveFloor(b.all, locals, gasPrice) {
        AddKeepsParts(b, old(priced.items), mid, View(), st, locals, config, gasPrice, tx, local, sane, r);
        AddedAboveFloor(b, old(priced.items), mid, View(), st, locals, config, gasPrice, tx, local, sane, r);
      }
      if local && r.Added? && !overlaps {
        ViewIs();
        ValidParts();
        locals := locals + {tx.from};
        ViewIs();
        ValidWhole();
      }
    }

    /** Adds one transaction and promotes its sender's executables if it is new. */
    method AddTx(tx: Tx, local: bool, sane: bool)
      returns (r: AddResult, ghost mid: Books, ghost added: Books, ghost promoted: Books)
      requires Valid() && config.accountSlots >= 1
      modifies this`pending, this`queue, this`all, this`virtuals, this`locals, priced
      ensures Valid() && KeepsOrder(old(View()), View(), st)
      ensures AllSettled(old(View()), st) ==> AllSettled(View(), st)
      ensures GapFree(old(View()), st) && NothingWaits(old(View()), st) ==> NothingWaits(View(), st)
      ensures LostOnlyTo(old(View()), View(), st, old(locals), tx, config.priceBump)
      ensures OnlyNew(old(View()), View(), tx, r)
      ensures AboveFloor(old(all), old(locals), gasPrice) ==> AboveFloor(all, locals, gasPrice)
      ensures old(WithinSlots(pending, locals, config.accountSlots, config.globalSlots)) ==>
        WithinSlots(pending, locals, config.accountSlots, config.globalSlots)
      // The stages, each exact: room, placing, and the promotion after a new transaction.
      ensures Answered(old(View()), old(priced.items), mid, added, st, old(locals), config, gasPrice, tx, local, sane, r)
      ensures locals == old(locals) + NewLocal(mid, tx, local, r)
      ensures r != Added(false) ==> View() == added
      ensures r == Added(false) ==> Promotes(added, promoted, View(), st, locals, config, {tx.from})
    {
      hide *;
      ghost var b := View();
      r, mid := Add(tx, local, sane);
      ViewIs();
      added, promoted := View(), View();
      AddKeepsParts(b, old(priced.items), mid, added, st, old(locals), config, gasPrice, tx, local, sane, r);
      StaysWithin(old(pending), pending, old(locals), locals, config.accountSlots, config.globalSlots);
      if r == Added(false) {
        promoted := PromoteExecutables({tx.from});
        SettledAgain(b, added, View(), st, locals, {tx.from});
        OrderTrans(b, added, View(), st, locals);
        LostTrans(b, added, View(), st, old(locals), locals, tx, config.priceBump);
        OnlyNewStill(b, added, View(), st, locals, tx, r);
        ViewIs();
        KeptNothingNew(added, View(), st, locals);
        if AboveFloor(added.all, locals, gasPrice) {
          FloorKept(added, View(), st, locals, gasPrice);
        }
      } else {
        SettledThrough(b, added, st);
      }
      WaitsThrough(b, View(), st);
    }

    /** Adds a batch of transactions, then promotes the executables of every sender that got a new one. */
    method AddTxsLocked(txs: seq<(Tx, bool)>, local: bool)
      returns (results: seq<AddResult>, ghost steps: seq<Addition>, ghost promoted: Books)
      requires Valid() && config.accountSlots >= 1
      modifies this`pending, this`queue, this`all, this`virtuals, this`locals, priced
      ensures Valid() && KeepsOrder(old(View()), View(), st)
      ensures AllSettled(old(View()), st) ==> AllSettled(View(), st)
      ensures GapFree(old(View()), st) && NothingWaits(old(View()), st) ==> NothingWaits(View(), st)
      ensures OnlyListed(old(View()), View(), txs, results)
      ensures AboveFloor(old(all), old(locals), gasPrice) ==> AboveFloor(all, locals, gasPrice)
      ensures LostOnlyToSome(old(View()), View(), st, old(locals), txs, config.priceBump)
      ensures old(WithinSlots(pending, locals, config.accountSlots, config.globalSlots)) ==>
        WithinSlots(pending, locals, config.accountSlots, config.globalSlots)
      // The stages, each exact: every transaction in turn, and one promotion at the end.
      ensures steps != [] ==> steps[0].items == old(priced.items)
      ensures |results| == |txs| && Replies(steps, old(View()), old(locals), st, config, gasPrice, txs, local)
      ensures results == AnswersOf(steps)
      ensures locals == LocalsAfter(steps, old(locals), txs, local)
      ensures PromotesSome(BooksAfter(steps, old(View())), promoted, View(), st, locals, config, NewSenders(steps, txs))
    {
      hide *;
      results, steps := [], [];
      var dirty: set<Address> := {};
      ghost var b := View();
      StartBatch(b, st);
      NoLongerRefl(pending);
      StartReplies(b, locals, st, config, gasPrice, txs, local);
      for i := 0 to |txs|
        invariant Valid() && |results| == |steps| == i && KeepsOrder(b, View(), st) && StaySettled(b, View(), st, dirty)
        invariant Replies(steps, b, old(locals), st, config, gasPrice, txs[..i], local) && results == AnswersOf(steps)
        invariant View() == BooksAfter(steps, b) && locals == LocalsAfter(steps, old(locals), txs[..i], local)
        invariant dirty == NewSenders(steps, txs[..i]) && old(locals) <= locals
        invariant OnlyListed(b, View(), txs[..i], results)
        invariant LostOnlyToSome(b, View(), st, old(locals), txs[..i], config.priceBump)
        invariant NoLonger(old(pending), pending)
        invariant AboveFloor(old(all), old(locals), gasPrice) ==> AboveFloor(all, locals, gasPrice)
        invariant (steps == [] ==> priced.items == old(priced.items)) && (steps != [] ==> steps[0].items == old(priced.items))
      {
        ghost var b1, items1, locals1, pending1 := View(), priced.items, locals, pending;
        var r;
        ghost var mid;
        r, mid := Add(txs[i].0, local, txs[i].1);
        NoLongerTrans(old(pending), pending1, pending);
        AddKeepsParts(b1, items1, mid, View(), st, locals1, config, gasPrice, txs[i].0, local, txs[i].1, r);
        BatchStep(b, b1, View(), st, dirty, if r == Added(false) then {txs[i].0.from} else {});
        ghost var step := Addition(b1, items1, mid, View(), locals1, r);
        RepliesMore(steps, step, b, old(locals), st, config, gasPrice, txs[..i], txs[i], local);
        ListedMore(b, b1, View(), txs[..i], txs[i], results, r);
        LostMore(b, b1, View(), st, old(locals), locals1, txs[..i], txs[i], config.priceBump);
        assert txs[..i] + [txs[i]] == txs[..i + 1];
        if r == Added(false) {
          dirty := dirty + {txs[i].0.from};
        } else {
          assert dirty + {} == dirty;
        }
        results, steps := results + [r], steps + [step];
      }
      assert txs[..|txs|] == txs;
      StaysWithin(old(pending), pending, old(locals), locals, config.accountSlots, config.globalSlots);
      ghost var b1 := View();
      ViewIs();
      promoted := b1;
      PromotesNone(b1, promoted, st, locals, config);
      if dirty != {} {
        promoted := PromoteExecutables(dirty);
        PromotesAll(b1, promoted, View(), st, locals, config, dirty);
        SettledAgain(b, b1, View(), st, locals, dirty);
        OrderTrans(b, b1, View(), st, locals);
        ListedStill(b, b1, View(), st, locals, txs, results);
        ViewIs();
        KeptNothingNew(b1, View(), st, locals);
        if AboveFloor(b1.all, locals, gasPrice) {
          FloorKept(b1, View(), st, locals, gasPrice);
        }
        LostStill(b, b1, View(), st, old(locals), locals, txs, config.priceBump);
      } else {
        SettledThrough(b, View(), st);
      }
      WaitsThrough(b, View(), st);
    }

    /** Adopts a new chain state, given the transactions the reorganisation set free. */
    method Reset(newState: ChainState, reinject: seq<(Tx, bool)>)
      returns (ghost steps: seq<Addition>, ghost repromoted: Books, ghost readded: Books, ghost demoted: Books,
               ghost promoted: Books)
      requires Valid() && config.accountSlots >= 1
      modifies this`st, this`pending, this`queue, this`all, this`virtuals, this`locals, priced
      ensures Valid() && st == newState && locals == old(locals)
      ensures Rooted(View(), st) && Started(View(), st) && AllSettled(View(), st)
      ensures WithinSlots(pending, locals, config.accountSlots, config.globalSlots)
      ensures reinject == [] ==> LocalsKept(old(View()), View(), st, locals)
      ensures AboveFloor(old(all), locals, gasPrice) ==> AboveFloor(all, locals, gasPrice)
      // Gaps: none without reinjected transactions; with room for all of them, only for a torn sender; and in general
      // whatever the demotion leaves, which only the cut to the slots can change again. Without gaps nothing waits, and
      // with room nothing does in any case.
      ensures GapFree(old(View()), old(st)) && reinject == [] ==> GapFree(View(), st)
      ensures GapFree(View(), st) ==> NothingWaits(View(), st)
      ensures var added := Reinjected(old(View()).(virtuals := map[]), st, locals, gasPrice, config.priceBump, reinject);
        GapFree(old(View()), old(st)) && HasRoom(old(View()), added, st, config, reinject) ==>
          && NothingWaits(View(), st)
          && (NoneTorn(added, st) ==> GapFree(View(), st))
          && (Total(promoted.pending) <= config.globalSlots && GapFree(View(), st) ==> NoneTorn(added, st))
          && ((forall a: Address :: NonceOf(old(st), a) <= NonceOf(st, a) || NoneOf(reinject, a)) ==> NoneTorn(added, st))
      ensures var added := Reinjected(old(View()).(virtuals := map[]), st, locals, gasPrice, config.priceBump, reinject);
        GapFree(old(View()), old(st)) && |old(all)| + |reinject| <= config.globalSlots ==>
          HasRoom(old(View()), added, st, config, reinject) && (GapFree(View(), st) <==> NoneTorn(added, st))
      ensures AllClosed(demoted, st) && AllCaughtUp(demoted, st) ==> GapFree(View(), st)
      ensures Total(promoted.pending) <= config.globalSlots && GapFree(View(), st) ==> AllClosed(demoted, st) && AllCaughtUp(demoted, st)
      // The stages, each exact: fresh virtual nonces and the reinjected transactions, demotion, renumbering and promotion,
      // the limits.
      ensures Replies(steps, old(View()).(virtuals := map[]), locals, st, config, gasPrice, reinject, false)
      ensures PromotesSome(BooksAfter(steps, old(View()).(virtuals := map[])), repromoted, readded, st, locals, config,
                           NewSenders(steps, reinject))
      ensures DemotedIn(readded, demoted, st, readded.pending.Keys) && NoEmpty(demoted.pending)
      ensures Promotes(Renumbered(demoted), promoted, View(), st, locals, config, demoted.queue.Keys)
    {
      hide *;
      ValidParts();
      ghost var b0, st0 := View(), st;
      st, virtuals := newState, map[];
      ViewIs();
      ManagedAnew(b0, View(), st0, st);
      ValidWhole();
      ghost var b1, locals0 := View(), locals;
      var results;
      results, steps, repromoted := AddTxsLocked(reinject, false);
      RemoteBatch(steps, b1, repromoted, View(), locals0, st, config, gasPrice, reinject);
      RootedThrough(b1, View(), st);
      ValidParts();
      ghost var b2 := View();
      readded := b2;
      DemoteUnexecutables();
      ValidParts();
      ghost var b3 := View();
      demoted := b3;
      DemotedReady(b2, b3, st);
      Renumber();
      RenumberedAll(b3, st);
      ViewIs();
      ValidAgain(b3);
      ghost var b4 := View();
      RenumberedExactly(b3, st);
      ValidParts();
      promoted := PromoteExecutables(queue.Keys);
      ResetDone(b4, View(), st, locals);
      ViewIs();
      if AboveFloor(b2.all, locals, gasPrice) {
        FloorKept(b2, b3, st, locals, gasPrice);
        KeptNothingNew(b4, View(), st, locals);
        FloorKept(b4, View(), st, locals, gasPrice);
      }
      ResetBack(b3, promoted, View(), st, locals, config);
      if GapFree(b0, st0) {
        UnforcedReset(b0, b1, b2, b3, st0, st);
        if |old(all)| + |reinject| <= config.globalSlots {
          SmallHasRoom(b0, b1, b2, b3, promoted, View(), st0, st, locals, config, gasPrice, reinject, results, steps);
        }
        if HasRoom(b0, Reinjected(b1, st, locals, gasPrice, config.priceBump, reinject), st, config, reinject) {
          RoomyReset(b0, b1, repromoted, b2, b3, promoted, View(), st0, st, locals, config, gasPrice, reinject, steps);
        }
      }
      if GapFree(View(), st) {
        GapFreeWaits(View(), st);
      }
      if reinject == [] {
        ResetLoss(b0, b2, b3, b4, View(), st, locals);
      }
    }

    /** Any run of public operations: the books stay coherent, every pending list starts exactly at
        its sender's state nonce with a payable transaction, no virtual nonce is queued, and the pending
        lists stay within the slots; and as long as no new head sets transactions free, every pending list
        is gap free and nothing that could run next waits in the queue. */
    method Run(ops: seq<PoolOp>)
      requires Valid() && config.accountSlots >= 1 && InOrder(View(), st)
      modifies this, priced
      ensures Valid() && InOrder(View(), st)
      ensures NothingFreed(ops) && GapFree(old(View()), old(st)) ==> GapFree(View(), st) && NothingWaits(View(), st)
      ensures old(WithinSlots(pending, locals, config.accountSlots, config.globalSlots)) ==>
        WithinSlots(pending, locals, config.accountSlots, config.globalSlots)
      ensures old(AboveFloor(all, locals, gasPrice)) ==> AboveFloor(all, locals, gasPrice)
    {
      hide *;
      for i := 0 to |ops|
        invariant Valid() && InOrder(View(), st)
        invariant NothingFreed(ops) && GapFree(old(View()), old(st)) ==> GapFree(View(), st)
        invariant old(WithinSlots(pending, locals, config.accountSlots, config.globalSlots)) ==>
          WithinSlots(pending, locals, config.accountSlots, config.globalSlots)
        invariant old(AboveFloor(all, locals, gasPrice)) ==> AboveFloor(all, locals, gasPrice)
      {
        ghost var b, pending1 := View(), pending;
        ViewIs();
        FreedNone(ops, i);
        match ops[i]
        case AddOne(tx, local, sane) =>
          var r, _, _, _ := AddTx(tx, local, sane);
          OrderKept(b, View(), st);
        case AddMany(txs, local) =>
          var results, _, _ := AddTxsLocked(txs, local);
          OrderKept(b, View(), st);
        case SetPrice(price) =>
          SetGasPrice(price);
          StaysWithin(pending1, pending, locals, locals, config.accountSlots, config.globalSlots);
          KeepsInOrder(b, View(), st, locals);
        case Expire(accounts) =>
          Evict(accounts);
          ViewIs();
          KeptNothingNew(b, View(), st, locals);
          if AboveFloor(b.all, locals, gasPrice) {
            FloorKept(b, View(), st, locals, gasPrice);
          }
          KeepsInOrder(b, View(), st, locals);
        case NewHead(st', reinject) =>
          var _, _, _, _, _ := Reset(st', reinject);
          ResetInOrder(View(), st);
      }
      if GapFree(View(), st) {
        OrderSettled(View(), st);
        GapFreeWaits(View(), st);
      }
    }
  }
}
