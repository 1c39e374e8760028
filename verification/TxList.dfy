/** The transaction list of one account (core/tx_list.go, txList): a sorted map plus the caps that
    let `Filter` skip the scan. */
module TxLists {
  import opened Basics
  import opened Transactions
  import opened SortedMap

  // ---------------------------------------------------------------- what the operations mean

  /** Whether `tx` pays enough more than `listed` to replace it. */
  predicate Outbids(tx: Tx, listed: Tx, priceBump: nat) {
    listed.price < tx.price && listed.price * (100 + priceBump) / 100 <= tx.price
  }

  predicate Accepts(m: map<nat, Tx>, tx: Tx, priceBump: nat) {
    tx.nonce in m ==> Outbids(tx, m[tx.nonce], priceBump)
  }

  /** To replace a transaction, one must pay more and reach the price raised by `priceBump` percent, rounded down. */
  lemma AcceptsMeans(m: map<nat, Tx>, tx: Tx, priceBump: nat)
    ensures Accepts(m, tx, priceBump) <==>
      (tx.nonce in m ==> tx.price >= m[tx.nonce].price + 1 && 100 * (tx.price + 1) > m[tx.nonce].price * (100 + priceBump))
  {
    if tx.nonce in m {
      RoundedDown(m[tx.nonce].price * (100 + priceBump), tx.price);
    }
  }

  lemma RoundedDown(raised: nat, price: nat)
    ensures raised / 100 <= price <==> raised < 100 * (price + 1)
  {
  }

  /** Whether a balance and a block gas limit allow a transaction, in plain numbers: a stake-based one is charged only its fee. */
  lemma AffordableMeans(tx: Tx, balance: nat, gasLimit: nat)
    ensures Affordable(tx, balance, gasLimit) <==>
      tx.gas <= gasLimit && tx.price * tx.gas + (if tx.base == Main then tx.value else 0) <= balance
  {
  }

  function TooCostly(balance: nat, gasLimit: nat): Tx -> bool {
    (tx: Tx) => !Affordable(tx, balance, gasLimit)
  }

  function Beyond(nonce: nat): Tx -> bool {
    (tx: Tx) => tx.nonce > nonce
  }

  function Unpayable(m: map<nat, Tx>, balance: nat, gasLimit: nat): map<nat, Tx> {
    Satisfying(m, TooCostly(balance, gasLimit))
  }

  function Payable(m: map<nat, Tx>, balance: nat, gasLimit: nat): map<nat, Tx> {
    m - Unpayable(m, balance, gasLimit).Keys
  }

  /** What `Filter` keeps: a strict list is cut at its first unpayable transaction. */
  function Kept(m: map<nat, Tx>, strict: bool, balance: nat, gasLimit: nat): map<nat, Tx> {
    var bad := Unpayable(m, balance, gasLimit);
    if strict && bad != map[] then Below(m, MinKey(bad)) else Payable(m, balance, gasLimit)
  }

  /** The payable transactions that a strict list gives up because a lower nonce was unpayable. */
  function Stranded(m: map<nat, Tx>, strict: bool, balance: nat, gasLimit: nat): map<nat, Tx> {
    var bad := Unpayable(m, balance, gasLimit);
    if strict && bad != map[] then From(Payable(m, balance, gasLimit), MinKey(bad)) else map[]
  }

  /** What a removal at `nonce` leaves, and what it invalidates in a strict list. */
  function Without(m: map<nat, Tx>, strict: bool, nonce: nat): map<nat, Tx> {
    if strict && nonce in m then Below(m, nonce) else m - {nonce}
  }

  function Invalidated(m: map<nat, Tx>, strict: bool, nonce: nat): map<nat, Tx> {
    if strict && nonce in m then From(m, nonce + 1) else map[]
  }

  /** Filtering splits a list into what is kept, what is unpayable and what is stranded. */
  lemma FilterSplits(m: map<nat, Tx>, strict: bool, balance: nat, gasLimit: nat)
    ensures Kept(m, strict, balance, gasLimit).Keys !! Unpayable(m, balance, gasLimit).Keys
    ensures Kept(m, strict, balance, gasLimit).Keys !! Stranded(m, strict, balance, gasLimit).Keys
    ensures Stranded(m, strict, balance, gasLimit).Keys !! Unpayable(m, balance, gasLimit).Keys
    ensures m.Keys == Kept(m, strict, balance, gasLimit).Keys + Unpayable(m, balance, gasLimit).Keys
                      + Stranded(m, strict, balance, gasLimit).Keys
  {
    hide MinKey;
  }

  lemma FilterKeepsPayable(m: map<nat, Tx>, strict: bool, balance: nat, gasLimit: nat, n: nat)
    requires n in Kept(m, strict, balance, gasLimit)
    ensures n in m && Kept(m, strict, balance, gasLimit)[n] == m[n]
    ensures Affordable(m[n], balance, gasLimit)
  {
    var bad := Unpayable(m, balance, gasLimit);
    assert n !in bad;
  }

  // ---------------------------------------------------------------- the list with its caps

  /** The caps bound what every listed transaction is charged. A stake-based transaction may cost
      more than `costcap`: after a `Filter` only its fee is known to be below the cap. */
  ghost predicate Covered(m: map<nat, Tx>, costcap: nat, gascap: nat) {
    forall n | n in m :: Charge(m[n]) <= costcap && m[n].gas <= gascap
  }

  lemma CoveredIsPayable(m: map<nat, Tx>, costcap: nat, gascap: nat, strict: bool, balance: nat, gasLimit: nat)
    requires Covered(m, costcap, gascap) && costcap <= balance && gascap <= gasLimit
    ensures Unpayable(m, balance, gasLimit) == map[] && Stranded(m, strict, balance, gasLimit) == map[]
    ensures Kept(m, strict, balance, gasLimit) == m
  {
    forall n | n in m ensures n !in Unpayable(m, balance, gasLimit) {
      assert Affordable(m[n], balance, gasLimit);
    }
    assert Unpayable(m, balance, gasLimit) == map[];
    assert Payable(m, balance, gasLimit) == m;
  }

  /** After filtering, the lowered caps cover whatever is left. */
  lemma FilterCovers(m: map<nat, Tx>, balance: nat, gasLimit: nat)
    requires Keyed(m)
    ensures Covered(Payable(m, balance, gasLimit), balance, gasLimit)
    ensures Keyed(Unpayable(m, balance, gasLimit))
  {
    forall n | n in Payable(m, balance, gasLimit) ensures Affordable(m[n], balance, gasLimit) {
      assert n !in Unpayable(m, balance, gasLimit);
    }
  }

  lemma StrictCut(m: map<nat, Tx>, balance: nat, gasLimit: nat)
    requires Keyed(m) && Unpayable(m, balance, gasLimit) != map[]
    ensures var left, lowest := Payable(m, balance, gasLimit), MinKey(Unpayable(m, balance, gasLimit));
            && Satisfying(left, Beyond(lowest)) == Stranded(m, true, balance, gasLimit)
            && left - Satisfying(left, Beyond(lowest)).Keys == Kept(m, true, balance, gasLimit)
  {
    hide MinKey;
    var bad, left := Unpayable(m, balance, gasLimit), Payable(m, balance, gasLimit);
    var lowest := MinKey(bad);
    assert lowest !in left;
    assert Satisfying(left, Beyond(lowest)) == From(left, lowest);
    assert left - From(left, lowest).Keys == Below(m, lowest);
  }

  lemma LaxCut(m: map<nat, Tx>, strict: bool, balance: nat, gasLimit: nat, removed: seq<Tx>)
    requires Keyed(m) && Enumerates(removed, Unpayable(m, balance, gasLimit))
    requires !strict || |removed| == 0
    ensures Kept(m, strict, balance, gasLimit) == Payable(m, balance, gasLimit)
    ensures Stranded(m, strict, balance, gasLimit) == map[]
  {
    if |removed| == 0 {
      EnumeratesSize(removed, Unpayable(m, balance, gasLimit));
    }
  }

  lemma RemoveCut(m: map<nat, Tx>, strict: bool, nonce: nat, costcap: nat, gascap: nat)
    requires Keyed(m) && Covered(m, costcap, gascap)
    ensures Covered(Without(m, strict, nonce), costcap, gascap)
    ensures var rest := m - {nonce};
            if strict && nonce in m
            then && Satisfying(rest, Beyond(nonce)) == Invalidated(m, strict, nonce)
                 && rest - Satisfying(rest, Beyond(nonce)).Keys == Without(m, strict, nonce)
            else Without(m, strict, nonce) == rest && Enumerates([], Invalidated(m, strict, nonce))
  {
    if strict && nonce in m {
      assert Satisfying(m - {nonce}, Beyond(nonce)) == From(m, nonce + 1);
    }
  }

  method LowestNonce(s: seq<Tx>, ghost m: map<nat, Tx>) returns (lowest: nat)
    requires Keyed(m) && Enumerates(s, m) && |s| > 0
    ensures m != map[] && lowest == MinKey(m)
  {
    lowest := s[0].nonce;
    for i := 1 to |s|
      invariant lowest in m && forall j | 0 <= j < i :: lowest <= s[j].nonce
    {
      if lowest > s[i].nonce {
        lowest := s[i].nonce;
      }
    }
    forall n | n in m ensures lowest <= n {
      assert m[n] in s;
    }
  }

  class TxList {
    const strict: bool
    const txs: TxSortedMap
    var costcap: nat
    var gascap: nat

    ghost predicate Valid()
      reads this, txs
    {
      txs.Valid() && Covered(txs.items, costcap, gascap)
    }

    constructor (strict: bool)
      ensures Valid() && txs.items == map[] && this.strict == strict && fresh(txs)
    {
      this.strict, costcap, gascap := strict, 0, 0;
      txs := new TxSortedMap();
    }

    method Add(tx: Tx, priceBump: nat) returns (inserted: bool, replaced: Option<Tx>)
      requires Valid()
      modifies this, txs
      ensures Valid() && inserted == Accepts(old(txs.items), tx, priceBump)
      ensures inserted <==>
        (tx.nonce in old(txs.items) ==>
           var price := old(txs.items)[tx.nonce].price;
           tx.price >= price + 1 && 100 * (tx.price + 1) > price * (100 + priceBump))
      ensures txs.items == if inserted then old(txs.items)[tx.nonce := tx] else old(txs.items)
      ensures inserted ==> replaced == if tx.nonce in old(txs.items) then Some(old(txs.items)[tx.nonce]) else None
    {
      replaced := None;
      AcceptsMeans(txs.items, tx, priceBump);
      if tx.nonce in txs.items {
        var listed := txs.items[tx.nonce];
        var threshold := listed.price * (100 + priceBump) / 100;
        if listed.price >= tx.price || threshold > tx.price {
          return false, None;
        }
        replaced := Some(listed);
      }
      txs.Put(tx);
      if costcap < Cost(tx) { costcap := Cost(tx); }
      if gascap < tx.gas { gascap := tx.gas; }
      return true, replaced;
    }

    method Forward(threshold: nat) returns (removed: seq<Tx>)
      requires Valid()
      modifies this, txs
      ensures Valid() && txs.items == From(old(txs.items), threshold)
      ensures Flat(removed, Below(old(txs.items), threshold))
    {
      removed := txs.Forward(threshold);
    }

    /** The short cut through the caps never changes the outcome. */
    method Filter(mainbal: nat, gasLimit: nat) returns (removed: seq<Tx>, invalids: seq<Tx>)
      requires Valid()
      modifies this, txs
      ensures Valid() && txs.items == Kept(old(txs.items), strict, mainbal, gasLimit)
      ensures Enumerates(removed, Unpayable(old(txs.items), mainbal, gasLimit))
      ensures Enumerates(invalids, Stranded(old(txs.items), strict, mainbal, gasLimit))
    {
      ghost var m: map<nat, Tx> := txs.items;
      removed, invalids := [], [];
      if costcap <= mainbal && gascap <= gasLimit {
        CoveredIsPayable(m, costcap, gascap, strict, mainbal, gasLimit);
        return;
      }
      costcap, gascap := mainbal, gasLimit;
      removed := txs.Filter(TooCostly(mainbal, gasLimit));
      FilterCovers(m, mainbal, gasLimit);
      if strict && |removed| > 0 {
        var lowest := LowestNonce(removed, Unpayable(m, mainbal, gasLimit));
        invalids := txs.Filter(Beyond(lowest));
        StrictCut(m, mainbal, gasLimit);
      } else {
        LaxCut(m, strict, mainbal, gasLimit, removed);
      }
    }

    method Cap(threshold: nat) returns (drops: seq<Tx>)
      requires Valid()
      modifies this, txs
      ensures Valid() && txs.items == Lowest(old(txs.items), threshold)
      ensures Enumerates(drops, Excess(old(txs.items), threshold))
    {
      hide Lowest;
      drops := txs.Cap(threshold);
    }

    method Remove(tx: Tx) returns (found: bool, invalids: seq<Tx>)
      requires Valid()
      modifies this, txs
      ensures Valid() && found == (tx.nonce in old(txs.items))
      ensures txs.items == Without(old(txs.items), strict, tx.nonce)
      ensures Enumerates(invalids, Invalidated(old(txs.items), strict, tx.nonce))
    {
      hide Without, Invalidated, Satisfying, Enumerates, Covered, Beyond;
      ghost var m: map<nat, Tx> := txs.items;
      invalids := [];
      found := txs.Remove(tx.nonce);
      if found && strict {
        invalids := txs.Filter(Beyond(tx.nonce));
      }
      RemoveCut(m, strict, tx.nonce, costcap, gascap);
    }

    method Ready(start: nat) returns (ready: seq<Tx>)
      requires Valid()
      modifies this, txs
      ensures Valid() && txs.items == NotReady(old(txs.items), start)
      ensures Flat(ready, ReadyRun(old(txs.items), start))
    {
      hide ReadyRun;
      ready := txs.Ready(start);
    }

    method Flatten() returns (s: seq<Tx>)
      requires Valid()
      modifies txs`cache
      ensures Valid() && Flat(s, txs.items)
    {
      s := txs.Flatten();
    }
  }
}
