/** Weighted random selection (les/randselect.go, weightedRandomSelect). Random draws and the
    callback that reports an item's current weight are nondeterministic choices. */
module RandSelect {
  import opened WrsTree
  import opened WrsNodes

  datatype Choice = Nothing | Chosen(item: Item)

  /** `idx` is a one-to-one index of the held leaves. */
  ghost predicate Indexed(root: Tree, idx: map<Item, nat>) {
    && WellFormed(root)
    && (forall x | x in idx :: idx[x] < Capacity(root.level) && Leaves(root)[idx[x]].Held? && Leaves(root)[idx[x]].item == x)
    && (forall i | 0 <= i < Capacity(root.level) && Leaves(root)[i].Held? ::
          Leaves(root)[i].item in idx && idx[Leaves(root)[i].item] == i)
  }

  /** The set of items with their weights that the tree stands for. */
  ghost function Weighted(root: Tree, idx: map<Item, nat>): map<Item, nat>
    requires Indexed(root, idx)
  {
    map x | x in idx :: Leaves(root)[idx[x]].weight
  }

  // ---------------------------------------------------------------- the updates

  lemma Changed(root: Tree, root': Tree, idx: map<Item, nat>, x: Item, weight: nat)
    requires Indexed(root, idx) && WellFormed(root') && root'.level == root.level && x in idx && weight > 0
    requires Leaves(root') == Leaves(root)[idx[x] := Held(x, weight)]
    ensures Indexed(root', idx) && Weighted(root', idx) == Weighted(root, idx)[x := weight]
  {
    hide WellFormed, Leaves, Capacity;
  }

  lemma Dropped(root: Tree, root': Tree, idx: map<Item, nat>, x: Item)
    requires Indexed(root, idx) && WellFormed(root') && root'.level == root.level && x in idx
    requires Leaves(root') == Leaves(root)[idx[x] := Gap]
    ensures Indexed(root', idx - {x}) && Weighted(root', idx - {x}) == Weighted(root, idx) - {x}
  {
    hide WellFormed, Leaves, Capacity;
  }

  lemma Entered(root: Tree, root': Tree, idx: map<Item, nat>, x: Item, i: nat, weight: nat)
    requires Indexed(root, idx) && WellFormed(root') && root'.level == root.level && x !in idx
    requires i < Capacity(root.level)
    requires Leaves(root)[i] == Gap && Leaves(root') == Leaves(root)[i := Held(x, weight)]
    ensures Indexed(root', idx[x := i]) && Weighted(root', idx[x := i]) == Weighted(root, idx)[x := weight]
  {
    hide WellFormed, Leaves, Capacity;
  }

  lemma Grown(root: Tree, idx: map<Item, nat>)
    requires Indexed(root, idx)
    ensures Indexed(Grow(root), idx) && Weighted(Grow(root), idx) == Weighted(root, idx)
    ensures Grow(root).sumWeight == root.sumWeight
    ensures root.itemCnt == Capacity(root.level) ==> Grow(root).itemCnt < Capacity(Grow(root).level)
  {
    hide WellFormed, Leaves;
    GrowKeepsIndices(root);
  }

  // ---------------------------------------------------------------- the choice

  /** A chosen item is in the set, with the weight the tree reports. */
  lemma ChoiceIsWeighted(root: Tree, idx: map<Item, nat>, val: nat)
    requires Indexed(root, idx) && val < root.sumWeight
    ensures var (x, w) := Choose(root, val); x in idx && x in Weighted(root, idx) && Weighted(root, idx)[x] == w > 0
  {
    ChooseIsPick(root, val);
    hide WellFormed, Leaves, Choose, Pick;
  }

  /** A tree with no weight holds no item. */
  lemma NoWeightNoItem(root: Tree, idx: map<Item, nat>)
    requires Indexed(root, idx) && root.sumWeight == 0
    ensures idx == map[]
  {
    LeavesTotal(root);
    forall x | x in idx ensures false {
      PrefixBound(Leaves(root), idx[x]);
      HeldPositive(root, idx[x]);
    }
  }

  /** The values for which the tree chooses `x`. */
  ghost function Winners(root: Tree, x: Item): set<nat>
    requires WellFormed(root)
  {
    set val: nat | val < root.sumWeight && Choose(root, val).0 == x
  }

  /** Every item is chosen by exactly as many of the possible values as its weight. */
  lemma ChosenInProportion(root: Tree, idx: map<Item, nat>, x: Item)
    requires Indexed(root, idx) && x in idx
    ensures |Winners(root, x)| == Weighted(root, idx)[x]
  {
    var es, i := Leaves(root), idx[x];
    LeavesTotal(root);
    ChosenByWeight(es, i);
    forall val: nat ensures val in Winners(root, x) <==> val in ValuesFor(es, i) {
      if val < root.sumWeight {
        ChooseIsPick(root, val);
        PickIsIndexed(root, idx, x, val);
      }
    }
    assert Winners(root, x) == ValuesFor(es, i);
  }

  lemma PickIsIndexed(root: Tree, idx: map<Item, nat>, x: Item, val: nat)
    requires Indexed(root, idx) && x in idx && val < root.sumWeight == Total(Leaves(root))
    requires Leaves(root)[Pick(Leaves(root), val)].Held?
    ensures Leaves(root)[Pick(Leaves(root), val)].item == x <==> Pick(Leaves(root), val) == idx[x]
  {
    hide WellFormed, Leaves, Pick, Total;
  }

  /** Going from `w` to `w'`, only stored weights that the items no longer have were changed, to what they are now; and unless the
      item was chosen, only to less. */
  ghost predicate Refreshed(w: map<Item, nat>, w': map<Item, nat>, current: Item -> nat, r: Choice) {
    forall x | x in w ::
      || (x in w' && w'[x] == w[x])
      || ((current(x) < w[x] || r == Chosen(x)) && if current(x) == 0 then x !in w' else x in w' && w'[x] == current(x))
  }

  lemma NothingRefreshed(w: map<Item, nat>, current: Item -> nat)
    ensures Refreshed(w, w, current, Nothing)
  {
  }

  lemma RefreshesOne(w0: map<Item, nat>, w: map<Item, nat>, w': map<Item, nat>, current: Item -> nat, x: Item)
    requires Refreshed(w0, w, current, Nothing) && x in w && w.Keys <= w0.Keys
    requires w' == if current(x) == w[x] then w else if current(x) == 0 then w - {x} else w[x := current(x)]
    ensures Refreshed(w0, w', current, Chosen(x)) && (current(x) < w[x] ==> Refreshed(w0, w', current, Nothing))
    ensures w'.Keys <= w.Keys && (current(x) > 0 ==> x in w' && w'[x] == current(x))
  {
  }

  lemma IndexedIs(root: Tree, idx: map<Item, nat>, x: Item)
    requires Indexed(root, idx) && x in idx
    ensures HeldAt(root, idx[x]) && x in Weighted(root, idx)
  {
  }

  lemma WeightsKeys(root: Tree, idx: map<Item, nat>, x: Item)
    requires Indexed(root, idx) && x !in idx
    ensures x !in Weighted(root, idx) && Weighted(root, idx) - {x} == Weighted(root, idx)
  {
  }

  lemma NoWeights(root: Tree, idx: map<Item, nat>)
    requires Indexed(root, idx) && idx == map[]
    ensures Weighted(root, idx) == map[]
  {
  }

  /** Setting an indexed item's weight in the tree sets it in the set. */
  lemma ChangesOne(root: Tree, idx: map<Item, nat>, x: Item, weight: nat)
    requires Indexed(root, idx) && x in idx && HeldAt(root, idx[x])
    ensures var (root', diff) := SetWeight(root, idx[x], weight);
      var idx' := if weight == 0 then idx - {x} else idx;
      && Indexed(root', idx') && x in Weighted(root, idx) && diff == weight - Weighted(root, idx)[x]
      && root'.sumWeight == root.sumWeight + diff
      && Weighted(root', idx') == if weight == 0 then Weighted(root, idx) - {x} else Weighted(root, idx)[x := weight]
  {
    hide WellFormed, Leaves, Capacity, SetWeight, HeldAt;
    SetWeightLeaf(root, idx[x], weight);
    var root' := SetWeight(root, idx[x], weight).0;
    if weight == 0 {
      Dropped(root, root', idx, x);
    } else {
      Changed(root, root', idx, x, weight);
    }
  }

  /** Inserting an item that is not indexed adds it to the set. */
  lemma EntersOne(root: Tree, idx: map<Item, nat>, x: Item, weight: nat)
    requires Indexed(root, idx) && x !in idx && root.itemCnt < Capacity(root.level) && weight > 0
    ensures var (root', i) := Insert(root, x, weight);
      && Indexed(root', idx[x := i]) && Weighted(root', idx[x := i]) == Weighted(root, idx)[x := weight]
      && x !in Weighted(root, idx) && root'.sumWeight == root.sumWeight + weight
  {
    hide WellFormed, Leaves, Capacity, Insert;
    InsertFills(root, x, weight);
    var (root', i) := Insert(root, x, weight);
    Entered(root, root', idx, x, i, weight);
  }

  /** Whether an item whose weight may have changed since it was stored is taken, given a random value below the stored one. */
  predicate Accepted(weight: nat, lastWeight: nat, toss: nat) {
    weight >= lastWeight || toss < weight
  }

  lemma AcceptedIs(weight: nat, lastWeight: nat, toss: nat)
    requires toss < lastWeight
    ensures if Accepted(weight, lastWeight, toss) then weight > 0 else weight < lastWeight
  {
  }

  /** Of the values below the stored weight, as many take the item as its current weight, or all if that is not lower. */
  lemma AcceptedInProportion(weight: nat, lastWeight: nat)
    ensures |set toss: nat | toss < lastWeight && Accepted(weight, lastWeight, toss)| == if weight < lastWeight then weight else lastWeight
  {
    var taken := set toss: nat | toss < lastWeight && Accepted(weight, lastWeight, toss);
    assert taken == Range(0, if weight < lastWeight then weight else lastWeight);
  }

  class WeightedRandomSelect {
    var root: WrsNode
    var idx: map<Item, nat>

    ghost predicate Valid()
      reads this, root, root.repr
    {
      root.Valid() && this !in root.repr && Indexed(root.tree, idx)
    }

    ghost function Weights(): map<Item, nat>
      requires Valid()
      reads this, root, root.repr
    {
      Weighted(root.tree, idx)
    }

    constructor ()
      ensures Valid() && fresh(root.repr) && Weights() == map[]
    {
      root := new WrsNode(0);
      idx := map[];
      new;
      NewNodeFits(0);
    }

    /** Sets an item's weight; a zero weight removes it. */
    method SetItemWeight(item: Item, weight: nat)
      requires Valid()
      modifies this, root.repr
      ensures Valid() && fresh(root.repr - old(root.repr))
      ensures Weights() == if weight == 0 then old(Weights()) - {item} else old(Weights())[item := weight]
      ensures root.sumWeight == old(root.sumWeight) + weight - (if item in old(Weights()) then old(Weights())[item] else 0)
    {
      hide *;
      ValidIs();
      if item in idx {
        IndexedIs(root.tree, idx, item);
        ChangesOne(root.tree, idx, item, weight);
        var diff := root.SetWeight(idx[item], weight);
        root.ValidIs();
        if weight == 0 {
          idx := idx - {item};
        }
      } else if weight != 0 {
        root.ValidIs();
        if root.itemCnt == root.maxItems {
          Grown(root.tree, idx);
          root := new WrsNode.Above(root);
          root.ValidIs();
        }
        CountBound(root.tree);
        EntersOne(root.tree, idx, item, weight);
        var i := root.Insert(item, weight);
        idx := idx[item := i];
        root.ValidIs();
      } else {
        WeightsKeys(root.tree, idx, item);
      }
      ValidIs();
    }

    lemma ValidIs()
      ensures Valid() <==> root.Valid() && this !in root.repr && Indexed(root.tree, idx)
      ensures Valid() ==> Weights() == Weighted(root.tree, idx)
      ensures root.Valid() ==> root.tree.sumWeight == root.sumWeight && root in root.repr
    {
      if root.Valid() {
        root.ValidIs();
      }
    }

    /** Chooses an item; `current` reports the items' weights now. If the chosen item's weight has dropped since it was stored,
        the choice stands only with probability new over old weight; otherwise the weight is updated and another item is drawn. */
    method ChooseItem(current: Item -> nat) returns (r: Choice)
      requires Valid()
      modifies this, root.repr
      ensures Valid() && fresh(root.repr - old(root.repr))
      ensures Weights().Keys <= old(Weights()).Keys && Refreshed(old(Weights()), Weights(), current, r)
      ensures r == Nothing ==> Weights() == map[]
      ensures r.Chosen? ==> r.item in Weights() && Weights()[r.item] == current(r.item) > 0
    {
      hide *;
      ValidIs();
      ghost var w0 := Weights();
      NothingRefreshed(w0, current);
      while true
        invariant Valid() && fresh(root.repr - old(root.repr)) && Weights().Keys <= w0.Keys
        invariant Refreshed(w0, Weights(), current, Nothing)
        decreases root.sumWeight
      {
        ValidIs();
        if root.sumWeight == 0 {
          NoWeightNoItem(root.tree, idx);
          NoWeights(root.tree, idx);
          return Nothing;
        }
        var val: nat :| val < root.sumWeight;
        var choice, lastWeight := root.Choose(val);
        ChoiceIsWeighted(root.tree, idx, val);
        var weight := current(choice);
        ghost var w := Weights();
        if weight != lastWeight {
          SetItemWeight(choice, weight);
        }
        RefreshesOne(w0, w, Weights(), current, choice);
        var toss: nat :| toss < lastWeight;
        AcceptedIs(weight, lastWeight, toss);
        if Accepted(weight, lastWeight, toss) {
          return Chosen(choice);
        }
      }
    }
  }
}
