/** The nodes of the selection tree as they are in memory (les/randselect.go, wrsNode): updated in place, each method
    against the function on the tree it stands for. */
module WrsNodes {
  import opened WrsTree

  /** What a branch points to. */
  datatype Child = Nil | Item(item: Item) | Node(node: WrsNode)

  /** A branch stands for a slot. */
  ghost predicate Stands(c: Child, s: Slot, level: nat)
    reads if c.Node? then {c.node} + c.node.repr else {}
    decreases level, 0
  {
    if c.Nil? then s == Empty
    else if c.Item? then s == Leaf(c.item)
    else c.node.level + 1 == level && c.node in c.node.repr && c.node.Valid() && s == Sub(c.node.tree)
  }

  lemma InsertIs(t: Tree, item: WrsTree.Item, weight: nat)
    requires WellFormed(t) && t.itemCnt < Capacity(t.level) && weight > 0
    ensures exists i :: 0 <= i < |t.slots| && IsOpen(t.slots[i], t.level)
    ensures var b := FirstOpen(t.slots, t.level);
      var (t', idx) := WrsTree.Insert(t, item, weight);
      && |t.slots| == BRANCHES == |t.weights| == |t'.slots|
      && t' == Tree(t.level, t'.slots, t.weights[b := t.weights[b] + weight], t.sumWeight + weight, t.itemCnt + 1) && WellFormed(t')
      && t'.slots == t.slots[b := t'.slots[b]]
      && (t.level == 0 ==> t'.slots[b] == Leaf(item) && idx == b)
      && (t.level > 0 ==>
            && !t.slots[b].Leaf? && WellFormed(SubtreeOf(t.slots[b], t.level)) && SubtreeOf(t.slots[b], t.level).level == t.level - 1
            && SubtreeOf(t.slots[b], t.level).itemCnt < Capacity(t.level - 1)
            && var (sub, i) := WrsTree.Insert(SubtreeOf(t.slots[b], t.level), item, weight);
               t'.slots[b] == Sub(sub) && idx == Capacity(t.level - 1) * b + i)
  {
    hide WellFormed, Capacity, FirstOpen, IsOpen;
    OpenBranch(t);
    if t.level > 0 {
      var b := FirstOpen(t.slots, t.level);
      SubtreeFits(t.slots[b], t.weights[b], t.level);
    }
  }

  lemma SubtreeIs(s: Slot, level: nat)
    requires level > 0 && !s.Leaf?
    ensures SubtreeOf(s, level) == if s.Sub? then s.node else NewNode(level - 1)
  {
  }

  lemma StandsLeaf(c: Child, s: Slot, level: nat)
    requires if c.Nil? then s == Empty else c.Item? && s == Leaf(c.item)
    ensures Stands(c, s, level)
  {
  }

  lemma StandsNode(n: WrsNode, level: nat)
    requires n.Valid() && n.level + 1 == level
    ensures Stands(Node(n), Sub(n.tree), level)
  {
    n.ValidIs();
  }

  /** The capacity of a branch. */
  lemma MaxItemsSplit(level: nat)
    requires level > 0
    ensures Capacity(level) / BRANCHES == Capacity(level - 1) > 0
  {
  }

  lemma SetWeightIs(t: Tree, idx: nat, weight: nat)
    requires HeldAt(t, idx)
    ensures |t.slots| == BRANCHES == |t.weights|
    ensures var (t', diff) := WrsTree.SetWeight(t, idx, weight);
      && WellFormed(t') && t'.level == t.level && |t'.slots| == BRANCHES == |t'.weights| && t.sumWeight + diff == t'.sumWeight
      && t'.itemCnt == t.itemCnt - (if weight == 0 then 1 else 0)
      && (t.level == 0 ==>
            && idx < BRANCHES && t.slots[idx].Leaf? && diff == weight - t.weights[idx]
            && t'.weights == t.weights[idx := weight] && t'.slots == t.slots[idx := if weight == 0 then Empty else t.slots[idx]])
      && (t.level > 0 ==> SetWeightBranch(t, t', idx, weight, diff))
  {
    HeldSlot(t, idx);
    HeldIs(t, idx);
    WellSized(WrsTree.SetWeight(t, idx, weight).0);
    hide *;
    if t.level == 0 {
      SetWeightAtLeaf(t, idx, weight);
    } else {
      SetWeightAtBranch(t, idx, weight);
    }
  }

  lemma SetWeightAtLeaf(t: Tree, idx: nat, weight: nat)
    requires HeldAt(t, idx) && t.level == 0 && idx < BRANCHES == |t.slots| == |t.weights| && t.slots[idx].Leaf?
    ensures var (t', diff) := WrsTree.SetWeight(t, idx, weight);
      diff == weight - t.weights[idx] && t'.weights == t.weights[idx := weight] && t'.slots == t.slots[idx := if weight == 0 then Empty else t.slots[idx]]
  {
    hide WellFormed, Leaves, Capacity, BranchOf, OffsetIn;
  }

  lemma SetWeightAtBranch(t: Tree, idx: nat, weight: nat)
    requires HeldAt(t, idx) && t.level > 0 && |t.slots| == BRANCHES == |t.weights|
    requires |WrsTree.SetWeight(t, idx, weight).0.slots| == BRANCHES == |WrsTree.SetWeight(t, idx, weight).0.weights|
    ensures SetWeightBranch(t, WrsTree.SetWeight(t, idx, weight).0, idx, weight, WrsTree.SetWeight(t, idx, weight).1)
  {
    hide WellFormed, Leaves, Capacity, BranchOf, OffsetIn, HeldAt;
    HeldSlot(t, idx);
  }

  lemma WellSized(t: Tree)
    requires WellFormed(t)
    ensures |t.slots| == BRANCHES == |t.weights|
  {
  }

  /** A weight change above the lowest level is one in a branch. */
  ghost predicate SetWeightBranch(t: Tree, t': Tree, idx: nat, weight: nat, diff: int)
    requires t.level > 0 && |t.slots| == BRANCHES == |t.weights| && |t'.slots| == BRANCHES == |t'.weights|
  {
    var w := Capacity(t.level - 1);
    var b, j := BranchOf(idx, w), OffsetIn(idx, w);
    && b < BRANCHES && t.slots[b].Sub? && HeldAt(t.slots[b].node, j) && t.weights[b] + diff >= 0
    && (t'.slots[b], diff) == (Sub(WrsTree.SetWeight(t.slots[b].node, j, weight).0), WrsTree.SetWeight(t.slots[b].node, j, weight).1)
    && t'.slots == t.slots[b := t'.slots[b]] && t'.weights == t.weights[b := t.weights[b] + diff]
  }

  lemma SetWeightBranchIs(t: Tree, t': Tree, idx: nat, weight: nat, diff: int)
    requires t.level > 0 && |t.slots| == BRANCHES == |t.weights| && |t'.slots| == BRANCHES == |t'.weights|
    requires SetWeightBranch(t, t', idx, weight, diff)
    ensures var w := Capacity(t.level - 1);
      var b, j := BranchOf(idx, w), OffsetIn(idx, w);
      && b < BRANCHES && t.slots[b].Sub? && HeldAt(t.slots[b].node, j) && t.weights[b] + diff >= 0
      && t'.slots[b] == Sub(WrsTree.SetWeight(t.slots[b].node, j, weight).0) && diff == WrsTree.SetWeight(t.slots[b].node, j, weight).1
      && t'.slots == t.slots[b := t'.slots[b]] && t'.weights == t.weights[b := t.weights[b] + diff]
  {
  }

  lemma FirstOpenIs(slots: seq<Slot>, level: nat, b: nat)
    requires exists i :: 0 <= i < |slots| && IsOpen(slots[i], level)
    ensures FirstOpen(slots, level) < |slots|
    ensures b <= FirstOpen(slots, level) && IsOpen(slots[b], level) ==> b == FirstOpen(slots, level)
    ensures b <= FirstOpen(slots, level) && !IsOpen(slots[b], level) ==> b + 1 <= FirstOpen(slots, level)
  {
  }

  /** The choice goes on at branch `i` with what is left of the value. */
  ghost predicate Choosing(t: Tree, i: nat, v: nat, r: (WrsTree.Item, nat)) {
    && WellFormed(t) && i < BRANCHES && SlotsFit(t.slots[i..], t.weights[i..], t.level) && v < Sum(t.weights[i..])
    && ChooseBranch(t.slots[i..], t.weights[i..], t.level, v) == r
  }

  lemma ChooseStarts(t: Tree, val: nat)
    requires WellFormed(t) && val < t.sumWeight
    ensures Choosing(t, 0, val, WrsTree.Choose(t, val))
  {
    assert t.slots[0..] == t.slots && t.weights[0..] == t.weights;
  }

  lemma ChooseNext(t: Tree, i: nat, v: nat, r: (WrsTree.Item, nat))
    requires Choosing(t, i, v, r) && i < |t.weights| && t.weights[i] <= v
    ensures i + 1 < BRANCHES && Choosing(t, i + 1, v - t.weights[i], r)
  {
    assert t.weights[i..][1..] == t.weights[i + 1..] && t.slots[i..][1..] == t.slots[i + 1..];
    assert t.weights[i..][0] == t.weights[i];
    assert i + 1 == BRANCHES ==> t.weights[i + 1..] == [];
    assert Sum(t.weights[i..]) == t.weights[i] + Sum(t.weights[i + 1..]);
  }

  lemma ChooseHere(t: Tree, i: nat, v: nat, r: (WrsTree.Item, nat))
    requires Choosing(t, i, v, r) && i < |t.weights| && v < t.weights[i]
    ensures |t.slots| == BRANCHES && (t.level == 0 ==> t.slots[i].Leaf? && r == (t.slots[i].item, t.weights[i]))
    ensures t.level > 0 ==> t.slots[i].Sub? && WellFormed(t.slots[i].node) && v < t.slots[i].node.sumWeight && WrsTree.Choose(t.slots[i].node, v) == r
  {
    assert SlotFits(t.slots[i], t.weights[i], t.level);
  }

  class WrsNode {
    const level: nat
    const maxItems: nat
    var items: seq<Child>
    var weights: seq<nat>
    var sumWeight: nat
    var itemCnt: nat
    // The tree the node stands for, and the objects it is made of.
    ghost var tree: Tree
    ghost var repr: set<object>

    ghost predicate Valid()
      reads this, repr
      decreases level, 2
    {
      && Shape(tree) && WellFormed(tree)
      && Others(BRANCHES, {})
    }

    /** The node's fields are those of the tree's root. */
    ghost predicate Shape(t: Tree)
      reads this
    {
      && this in repr && maxItems == Capacity(level) && |items| == BRANCHES && |t.slots| == BRANCHES
      && t == Tree(level, t.slots, weights, sumWeight, itemCnt)
    }

    /** All branches, except perhaps `b`, stand for their slots; their nodes share no object with each other or with `r`. */
    ghost predicate Others(b: nat, r: set<object>)
      requires |items| == BRANCHES == |tree.slots|
      reads this, repr
      decreases level, 1
    {
      && (forall i | 0 <= i < BRANCHES && i != b && items[i].Node? :: items[i].node in repr && Owns(items[i].node) && items[i].node.repr !! r)
      && (forall i | 0 <= i < BRANCHES && i != b :: Stands(items[i], tree.slots[i], level))
      && (forall i, j | 0 <= i < j < BRANCHES && i != b && j != b && items[i].Node? && items[j].Node? ::
            items[i].node.repr !! items[j].node.repr)
    }

    /** A child's objects belong to this node, and not this node to them. */
    ghost predicate Owns(n: WrsNode)
      reads this, n
    {
      n in repr && n.repr <= repr && this !in n.repr
    }

    constructor (level: nat)
      ensures Valid() && fresh(repr) && this.level == level && tree == NewNode(level)
    {
      this.level := level;
      maxItems := Capacity(level);
      items := seq(BRANCHES, i => Nil);
      weights := seq(BRANCHES, i => 0);
      sumWeight, itemCnt := 0, 0;
      tree := NewNode(level);
      repr := {this};
      new;
      NewNodeFits(level);
    }

    /** A new root with a full one as its first branch. */
    constructor Above(n: WrsNode)
      requires n.Valid()
      ensures Valid() && level == n.level + 1 && tree == Grow(n.tree) && repr == {this} + n.repr && fresh(this)
    {
      level := n.level + 1;
      maxItems := Capacity(n.level + 1);
      items := [Node(n)] + seq(BRANCHES - 1, i => Nil);
      weights := [n.sumWeight] + seq(BRANCHES - 1, i => 0);
      sumWeight, itemCnt := n.sumWeight, n.itemCnt;
      tree := Grow(n.tree);
      repr := {this} + n.repr;
      new;
      n.ValidIs();
      GrowKeepsIndices(n.tree);
    }

    /** Selects the item a value falls on. */
    method Choose(val: nat) returns (item: Item, weight: nat)
      requires Valid() && val < sumWeight
      ensures (item, weight) == WrsTree.Choose(tree, val)
      decreases level
    {
      hide *;
      ValidIs();
      ChooseStarts(tree, val);
      var i: nat, v: nat := 0, val;
      while !(v < weights[i])
        invariant i < BRANCHES && Choosing(tree, i, v, WrsTree.Choose(tree, val))
        decreases BRANCHES - i
      {
        ChooseNext(tree, i, v, WrsTree.Choose(tree, val));
        v, i := v - weights[i], i + 1;
      }
      ChooseHere(tree, i, v, WrsTree.Choose(tree, val));
      BranchIs(i);
      if level == 0 {
        return items[i].item, weights[i];
      }
      item, weight := items[i].node.Choose(v);
    }

    /** Whether a branch can take another item. */
    predicate OpenAt(i: nat)
      requires i < |items|
      reads this, if items[i].Node? then {items[i].node} else {}
    {
      items[i].Nil? || (level > 0 && items[i].Node? && items[i].node.itemCnt != items[i].node.maxItems)
    }

    /** The first branch that can take another item; there always is one, so the walk stays within the branches. */
    method FindOpen() returns (branch: nat)
      requires Valid() && itemCnt < Capacity(level)
      ensures branch < BRANCHES && (exists i :: 0 <= i < |tree.slots| && IsOpen(tree.slots[i], level))
      ensures branch == FirstOpen(tree.slots, level)
    {
      hide *;
      ValidIs();
      NotFullHasOpen(tree);
      branch := 0;
      OpenIs(0);
      FirstOpenIs(tree.slots, level, 0);
      while !OpenAt(branch)
        invariant branch < BRANCHES && branch <= FirstOpen(tree.slots, level)
        invariant OpenAt(branch) <==> IsOpen(tree.slots[branch], level)
        decreases BRANCHES - branch
      {
        FirstOpenIs(tree.slots, level, branch);
        branch := branch + 1;
        OpenIs(branch);
      }
      FirstOpenIs(tree.slots, level, branch);
    }

    lemma OpenIs(i: nat)
      requires Valid() && i < BRANCHES
      ensures i < |items| && i < |tree.slots| && (OpenAt(i) <==> IsOpen(tree.slots[i], level))
    {
      assert Stands(items[i], tree.slots[i], level);
      if items[i].Node? {
        items[i].node.ValidIs();
      }
    }

    /** Inserts an item under the first open branch and returns its index. */
    method Insert(item: WrsTree.Item, weight: nat) returns (idx: nat)
      requires Valid() && itemCnt < Capacity(level) && weight > 0
      modifies repr
      ensures Valid() && fresh(repr - old(repr)) && (tree, idx) == WrsTree.Insert(old(tree), item, weight)
      decreases level
    {
      hide *;
      var branch := FindOpen();
      ValidIs();
      InsertIs(tree, item, weight);
      if level == 0 {
        PutItem(branch, item, weight);
        return branch;
      }
      BranchIs(branch);
      var subNode;
      SubtreeIs(tree.slots[branch], level);
      if items[branch].Nil? {
        subNode := new WrsNode(level - 1);
      } else {
        subNode := items[branch].node;
        subNode.ValidIs();
      }
      idx := InsertBelow(branch, subNode, item, weight);
    }

    /** At the lowest level the item takes the branch. */
    method PutItem(branch: nat, item: WrsTree.Item, weight: nat)
      requires Valid() && level == 0 && itemCnt < Capacity(level) && weight > 0
      requires (exists i :: 0 <= i < |tree.slots| && IsOpen(tree.slots[i], level)) && branch == FirstOpen(tree.slots, level)
      modifies this
      ensures Valid() && repr == old(repr) && tree == WrsTree.Insert(old(tree), item, weight).0
    {
      hide *;
      ValidIs();
      ghost var t := tree;
      InsertIs(t, item, weight);
      OthersOf(branch, {});
      StandsLeaf(Item(item), Leaf(item), level);
      Relink(branch, Item(item), weights[branch] + weight, sumWeight + weight, itemCnt + 1, WrsTree.Insert(t, item,
             weight).0, {});
    }

    /** Above, the item goes into the branch's node, which may be new. */
    method InsertBelow(branch: nat, subNode: WrsNode, item: WrsTree.Item, weight: nat) returns (idx: nat)
      requires Valid() && level > 0 && itemCnt < Capacity(level) && weight > 0
      requires (exists i :: 0 <= i < |tree.slots| && IsOpen(tree.slots[i], level)) && branch == FirstOpen(tree.slots, level)
      requires |items| == BRANCHES == |tree.slots| && !tree.slots[branch].Leaf?
      requires subNode.Valid() && subNode.level == level - 1 && subNode.tree == SubtreeOf(tree.slots[branch], level)
      requires if items[branch].Node? then items[branch].node == subNode else subNode.repr !! repr
      modifies repr, subNode.repr
      ensures Valid() && repr == old(repr) + subNode.repr && fresh(subNode.repr - old(subNode.repr))
      ensures (tree, idx) == WrsTree.Insert(old(tree), item, weight)
      decreases level, 0
    {
      hide *;
      ValidIs();
      subNode.ValidIs();
      BranchIs(branch);
      ghost var t, r := tree, subNode.repr;
      InsertIs(t, item, weight);
      OthersOf(branch, r);
      OthersAre(branch, r);
      var subIdx := subNode.Insert(item, weight);
      assert forall i | 0 <= i < BRANCHES && i != branch :: Stands(items[i], tree.slots[i], level);
      OthersAgain(branch, subNode.repr);
      subNode.ValidIs();
      StandsNode(subNode, level);
      Relink(branch, Node(subNode), weights[branch] + weight, sumWeight + weight, itemCnt + 1, WrsTree.Insert(t,
             item, weight).0, subNode.repr);
      idx := subNode.maxItems * branch + subIdx;
    }

    lemma OwnsIs(n: WrsNode)
      ensures Owns(n) <==> n in repr && n.repr <= repr && this !in n.repr
    {
    }

    /** Changes an item's weight, a zero weight removes it, and returns the change. */
    method SetWeight(idx: nat, weight: nat) returns (diff: int)
      requires Valid() && HeldAt(tree, idx)
      modifies repr
      ensures Valid() && repr == old(repr) && (tree, diff) == WrsTree.SetWeight(old(tree), idx, weight)
      decreases level
    {
      hide *;
      ValidIs();
      SetWeightIs(tree, idx, weight);
      if level > 0 {
        SetWeightBranchIs(tree, WrsTree.SetWeight(tree, idx, weight).0, idx, weight, WrsTree.SetWeight(tree, idx,
                          weight).1);
      }
      if level == 0 {
        diff := weight - weights[idx];
        SetItem(idx, weight);
        return;
      }
      var branchItems := maxItems / BRANCHES;
      MaxItemsSplit(level);
      var branch := BranchOf(idx, branchItems);
      BranchIs(branch);
      diff := SetBelow(branch, items[branch].node, idx, weight);
    }

    method SetItem(idx: nat, weight: nat)
      requires Valid() && HeldAt(tree, idx) && level == 0
      modifies this
      ensures Valid() && repr == old(repr) && tree == WrsTree.SetWeight(old(tree), idx, weight).0
    {
      hide *;
      ValidIs();
      ghost var t := tree;
      SetWeightIs(t, idx, weight);
      BranchIs(idx);
      OthersOf(idx, {});
      ghost var t' := WrsTree.SetWeight(t, idx, weight).0;
      var c := if weight == 0 then Nil else items[idx];
      StandsLeaf(c, t'.slots[idx], level);
      Relink(idx, c, weight, sumWeight + weight - weights[idx], if weight == 0 then itemCnt - 1 else itemCnt, t', {});
    }

    method SetBelow(branch: nat, subNode: WrsNode, idx: nat, weight: nat) returns (diff: int)
      requires Valid() && HeldAt(tree, idx) && level > 0 && branch == BranchOf(idx, Capacity(level - 1))
      requires branch < |items| == BRANCHES && items[branch] == Node(subNode) && subNode.level == level - 1
      modifies repr
      ensures Valid() && repr == old(repr) && (tree, diff) == WrsTree.SetWeight(old(tree), idx, weight)
      decreases level, 0
    {
      hide *;
      ValidIs();
      BranchIs(branch);
      subNode.ValidIs();
      ghost var t, r := tree, subNode.repr;
      SetWeightIs(t, idx, weight);
      SetWeightBranchIs(t, WrsTree.SetWeight(t, idx, weight).0, idx, weight, WrsTree.SetWeight(t, idx, weight).1);
      OthersOf(branch, r);
      OthersAre(branch, r);
      diff := subNode.SetWeight(OffsetIn(idx, Capacity(level - 1)), weight);
      assert forall i | 0 <= i < BRANCHES && i != branch :: Stands(items[i], tree.slots[i], level);
      OthersAgain(branch, r);
      subNode.ValidIs();
      StandsNode(subNode, level);
      Relink(branch, Node(subNode), weights[branch] + diff, sumWeight + diff, if weight == 0 then itemCnt - 1 else itemCnt,
             WrsTree.SetWeight(t, idx, weight).0, r);
    }

    /** Changes the node's own fields at one branch, so that it stands for the tree `t`. */
    method Relink(branch: nat, c: Child, w: nat, sum: nat, cnt: nat, ghost t: Tree, ghost r: set<object>)
      requires branch < BRANCHES == |items| == |tree.slots| == |weights| == |t.slots| && this in repr
      requires maxItems == Capacity(level)
      requires Others(branch, r) && Stands(c, t.slots[branch], level) && this !in r
      requires if c.Node? then c.node in r && r == c.node.repr else r == {}
      requires WellFormed(t) && t == Tree(level, tree.slots[branch := t.slots[branch]], weights[branch := w], sum, cnt)
      modifies this
      ensures Valid() && tree == t && repr == old(repr) + r
    {
      hide *;
      OthersAre(branch, r);
      weights, sumWeight, itemCnt := weights[branch := w], sum, cnt;
      items := items[branch := c];
      tree := t;
      repr := repr + r;
      assert forall i | 0 <= i < BRANCHES && i != branch :: items[i] == old(items[i]) && tree.slots[i] == old(tree.slots[i]);
      assert forall i | 0 <= i < BRANCHES && i != branch :: Stands(items[i], tree.slots[i], level);
      OthersAgain(branch, r);
      ShapeIs(tree);
      if c.Node? {
        OwnsIs(c.node);
      }
      Assemble(branch);
    }

    lemma ShapeIs(t: Tree)
      ensures Shape(t) <==>
        && this in repr && maxItems == Capacity(level) && |items| == BRANCHES && |t.slots| == BRANCHES
        && t == Tree(level, t.slots, weights, sumWeight, itemCnt)
    {
    }

    lemma OthersOf(b: nat, r: set<object>)
      requires Valid() && b < BRANCHES
      requires r !! repr || (b < |items| && items[b].Node? && r == items[b].node.repr)
      ensures |items| == BRANCHES == |tree.slots| && Others(b, r)
    {
    }

    lemma OthersAre(b: nat, r: set<object>)
      requires |items| == BRANCHES == |tree.slots| && Others(b, r)
      ensures forall i | 0 <= i < BRANCHES && i != b && items[i].Node? ::
        items[i].node in repr && items[i].node.repr <= repr && this !in items[i].node.repr && items[i].node.repr !! r &&
        items[i].node in items[i].node.repr
      ensures forall i | 0 <= i < BRANCHES && i != b :: Stands(items[i], tree.slots[i], level)
      ensures forall i, j | 0 <= i < j < BRANCHES && i != b && j != b && items[i].Node? && items[j].Node? ::
        items[i].node.repr !! items[j].node.repr
    {
    }

    lemma OthersAgain(b: nat, r: set<object>)
      requires |items| == BRANCHES == |tree.slots|
      requires forall i | 0 <= i < BRANCHES && i != b && items[i].Node? ::
        items[i].node in repr && items[i].node.repr <= repr && this !in items[i].node.repr && items[i].node.repr !! r
      requires forall i | 0 <= i < BRANCHES && i != b :: Stands(items[i], tree.slots[i], level)
      requires forall i, j | 0 <= i < j < BRANCHES && i != b && j != b && items[i].Node? && items[j].Node? ::
        items[i].node.repr !! items[j].node.repr
      ensures Others(b, r)
    {
    }

    lemma Assemble(b: nat)
      requires b < BRANCHES && Shape(tree) && WellFormed(tree) && Stands(items[b], tree.slots[b], level)
      requires if items[b].Node? then items[b].node in repr && Owns(items[b].node) && Others(b, items[b].node.repr) else Others(b, {})
      ensures Valid()
    {
    }

    lemma ValidIs()
      requires Valid()
      ensures this in repr && maxItems == Capacity(level) && |items| == BRANCHES == |tree.slots| == |weights|
      ensures BRANCHES > 0
      ensures tree.level == level && tree.weights == weights && tree.sumWeight == sumWeight && tree.itemCnt == itemCnt
      ensures WellFormed(tree)
    {
    }

    lemma BranchIs(i: nat)
      requires Valid() && i < BRANCHES
      ensures i < |items| && i < |tree.slots|
      ensures items[i].Nil? ==> tree.slots[i] == Empty
      ensures items[i].Item? ==> tree.slots[i] == Leaf(items[i].item)
      ensures items[i].Node? ==>
        && items[i].node in repr && items[i].node.repr <= repr && this !in items[i].node.repr
        && items[i].node.level + 1 == level && items[i].node.Valid() && tree.slots[i] == Sub(items[i].node.tree)
        && items[i].node.tree.sumWeight == items[i].node.sumWeight
    {
      assert Stands(items[i], tree.slots[i], level);
    }
  }
}
