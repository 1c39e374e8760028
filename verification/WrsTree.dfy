/** The tree of partial sums behind weighted random selection (les/randselect.go, wrsNode), as
    values, against the flat list of its leaves. */
module WrsTree {

  type Item = nat

  const BRANCHES := 8

  datatype Slot = Empty | Leaf(item: Item) | Sub(node: Tree)

  datatype Tree = Tree(level: nat, slots: seq<Slot>, weights: seq<nat>, sumWeight: nat, itemCnt: nat)

  /** A leaf position: vacant, or holding an item with its weight. */
  datatype Entry = Gap | Held(item: Item, weight: nat)

  /** The number of items a node of the level can hold (`maxItems`). */
  function Capacity(level: nat): (c: nat)
    ensures c > 0
  {
    if level == 0 then BRANCHES else BRANCHES * Capacity(level - 1)
  }

  /** The number of leaf positions under one branch. */
  function Width(level: nat): (w: nat)
    ensures w > 0 && Capacity(level) == BRANCHES * w
  {
    if level == 0 then 1 else Capacity(level - 1)
  }

  function Sum(s: seq<nat>): nat {
    if s == [] then 0 else s[0] + Sum(s[1..])
  }

  function SlotCount(s: Slot): nat {
    match s case Empty => 0 case Leaf(_) => 1 case Sub(n) => n.itemCnt
  }

  function Counts(slots: seq<Slot>): seq<nat> {
    seq(|slots|, i requires 0 <= i < |slots| => SlotCount(slots[i]))
  }

  /** The node's own bookkeeping and that of its subtrees. */
  ghost predicate WellFormed(t: Tree)
    decreases t.level
  {
    && |t.slots| == BRANCHES == |t.weights|
    && t.sumWeight == Sum(t.weights)
    && t.itemCnt == Sum(Counts(t.slots))
    && forall i | 0 <= i < BRANCHES :: SlotFits(t.slots[i], t.weights[i], t.level)
  }

  ghost predicate SlotFits(s: Slot, w: nat, level: nat)
    decreases level, 0
  {
    match s
    case Empty => w == 0
    case Leaf(_) => level == 0 && w > 0
    case Sub(n) => level > 0 && n.level == level - 1 && w == n.sumWeight && WellFormed(n)
  }

  // ---------------------------------------------------------------- leaves

  function Gaps(n: nat): (s: seq<Entry>)
    ensures |s| == n && forall i | 0 <= i < n :: s[i] == Gap
  {
    seq(n, i => Gap)
  }

  ghost function Block(s: Slot, w: nat, level: nat): (b: seq<Entry>)
    requires SlotFits(s, w, level)
    ensures |b| == Width(level)
    decreases level, 0
  {
    match s
    case Empty => Gaps(Width(level))
    case Leaf(x) => [Held(x, w)]
    case Sub(n) => Leaves(n)
  }

  ghost predicate SlotsFit(slots: seq<Slot>, weights: seq<nat>, level: nat) {
    |slots| == |weights| && forall i | 0 <= i < |slots| :: SlotFits(slots[i], weights[i], level)
  }

  ghost function Blocks(slots: seq<Slot>, weights: seq<nat>, level: nat): (b: seq<Entry>)
    requires SlotsFit(slots, weights, level)
    ensures |b| == |slots| * Width(level)
    decreases level, 1, |slots|
  {
    if slots == [] then []
    else
      Block(slots[0], weights[0], level) + Blocks(slots[1..], weights[1..], level)
  }

  /** The leaf positions of the tree, in index order. */
  ghost function Leaves(t: Tree): (b: seq<Entry>)
    requires WellFormed(t)
    ensures |b| == Capacity(t.level)
    decreases t.level, 2
  {
    Blocks(t.slots, t.weights, t.level)
  }

  // ---------------------------------------------------------------- the flat list

  function WeightOf(e: Entry): nat {
    if e.Held? then e.weight else 0
  }

  function Total(es: seq<Entry>): nat {
    if es == [] then 0 else WeightOf(es[0]) + Total(es[1..])
  }

  function HeldCount(es: seq<Entry>): nat {
    if es == [] then 0 else (if es[0].Held? then 1 else 0) + HeldCount(es[1..])
  }

  /** The linear scan by prefix sums: the position of the entry that `val` falls on. */
  function Pick(es: seq<Entry>, val: nat): (i: nat)
    requires val < Total(es)
    ensures i < |es| && WeightOf(es[i]) > 0
  {
    if val < WeightOf(es[0]) then 0 else 1 + Pick(es[1..], val - WeightOf(es[0]))
  }

  lemma {:induction false} TotalConcat(a: seq<Entry>, b: seq<Entry>)
    ensures Total(a + b) == Total(a) + Total(b) && HeldCount(a + b) == HeldCount(a) + HeldCount(b)
  {
    if a == [] {
      assert a + b == b;
    } else {
      assert (a + b)[1..] == a[1..] + b;
      TotalConcat(a[1..], b);
    }
  }

  lemma {:induction false} PickConcat(a: seq<Entry>, b: seq<Entry>, val: nat)
    requires val < Total(a) + Total(b)
    ensures Total(a + b) == Total(a) + Total(b)
    ensures val < Total(a) ==> Pick(a + b, val) == Pick(a, val)
    ensures val >= Total(a) ==> Pick(a + b, val) == |a| + Pick(b, val - Total(a))
  {
    TotalConcat(a, b);
    if a == [] {
      assert a + b == b;
    } else {
      assert (a + b)[1..] == a[1..] + b && (a + b)[0] == a[0];
      if val >= WeightOf(a[0]) {
        PickConcat(a[1..], b, val - WeightOf(a[0]));
      }
    }
  }

  lemma {:induction false} TotalGaps(n: nat)
    ensures Total(Gaps(n)) == 0 && HeldCount(Gaps(n)) == 0
  {
    if n > 0 {
      assert Gaps(n)[1..] == Gaps(n - 1);
      TotalGaps(n - 1);
    }
  }

  // ---------------------------------------------------------------- the sums agree with the leaves

  /** The stored sum and count are those of the leaves. */
  lemma {:induction false} LeavesTotal(t: Tree)
    requires WellFormed(t)
    ensures Total(Leaves(t)) == t.sumWeight && HeldCount(Leaves(t)) == t.itemCnt
    decreases t.level, 2
  {
    BlocksTotal(t.slots, t.weights, t.level);
  }

  lemma {:induction false} BlockTotal(s: Slot, w: nat, level: nat)
    requires SlotFits(s, w, level)
    ensures Total(Block(s, w, level)) == w && HeldCount(Block(s, w, level)) == SlotCount(s)
    decreases level, 0
  {
    match s
    case Empty => TotalGaps(Width(level));
    case Leaf(x) =>
    case Sub(n) => LeavesTotal(n);
  }

  lemma {:induction false} BlocksTotal(slots: seq<Slot>, weights: seq<nat>, level: nat)
    requires SlotsFit(slots, weights, level)
    ensures Total(Blocks(slots, weights, level)) == Sum(weights)
    ensures HeldCount(Blocks(slots, weights, level)) == Sum(Counts(slots))
    decreases level, 1, |slots|
  {
    if slots != [] {
      BlockTotal(slots[0], weights[0], level);
      BlocksTotal(slots[1..], weights[1..], level);
      TotalConcat(Block(slots[0], weights[0], level), Blocks(slots[1..], weights[1..], level));
      assert Counts(slots)[1..] == Counts(slots[1..]);
    }
  }

  // ---------------------------------------------------------------- choosing

  /** The recursive choice: the branch is found by the weights, then the value is passed down. */
  function Choose(t: Tree, val: nat): (r: (Item, nat))
    requires WellFormed(t) && val < t.sumWeight
    decreases t.level, 1
  {
    ChooseBranch(t.slots, t.weights, t.level, val)
  }

  function ChooseBranch(slots: seq<Slot>, weights: seq<nat>, level: nat, val: nat): (r: (Item, nat))
    requires SlotsFit(slots, weights, level) && val < Sum(weights)
    decreases level, 0, |slots|
  {
    if val < weights[0] then
      match slots[0]
      case Leaf(x) => (x, weights[0])
      case Sub(n) => Choose(n, val)
    else
      ChooseBranch(slots[1..], weights[1..], level, val - weights[0])
  }

  /** The tree's choice is the linear scan's choice. */
  lemma {:induction false} ChooseIsPick(t: Tree, val: nat)
    requires WellFormed(t) && val < t.sumWeight
    ensures Total(Leaves(t)) == t.sumWeight
    ensures var e := Leaves(t)[Pick(Leaves(t), val)]; e.Held? && Choose(t, val) == (e.item, e.weight)
    decreases t.level, 1
  {
    LeavesTotal(t);
    ChooseBranchIsPick(t.slots, t.weights, t.level, val);
  }

  lemma {:induction false} ChooseBranchIsPick(slots: seq<Slot>, weights: seq<nat>, level: nat, val: nat)
    requires SlotsFit(slots, weights, level) && val < Sum(weights)
    ensures Total(Blocks(slots, weights, level)) == Sum(weights)
    ensures var b := Blocks(slots, weights, level);
            var e := b[Pick(b, val)];
            e.Held? && ChooseBranch(slots, weights, level, val) == (e.item, e.weight)
    decreases level, 0, |slots|
  {
    BlocksTotal(slots, weights, level);
    var first, rest := Block(slots[0], weights[0], level), Blocks(slots[1..], weights[1..], level);
    BlockTotal(slots[0], weights[0], level);
    BlocksTotal(slots[1..], weights[1..], level);
    PickConcat(first, rest, val);
    if val < weights[0] {
      if slots[0].Sub? {
        ChooseIsPick(slots[0].node, val);
      }
    } else {
      ChooseBranchIsPick(slots[1..], weights[1..], level, val - weights[0]);
    }
  }

  /** The values that fall on position `i` form an interval as long as its weight. */
  lemma {:induction false} PickInterval(es: seq<Entry>, i: nat, val: nat)
    requires i < |es| && val < Total(es)
    ensures Pick(es, val) == i <==> Total(es[..i]) <= val < Total(es[..i]) + WeightOf(es[i])
  {
    if i == 0 {
      assert es[..0] == [];
    } else {
      assert es[..i] == [es[0]] + es[1..][..i - 1];
      TotalConcat([es[0]], es[1..][..i - 1]);
      assert Total([es[0]]) == WeightOf(es[0]);
      if val >= WeightOf(es[0]) {
        PickInterval(es[1..], i - 1, val - WeightOf(es[0]));
      }
    }
  }

  lemma {:induction false} PrefixBound(es: seq<Entry>, i: nat)
    requires i < |es|
    ensures Total(es[..i]) + WeightOf(es[i]) <= Total(es)
  {
    assert es == es[..i] + [es[i]] + es[i + 1..];
    TotalConcat(es[..i] + [es[i]], es[i + 1..]);
    TotalConcat(es[..i], [es[i]]);
    assert Total([es[i]]) == WeightOf(es[i]);
  }

  function Range(lo: nat, hi: nat): (r: set<nat>)
    requires lo <= hi
    ensures |r| == hi - lo && forall v: nat :: v in r <==> lo <= v < hi
    decreases hi - lo
  {
    if lo == hi then {} else {lo} + Range(lo + 1, hi)
  }

  /** The values that choose position `i`. */
  ghost function ValuesFor(es: seq<Entry>, i: nat): set<nat> {
    set val: nat | val < Total(es) && Pick(es, val) == i
  }

  /** Each leaf is chosen by exactly as many values as its weight. */
  lemma ChosenByWeight(es: seq<Entry>, i: nat)
    requires i < |es|
    ensures |ValuesFor(es, i)| == WeightOf(es[i])
  {
    PrefixBound(es, i);
    var lo := Total(es[..i]);
    var interval := Range(lo, lo + WeightOf(es[i]));
    hide Range;
    forall val: nat ensures val in ValuesFor(es, i) <==> val in interval {
      if val < Total(es) {
        PickInterval(es, i, val);
      }
    }
    assert ValuesFor(es, i) == interval;
  }

  // ---------------------------------------------------------------- positions

  lemma {:induction false} SumUpdate(s: seq<nat>, i: nat, x: nat)
    requires i < |s|
    ensures Sum(s[i := x]) + s[i] == Sum(s) + x
  {
    if i > 0 {
      assert s[i := x][1..] == s[1..][i - 1 := x];
      SumUpdate(s[1..], i - 1, x);
    } else {
      assert s[i := x][1..] == s[1..];
    }
  }

  lemma CountsUpdate(slots: seq<Slot>, i: nat, s: Slot)
    requires i < |slots|
    ensures Sum(Counts(slots[i := s])) + SlotCount(slots[i]) == Sum(Counts(slots)) + SlotCount(s)
  {
    assert Counts(slots[i := s]) == Counts(slots)[i := SlotCount(s)];
    SumUpdate(Counts(slots), i, SlotCount(s));
  }

  /** Position `j` of branch `b` is leaf `b * Width + j`. */
  lemma {:induction false} BlocksIndex(slots: seq<Slot>, weights: seq<nat>, level: nat, b: nat, j: nat)
    requires SlotsFit(slots, weights, level) && b < |slots| && j < Width(level)
    ensures b * Width(level) + j < |Blocks(slots, weights, level)|
    ensures Blocks(slots, weights, level)[b * Width(level) + j] == Block(slots[b], weights[b], level)[j]
    decreases b
  {
    hide Width, Block, Capacity, SlotFits;
    if b > 0 {
      var first, rest := Block(slots[0], weights[0], level), Blocks(slots[1..], weights[1..], level);
      BlocksIndex(slots[1..], weights[1..], level, b - 1, j);
      IndexPast(first, rest, b, Width(level), j);
    }
  }

  lemma IndexPast(first: seq<Entry>, rest: seq<Entry>, b: nat, w: nat, j: nat)
    requires |first| == w && b > 0 && (b - 1) * w + j < |rest|
    ensures b * w + j < |first + rest| && (first + rest)[b * w + j] == rest[(b - 1) * w + j]
  {
    assert b * w + j == w + ((b - 1) * w + j);
  }

  /** Changing one position of one branch changes that leaf and no other. */
  lemma {:induction false} BlocksUpdate(slots: seq<Slot>, weights: seq<nat>, level: nat, b: nat, s: Slot, w: nat,
      j: nat, e: Entry)
    requires SlotsFit(slots, weights, level) && b < |slots| && j < Width(level) && SlotFits(s, w, level)
    requires Block(s, w, level) == Block(slots[b], weights[b], level)[j := e]
    ensures SlotsFit(slots[b := s], weights[b := w], level)
    ensures b * Width(level) + j < |Blocks(slots, weights, level)|
    ensures Blocks(slots[b := s], weights[b := w], level) == Blocks(slots, weights, level)[b * Width(level) + j := e]
    decreases b
  {
    hide Width, Block, Capacity, SlotFits;
    var slots', weights' := slots[b := s], weights[b := w];
    if b > 0 {
      assert slots'[1..] == slots[1..][b - 1 := s] && weights'[1..] == weights[1..][b - 1 := w];
      BlocksUpdate(slots[1..], weights[1..], level, b - 1, s, w, j, e);
      assert b * Width(level) + j == Width(level) + ((b - 1) * Width(level) + j);
    } else {
      assert slots'[1..] == slots[1..] && weights'[1..] == weights[1..];
    }
  }

  // ---------------------------------------------------------------- inserting

  /** Whether a branch can take another item. */
  predicate IsOpen(s: Slot, level: nat) {
    s == Empty || (level > 0 && s.Sub? && s.node.itemCnt != Capacity(level - 1))
  }

  /** The first branch that can take another item. */
  function FirstOpen(slots: seq<Slot>, level: nat): (b: nat)
    requires exists i :: 0 <= i < |slots| && IsOpen(slots[i], level)
    ensures b < |slots| && IsOpen(slots[b], level)
    ensures forall i | 0 <= i < b :: !IsOpen(slots[i], level)
  {
    if IsOpen(slots[0], level) then 0
    else
      var i :| 0 <= i < |slots| && IsOpen(slots[i], level);
      assert IsOpen(slots[1..][i - 1], level);
      1 + FirstOpen(slots[1..], level)
  }

  lemma {:induction false} AllFull(slots: seq<Slot>, width: nat)
    requires forall i | 0 <= i < |slots| :: SlotCount(slots[i]) == width
    ensures Sum(Counts(slots)) == |slots| * width
  {
    if slots != [] {
      assert Counts(slots)[1..] == Counts(slots[1..]);
      AllFull(slots[1..], width);
      assert |slots| * width == width + (|slots| - 1) * width;
    }
  }

  /** A node that is not full always has a free branch, so an insertion never runs out of branches. */
  lemma NotFullHasOpen(t: Tree)
    requires WellFormed(t) && t.itemCnt < Capacity(t.level)
    ensures exists i :: 0 <= i < |t.slots| && IsOpen(t.slots[i], t.level)
  {
    if forall i | 0 <= i < |t.slots| :: !IsOpen(t.slots[i], t.level) {
      forall i | 0 <= i < |t.slots| ensures SlotCount(t.slots[i]) == Width(t.level) {
        assert SlotFits(t.slots[i], t.weights[i], t.level);
      }
      AllFull(t.slots, Width(t.level));
    }
  }

  function NewNode(level: nat): (t: Tree)
    ensures t.level == level && t.itemCnt == 0 && t.sumWeight == 0
  {
    Tree(level, seq(BRANCHES, i => Empty), seq(BRANCHES, i => 0), 0, 0)
  }

  lemma NewNodeFits(level: nat)
    ensures WellFormed(NewNode(level)) && Leaves(NewNode(level)) == Gaps(Capacity(level))
  {
    var t := NewNode(level);
    SumOfZeros(t.weights);
    SumOfZeros(Counts(t.slots));
    AllGaps(t.slots, t.weights, level);
  }

  lemma {:induction false} SumOfZeros(s: seq<nat>)
    requires forall i | 0 <= i < |s| :: s[i] == 0
    ensures Sum(s) == 0
  {
    if s != [] { SumOfZeros(s[1..]); }
  }

  lemma {:induction false} AllGaps(slots: seq<Slot>, weights: seq<nat>, level: nat)
    requires |slots| == |weights| && forall i | 0 <= i < |slots| :: slots[i] == Empty && weights[i] == 0
    ensures SlotsFit(slots, weights, level) && Blocks(slots, weights, level) == Gaps(|slots| * Width(level))
    decreases |slots|
  {
    if slots != [] {
      AllGaps(slots[1..], weights[1..], level);
      assert |slots| * Width(level) == Width(level) + (|slots| - 1) * Width(level);
    }
  }

  function SubtreeOf(s: Slot, level: nat): (t: Tree)
    requires level > 0 && !s.Leaf?
  {
    if s.Sub? then s.node else NewNode(level - 1)
  }

  lemma {:induction false} HeldBound(es: seq<Entry>)
    ensures HeldCount(es) <= |es|
  {
    if es != [] { HeldBound(es[1..]); }
  }

  lemma CountBound(t: Tree)
    requires WellFormed(t)
    ensures t.itemCnt <= Capacity(t.level)
  {
    hide WellFormed, Leaves, HeldCount, Total;
    LeavesTotal(t);
    HeldBound(Leaves(t));
  }

  lemma SubtreeFits(s: Slot, w: nat, level: nat)
    requires level > 0 && SlotFits(s, w, level)
    ensures !s.Leaf? && WellFormed(SubtreeOf(s, level)) && SubtreeOf(s, level).level == level - 1
    ensures SubtreeOf(s, level).sumWeight == w && SubtreeOf(s, level).itemCnt == SlotCount(s)
    ensures Leaves(SubtreeOf(s, level)) == Block(s, w, level)
    ensures IsOpen(s, level) ==> SubtreeOf(s, level).itemCnt < Capacity(level - 1)
  {
    hide WellFormed, Leaves, NewNode;
    NewNodeFits(level - 1);
    CountBound(SubtreeOf(s, level));
  }

  /** The node with one slot exchanged and the sums adjusted. */
  function WithSlot(t: Tree, b: nat, s: Slot, w: nat): Tree
    requires b < |t.slots| && b < |t.weights|
    requires t.sumWeight + w >= t.weights[b] && t.itemCnt + SlotCount(s) >= SlotCount(t.slots[b])
  {
    Tree(t.level, t.slots[b := s], t.weights[b := w],
         t.sumWeight + w - t.weights[b], t.itemCnt + SlotCount(s) - SlotCount(t.slots[b]))
  }

  lemma PutSlot(t: Tree, b: nat, s: Slot, w: nat)
    requires WellFormed(t) && b < BRANCHES && SlotFits(s, w, t.level)
    ensures b < |t.slots| && b < |t.weights| && SlotsFit(t.slots, t.weights, t.level)
    ensures t.sumWeight + w >= t.weights[b] && t.itemCnt + SlotCount(s) >= SlotCount(t.slots[b])
    ensures var t' := WithSlot(t, b, s, w);
      && WellFormed(t') && t'.level == t.level && t'.sumWeight == t.sumWeight + w - t.weights[b]
      && t'.itemCnt == t.itemCnt + SlotCount(s) - SlotCount(t.slots[b])
  {
    hide SlotFits, SlotCount;
    SumUpdate(t.weights, b, w);
    CountsUpdate(t.slots, b, s);
    hide Sum, Counts;
  }

  lemma PutSlotLeaves(t: Tree, b: nat, s: Slot, w: nat, j: nat, e: Entry)
    requires WellFormed(t) && b < BRANCHES && SlotFits(s, w, t.level) && j < Width(t.level)
    requires |t.slots| == BRANCHES == |t.weights| && SlotFits(t.slots[b], t.weights[b], t.level)
    requires Block(s, w, t.level) == Block(t.slots[b], t.weights[b], t.level)[j := e]
    ensures t.sumWeight + w >= t.weights[b] && t.itemCnt + SlotCount(s) >= SlotCount(t.slots[b])
    ensures WellFormed(WithSlot(t, b, s, w)) && b * Width(t.level) + j < Capacity(t.level)
    ensures Leaves(t)[b * Width(t.level) + j] == Block(t.slots[b], t.weights[b], t.level)[j]
    ensures Leaves(WithSlot(t, b, s, w)) == Leaves(t)[b * Width(t.level) + j := e]
  {
    hide SlotFits, SlotCount, Block, Blocks, Sum, Counts, Width;
    PutSlot(t, b, s, w);
    BlocksIndex(t.slots, t.weights, t.level, b, j);
    BlocksUpdate(t.slots, t.weights, t.level, b, s, w, j, e);
  }

  /** Recursive insertion; returns the new tree and the leaf index. */
  function Insert(t: Tree, item: Item, weight: nat): (r: (Tree, nat))
    requires WellFormed(t) && t.itemCnt < Capacity(t.level) && weight > 0
    ensures r.0.level == t.level && r.0.sumWeight == t.sumWeight + weight && r.0.itemCnt == t.itemCnt + 1
    ensures WellFormed(r.0)
    decreases t.level
  {
    hide *;
    OpenBranch(t);
    var b := FirstOpen(t.slots, t.level);
    if t.level == 0 then
      LeafFits(item, weight);
      PutSlot(t, b, Leaf(item), t.weights[b] + weight);
      (WithSlot(t, b, Leaf(item), t.weights[b] + weight), b)
    else
      SubtreeFits(t.slots[b], t.weights[b], t.level);
      var (sub, i) := Insert(SubtreeOf(t.slots[b], t.level), item, weight);
      SubFits(sub, t.level);
      PutSlot(t, b, Sub(sub), t.weights[b] + weight);
      (WithSlot(t, b, Sub(sub), t.weights[b] + weight), Capacity(t.level - 1) * b + i)
  }

  lemma LeafFits(item: Item, weight: nat)
    requires weight > 0
    ensures SlotFits(Leaf(item), weight, 0) && SlotCount(Leaf(item)) == 1 && SlotCount(Empty) == 0
  {
  }

  lemma OpenBranch(t: Tree)
    requires WellFormed(t) && t.itemCnt < Capacity(t.level)
    ensures exists i :: 0 <= i < |t.slots| && IsOpen(t.slots[i], t.level)
    ensures var b := FirstOpen(t.slots, t.level);
            && b < BRANCHES && |t.slots| == BRANCHES == |t.weights| && SlotFits(t.slots[b], t.weights[b], t.level)
            && (t.level == 0 ==> t.slots[b] == Empty && t.weights[b] == 0)
  {
    NotFullHasOpen(t);
  }

  /** Insertion fills one vacant leaf and moves no other. */
  lemma {:induction false} InsertFills(t: Tree, item: Item, weight: nat)
    requires WellFormed(t) && t.itemCnt < Capacity(t.level) && weight > 0
    ensures var (t', idx) := Insert(t, item, weight);
            && idx < Capacity(t.level) && Leaves(t)[idx] == Gap
            && Leaves(t') == Leaves(t)[idx := Held(item, weight)]
    decreases t.level
  {
    hide *;
    if t.level == 0 {
      InsertFillsLeaf(t, item, weight);
    } else {
      OpenBranch(t);
      var b := FirstOpen(t.slots, t.level);
      SubtreeFits(t.slots[b], t.weights[b], t.level);
      InsertFills(SubtreeOf(t.slots[b], t.level), item, weight);
      InsertFillsSub(t, item, weight, b);
    }
  }

  lemma InsertFillsLeaf(t: Tree, item: Item, weight: nat)
    requires WellFormed(t) && t.itemCnt < Capacity(t.level) && weight > 0 && t.level == 0
    ensures var (t', idx) := Insert(t, item, weight);
            && idx < Capacity(t.level) && Leaves(t)[idx] == Gap
            && Leaves(t') == Leaves(t)[idx := Held(item, weight)]
  {
    hide WellFormed, Leaves, WithSlot, FirstOpen;
    OpenBranch(t);
    var b := FirstOpen(t.slots, t.level);
    PutSlotLeaves(t, b, Leaf(item), t.weights[b] + weight, 0, Held(item, weight));
  }

  lemma InsertFillsSub(t: Tree, item: Item, weight: nat, b: nat)
    requires WellFormed(t) && t.itemCnt < Capacity(t.level) && weight > 0 && t.level > 0
    requires |t.slots| == BRANCHES == |t.weights| && b < BRANCHES && SlotFits(t.slots[b], t.weights[b], t.level)
    requires exists i :: 0 <= i < |t.slots| && IsOpen(t.slots[i], t.level)
    requires b == FirstOpen(t.slots, t.level) && !t.slots[b].Leaf?
    requires var sub := SubtreeOf(t.slots[b], t.level);
             && WellFormed(sub) && sub.level == t.level - 1 && sub.itemCnt < Capacity(sub.level)
             && sub.sumWeight == t.weights[b] && sub.itemCnt == SlotCount(t.slots[b])
             && Leaves(sub) == Block(t.slots[b], t.weights[b], t.level)
             && var (sub', i) := Insert(sub, item, weight);
                && i < Capacity(sub.level) && Leaves(sub)[i] == Gap
                && Leaves(sub') == Leaves(sub)[i := Held(item, weight)]
    ensures var (t', idx) := Insert(t, item, weight);
            && idx < Capacity(t.level) && Leaves(t)[idx] == Gap
            && Leaves(t') == Leaves(t)[idx := Held(item, weight)]
  {
    hide *;
    InsertBelow(t, item, weight, b);
    var (sub', i) := Insert(SubtreeOf(t.slots[b], t.level), item, weight);
    SubFits(sub', t.level);
    WidthIs(t.level);
    PutSlotLeaves(t, b, Sub(sub'), t.weights[b] + weight, i, Held(item, weight));
    Commute(b, Width(t.level));
  }

  lemma Commute(x: nat, y: nat)
    ensures x * y == y * x
  {
  }

  lemma WidthIs(level: nat)
    requires level > 0
    ensures Width(level) == Capacity(level - 1)
  {
  }

  lemma SubFits(n: Tree, level: nat)
    requires level > 0 && n.level == level - 1 && WellFormed(n)
    ensures SlotFits(Sub(n), n.sumWeight, level) && SlotCount(Sub(n)) == n.itemCnt
    ensures Block(Sub(n), n.sumWeight, level) == Leaves(n)
  {
    hide WellFormed, Leaves;
  }

  lemma InsertBelow(t: Tree, item: Item, weight: nat, b: nat)
    requires WellFormed(t) && t.itemCnt < Capacity(t.level) && weight > 0 && t.level > 0
    requires |t.slots| == BRANCHES == |t.weights| && b < BRANCHES
    requires exists i :: 0 <= i < |t.slots| && IsOpen(t.slots[i], t.level)
    requires b == FirstOpen(t.slots, t.level) && !t.slots[b].Leaf?
    requires var sub := SubtreeOf(t.slots[b], t.level);
             WellFormed(sub) && sub.itemCnt < Capacity(sub.level) && sub.itemCnt == SlotCount(t.slots[b])
    ensures var (sub', i) := Insert(SubtreeOf(t.slots[b], t.level), item, weight);
            && t.sumWeight + t.weights[b] + weight >= t.weights[b]
            && t.itemCnt + SlotCount(Sub(sub')) >= SlotCount(t.slots[b])
            && Insert(t, item, weight) == (WithSlot(t, b, Sub(sub'), t.weights[b] + weight), Capacity(t.level - 1) * b + i)
  {
    hide WellFormed, WithSlot, SubtreeOf, FirstOpen, Capacity, IsOpen;
  }

  // ---------------------------------------------------------------- changing a weight

  /** The branch a leaf index falls into, and its position there. */
  function BranchOf(idx: nat, w: nat): nat
    requires w > 0
  {
    idx / w
  }

  function OffsetIn(idx: nat, w: nat): (j: nat)
    requires w > 0
    ensures j < w && BranchOf(idx, w) * w + j == idx
  {
    assert idx == idx / w * w + idx % w;
    idx - idx / w * w
  }

  lemma BranchBound(idx: nat, w: nat)
    requires w > 0 && idx < BRANCHES * w
    ensures BranchOf(idx, w) < BRANCHES
  {
  }

  lemma Locate(t: Tree, idx: nat)
    requires WellFormed(t) && idx < Capacity(t.level)
    ensures var b, j := BranchOf(idx, Width(t.level)), OffsetIn(idx, Width(t.level));
            && b < BRANCHES && |t.slots| == BRANCHES == |t.weights| && SlotFits(t.slots[b], t.weights[b], t.level)
            && Leaves(t)[idx] == Block(t.slots[b], t.weights[b], t.level)[j]
            && (Leaves(t)[idx].Held? ==> t.slots[b] != Empty)
  {
    hide Capacity, Width, Block, BranchOf, OffsetIn;
    var w := Width(t.level);
    BranchBound(idx, w);
    var b, j := BranchOf(idx, w), OffsetIn(idx, w);
    BlocksIndex(t.slots, t.weights, t.level, b, j);
    VacantBlock(t.slots[b], t.weights[b], t.level);
  }

  lemma VacantBlock(s: Slot, w: nat, level: nat)
    requires SlotFits(s, w, level)
    ensures s == Empty ==> forall j | 0 <= j < Width(level) :: Block(s, w, level)[j] == Gap
  {
  }

  ghost predicate HeldAt(t: Tree, idx: nat) {
    WellFormed(t) && idx < Capacity(t.level) && Leaves(t)[idx].Held?
  }

  lemma HeldSlot(t: Tree, idx: nat)
    requires HeldAt(t, idx)
    ensures |t.slots| == BRANCHES == |t.weights|
    ensures t.level == 0 ==> idx < BRANCHES && t.slots[idx].Leaf? && Leaves(t)[idx] == Held(t.slots[idx].item, t.weights[idx])
    ensures t.level > 0 ==>
              var w := Capacity(t.level - 1);
              var b, j := BranchOf(idx, w), OffsetIn(idx, w);
              && b < BRANCHES && t.slots[b].Sub? && HeldAt(t.slots[b].node, j)
              && t.slots[b].node.level == t.level - 1 && t.weights[b] == t.slots[b].node.sumWeight
              && Leaves(t.slots[b].node)[j] == Leaves(t)[idx]
  {
    hide WellFormed, Leaves, Capacity, BranchOf, OffsetIn;
    Locate(t, idx);
    LeafLevelIndex(idx);
  }

  lemma LeafLevelIndex(idx: nat)
    ensures BranchOf(idx, 1) == idx && OffsetIn(idx, 1) == 0
  {
  }

  /** Recursive weight change; a zero weight removes the item. Returns the new tree and the change. */
  function SetWeight(t: Tree, idx: nat, weight: nat): (r: (Tree, int))
    requires HeldAt(t, idx)
    ensures WellFormed(r.0) && r.0.level == t.level && r.0.sumWeight == t.sumWeight + r.1
    ensures r.0.itemCnt == t.itemCnt - (if weight == 0 then 1 else 0)
    ensures r.1 == weight - Leaves(t)[idx].weight
    decreases t.level
  {
    hide WellFormed, Leaves, Capacity, BranchOf, OffsetIn, HeldAt;
    HeldIs(t, idx);
    HeldSlot(t, idx);
    if t.level == 0 then
      var slot := if weight == 0 then Empty else t.slots[idx];
      PutSlot(t, idx, slot, weight);
      (WithSlot(t, idx, slot, weight), weight - t.weights[idx])
    else
      var branchItems := Capacity(t.level - 1);
      var branch := BranchOf(idx, branchItems);
      var (sub, diff) := SetWeight(t.slots[branch].node, OffsetIn(idx, branchItems), weight);
      PutSlot(t, branch, Sub(sub), t.weights[branch] + diff);
      (WithSlot(t, branch, Sub(sub), t.weights[branch] + diff), diff)
  }

  function Updated(e: Entry, weight: nat): Entry
    requires e.Held?
  {
    if weight == 0 then Gap else Held(e.item, weight)
  }

  /** A weight change touches its own leaf only. */
  lemma {:induction false} SetWeightLeaf(t: Tree, idx: nat, weight: nat)
    requires HeldAt(t, idx)
    ensures Leaves(SetWeight(t, idx, weight).0) == Leaves(t)[idx := Updated(Leaves(t)[idx], weight)]
    decreases t.level
  {
    hide *;
    HeldSlot(t, idx);
    HeldIs(t, idx);
    if t.level == 0 {
      SetWeightLeafLevel(t, idx, weight);
    } else {
      var w := Capacity(t.level - 1);
      SetWeightLeaf(t.slots[BranchOf(idx, w)].node, OffsetIn(idx, w), weight);
      SetWeightSub(t, idx, weight);
    }
  }

  lemma HeldIs(t: Tree, idx: nat)
    requires HeldAt(t, idx)
    ensures WellFormed(t) && idx < Capacity(t.level) && Leaves(t)[idx].Held?
  {
  }

  lemma SetWeightLeafLevel(t: Tree, idx: nat, weight: nat)
    requires HeldAt(t, idx) && t.level == 0
    ensures Leaves(SetWeight(t, idx, weight).0) == Leaves(t)[idx := Updated(Leaves(t)[idx], weight)]
  {
    HeldSlot(t, idx);
    var slot := if weight == 0 then Empty else t.slots[idx];
    hide WellFormed, Leaves, WithSlot;
    PutSlotLeaves(t, idx, slot, weight, 0, Updated(Leaves(t)[idx], weight));
  }

  lemma SetWeightSub(t: Tree, idx: nat, weight: nat)
    requires HeldAt(t, idx) && t.level > 0
    requires var w := Capacity(t.level - 1);
             var b, j := BranchOf(idx, w), OffsetIn(idx, w);
             && b < BRANCHES == |t.slots| && t.slots[b].Sub? && HeldAt(t.slots[b].node, j)
             && var n := t.slots[b].node;
                Leaves(SetWeight(n, j, weight).0) == Leaves(n)[j := Updated(Leaves(n)[j], weight)]
    ensures Leaves(SetWeight(t, idx, weight).0) == Leaves(t)[idx := Updated(Leaves(t)[idx], weight)]
  {
    hide *;
    HeldSlot(t, idx);
    HeldIs(t, idx);
    WidthIs(t.level);
    var w := Capacity(t.level - 1);
    var b, j := BranchOf(idx, w), OffsetIn(idx, w);
    var n := t.slots[b].node;
    HeldIs(n, j);
    SetWeightBelow(t, idx, weight);
    var sub := SetWeight(n, j, weight).0;
    SubFits(n, t.level);
    SubFits(sub, t.level);
    PutSlotLeaves(t, b, Sub(sub), sub.sumWeight, j, Updated(Leaves(n)[j], weight));
  }

  lemma SetWeightBelow(t: Tree, idx: nat, weight: nat)
    requires HeldAt(t, idx) && t.level > 0
    ensures |t.slots| == BRANCHES == |t.weights|
    ensures var w := Capacity(t.level - 1);
            var b, j := BranchOf(idx, w), OffsetIn(idx, w);
            && b < BRANCHES && t.slots[b].Sub? && HeldAt(t.slots[b].node, j)
            && var sub := SetWeight(t.slots[b].node, j, weight).0;
               && t.sumWeight + sub.sumWeight >= t.weights[b] && t.itemCnt + SlotCount(Sub(sub)) >= SlotCount(t.slots[b])
               && SetWeight(t, idx, weight).0 == WithSlot(t, b, Sub(sub), sub.sumWeight)
  {
    hide WellFormed, Leaves, WithSlot, Capacity, BranchOf, OffsetIn, HeldAt;
    HeldSlot(t, idx);
    HeldIs(t, idx);
    WidthIs(t.level);
    var w := Capacity(t.level - 1);
    var b, j := BranchOf(idx, w), OffsetIn(idx, w);
    var (sub, diff) := SetWeight(t.slots[b].node, j, weight);
    PutSlot(t, b, Sub(sub), t.weights[b] + diff);
  }

  // ---------------------------------------------------------------- adding a level

  /** A new root above a full one. */
  function Grow(t: Tree): Tree {
    Tree(t.level + 1, [Sub(t)] + seq(BRANCHES - 1, i => Empty), [t.sumWeight] + seq(BRANCHES - 1, i => 0), t.sumWeight, t.itemCnt)
  }

  /** Indices handed out before stay valid: the old leaves come first, followed by vacant ones. */
  lemma GrowKeepsIndices(t: Tree)
    requires WellFormed(t)
    ensures WellFormed(Grow(t)) && Leaves(Grow(t)) == Leaves(t) + Gaps((BRANCHES - 1) * Capacity(t.level))
  {
    var g := Grow(t);
    var slots, weights := seq(BRANCHES - 1, i => Empty), seq(BRANCHES - 1, i => 0);
    assert g.slots[1..] == slots && g.weights[1..] == weights;
    GrowFits(t);
    AllGaps(slots, weights, t.level + 1);
    SubFits(t, t.level + 1);
    hide WellFormed, SlotFits, Capacity, Width, Gaps;
    WidthIs(t.level + 1);
  }

  lemma GrowFits(t: Tree)
    requires WellFormed(t)
    ensures WellFormed(Grow(t))
  {
    var g := Grow(t);
    SumOfZeros(g.weights[1..]);
    SumOfZeros(Counts(g.slots)[1..]);
    hide Sum;
    SumFirst(g.weights);
    SumFirst(Counts(g.slots));
  }

  lemma SumFirst(s: seq<nat>)
    requires s != []
    ensures Sum(s) == s[0] + Sum(s[1..])
  {
  }

  /** A held leaf has a positive weight. */
  lemma {:induction false} HeldPositive(t: Tree, idx: nat)
    requires HeldAt(t, idx)
    ensures Leaves(t)[idx].weight > 0
    decreases t.level
  {
    hide WellFormed, Leaves, Capacity, BranchOf, OffsetIn, HeldAt;
    HeldIs(t, idx);
    HeldSlot(t, idx);
    if t.level == 0 {
      LeafWeight(t, idx);
    } else {
      var w := Capacity(t.level - 1);
      HeldPositive(t.slots[BranchOf(idx, w)].node, OffsetIn(idx, w));
    }
  }

  lemma LeafWeight(t: Tree, i: nat)
    requires WellFormed(t) && i < BRANCHES && t.slots[i].Leaf?
    ensures t.weights[i] > 0
  {
    assert SlotFits(t.slots[i], t.weights[i], t.level);
  }
}
