/** The tree that the flat node vector of the bounds tree stands for, and the effect of one insertion on it. */
module RTree {
  import opened Geometry
  import opened DrawOrder

  const MAX_CHILDREN := 12

  /** `id` is the node's position in the node vector. */
  datatype Tree =
    | Leaf(id: nat, quad: Quad)
    | Branch(id: nat, bounds: Bounds, maxOrder: nat, kids: seq<Tree>)
  {
    function Box(): Bounds {
      if Leaf? then quad.bounds else bounds
    }

    function Top(): nat {
      if Leaf? then quad.order else maxOrder
    }
  }

  // ---------- Contents and node identities ----------

  ghost function Leaves(t: Tree): multiset<Quad> {
    match t
    case Leaf(_, quad) => multiset{quad}
    case Branch(_, _, _, kids) => ForestLeaves(kids)
  }

  ghost function ForestLeaves(ts: seq<Tree>): multiset<Quad> {
    if ts == [] then multiset{} else ForestLeaves(ts[..|ts| - 1]) + Leaves(ts[|ts| - 1])
  }

  ghost function Ids(t: Tree): set<nat> {
    match t
    case Leaf(id, _) => {id}
    case Branch(id, _, _, kids) => {id} + ForestIds(kids)
  }

  ghost function ForestIds(ts: seq<Tree>): set<nat> {
    set k, x | 0 <= k < |ts| && x in Ids(ts[k]) :: x
  }

  /** No node position occurs twice, so the links form a tree and not merely a graph. */
  ghost predicate Distinct(t: Tree) {
    match t
    case Leaf(_, _) => true
    case Branch(id, _, _, kids) =>
      && id !in ForestIds(kids)
      && (forall k :: 0 <= k < |kids| ==> Distinct(kids[k]))
      && Apart(kids)
  }

  /** Different trees of the forest share no position. */
  ghost predicate Apart(ts: seq<Tree>) {
    forall j, k :: 0 <= j < |ts| && 0 <= k < |ts| && j != k ==> Separate(ts, j, k)
  }

  ghost predicate Separate(ts: seq<Tree>, j: nat, k: nat)
    requires j < |ts| && k < |ts|
  {
    Ids(ts[j]) !! Ids(ts[k])
  }

  // ---------- The R-tree invariant ----------

  /** Arity, and the highest child last: the order of a branch is that of its last child. */
  ghost predicate WellFormed(t: Tree) {
    match t
    case Leaf(_, _) => true
    case Branch(_, _, maxOrder, kids) =>
      && 2 <= |kids| <= 12
      && (forall k :: 0 <= k < |kids| ==> WellFormed(kids[k]) && kids[k].Top() <= maxOrder)
      && kids[|kids| - 1].Top() == maxOrder
  }

  /** Every branch's box is exactly the union of the rectangles below it. */
  ghost predicate Snug(t: Tree) {
    match t
    case Leaf(_, _) => true
    case Branch(_, bounds, _, kids) =>
      && Tight(bounds, ForestLeaves(kids))
      && forall k :: 0 <= k < |kids| ==> Snug(kids[k])
  }

  /** `box` is the least rectangle that covers all of `quads`. */
  ghost predicate Tight(box: Bounds, quads: multiset<Quad>) {
    forall c: Bounds {:trigger CoversAll(c, quads)} :: CoversAll(c, quads) <==> c.Covers(box)
  }

  ghost predicate CoversAll(c: Bounds, quads: multiset<Quad>) {
    forall quad <- quads :: c.Covers(quad.bounds)
  }

  lemma {:induction false} ForestContains(ts: seq<Tree>, k: nat)
    requires k < |ts|
    ensures Leaves(ts[k]) <= ForestLeaves(ts)
  {
    if k < |ts| - 1 {
      ForestContains(ts[..|ts| - 1], k);
    }
  }

  lemma {:induction false} ForestConcat(a: seq<Tree>, b: seq<Tree>)
    ensures ForestLeaves(a + b) == ForestLeaves(a) + ForestLeaves(b)
  {
    if b == [] {
      assert a + b == a;
    } else {
      assert (a + b)[..|a + b| - 1] == a + b[..|b| - 1];
      ForestConcat(a, b[..|b| - 1]);
    }
  }

  /** Replacing a tree by one with `extra` leaves adds `extra` to the forest. */
  lemma ForestReplace(ts: seq<Tree>, k: nat, t: Tree, extra: multiset<Quad>)
    requires k < |ts| && Leaves(t) == Leaves(ts[k]) + extra
    ensures ForestLeaves(ts[k := t]) == ForestLeaves(ts) + extra
  {
    ForestSplit(ts, k);
    ForestSplit(ts[k := t], k);
    assert ts[k := t][..k] == ts[..k] && ts[k := t][k + 1..] == ts[k + 1..];
  }

  lemma {:induction false} ForestSplit(ts: seq<Tree>, k: nat)
    requires k < |ts|
    ensures ForestLeaves(ts) == ForestLeaves(ts[..k]) + Leaves(ts[k]) + ForestLeaves(ts[k + 1..])
  {
    assert ts == ts[..k] + [ts[k]] + ts[k + 1..];
    ForestConcat(ts[..k] + [ts[k]], ts[k + 1..]);
    ForestAppend(ts[..k], ts[k]);
  }

  function Swap<T>(s: seq<T>, i: nat, j: nat): (r: seq<T>)
    requires i < |s| && j < |s|
    ensures |r| == |s|
  {
    s[i := s[j]][j := s[i]]
  }

  lemma ForestUpdate(ts: seq<Tree>, k: nat, t: Tree)
    requires k < |ts|
    ensures ForestLeaves(ts[k := t]) + Leaves(ts[k]) == ForestLeaves(ts) + Leaves(t)
  {
    ForestSplit(ts, k);
    ForestSplit(ts[k := t], k);
    assert ts[k := t][..k] == ts[..k] && ts[k := t][k + 1..] == ts[k + 1..];
  }

  lemma ForestSwap(ts: seq<Tree>, i: nat, j: nat)
    requires i < |ts| && j < |ts|
    ensures ForestLeaves(Swap(ts, i, j)) == ForestLeaves(ts)
  {
    if i == j {
      assert Swap(ts, i, j) == ts;
    } else {
      ForestUpdate(ts, i, ts[j]);
      ForestUpdate(ts[i := ts[j]], j, ts[i]);
      ExchangeCancels(ForestLeaves(ts), ForestLeaves(ts[i := ts[j]]), ForestLeaves(Swap(ts, i, j)),
                      Leaves(ts[i]), Leaves(ts[j]));
    }
  }

  lemma ExchangeCancels(before: multiset<Quad>, between: multiset<Quad>, after: multiset<Quad>,
     x: multiset<Quad>, y: multiset<Quad>)
    requires between + x == before + y && after + y == between + x
    ensures after == before
  {
    forall q: Quad
      ensures after[q] == before[q]
    {
      assert (after + y)[q] == (before + y)[q];
    }
  }

  lemma ForestAppend(ts: seq<Tree>, t: Tree)
    ensures ForestLeaves(ts + [t]) == ForestLeaves(ts) + Leaves(t)
  {
    assert (ts + [t])[..|ts|] == ts;
  }

  /** The order of a branch is the highest order below it. */
  lemma {:induction false} TopIsHighest(t: Tree)
    requires WellFormed(t)
    ensures forall quad <- Leaves(t) :: quad.order <= t.Top()
    ensures exists quad <- Leaves(t) :: quad.order == t.Top()
  {
    if t.Leaf? {
      assert t.quad in Leaves(t);
    } else {
      ForestTops(t.kids, t.maxOrder);
      var last := |t.kids| - 1;
      TopIsHighest(t.kids[last]);
      ForestContains(t.kids, last);
    }
  }

  lemma {:induction false} ForestTops(ts: seq<Tree>, top: nat)
    requires forall k :: 0 <= k < |ts| ==> WellFormed(ts[k]) && ts[k].Top() <= top
    ensures forall quad <- ForestLeaves(ts) :: quad.order <= top
  {
    if ts != [] {
      ForestTops(ts[..|ts| - 1], top);
      TopIsHighest(ts[|ts| - 1]);
    }
  }

  /** The box of a snug tree covers every rectangle in it. */
  lemma BoxCovers(t: Tree, quad: Quad)
    requires Snug(t) && quad in Leaves(t)
    ensures t.Box().Covers(quad.bounds)
  {
    if t.Branch? {
      assert CoversAll(t.bounds, ForestLeaves(t.kids));
    }
  }

  // ---------- Insertion ----------

  /** Half perimeter of the smallest box around `box` and `bounds`. */
  function BoxCost(box: Bounds, bounds: Bounds): real {
    bounds.Union(box).HalfPerimeter()
  }

  function Cost(t: Tree, bounds: Bounds): real {
    BoxCost(t.Box(), bounds)
  }

  function Costs(ts: seq<Tree>, bounds: Bounds): (costs: seq<real>)
    ensures |costs| == |ts|
  {
    seq(|ts|, k requires 0 <= k < |ts| => Cost(ts[k], bounds))
  }

  /** Position of the first minimum among the first `n` costs. */
  function FirstMinimum(costs: seq<real>, n: nat): (p: nat)
    requires 1 <= n <= |costs|
    ensures p < n
  {
    if n == 1 then 0
    else
      var p := FirstMinimum(costs, n - 1);
      if costs[n - 1] < costs[p] then n - 1 else p
  }

  /** Position of the tree that `bounds` is cheapest to add to; the first of several. */
  function Cheapest(ts: seq<Tree>, bounds: Bounds): (p: nat)
    requires ts != []
    ensures p < |ts|
  {
    FirstMinimum(Costs(ts, bounds), |ts|)
  }

  lemma {:induction false} FirstMinimumIsLeast(costs: seq<real>, n: nat)
    requires 1 <= n <= |costs|
    ensures forall k :: 0 <= k < n ==> costs[FirstMinimum(costs, n)] <= costs[k]
    ensures forall k :: 0 <= k < FirstMinimum(costs, n) ==> costs[FirstMinimum(costs, n)] < costs[k]
  {
    if n > 1 {
      FirstMinimumIsLeast(costs, n - 1);
    }
  }

  /** Width plus height of `box` once it covers `bounds` too, by its corners. */
  ghost function Extent(box: Bounds, bounds: Bounds): real {
    var from, to := box.origin.Min(bounds.origin), box.BottomRight().Max(bounds.BottomRight());
    (to.x - from.x) + (to.y - from.y)
  }

  /** The descent enlarges as little as possible: no sibling's box would end up with a smaller width and height
      together, and none before it with the same. */
  lemma CheapestEnlargesLeast(ts: seq<Tree>, bounds: Bounds, k: nat)
    requires k < |ts|
    ensures var p := Cheapest(ts, bounds);
            && Extent(ts[p].Box(), bounds) <= Extent(ts[k].Box(), bounds)
            && (k < p ==> Extent(ts[p].Box(), bounds) < Extent(ts[k].Box(), bounds))
  {
    var costs := Costs(ts, bounds);
    FirstMinimumIsLeast(costs, |ts|);
    assert costs[k] == Cost(ts[k], bounds) && costs[Cheapest(ts, bounds)] == Cost(ts[Cheapest(ts, bounds)], bounds);
    CostIsExtent(ts[k], bounds);
    CostIsExtent(ts[Cheapest(ts, bounds)], bounds);
  }

  lemma CostIsExtent(t: Tree, bounds: Bounds)
    ensures Cost(t, bounds) == Extent(t.Box(), bounds)
  {
  }

  /** A branch over two leaves, the higher one last. */
  function Pair(id: nat, sibling: Tree, leaf: Tree): Tree {
    Branch(id, sibling.Box().Union(leaf.Box()), Max(sibling.Top(), leaf.Top()),
           if leaf.Top() > sibling.Top() then [sibling, leaf] else [leaf, sibling])
  }

  /** The children of `t` once `leaf` went into or below the cheapest one. */
  function Placed(t: Tree, leaf: Tree, spare: nat): seq<Tree>
    requires t.Branch? && t.kids != [] && leaf.Leaf?
    decreases t, 0
  {
    var p := Cheapest(t.kids, leaf.Box());
    if t.kids[p].Branch? then t.kids[p := Grow(t.kids[p], leaf, spare)]
    else if |t.kids| < MAX_CHILDREN then t.kids + [leaf]
    else t.kids[p := Pair(spare, t.kids[p], leaf)]
  }

  /** There is one child more exactly when the leaf was added beside its cheapest sibling. */
  predicate SizesFit(t: Tree, leaf: Tree, kids: seq<Tree>)
    requires t.Branch? && t.kids != []
  {
    var kid := t.kids[Cheapest(t.kids, leaf.Box())];
    |kids| == |t.kids| + if kid.Leaf? && |t.kids| < MAX_CHILDREN then 1 else 0
  }

  /** The swap that puts the highest child back at the end. */
  function HighestLast(t: Tree, leaf: Tree, kids: seq<Tree>): seq<Tree>
    requires t.Branch? && t.kids != [] && SizesFit(t, leaf, kids)
  {
    var p := Cheapest(t.kids, leaf.Box());
    var last := |t.kids| - 1;
    if t.kids[p].Branch? then
      if t.maxOrder < leaf.Top() then Swap(kids, p, last) else kids
    else if |t.kids| < MAX_CHILDREN then
      if leaf.Top() <= t.maxOrder then Swap(kids, last, last + 1) else kids
    else
      if Max(t.kids[p].Top(), leaf.Top()) > t.maxOrder then Swap(kids, p, last) else kids
  }

  function Grow(t: Tree, leaf: Tree, spare: nat): Tree
    requires leaf.Leaf?
    decreases t, 1
  {
    if t.Leaf? || t.kids == [] then t
    else Branch(t.id, t.bounds.Union(leaf.Box()), Max(t.maxOrder, leaf.Top()),
           HighestLast(t, leaf, Placed(t, leaf, spare)))
  }

  lemma TightAdd(box: Bounds, quads: multiset<Quad>, quad: Quad)
    requires Tight(box, quads)
    ensures Tight(box.Union(quad.bounds), quads + multiset{quad})
  {
    var all := quads + multiset{quad};
    forall c: Bounds
      ensures CoversAll(c, all) <==> c.Covers(box.Union(quad.bounds))
    {
      UnionIsLeast(box, quad.bounds, c);
      var coversOld := CoversAll(c, quads);
      if CoversAll(c, all) {
        assert quad in all;
        assert forall q <- quads :: q in all;
      }
    }
  }

  lemma PairKeeps(id: nat, sibling: Tree, leaf: Tree)
    requires sibling.Leaf? && leaf.Leaf?
    ensures var pair := Pair(id, sibling, leaf);
            WellFormed(pair) && Leaves(pair) == Leaves(sibling) + Leaves(leaf)
  {
    ForestOfTwo(sibling, leaf);
    ForestOfTwo(leaf, sibling);
  }

  lemma ForestOfTwo(a: Tree, b: Tree)
    ensures ForestLeaves([a, b]) == Leaves(a) + Leaves(b)
  {
    ForestAppend([], a);
    ForestAppend([a], b);
    assert [a, b] == [] + [a] + [b];
  }

  lemma PairSnug(id: nat, sibling: Tree, leaf: Tree)
    requires sibling.Leaf? && leaf.Leaf?
    ensures Snug(Pair(id, sibling, leaf))
  {
    PairKeeps(id, sibling, leaf);
    var single := multiset{sibling.quad};
    forall c: Bounds
      ensures CoversAll(c, single) <==> c.Covers(sibling.quad.bounds)
    {
      assert sibling.quad in single;
    }
    TightAdd(sibling.quad.bounds, single, leaf.quad);
  }

  /** Insertion adds exactly the new leaf. */
  lemma {:induction false} PlacedAddsLeaf(t: Tree, leaf: Tree, spare: nat)
    requires t.Branch? && WellFormed(t) && leaf.Leaf?
    ensures ForestLeaves(Placed(t, leaf, spare)) == Leaves(t) + multiset{leaf.quad}
    decreases t, 0
  {
    var p := Cheapest(t.kids, leaf.Box());
    if t.kids[p].Branch? {
      GrowAddsLeaf(t.kids[p], leaf, spare);
      ForestReplace(t.kids, p, Grow(t.kids[p], leaf, spare), multiset{leaf.quad});
    } else if |t.kids| < MAX_CHILDREN {
      ForestAppend(t.kids, leaf);
    } else {
      PairKeeps(spare, t.kids[p], leaf);
      ForestReplace(t.kids, p, Pair(spare, t.kids[p], leaf), multiset{leaf.quad});
    }
  }

  lemma HighestLastSwaps(t: Tree, leaf: Tree, kids: seq<Tree>) returns (i: nat, j: nat)
    requires t.Branch? && t.kids != [] && SizesFit(t, leaf, kids)
    ensures i < |kids| && j < |kids| && HighestLast(t, leaf, kids) == Swap(kids, i, j)
  {
    var p := Cheapest(t.kids, leaf.Box());
    var last := |t.kids| - 1;
    if HighestLast(t, leaf, kids) == kids {
      i, j := 0, 0;
    } else if t.kids[p].Branch? || |t.kids| >= MAX_CHILDREN {
      i, j := p, last;
    } else {
      i, j := last, last + 1;
    }
  }

  lemma {:induction false} GrowAddsLeaf(t: Tree, leaf: Tree, spare: nat)
    requires t.Branch? && WellFormed(t) && leaf.Leaf?
    ensures Leaves(Grow(t, leaf, spare)) == Leaves(t) + multiset{leaf.quad}
    decreases t, 1
  {
    var placed := Placed(t, leaf, spare);
    PlacedAddsLeaf(t, leaf, spare);
    var i, j := HighestLastSwaps(t, leaf, placed);
    ForestSwap(placed, i, j);
  }

  /** After the swap the last child is the highest one. */
  lemma HighestLastIsHighest(t: Tree, leaf: Tree, spare: nat)
    requires t.Branch? && WellFormed(t) && leaf.Leaf?
    ensures var kids := HighestLast(t, leaf, Placed(t, leaf, spare));
            kids[|kids| - 1].Top() == Max(t.maxOrder, leaf.Top())
  {
    var p := Cheapest(t.kids, leaf.Box());
    assert t.kids[p].Top() <= t.maxOrder;
  }

  lemma {:induction false} PlacedWellFormed(t: Tree, leaf: Tree, spare: nat)
    requires t.Branch? && WellFormed(t) && leaf.Leaf?
    ensures var kids := Placed(t, leaf, spare);
            2 <= |kids| <= MAX_CHILDREN && AllBelow(kids, Max(t.maxOrder, leaf.Top()))
    decreases t, 0
  {
    var p := Cheapest(t.kids, leaf.Box());
    if t.kids[p].Branch? {
      GrowKeepsWellFormed(t.kids[p], leaf, spare);
    } else {
      PairKeeps(spare, t.kids[p], leaf);
    }
  }

  /** Insertion keeps the arity and the "highest child last" rule. */
  lemma {:induction false} GrowKeepsWellFormed(t: Tree, leaf: Tree, spare: nat)
    requires t.Branch? && WellFormed(t) && leaf.Leaf?
    ensures WellFormed(Grow(t, leaf, spare))
    decreases t, 1
  {
    var top := Max(t.maxOrder, leaf.Top());
    HighestLastIsHighest(t, leaf, spare);
    PlacedWellFormed(t, leaf, spare);
    var i, j := HighestLastSwaps(t, leaf, Placed(t, leaf, spare));
    SwapKeepsAllBelow(Placed(t, leaf, spare), i, j, top);
    BranchWellFormed(t.id, t.bounds.Union(leaf.Box()), top, HighestLast(t, leaf, Placed(t, leaf, spare)));
  }

  lemma BranchWellFormed(id: nat, box: Bounds, top: nat, kids: seq<Tree>)
    requires 2 <= |kids| <= MAX_CHILDREN && AllBelow(kids, top) && kids[|kids| - 1].Top() == top
    ensures WellFormed(Branch(id, box, top, kids))
  {
  }

  ghost predicate AllBelow(ts: seq<Tree>, top: nat) {
    forall k :: 0 <= k < |ts| ==> WellFormed(ts[k]) && ts[k].Top() <= top
  }

  lemma SwapKeepsAllBelow(ts: seq<Tree>, i: nat, j: nat, top: nat)
    requires i < |ts| && j < |ts| && AllBelow(ts, top)
    ensures AllBelow(Swap(ts, i, j), top)
  {
  }

  lemma {:induction false} PlacedSnug(t: Tree, leaf: Tree, spare: nat)
    requires t.Branch? && WellFormed(t) && Snug(t) && leaf.Leaf?
    ensures var kids := Placed(t, leaf, spare);
            AllSnug(kids)
    decreases t, 0
  {
    var p := Cheapest(t.kids, leaf.Box());
    if t.kids[p].Branch? {
      GrowKeepsSnug(t.kids[p], leaf, spare);
    } else {
      PairSnug(spare, t.kids[p], leaf);
    }
  }

  /** Insertion keeps every box exact. */
  lemma {:induction false} GrowKeepsSnug(t: Tree, leaf: Tree, spare: nat)
    requires t.Branch? && WellFormed(t) && Snug(t) && leaf.Leaf?
    ensures Snug(Grow(t, leaf, spare))
    decreases t, 1
  {
    GrowAddsLeaf(t, leaf, spare);
    TightAdd(t.bounds, Leaves(t), leaf.quad);
    PlacedSnug(t, leaf, spare);
    var i, j := HighestLastSwaps(t, leaf, Placed(t, leaf, spare));
    SwapKeepsAllSnug(Placed(t, leaf, spare), i, j);
  }

  ghost predicate AllSnug(ts: seq<Tree>) {
    forall k :: 0 <= k < |ts| ==> Snug(ts[k])
  }

  lemma SwapKeepsAllSnug(ts: seq<Tree>, i: nat, j: nat)
    requires i < |ts| && j < |ts| && AllSnug(ts)
    ensures AllSnug(Swap(ts, i, j))
  {
  }

  /** Does the descent end in a full branch, so that a new branch is created? */
  predicate Splits(t: Tree, leaf: Tree) {
    t.Branch? && t.kids != [] &&
    var p := Cheapest(t.kids, leaf.Box());
    if t.kids[p].Branch? then Splits(t.kids[p], leaf) else |t.kids| >= MAX_CHILDREN
  }

  /** Some branch of the tree has as many children as it can. */
  ghost predicate HasFull(t: Tree) {
    t.Branch? && (|t.kids| == 12 || exists k :: 0 <= k < |t.kids| && HasFull(t.kids[k]))
  }

  /** A new branch is created only once a branch is full; so are positions other than the leaf's. */
  lemma {:induction false} SplitsWhenFull(t: Tree, leaf: Tree, spare: nat)
    requires t.Branch? && WellFormed(t) && Distinct(t) && leaf.Leaf?
    requires leaf.id !in Ids(t) && spare !in Ids(t) && leaf.id != spare
    ensures Ids(Grow(t, leaf, spare)) == Ids(t) + {leaf.id} || (HasFull(t) && Ids(Grow(t, leaf, spare)) == Ids(t) + {leaf.id, spare})
  {
    GrowKeepsDistinct(t, leaf, spare);
    if Splits(t, leaf) {
      FullIfSplits(t, leaf);
    }
  }

  lemma {:induction false} FullIfSplits(t: Tree, leaf: Tree)
    requires WellFormed(t) && Splits(t, leaf)
    ensures HasFull(t)
  {
    var p := Cheapest(t.kids, leaf.Box());
    if t.kids[p].Branch? {
      FullIfSplits(t.kids[p], leaf);
    }
  }

  ghost function NewIds(t: Tree, leaf: Tree, spare: nat): set<nat> {
    if Splits(t, leaf) then {leaf.id, spare} else {leaf.id}
  }

  lemma {:induction false} SwapKeepsApart(ts: seq<Tree>, i: nat, j: nat)
    requires i < |ts| && j < |ts| && Apart(ts)
    ensures Apart(Swap(ts, i, j)) && ForestIds(Swap(ts, i, j)) == ForestIds(ts)
  {
    var swapped := Swap(ts, i, j);
    assert swapped[i] == ts[j] && swapped[j] == ts[i];
    forall m, n | 0 <= m < |ts| && 0 <= n < |ts| && m != n
      ensures Separate(swapped, m, n)
    {
      assert Separate(ts, if m == i then j else if m == j then i else m, if n == i then j else if n == j then i else n);
    }
    forall x
      ensures x in ForestIds(swapped) <==> x in ForestIds(ts)
    {
      if x in ForestIds(ts) {
        var k :| 0 <= k < |ts| && x in Ids(ts[k]);
        var m := if k == i then j else if k == j then i else k;
        assert x in Ids(swapped[m]);
      }
    }
  }

  /** Replacing a tree by one that has the positions `extra` besides its own. */
  lemma ReplaceKeepsApart(ts: seq<Tree>, k: nat, t: Tree, extra: set<nat>)
    requires k < |ts| && Apart(ts)
    requires Ids(t) == Ids(ts[k]) + extra && ForestIds(ts) !! extra
    ensures Apart(ts[k := t]) && ForestIds(ts[k := t]) == ForestIds(ts) + extra
  {
    var next := ts[k := t];
    forall m, n | 0 <= m < |ts| && 0 <= n < |ts| && m != n
      ensures Separate(next, m, n)
    {
      assert Separate(ts, m, n) && Ids(ts[m]) <= ForestIds(ts) && Ids(ts[n]) <= ForestIds(ts);
    }
    forall x
      ensures x in ForestIds(next) <==> x in ForestIds(ts) + extra
    {
      if x in ForestIds(ts) {
        var j :| 0 <= j < |ts| && x in Ids(ts[j]);
        assert x in Ids(next[j]);
      } else if x in extra {
        assert x in Ids(next[k]);
      }
    }
  }

  lemma AppendKeepsApart(ts: seq<Tree>, t: Tree)
    requires Apart(ts) && ForestIds(ts) !! Ids(t)
    ensures Apart(ts + [t]) && ForestIds(ts + [t]) == ForestIds(ts) + Ids(t)
  {
    var next := ts + [t];
    forall m, n | 0 <= m < |next| && 0 <= n < |next| && m != n
      ensures Separate(next, m, n)
    {
      if m < |ts| && n < |ts| {
        assert Separate(ts, m, n);
      } else {
        assert Ids(ts[if m < |ts| then m else n]) <= ForestIds(ts);
      }
    }
    forall x
      ensures x in ForestIds(next) <==> x in ForestIds(ts) + Ids(t)
    {
      if x in ForestIds(ts) {
        var j :| 0 <= j < |ts| && x in Ids(ts[j]);
        assert x in Ids(next[j]);
      } else if x in Ids(t) {
        assert x in Ids(next[|ts|]);
      }
    }
  }

  lemma PairIds(id: nat, sibling: Tree, leaf: Tree)
    requires sibling.Leaf? && leaf.Leaf?
    requires id != sibling.id && id != leaf.id && sibling.id != leaf.id
    ensures Distinct(Pair(id, sibling, leaf))
    ensures Ids(Pair(id, sibling, leaf)) == {id, sibling.id, leaf.id}
  {
    var kids := Pair(id, sibling, leaf).kids;
    assert Ids(kids[0]) + Ids(kids[1]) == {sibling.id, leaf.id};
    assert ForestIds(kids) == Ids(kids[0]) + Ids(kids[1]);
  }

  lemma {:induction false} PlacedKeepsApart(t: Tree, leaf: Tree, spare: nat)
    requires t.Branch? && WellFormed(t) && Distinct(t) && leaf.Leaf?
    requires leaf.id !in Ids(t) && spare !in Ids(t) && leaf.id != spare
    ensures var kids := Placed(t, leaf, spare);
            && Apart(kids)
            && (forall k :: 0 <= k < |kids| ==> Distinct(kids[k]))
            && ForestIds(kids) == ForestIds(t.kids) + NewIds(t, leaf, spare)
    decreases t, 0
  {
    var p := Cheapest(t.kids, leaf.Box());
    assert Ids(t.kids[p]) <= ForestIds(t.kids);
    if t.kids[p].Branch? {
      GrowKeepsDistinct(t.kids[p], leaf, spare);
      ReplaceKeepsApart(t.kids, p, Grow(t.kids[p], leaf, spare), NewIds(t, leaf, spare));
    } else if |t.kids| < MAX_CHILDREN {
      AppendKeepsApart(t.kids, leaf);
    } else {
      assert t.kids[p].id in Ids(t.kids[p]);
      PairIds(spare, t.kids[p], leaf);
      ReplaceKeepsApart(t.kids, p, Pair(spare, t.kids[p], leaf), NewIds(t, leaf, spare));
    }
  }

  /** Insertion adds exactly the new positions and never links a position twice. */
  lemma {:induction false} GrowKeepsDistinct(t: Tree, leaf: Tree, spare: nat)
    requires t.Branch? && WellFormed(t) && Distinct(t) && leaf.Leaf?
    requires leaf.id !in Ids(t) && spare !in Ids(t) && leaf.id != spare
    ensures Distinct(Grow(t, leaf, spare))
    ensures Ids(Grow(t, leaf, spare)) == Ids(t) + NewIds(t, leaf, spare)
    decreases t, 1
  {
    PlacedKeepsApart(t, leaf, spare);
    var placed := Placed(t, leaf, spare);
    var i, j := HighestLastSwaps(t, leaf, placed);
    SwapKeepsApart(placed, i, j);
  }

  // ---------- Search ----------

  /** The highest order among the leaves of the forest that intersect `query`; 0 if none does. */
  ghost function HighestHit(ts: seq<Tree>, query: Bounds): nat {
    if ts == [] then 0
    else
      var t := ts[|ts| - 1];
      Max(HighestHit(ts[..|ts| - 1], query),
          if t.Branch? then HighestHit(t.kids, query)
          else if query.Intersects(t.quad.bounds) then t.quad.order else 0)
  }

  lemma {:induction false} HighestHitConcat(a: seq<Tree>, b: seq<Tree>, query: Bounds)
    ensures HighestHit(a + b, query) == Max(HighestHit(a, query), HighestHit(b, query))
  {
    if b == [] {
      assert a + b == a;
    } else {
      assert (a + b)[..|a + b| - 1] == a + b[..|b| - 1];
      HighestHitConcat(a, b[..|b| - 1], query);
    }
  }

  /** Search over a forest answers the question about the collection of its leaves. */
  lemma {:induction false} HighestHitOfLeaves(ts: seq<Tree>, query: Bounds)
    ensures IsHighestHit(ForestLeaves(ts), query, HighestHit(ts, query))
  {
    if ts != [] {
      var front, t := ts[..|ts| - 1], ts[|ts| - 1];
      HighestHitOfLeaves(front, query);
      var here := HighestHit([t], query);
      HighestHitConcat(front, [t], query);
      assert front + [t] == ts;
      assert IsHighestHit(Leaves(t), query, here) by {
        assert [t][..0] == [];
        if t.Branch? {
          HighestHitOfLeaves(t.kids, query);
        } else {
          assert t.quad in Leaves(t);
        }
      }
      HighestHitUnion(ForestLeaves(front), Leaves(t), query, HighestHit(front, query), here);
    }
  }

  lemma HighestHitOfOne(t: Tree, query: Bounds)
    ensures IsHighestHit(Leaves(t), query, HighestHit([t], query))
  {
    HighestHitOfLeaves([t], query);
    ForestAppend([], t);
  }

  lemma HighestHitUnion(a: multiset<Quad>, b: multiset<Quad>, query: Bounds, m: nat, n: nat)
    requires IsHighestHit(a, query, m) && IsHighestHit(b, query, n)
    ensures IsHighestHit(a + b, query, Max(m, n))
  {
    assert forall q <- a :: q in a + b;
    assert forall q <- b :: q in a + b;
  }

  /** Both prunings are sound: a subtree whose top is not above `found`, or whose box misses the
      query, cannot improve on `found`. */
  lemma PruningIsSound(t: Tree, query: Bounds, found: nat)
    requires WellFormed(t) && Snug(t)
    requires t.Top() <= found || !query.Intersects(t.Box())
    ensures HighestHit([t], query) <= found
  {
    HighestHitOfLeaves([t], query);
    ForestAppend([], t);
    if HighestHit([t], query) > found {
      var quad: Quad :| quad in Leaves(t) && query.Intersects(quad.bounds) && quad.order == HighestHit([t], query);
      TopIsHighest(t);
      BoxCovers(t, quad);
      CoverKeepsIntersection(query, t.Box(), quad.bounds);
    }
  }

  /** Number of nodes; the work left for a search whose stack is `ts`. */
  ghost function NodeCount(ts: seq<Tree>): nat {
    if ts == [] then 0
    else
      var t := ts[|ts| - 1];
      NodeCount(ts[..|ts| - 1]) + 1 + if t.Branch? then NodeCount(t.kids) else 0
  }

  lemma NodeCountAppend(ts: seq<Tree>, t: Tree)
    ensures NodeCount(ts + [t]) == NodeCount(ts) + 1 + if t.Branch? then NodeCount(t.kids) else 0
  {
    assert (ts + [t])[..|ts|] == ts;
  }
}
