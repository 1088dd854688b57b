/** The bounds tree: an R-tree kept in one flat, growing vector of nodes linked by index. */
module BoundsTrees {
  import opened Options
  import opened Geometry
  import opened DrawOrder
  import opened RTree

  datatype NodeKind =
    | LeafKind(order: nat)
    | InternalKind(children: seq<nat>)

  datatype Node = Node(bounds: Bounds, maxOrder: nat, kind: NodeKind)

  /** Reading the vector from position `t.id` along the child links yields the tree `t`. */
  ghost predicate Denotes(nodes: seq<Node>, t: Tree) {
    && t.id < |nodes|
    && match t
       case Leaf(id, quad) => nodes[id] == Node(quad.bounds, quad.order, LeafKind(quad.order))
       case Branch(id, bounds, maxOrder, kids) =>
         && nodes[id] == Node(bounds, maxOrder, InternalKind(Links(kids)))
         && forall k :: 0 <= k < |kids| ==> Denotes(nodes, kids[k])
  }

  ghost function Links(ts: seq<Tree>): seq<nat> {
    seq(|ts|, k requires 0 <= k < |ts| => ts[k].id)
  }

  /** A tree depends only on the nodes at its own positions. */
  lemma {:induction false} DenotesFrame(nodes: seq<Node>, next: seq<Node>, t: Tree)
    requires Denotes(nodes, t) && |nodes| <= |next|
    requires forall i <- Ids(t) :: i < |nodes| ==> next[i] == nodes[i]
    ensures Denotes(next, t)
  {
    assert t.id in Ids(t);
    if t.Branch? {
      forall k | 0 <= k < |t.kids|
        ensures Denotes(next, t.kids[k])
      {
        assert Ids(t.kids[k]) <= ForestIds(t.kids);
        DenotesFrame(nodes, next, t.kids[k]);
      }
    }
  }

  /** The indices on `stack` are the roots of the well-formed trees `work`. */
  ghost predicate StandsFor(stack: seq<nat>, nodes: seq<Node>, work: seq<Tree>) {
    && |work| == |stack|
    && forall k :: 0 <= k < |work| ==> work[k].id == stack[k] && Denotes(nodes, work[k]) && WellFormed(work[k]) && Snug(work[k])
  }

  /** Children are unaffected by a change to their parent's node. */
  lemma KidsFrame(nodes: seq<Node>, next: seq<Node>, t: Tree)
    requires t.Branch? && Distinct(t) && Denotes(nodes, t) && |nodes| <= |next|
    requires forall i :: 0 <= i < |nodes| && i != t.id ==> next[i] == nodes[i]
    ensures AllDenoted(next, t.kids)
  {
    forall k | 0 <= k < |t.kids|
      ensures Denotes(next, t.kids[k])
    {
      assert Ids(t.kids[k]) <= ForestIds(t.kids);
      DenotesFrame(nodes, next, t.kids[k]);
    }
  }

  ghost predicate AllDenoted(nodes: seq<Node>, ts: seq<Tree>) {
    forall k :: 0 <= k < |ts| ==> Denotes(nodes, ts[k])
  }

  /** The whole vector is the tree `t` rooted at `root`, and the leaves of `t` are exactly `quads`. */
  ghost predicate Represents(nodes: seq<Node>, root: nat, t: Tree, quads: multiset<Quad>) {
    && root == t.id
    && Denotes(nodes, t)
    && Distinct(t)
    && IsRange(Ids(t), |nodes|)
    && WellFormed(t)
    && Snug(t)
    && Leaves(t) == quads
  }

  /** The trees met on the way down from `t` to the cheapest branch that only has leaves to choose. */
  ghost predicate IsDescent(trail: seq<Tree>, t: Tree, bounds: Bounds) {
    && trail != [] && trail[0] == t
    && (forall i :: 0 <= i < |trail| ==> Sound(trail[i]))
    && (forall i :: 0 <= i < |trail| - 1 ==> IsChosen(trail[i + 1], trail[i], bounds))
  }

  ghost predicate Sound(t: Tree) {
    t.Branch? && WellFormed(t) && Distinct(t)
  }

  /** `kid` is the child of `t` that an insertion of `bounds` descends into. */
  ghost predicate IsChosen(kid: Tree, t: Tree, bounds: Bounds) {
    t.Branch? && t.kids != [] && kid == t.kids[Cheapest(t.kids, bounds)]
  }

  lemma SoundChild(t: Tree, k: nat)
    requires Sound(t) && k < |t.kids| && t.kids[k].Branch?
    ensures Sound(t.kids[k]) && Ids(t.kids[k]) <= Ids(t) - {t.id}
  {
    assert Ids(t.kids[k]) <= ForestIds(t.kids);
  }

  lemma {:induction false} DescentWithin(trail: seq<Tree>, t: Tree, bounds: Bounds, i: nat)
    requires IsDescent(trail, t, bounds) && i < |trail|
    ensures Ids(trail[i]) <= Ids(t)
  {
    if i > 0 {
      DescentWithin(trail, t, bounds, i - 1);
      assert IsChosen(trail[i - 1 + 1], trail[i - 1], bounds);
      SoundChild(trail[i - 1], Cheapest(trail[i - 1].kids, bounds));
    }
  }

  /** The node of a branch that received a leaf, before its own box and maximum are settled: its
      children are the grown ones, its box and maximum are old or new. */
  ghost predicate Prepared(node: Node, t: Tree, kids: seq<Tree>, quad: Quad)
    requires t.Branch?
  {
    && node.kind == InternalKind(Links(kids))
    && (node.bounds == t.bounds || node.bounds == t.bounds.Union(quad.bounds))
    && (node.maxOrder == t.maxOrder || node.maxOrder == Max(t.maxOrder, quad.order))
  }

  lemma UnionTwice(a: Bounds, b: Bounds)
    ensures a.Union(b).Union(b) == a.Union(b)
  {
    CoversAntisymmetric(a.Union(b).Union(b), a.Union(b));
  }

  lemma {:induction false} GrownKidsDenoted(nodes: seq<Node>, t: Tree, leaf: Tree, spare: nat)
    requires Sound(t) && leaf.Leaf? && AllDenoted(nodes, Placed(t, leaf, spare))
    ensures AllDenoted(nodes, Grow(t, leaf, spare).kids)
  {
    var placed := Placed(t, leaf, spare);
    var i, j := HighestLastSwaps(t, leaf, placed);
  }

  /** Once its box and maximum are settled, a prepared branch is the grown branch. */
  lemma PreparedBecomesGrown(nodes: seq<Node>, t: Tree, leaf: Tree, spare: nat, node: Node)
    requires Sound(t) && leaf.Leaf? && t.id < |nodes|
    requires AllDenoted(nodes, Placed(t, leaf, spare))
    requires Prepared(node, t, Grow(t, leaf, spare).kids, leaf.quad)
    requires nodes[t.id] == Node(node.bounds.Union(leaf.quad.bounds), Max(node.maxOrder, leaf.quad.order), node.kind)
    ensures Denotes(nodes, Grow(t, leaf, spare))
  {
    UnionTwice(t.bounds, leaf.quad.bounds);
    GrownKidsDenoted(nodes, t, leaf, spare);
  }

  /** Searching `grown` finds what searching `work` and `kids` finds, beyond `found`, and is no more work. */
  ghost predicate Extends(grown: seq<Tree>, work: seq<Tree>, kids: seq<Tree>, query: Bounds, found: nat) {
    && Max(found, HighestHit(grown, query)) == Max(found, Max(HighestHit(work, query), HighestHit(kids, query)))
    && NodeCount(grown) <= NodeCount(work) + NodeCount(kids)
  }

  lemma PushExtends(grown: seq<Tree>, work: seq<Tree>, kids: seq<Tree>, kid: Tree, query: Bounds, found: nat)
    requires Extends(grown, work, kids, query, found)
    ensures Extends(grown + [kid], work, kids + [kid], query, found)
  {
    HighestHitConcat(grown, [kid], query);
    HighestHitConcat(kids, [kid], query);
    NodeCountAppend(grown, kid);
    NodeCountAppend(kids, kid);
  }

  lemma SkipExtends(grown: seq<Tree>, work: seq<Tree>, kids: seq<Tree>, kid: Tree, query: Bounds, found: nat)
    requires Extends(grown, work, kids, query, found)
    requires WellFormed(kid) && Snug(kid) && kid.Top() <= found
    ensures Extends(grown, work, kids + [kid], query, found)
  {
    HighestHitConcat(kids, [kid], query);
    NodeCountAppend(kids, kid);
    PruningIsSound(kid, query, found);
  }

  lemma PopLast(work: seq<Tree>, query: Bounds)
    requires work != []
    ensures var rest, top := work[..|work| - 1], work[|work| - 1];
            && HighestHit(work, query) == Max(HighestHit(rest, query), HighestHit([top], query))
            && NodeCount(work) == NodeCount(rest) + 1 + (if top.Branch? then NodeCount(top.kids) else 0)
            && HighestHit([top], query) ==
                 if top.Branch? then HighestHit(top.kids, query)
                 else if query.Intersects(top.quad.bounds) then top.quad.order else 0
  {
    var rest, top := work[..|work| - 1], work[|work| - 1];
    assert rest + [top] == work;
    HighestHitConcat(rest, [top], query);
    NodeCountAppend(rest, top);
    assert [top][..0] == [];
  }

  lemma LinksOfSwap(ts: seq<Tree>, i: nat, j: nat)
    requires i < |ts| && j < |ts|
    ensures Links(Swap(ts, i, j)) == Swap(Links(ts), i, j)
  {
  }

  /** `child` occurs among `children` at `pos`, for the first time. */
  ghost predicate FirstAt(children: seq<nat>, child: nat, pos: nat) {
    pos < |children| && children[pos] == child && child !in children[..pos]
  }

  ghost function FirstPosition(s: seq<nat>, x: nat): (p: nat)
    requires x in s
    ensures FirstAt(s, x, p)
  {
    if s[0] == x then 0
    else
      assert s[0] != x && s == [s[0]] + s[1..];
      FirstPosition(s[1..], x) + 1
  }

  method Position(s: seq<nat>, x: nat) returns (p: Option<nat>)
    ensures p.None? ==> x !in s
    ensures p.Some? ==> FirstAt(s, x, p.value)
  {
    for i := 0 to |s|
      invariant x !in s[..i]
    {
      if s[i] == x {
        return Some(i);
      }
    }
    return None;
  }

  /** The cached leaf is one of the highest. */
  ghost predicate IsMaxLeaf(nodes: seq<Node>, leaf: nat, log: seq<Quad>) {
    && leaf < |nodes|
    && nodes[leaf].kind == LeafKind(nodes[leaf].maxOrder)
    && Quad(nodes[leaf].bounds, nodes[leaf].maxOrder) in log
    && forall quad <- log :: quad.order <= nodes[leaf].maxOrder
  }

  lemma MaxLeafAfterInsert(before: seq<Node>, after: seq<Node>, leaf: nat, newLeaf: nat, log: seq<Quad>, quad: Quad)
    requires IsMaxLeaf(before, leaf, log) && LeavesKept(before, after)
    requires newLeaf < |after| && after[newLeaf] == Node(quad.bounds, quad.order, LeafKind(quad.order))
    ensures IsMaxLeaf(after, if after[leaf].maxOrder < quad.order then newLeaf else leaf, log + [quad])
  {
    var longer := log + [quad];
    assert longer[|log|] == quad;
    forall q | q in longer
      ensures q in log || q == quad
    {
    }
    assert forall q <- log :: q in longer;
  }

  /** No leaf node is ever changed. */
  ghost predicate LeavesKept(before: seq<Node>, after: seq<Node>) {
    && |before| <= |after|
    && forall i :: 0 <= i < |before| && before[i].kind.LeafKind? ==> after[i] == before[i]
  }

  ghost predicate SameOutside(before: seq<Node>, after: seq<Node>, changed: set<nat>) {
    && |before| <= |after|
    && forall i :: 0 <= i < |before| && i !in changed ==> after[i] == before[i]
  }

  // ---------- The effect of each in-place update on one node ----------

  function WithLeaf(node: Node, bounds: Bounds, order: nat, newLeaf: nat): Node
    requires node.kind.InternalKind? && node.kind.children != []
  {
    var children := node.kind.children + [newLeaf];
    var last := |children| - 1;
    Node(node.bounds.Union(bounds), Max(node.maxOrder, order),
         InternalKind(if order <= node.maxOrder then Swap(children, last - 1, last) else children))
  }

  function WithBranch(node: Node, best: nat, branch: nat, branchMax: nat): Node
    requires node.kind.InternalKind? && best < |node.kind.children|
  {
    var children := node.kind.children[best := branch];
    node.(kind := InternalKind(if branchMax > node.maxOrder then Swap(children, best, |children| - 1) else children))
  }

  function PairNode(sibling: Node, siblingIdx: nat, bounds: Bounds, order: nat, newLeaf: nat): Node {
    Node(sibling.bounds.Union(bounds), Max(sibling.maxOrder, order),
         InternalKind(if order > sibling.maxOrder then [siblingIdx, newLeaf] else [newLeaf, siblingIdx]))
  }

  function Repaired(node: Node, bounds: Bounds, order: nat, updatedChild: Option<nat>, pos: nat): Node
    requires node.kind.InternalKind?
  {
    var children := node.kind.children;
    Node(node.bounds.Union(bounds), Max(node.maxOrder, order),
         if node.maxOrder < order && updatedChild.Some? && pos < |children| then
           InternalKind(Swap(children, pos, |children| - 1))
         else node.kind)
  }

  // ---------- What the updates mean for the tree ----------

  lemma PairDenoted(nodes: seq<Node>, id: nat, sibling: Tree, leaf: Tree)
    requires sibling.Leaf? && leaf.Leaf? && id < |nodes|
    requires Denotes(nodes, sibling) && Denotes(nodes, leaf)
    requires nodes[id] == PairNode(nodes[sibling.id], sibling.id, leaf.quad.bounds, leaf.quad.order, leaf.id)
    ensures Denotes(nodes, Pair(id, sibling, leaf))
  {
    var kids := Pair(id, sibling, leaf).kids;
    assert nodes[id].kind.children == Links(kids);
  }

  lemma {:induction false} PairRepresents(before: seq<Node>, after: seq<Node>, sibling: Tree, leaf: Tree, quads: multiset<Quad>)
    requires Represents(before, sibling.id, sibling, quads)
    requires sibling.Leaf? && leaf.Leaf? && leaf.id == |before|
    requires |after| == |before| + 2 && after[..|before|] == before
    requires Denotes(after, leaf)
    requires after[|before| + 1] == PairNode(before[sibling.id], sibling.id, leaf.quad.bounds, leaf.quad.order, leaf.id)
    ensures Represents(after, |before| + 1, Pair(|before| + 1, sibling, leaf), quads + multiset{leaf.quad})
  {
    DenotesFrame(before, after, sibling);
    PairDenoted(after, |before| + 1, sibling, leaf);
    PairIsFine(|before| + 1, sibling, leaf);
    assert 0 in Ids(sibling) && |before| - 1 in Ids(sibling);
    FillsVector(after, Pair(|before| + 1, sibling, leaf), {|before| + 1, sibling.id, leaf.id}, quads + multiset{leaf.quad});
  }

  lemma PairIsFine(id: nat, sibling: Tree, leaf: Tree)
    requires sibling.Leaf? && leaf.Leaf?
    requires id != sibling.id && id != leaf.id && sibling.id != leaf.id
    ensures var pair := Pair(id, sibling, leaf);
            && pair.id == id && Distinct(pair) && WellFormed(pair) && Snug(pair)
            && Leaves(pair) == Leaves(sibling) + multiset{leaf.quad}
            && Ids(pair) == {id, sibling.id, leaf.id}
  {
    PairKeeps(id, sibling, leaf);
    PairSnug(id, sibling, leaf);
    PairIds(id, sibling, leaf);
  }

  lemma FillsVector(nodes: seq<Node>, t: Tree, ids: set<nat>, quads: multiset<Quad>)
    requires Denotes(nodes, t) && Distinct(t) && WellFormed(t) && Snug(t) && Leaves(t) == quads
    requires Ids(t) == ids && IsRange(ids, |nodes|)
    ensures Represents(nodes, t.id, t, quads)
  {
  }

  ghost predicate IsRange(ids: set<nat>, n: nat) {
    forall i: nat :: i in ids <==> i < n
  }

  lemma {:induction false} GrownRepresents(nodes: seq<Node>, t: Tree, leaf: Tree, size: nat, quads: multiset<Quad>)
    requires Sound(t) && Snug(t) && leaf.Leaf? && leaf.id == size
    requires IsRange(Ids(t), size) && Leaves(t) == quads
    requires Denotes(nodes, Grow(t, leaf, size + 1))
    requires |nodes| == size + if Splits(t, leaf) then 2 else 1
    ensures Represents(nodes, t.id, Grow(t, leaf, size + 1), quads + multiset{leaf.quad})
  {
    var ids := Ids(t) + NewIds(t, leaf, size + 1);
    assert IsRange(ids, |nodes|);
    GrownIsFine(t, leaf, size + 1);
    FillsVector(nodes, Grow(t, leaf, size + 1), ids, quads + multiset{leaf.quad});
  }

  lemma GrownIsFine(t: Tree, leaf: Tree, spare: nat)
    requires Sound(t) && Snug(t) && leaf.Leaf?
    requires leaf.id !in Ids(t) && spare !in Ids(t) && leaf.id != spare
    ensures var grown := Grow(t, leaf, spare);
            && grown.id == t.id && Distinct(grown) && WellFormed(grown) && Snug(grown)
            && Leaves(grown) == Leaves(t) + multiset{leaf.quad}
            && Ids(grown) == Ids(t) + NewIds(t, leaf, spare)
  {
    GrowAddsLeaf(t, leaf, spare);
    GrowKeepsWellFormed(t, leaf, spare);
    GrowKeepsSnug(t, leaf, spare);
    GrowKeepsDistinct(t, leaf, spare);
  }

  lemma DescentExtends(trail: seq<Tree>, kid: Tree, t: Tree, bounds: Bounds)
    requires IsDescent(trail, t, bounds) && Sound(kid) && IsChosen(kid, trail[|trail| - 1], bounds)
    ensures IsDescent(trail + [kid], t, bounds)
  {
    var longer := trail + [kid];
    forall i | 0 <= i < |longer| - 1
      ensures IsChosen(longer[i + 1], longer[i], bounds)
    {
      if i < |trail| - 1 {
        assert IsChosen(trail[i + 1], trail[i], bounds);
      }
    }
  }

  /** The descent has passed through `trail` and arrived at `current`. */
  ghost predicate Descending(nodes: seq<Node>, trail: seq<Tree>, current: Tree, t: Tree, bounds: Bounds) {
    && Sound(current) && Denotes(nodes, current)
    && IsDescent(trail + [current], t, bounds)
    && AllDenoted(nodes, trail)
  }

  lemma StepDown(nodes: seq<Node>, trail: seq<Tree>, current: Tree, t: Tree, bounds: Bounds)
    requires Descending(nodes, trail, current, t, bounds)
    requires current.kids[Cheapest(current.kids, bounds)].Branch?
    ensures Descending(nodes, trail + [current], current.kids[Cheapest(current.kids, bounds)], t, bounds)
  {
    var p := Cheapest(current.kids, bounds);
    SoundChild(current, p);
    DescentExtends(trail + [current], current.kids[p], t, bounds);
  }

  /** `after` differs from `before` in the branch at the end of the descent, which is prepared, and
      in what was appended. */
  ghost predicate BaseReady(before: seq<Node>, after: seq<Node>, base: Tree, leaf: Tree, spare: nat)
    requires Sound(base) && leaf.Leaf?
  {
    && base.id < |before|
    && SameOutside(before, after, {base.id})
    && AllDenoted(after, Placed(base, leaf, spare))
    && Prepared(after[base.id], base, Grow(base, leaf, spare).kids, leaf.quad)
  }

  lemma {:induction false} AddedIsPrepared(before: seq<Node>, after: seq<Node>, base: Tree, leaf: Tree)
    requires Sound(base) && leaf.Leaf? && Denotes(before, base) && Denotes(before, leaf) && leaf.id != base.id
    requires base.kids[Cheapest(base.kids, leaf.Box())].Leaf? && |base.kids| < MAX_CHILDREN
    requires after == before[base.id := WithLeaf(before[base.id], leaf.quad.bounds, leaf.quad.order, leaf.id)]
    ensures BaseReady(before, after, base, leaf, |before|)
  {
    KidsFrame(before, after, base);
    DenotesFrame(before, after, leaf);
    WithLeafIsPrepared(before[base.id], base, leaf, |before|);
  }

  lemma WithLeafIsPrepared(node: Node, base: Tree, leaf: Tree, spare: nat)
    requires Sound(base) && leaf.Leaf? && |base.kids| < MAX_CHILDREN
    requires base.kids[Cheapest(base.kids, leaf.Box())].Leaf?
    requires node == Node(base.bounds, base.maxOrder, InternalKind(Links(base.kids)))
    ensures Prepared(WithLeaf(node, leaf.quad.bounds, leaf.quad.order, leaf.id), base, Grow(base, leaf, spare).kids, leaf.quad)
  {
    var placed := base.kids + [leaf];
    assert Links(placed) == Links(base.kids) + [leaf.id];
    LinksOfSwap(placed, |placed| - 2, |placed| - 1);
  }

  lemma {:induction false} SplitIsPrepared(before: seq<Node>, after: seq<Node>, base: Tree, leaf: Tree, best: nat)
    requires Sound(base) && leaf.Leaf? && Denotes(before, base) && Denotes(before, leaf) && leaf.id != base.id
    requires best == Cheapest(base.kids, leaf.Box()) && base.kids[best].Leaf? && |base.kids| >= MAX_CHILDREN
    requires base.kids[best].id < |before|
    requires var node := before[base.id];
             var sibling := base.kids[best].id;
             after == before[base.id := WithBranch(node, best, |before|, Max(before[sibling].maxOrder, leaf.quad.order))]
                      + [PairNode(before[sibling], sibling, leaf.quad.bounds, leaf.quad.order, leaf.id)]
    ensures BaseReady(before, after, base, leaf, |before|)
  {
    var sibling := base.kids[best];
    KidsFrame(before, after, base);
    DenotesFrame(before, after, leaf);
    assert Denotes(after, sibling);
    PairDenoted(after, |before|, sibling, leaf);
    WithBranchIsPrepared(before[base.id], base, leaf, best, |before|);
  }

  lemma WithBranchIsPrepared(node: Node, base: Tree, leaf: Tree, best: nat, spare: nat)
    requires Sound(base) && leaf.Leaf? && |base.kids| >= MAX_CHILDREN
    requires best == Cheapest(base.kids, leaf.Box()) && base.kids[best].Leaf?
    requires node == Node(base.bounds, base.maxOrder, InternalKind(Links(base.kids)))
    ensures Prepared(WithBranch(node, best, spare, Max(base.kids[best].Top(), leaf.quad.order)), base,
                     Grow(base, leaf, spare).kids, leaf.quad)
  {
    var placed := base.kids[best := Pair(spare, base.kids[best], leaf)];
    assert Links(placed) == Links(base.kids)[best := spare];
    LinksOfSwap(placed, best, |placed| - 1);
  }

  lemma BaseIsGrown(before: seq<Node>, current: seq<Node>, after: seq<Node>, t: Tree, leaf: Tree, pos: nat)
    requires Sound(t) && leaf.Leaf? && BaseReady(before, current, t, leaf, |before|)
    requires leaf.id !in Ids(t) && |before| !in Ids(t) && leaf.id != |before|
    requires after == current[t.id := Repaired(current[t.id], leaf.quad.bounds, leaf.quad.order, None, pos)]
    ensures Denotes(after, Grow(t, leaf, |before|)) && SameOutside(before, after, Ids(t))
  {
    var placed := Placed(t, leaf, |before|);
    PlacedKeepsApart(t, leaf, |before|);
    forall k | 0 <= k < |placed|
      ensures Denotes(after, placed[k])
    {
      assert Ids(placed[k]) <= ForestIds(placed);
      DenotesFrame(current, after, placed[k]);
    }
    PreparedBecomesGrown(after, t, leaf, |before|, current[t.id]);
  }

  lemma {:induction false} BranchIsGrown(before: seq<Node>, current: seq<Node>, after: seq<Node>, t: Tree, kid: Tree, leaf: Tree, pos: nat)
    requires Sound(t) && Sound(kid) && leaf.Leaf? && IsChosen(kid, t, leaf.quad.bounds)
    requires leaf.id !in Ids(t) && |before| !in Ids(t) && leaf.id != |before|
    requires Denotes(before, t) && Denotes(current, Grow(kid, leaf, |before|)) && SameOutside(before, current, Ids(kid))
    requires kid.id in current[t.id].kind.children ==> FirstAt(current[t.id].kind.children, kid.id, pos)
    requires after == current[t.id := Repaired(current[t.id], leaf.quad.bounds, leaf.quad.order, Some(kid.id), pos)]
    ensures Denotes(after, Grow(t, leaf, |before|)) && SameOutside(before, after, Ids(t))
  {
    var p := Cheapest(t.kids, leaf.Box());
    SoundChild(t, p);
    assert current[t.id] == before[t.id] && Links(t.kids)[p] == kid.id;
    PositionIsChild(t, p, pos);
    RegrownKidsDenoted(before, current, after, t, kid, leaf);
    RepairedIsPrepared(current[t.id], t, leaf, |before|, p);
    PreparedBecomesGrown(after, t, leaf, |before|, after[t.id]);
  }

  lemma {:induction false} RepairedIsPrepared(node: Node, t: Tree, leaf: Tree, spare: nat, p: nat)
    requires Sound(t) && leaf.Leaf?
    requires p == Cheapest(t.kids, leaf.Box()) && t.kids[p].Branch?
    requires node == Node(t.bounds, t.maxOrder, InternalKind(Links(t.kids)))
    ensures Prepared(Repaired(node, leaf.quad.bounds, leaf.quad.order, Some(t.kids[p].id), p), t,
                     Grow(t, leaf, spare).kids, leaf.quad)
  {
    var placed := t.kids[p := Grow(t.kids[p], leaf, spare)];
    assert Links(placed) == Links(t.kids);
    LinksOfSwap(placed, p, |placed| - 1);
  }

  lemma {:induction false} RegrownKidsDenoted(before: seq<Node>, current: seq<Node>, after: seq<Node>, t: Tree, kid: Tree, leaf: Tree)
    requires Sound(t) && Sound(kid) && leaf.Leaf? && IsChosen(kid, t, leaf.quad.bounds)
    requires leaf.id !in Ids(t) && |before| !in Ids(t) && leaf.id != |before|
    requires Denotes(before, t) && Denotes(current, Grow(kid, leaf, |before|)) && SameOutside(before, current, Ids(kid))
    requires |after| == |current| && forall i :: 0 <= i < |current| && i != t.id ==> after[i] == current[i]
    ensures AllDenoted(after, Placed(t, leaf, |before|))
  {
    var p := Cheapest(t.kids, leaf.Box());
    var grown := Grow(kid, leaf, |before|);
    var placed := Placed(t, leaf, |before|);
    assert placed == t.kids[p := grown];
    SoundChild(t, p);
    GrowKeepsDistinct(kid, leaf, |before|);
    forall k | 0 <= k < |placed|
      ensures Denotes(after, placed[k])
    {
      assert Ids(t.kids[k]) <= ForestIds(t.kids);
      if k == p {
        DenotesFrame(current, after, grown);
      } else {
        assert Separate(t.kids, k, p);
        DenotesFrame(before, after, t.kids[k]);
      }
    }
  }

  /** What the repair has reached so far: before the first step the base is ready, afterwards the
      subtree at the last repaired node is grown. */
  ghost predicate RepairedFrom(before: seq<Node>, current: seq<Node>, trail: seq<Tree>, i: nat, leaf: Tree)
    requires i <= |trail| && trail != [] && Sound(trail[|trail| - 1]) && leaf.Leaf?
  {
    if i == |trail| then BaseReady(before, current, trail[i - 1], leaf, |before|)
    else Denotes(current, Grow(trail[i], leaf, |before|)) && SameOutside(before, current, Ids(trail[i]))
  }

  /** The node that the next step repairs is a branch with the links of `trail[i]`, except at the base. */
  lemma OnPathIsBranch(before: seq<Node>, current: seq<Node>, trail: seq<Tree>, i: nat, leaf: Tree)
    requires i < |trail| && leaf.Leaf? && IsDescent(trail, trail[0], leaf.quad.bounds) && AllDenoted(before, trail)
    requires RepairedFrom(before, current, trail, i + 1, leaf)
    ensures trail[i].id < |before| <= |current|
    ensures current[trail[i].id].kind.InternalKind? && current[trail[i].id].kind.children != []
    ensures i < |trail| - 1 ==> trail[i + 1].id in current[trail[i].id].kind.children
  {
    var t := trail[i];
    assert Denotes(before, t) && Sound(t);
    if i < |trail| - 1 {
      assert IsChosen(trail[i + 1], t, leaf.quad.bounds);
      var p := Cheapest(t.kids, leaf.quad.bounds);
      SoundChild(t, p);
      assert current[t.id] == before[t.id] && Links(t.kids)[p] == trail[i + 1].id;
    } else {
      PlacedWellFormed(t, leaf, |before|);
    }
  }

  lemma StepIsGrown(before: seq<Node>, current: seq<Node>, after: seq<Node>, trail: seq<Tree>, i: nat, leaf: Tree, pos: nat)
    requires i < |trail| && leaf.Leaf? && IsDescent(trail, trail[0], leaf.quad.bounds) && AllDenoted(before, trail)
    requires leaf.id !in Ids(trail[0]) && |before| !in Ids(trail[0]) && leaf.id != |before|
    requires RepairedFrom(before, current, trail, i + 1, leaf)
    requires trail[i].id < |current| && current[trail[i].id].kind.InternalKind?
    requires i < |trail| - 1 ==> FirstAt(current[trail[i].id].kind.children, trail[i + 1].id, pos)
    requires var child := if i < |trail| - 1 then Some(trail[i + 1].id) else None;
             after == current[trail[i].id := Repaired(current[trail[i].id], leaf.quad.bounds, leaf.quad.order, child, pos)]
    ensures RepairedFrom(before, after, trail, i, leaf)
  {
    assert Denotes(before, trail[i]) && Sound(trail[i]);
    DescentWithin(trail, trail[0], leaf.quad.bounds, i);
    if i == |trail| - 1 {
      BaseIsGrown(before, current, after, trail[i], leaf, pos);
    } else {
      assert IsChosen(trail[i + 1], trail[i], leaf.quad.bounds);
      BranchIsGrown(before, current, after, trail[i], trail[i + 1], leaf, pos);
    }
  }

  /** Distinct positions: looking a child up by its index finds that child. */
  lemma PositionIsChild(t: Tree, p: nat, pos: nat)
    requires Sound(t) && p < |t.kids| && FirstAt(Links(t.kids), t.kids[p].id, pos)
    ensures pos == p
  {
    assert t.kids[p].id in Ids(t.kids[p]) && t.kids[pos].id in Ids(t.kids[pos]);
    var apart := Separate(t.kids, p, pos);
  }

  class BoundsTree {
    var nodes: seq<Node>
    var root: Option<nat>
    var maxLeaf: Option<nat>
    var insertPath: seq<nat>
    var searchStack: seq<nat>

    /** Everything inserted since the last clear, with the order it was given. */
    ghost var log: seq<Quad>
    ghost var tree: Option<Tree>

    ghost predicate Valid()
      reads this
    {
      Ordered(log) && TreeValid() && MaxLeafValid()
    }

    /** The nodes form one tree whose leaves are exactly the log. */
    ghost predicate TreeValid()
      reads this`nodes, this`root, this`tree, this`log
    {
      if root.None? then
        nodes == [] && log == [] && tree.None?
      else
        tree.Some? && Represents(nodes, root.value, tree.value, multiset(log))
    }

    ghost predicate MaxLeafValid()
      reads this`nodes, this`log, this`maxLeaf
    {
      if maxLeaf.None? then log == [] else IsMaxLeaf(nodes, maxLeaf.value, log)
    }

    constructor ()
      ensures Valid() && log == []
    {
      nodes, root, maxLeaf, insertPath, searchStack := [], None, None, [], [];
      log, tree := [], None;
    }

    method Clear()
      modifies this
      ensures Valid() && log == []
    {
      nodes, root, maxLeaf, insertPath, searchStack := [], None, None, [], [];
      log, tree := [], None;
    }

    method Insert(newBounds: Bounds) returns (ordering: nat)
      requires Valid()
      modifies this
      ensures Valid()
      ensures ordering == NaiveMax(old(log), newBounds) + 1
      ensures log == old(log) + [Quad(newBounds, ordering)]
    {
      var maxIntersecting := FindMaxOrdering(newBounds);
      ordering := maxIntersecting + 1;
      AssignKeepsOrdered(log, newBounds);
      AddWithOrder(newBounds, ordering);
      assert log == Assign(old(log), newBounds);
    }

    method AddWithOrder(newBounds: Bounds, ordering: nat)
      requires TreeValid() && MaxLeafValid()
      modifies this`nodes, this`root, this`tree, this`log, this`insertPath, this`maxLeaf
      ensures TreeValid() && MaxLeafValid()
      ensures log == old(log) + [Quad(newBounds, ordering)]
    {
      var newLeaf := InsertLeaf(newBounds, ordering);
      UpdateMaxLeaf(old(nodes), old(log), newLeaf, ordering, Quad(newBounds, ordering));
    }

    /** The cached leaf changes only to a strictly higher one. */
    method UpdateMaxLeaf(ghost before: seq<Node>, ghost earlier: seq<Quad>, newLeaf: nat, ordering: nat, ghost quad: Quad)
      requires maxLeaf.Some? ==> IsMaxLeaf(before, maxLeaf.value, earlier)
      requires maxLeaf.None? ==> earlier == []
      requires LeavesKept(before, nodes) && log == earlier + [quad]
      requires newLeaf < |nodes| && nodes[newLeaf] == Node(quad.bounds, ordering, LeafKind(ordering))
      requires ordering == quad.order
      modifies this`maxLeaf
      ensures MaxLeafValid()
    {
      if maxLeaf.None? {
        maxLeaf := Some(newLeaf);
      } else {
        MaxLeafAfterInsert(before, nodes, maxLeaf.value, newLeaf, earlier, quad);
        if nodes[maxLeaf.value].maxOrder < ordering {
          maxLeaf := Some(newLeaf);
        }
      }
    }

    /** The cached-maximum fast path and the pruned search both agree with the naive scan. */
    method FindMaxOrdering(query: Bounds) returns (maxFound: nat)
      requires TreeValid() && MaxLeafValid()
      modifies this`searchStack
      ensures maxFound == NaiveMax(log, query)
    {
      NaiveMaxIsHighestHit(log, query);
      if root.None? {
        return 0;
      }
      if maxLeaf.Some? {
        var maxNode := nodes[maxLeaf.value];
        if query.Intersects(maxNode.bounds) {
          assert Quad(maxNode.bounds, maxNode.maxOrder) in multiset(log);
          assert IsHighestHit(multiset(log), query, maxNode.maxOrder);
          HighestHitUnique(multiset(log), query, maxNode.maxOrder, NaiveMax(log, query));
          return maxNode.maxOrder;
        }
      }

      maxFound := Search(query, root.value, tree.value);
      HighestHitUnique(multiset(log), query, maxFound, NaiveMax(log, query));
    }

    /** Branch-and-bound search: finds the highest order among the leaves of `t` that intersect. */
    method Search(query: Bounds, rootIdx: nat, ghost t: Tree) returns (maxFound: nat)
      requires t.id == rootIdx && Denotes(nodes, t) && WellFormed(t) && Snug(t)
      modifies this`searchStack
      ensures IsHighestHit(Leaves(t), query, maxFound)
    {
      searchStack := [rootIdx];
      ghost var work := [t];
      maxFound := 0;
      while searchStack != []
        invariant StandsFor(searchStack, nodes, work)
        invariant Max(maxFound, HighestHit(work, query)) == HighestHit([t], query)
        decreases NodeCount(work)
      {
        maxFound, work := VisitTop(query, maxFound, work);
      }
      HighestHitOfOne(t, query);
    }

    /** One round of the search: takes a node off the stack and prunes it, counts it, or pushes its children. */
    method VisitTop(query: Bounds, maxFound: nat, ghost work: seq<Tree>) returns (found: nat, ghost left: seq<Tree>)
      requires searchStack != [] && StandsFor(searchStack, nodes, work)
      modifies this`searchStack
      ensures StandsFor(searchStack, nodes, left) && NodeCount(left) < NodeCount(work)
      ensures Max(found, HighestHit(left, query)) == Max(maxFound, HighestHit(work, query))
    {
      var last := |searchStack| - 1;
      ghost var top := work[last];
      PopLast(work, query);
      var node := nodes[searchStack[last]];
      found := maxFound;
      searchStack, left := searchStack[..last], work[..last];
      if node.maxOrder <= maxFound {
        PruningIsSound(top, query, maxFound);
      } else if !query.Intersects(node.bounds) {
        PruningIsSound(top, query, maxFound);
      } else {
        match node.kind {
          case LeafKind(order) => found := Max(maxFound, order);
          case InternalKind(children) =>
            left := PushChildren(query, maxFound, children, top.kids, left);
        }
      }
    }

    /** Pushes the children that can still improve on `maxFound`, in forward order. */
    method PushChildren(query: Bounds, maxFound: nat, children: seq<nat>, ghost kids: seq<Tree>, ghost work: seq<Tree>)
      returns (ghost grown: seq<Tree>)
      requires StandsFor(children, nodes, kids)
      requires StandsFor(searchStack, nodes, work)
      modifies this`searchStack
      ensures StandsFor(searchStack, nodes, grown)
      ensures Extends(grown, work, kids, query, maxFound)
    {
      grown := work;
      for i := 0 to |children|
        invariant StandsFor(searchStack, nodes, grown)
        invariant Extends(grown, work, kids[..i], query, maxFound)
      {
        assert kids[..i + 1] == kids[..i] + [kids[i]];
        if nodes[children[i]].maxOrder > maxFound {
          PushExtends(grown, work, kids[..i], kids[i], query, maxFound);
          searchStack, grown := searchStack + [children[i]], grown + [kids[i]];
        } else {
          SkipExtends(grown, work, kids[..i], kids[i], query, maxFound);
        }
      }
      assert kids[..|children|] == kids;
    }

    /** Adds the leaf; afterwards the vector is again one well-formed tree with one more leaf. */
    method InsertLeaf(bounds: Bounds, order: nat) returns (newLeaf: nat)
      requires TreeValid()
      modifies this`nodes, this`root, this`tree, this`log, this`insertPath
      ensures newLeaf == |old(nodes)| < |nodes|
      ensures nodes[newLeaf] == Node(bounds, order, LeafKind(order))
      ensures log == old(log) + [Quad(bounds, order)]
      ensures TreeValid() && root.Some?
      ensures LeavesKept(old(nodes), nodes)
    {
      newLeaf := |nodes|;
      ghost var leaf := Leaf(newLeaf, Quad(bounds, order));
      nodes := nodes + [Node(bounds, order, LeafKind(order))];
      log := log + [leaf.quad];
      if root.None? {
        root, tree := Some(newLeaf), Some(leaf);
        return;
      }
      InsertIntoTree(tree.value, leaf, multiset(old(log)), bounds, order, newLeaf);
    }

    /** The new leaf has been appended to the vector; this links it into the tree `t`. */
    method InsertIntoTree(ghost t: Tree, ghost leaf: Tree, ghost quads: multiset<Quad>, bounds: Bounds, order: nat, newLeaf: nat)
      requires newLeaf == |nodes| - 1
      requires root.Some? && Represents(nodes[..newLeaf], root.value, t, quads)
      requires leaf == Leaf(newLeaf, Quad(bounds, order)) && Denotes(nodes, leaf)
      modifies this`nodes, this`root, this`tree, this`insertPath
      ensures root.Some? && tree.Some? && Represents(nodes, root.value, tree.value, quads + multiset{leaf.quad})
      ensures LeavesKept(old(nodes), nodes)
    {
      DenotesFrame(nodes[..newLeaf], nodes, t);
      if nodes[root.value].kind.LeafKind? {
        PairWithRoot(bounds, order, newLeaf);
        tree := Some(Pair(newLeaf + 1, t, leaf));
        PairRepresents(old(nodes)[..newLeaf], nodes, t, leaf, quads);
      } else {
        InsertBelow(t, leaf, bounds, order, newLeaf);
        tree := Some(Grow(t, leaf, newLeaf + 1));
        GrownRepresents(nodes, t, leaf, newLeaf, quads);
      }
    }

    /** The root is a leaf: both leaves move under a new root. */
    method PairWithRoot(bounds: Bounds, order: nat, newLeaf: nat)
      requires root.Some? && root.value < |nodes| && nodes[root.value].kind.LeafKind?
      modifies this`nodes, this`root
      ensures nodes == old(nodes) + [PairNode(old(nodes)[old(root).value], old(root).value, bounds, order, newLeaf)]
      ensures root == Some(|old(nodes)|)
    {
      var rootIdx := root.value;
      var rootBounds, rootOrder := nodes[rootIdx].bounds, nodes[rootIdx].maxOrder;
      var children := if order > rootOrder then [rootIdx, newLeaf] else [newLeaf, rootIdx];
      var newRoot := |nodes|;
      nodes := nodes + [Node(rootBounds.Union(bounds), Max(rootOrder, order), InternalKind(children))];
      root := Some(newRoot);
    }

    /** Descends to the cheapest branch with a leaf to choose, puts the new leaf there, and repairs
        boxes, maxima and child order on the way back up. */
    method InsertBelow(ghost t: Tree, ghost leaf: Tree, bounds: Bounds, order: nat, newLeaf: nat)
      requires Sound(t) && root == Some(t.id) && Denotes(nodes, t)
      requires leaf == Leaf(newLeaf, Quad(bounds, order)) && Denotes(nodes, leaf)
      requires newLeaf == |nodes| - 1 && newLeaf !in Ids(t) && |nodes| !in Ids(t)
      modifies this`nodes, this`insertPath
      ensures Denotes(nodes, Grow(t, leaf, newLeaf + 1))
      ensures |nodes| == |old(nodes)| + if Splits(t, leaf) then 1 else 0
      ensures LeavesKept(old(nodes), nodes)
    {
      var best, trail := Descend(t, leaf, bounds);
      DescentWithin(trail, t, bounds, |trail| - 1);
      PlaceLeaf(insertPath[|insertPath| - 1], trail[|trail| - 1], leaf, best, bounds, order, newLeaf);
      Propagate(old(nodes), trail, leaf, bounds, order);
    }

    /** Adds the leaf to the branch at the end of the descent, splitting a full one. */
    method PlaceLeaf(baseIdx: nat, ghost base: Tree, ghost leaf: Tree, best: nat, bounds: Bounds, order: nat, newLeaf: nat)
      requires Sound(base) && base.id == baseIdx && Denotes(nodes, base)
      requires leaf == Leaf(newLeaf, Quad(bounds, order)) && Denotes(nodes, leaf) && newLeaf !in Ids(base)
      requires best == Cheapest(base.kids, bounds) && base.kids[best].Leaf?
      modifies this`nodes
      ensures |nodes| == |old(nodes)| + if |base.kids| >= MAX_CHILDREN then 1 else 0
      ensures LeavesKept(old(nodes), nodes)
      ensures BaseReady(old(nodes), nodes, base, leaf, |old(nodes)|)
    {
      assert base.id in Ids(base);
      assert Denotes(nodes, base.kids[best]);
      if |nodes[baseIdx].kind.children| < MAX_CHILDREN {
        AddToBase(baseIdx, bounds, order, newLeaf);
        AddedIsPrepared(old(nodes), nodes, base, leaf);
      } else {
        SplitBase(baseIdx, best, bounds, order, newLeaf);
        SplitIsPrepared(old(nodes), nodes, base, leaf, best);
      }
    }

    /** Follows the cheapest child down to a branch whose cheapest child is a leaf. */
    method Descend(ghost t: Tree, ghost leaf: Tree, bounds: Bounds) returns (best: nat, ghost trail: seq<Tree>)
      requires Sound(t) && root == Some(t.id) && Denotes(nodes, t)
      requires leaf.Leaf? && leaf.quad.bounds == bounds
      modifies this`insertPath
      ensures IsDescent(trail, t, bounds) && insertPath == Links(trail) && AllDenoted(nodes, trail)
      ensures var base := trail[|trail| - 1];
              && best == Cheapest(base.kids, bounds) && base.kids[best].Leaf?
              && (Splits(t, leaf) <==> |base.kids| >= MAX_CHILDREN)
    {
      insertPath, trail := [], [];
      var currentIdx := root.value;
      ghost var current := t;
      while true
        invariant current.id == currentIdx && insertPath == Links(trail)
        invariant Descending(nodes, trail, current, t, bounds)
        invariant Splits(current, leaf) == Splits(t, leaf)
        decreases current
      {
        ghost var passed := trail;
        insertPath, trail := insertPath + [currentIdx], trail + [current];
        var child;
        best, child := ChooseChild(currentIdx, current, bounds);
        if nodes[child].kind.LeafKind? {
          return;
        }
        StepDown(nodes, passed, current, t, bounds);
        currentIdx, current := child, current.kids[best];
      }
    }

    /** The cheapest child of a branch, and its position among the nodes. */
    method ChooseChild(currentIdx: nat, ghost current: Tree, bounds: Bounds) returns (best: nat, child: nat)
      requires Sound(current) && Denotes(nodes, current) && current.id == currentIdx
      ensures best == Cheapest(current.kids, bounds) && child == current.kids[best].id
      ensures child < |nodes| && (nodes[child].kind.LeafKind? <==> current.kids[best].Leaf?)
    {
      var children := nodes[currentIdx].kind.children;
      PricedKids(current, bounds);
      best := FindBest(children, bounds, Costs(current.kids, bounds));
      child := children[best];
      assert Denotes(nodes, current.kids[best]);
    }

    /** `costs` lists what adding `bounds` to each child's box would cost. */
    ghost predicate Priced(children: seq<nat>, bounds: Bounds, costs: seq<real>)
      reads this`nodes
    {
      && |costs| == |children|
      && (forall k :: 0 <= k < |children| ==> children[k] < |nodes|)
      && forall k {:trigger nodes[children[k]]} :: 0 <= k < |children| ==>
           costs[k] == BoxCost(nodes[children[k]].bounds, bounds)
    }

    lemma PricedKids(t: Tree, bounds: Bounds)
      requires t.Branch? && Denotes(nodes, t)
      ensures nodes[t.id].kind == InternalKind(Links(t.kids))
      ensures Priced(Links(t.kids), bounds, Costs(t.kids, bounds))
    {
      forall k | 0 <= k < |t.kids|
        ensures t.kids[k].id < |nodes| && nodes[t.kids[k].id].bounds == t.kids[k].Box()
      {
        assert Denotes(nodes, t.kids[k]);
      }
    }

    /** The child whose union with `bounds` has the least half perimeter; the first of several. */
    method FindBest(children: seq<nat>, bounds: Bounds, ghost costs: seq<real>) returns (best: nat)
      requires children != [] && Priced(children, bounds, costs)
      ensures best < |children| && best == FirstMinimum(costs, |children|)
    {
      best := 0;
      var bestCost := CostOf(children, 0, bounds, costs);
      for pos := 1 to |children|
        invariant best == FirstMinimum(costs, pos)
        invariant bestCost == costs[best]
      {
        var cost := CostOf(children, pos, bounds, costs);
        if cost < bestCost {
          bestCost, best := cost, pos;
        }
      }
    }

    method CostOf(children: seq<nat>, pos: nat, bounds: Bounds, ghost costs: seq<real>) returns (cost: real)
      requires pos < |children| && Priced(children, bounds, costs)
      ensures cost == costs[pos]
    {
      cost := bounds.Union(nodes[children[pos]].bounds).HalfPerimeter();
    }

    /** The base has room: the new leaf becomes its last child, or last but one. */
    method AddToBase(baseIdx: nat, bounds: Bounds, order: nat, newLeaf: nat)
      requires baseIdx < |nodes| && nodes[baseIdx].kind.InternalKind? && nodes[baseIdx].kind.children != []
      modifies this`nodes
      ensures nodes == old(nodes)[baseIdx := WithLeaf(old(nodes)[baseIdx], bounds, order, newLeaf)]
    {
      var node := nodes[baseIdx];
      var children := node.kind.children + [newLeaf];
      if order <= node.maxOrder {
        var last := |children| - 1;
        children := Swap(children, last - 1, last);
      }
      nodes := nodes[baseIdx := Node(node.bounds.Union(bounds), Max(node.maxOrder, order), InternalKind(children))];
    }

    /** The base is full: the chosen leaf and the new leaf move under a new branch. */
    method SplitBase(baseIdx: nat, best: nat, bounds: Bounds, order: nat, newLeaf: nat)
      requires baseIdx < |nodes| && nodes[baseIdx].kind.InternalKind?
      requires best < |nodes[baseIdx].kind.children| && nodes[baseIdx].kind.children[best] < |nodes|
      modifies this`nodes
      ensures var node := old(nodes)[baseIdx];
              var sibling := node.kind.children[best];
              nodes == old(nodes)[baseIdx := WithBranch(node, best, |old(nodes)|, Max(old(nodes)[sibling].maxOrder, order))]
                       + [PairNode(old(nodes)[sibling], sibling, bounds, order, newLeaf)]
    {
      var bestChild := nodes[baseIdx].kind.children[best];
      var siblingBounds, siblingOrder := nodes[bestChild].bounds, nodes[bestChild].maxOrder;
      var newChildren := if order > siblingOrder then [bestChild, newLeaf] else [newLeaf, bestChild];
      var newInternal := |nodes|;
      var newInternalMax := Max(siblingOrder, order);
      nodes := nodes + [Node(siblingBounds.Union(bounds), newInternalMax, InternalKind(newChildren))];
      var parent := nodes[baseIdx];
      var children := parent.kind.children[best := newInternal];
      if newInternalMax > parent.maxOrder {
        children := Swap(children, best, |children| - 1);
      }
      nodes := nodes[baseIdx := parent.(kind := InternalKind(children))];
    }

    /** Bottom-up repair of boxes, maxima and the "highest child last" rule along the path.  `before`
        is the vector before the branch at the end of the path was changed. */
    method Propagate(ghost before: seq<Node>, ghost trail: seq<Tree>, ghost leaf: Tree, bounds: Bounds, order: nat)
      requires trail != [] && IsDescent(trail, trail[0], bounds)
      requires insertPath == Links(trail) && AllDenoted(before, trail)
      requires leaf.Leaf? && leaf.quad == Quad(bounds, order)
      requires |before| <= |nodes| && BaseReady(before, nodes, trail[|trail| - 1], leaf, |before|)
      requires LeavesKept(before, nodes)
      requires leaf.id !in Ids(trail[0]) && |before| !in Ids(trail[0]) && leaf.id != |before|
      modifies this`nodes
      ensures Denotes(nodes, Grow(trail[0], leaf, |before|))
      ensures |nodes| == |old(nodes)| && LeavesKept(before, nodes)
    {
      var updatedChild: Option<nat> := None;
      var i := |insertPath|;
      while i > 0
        invariant 0 <= i <= |insertPath|
        invariant |nodes| == |old(nodes)| && LeavesKept(before, nodes)
        invariant updatedChild == if i == |insertPath| then None else Some(insertPath[i])
        invariant RepairedFrom(before, nodes, trail, i, leaf)
      {
        i := i - 1;
        RepairAt(before, trail, leaf, i, insertPath[i], bounds, order, updatedChild);
        updatedChild := Some(insertPath[i]);
      }
    }

    /** One step of the repair: the node at position `i` of the path becomes grown as well. */
    method RepairAt(ghost before: seq<Node>, ghost trail: seq<Tree>, ghost leaf: Tree, ghost i: nat, nodeIdx: nat,
                    bounds: Bounds, order: nat, updatedChild: Option<nat>)
      requires i < |trail| && IsDescent(trail, trail[0], bounds) && AllDenoted(before, trail)
      requires leaf.Leaf? && leaf.quad == Quad(bounds, order) && nodeIdx == trail[i].id
      requires leaf.id !in Ids(trail[0]) && |before| !in Ids(trail[0]) && leaf.id != |before|
      requires updatedChild == if i == |trail| - 1 then None else Some(trail[i + 1].id)
      requires RepairedFrom(before, nodes, trail, i + 1, leaf) && LeavesKept(before, nodes)
      modifies this`nodes
      ensures RepairedFrom(before, nodes, trail, i, leaf) && LeavesKept(before, nodes)
      ensures |nodes| == |old(nodes)|
    {
      ghost var current := nodes;
      assert Denotes(before, trail[i]) && Sound(trail[i]);
      OnPathIsBranch(before, nodes, trail, i, leaf);
      ghost var pos := RepairNode(nodeIdx, bounds, order, updatedChild);
      StepIsGrown(before, current, nodes, trail, i, leaf, pos);
    }

    /** One step of the repair. */
    method RepairNode(nodeIdx: nat, bounds: Bounds, order: nat, updatedChild: Option<nat>) returns (ghost pos: nat)
      requires nodeIdx < |nodes| && nodes[nodeIdx].kind.InternalKind? && nodes[nodeIdx].kind.children != []
      modifies this`nodes
      ensures var node := old(nodes)[nodeIdx];
              && nodes == old(nodes)[nodeIdx := Repaired(node, bounds, order, updatedChild, pos)]
              && (updatedChild.Some? && updatedChild.value in node.kind.children ==>
                    FirstAt(node.kind.children, updatedChild.value, pos))
              && (updatedChild.Some? && updatedChild.value !in node.kind.children ==> pos == |node.kind.children|)
    {
      var node := nodes[nodeIdx];
      var children := node.kind.children;
      var last := |children| - 1;
      pos := |children|;
      if updatedChild.Some? && updatedChild.value in children {
        pos := FirstPosition(children, updatedChild.value);
        assert Swap(children, last, last) == children;
      }
      node := node.(bounds := node.bounds.Union(bounds));
      if node.maxOrder < order {
        node := node.(maxOrder := order);
        if updatedChild.Some? {
          var found := Position(children, updatedChild.value);
          if found.Some? && found.value != last {
            node := node.(kind := InternalKind(Swap(children, found.value, last)));
          }
        }
      }
      assert node == Repaired(nodes[nodeIdx], bounds, order, updatedChild, pos);
      nodes := nodes[nodeIdx := node];
    }
  }

  method Answer(tree: BoundsTree, request: Request) returns (answer: seq<nat>)
    requires tree.Valid()
    modifies tree
    ensures tree.Valid() && tree.log == NextLog(old(tree.log), request)
    ensures answer == NaiveAnswer(old(tree.log), request)
  {
    match request {
      case Reset =>
        tree.Clear();
        answer := [];
      case Place(bounds) =>
        var order := tree.Insert(bounds);
        answer := [order];
    }
  }

  method Serve(tree: BoundsTree, requests: seq<Request>) returns (orders: seq<nat>)
    requires tree.Valid()
    modifies tree
    ensures tree.Valid() && orders == NaiveOrders(old(tree.log), requests)
    decreases |requests|
  {
    orders := [];
    if requests != [] {
      var first := Answer(tree, requests[0]);
      var rest := Serve(tree, requests[1..]);
      orders := first + rest;
    }
  }

  /** Over any run of inserts and clears a new tree hands out the orders of the naive scan. */
  method Run(requests: seq<Request>) returns (orders: seq<nat>)
    ensures orders == NaiveOrders([], requests)
  {
    var tree := new BoundsTree();
    orders := Serve(tree, requests);
  }
}
