/** What the bounds tree is for: every rectangle is drawn above all earlier rectangles that it intersects. */
module DrawOrder {
  // The oracle here is the naive scan over everything inserted so far.

  import opened Geometry

  datatype Quad = Quad(bounds: Bounds, order: nat)

  function Max(a: nat, b: nat): nat {
    if a >= b then a else b
  }

  /** The naive scan: the highest order among the quads that intersect `query`, 0 if there is none. */
  function NaiveMax(log: seq<Quad>, query: Bounds): nat {
    if log == [] then 0
    else
      var quad := log[|log| - 1];
      Max(NaiveMax(log[..|log| - 1], query), if quad.bounds.Intersects(query) then quad.order else 0)
  }

  /** `m` is the highest order in the collection `quads` that intersects `query`, or 0 if none does. */
  ghost predicate IsHighestHit(quads: multiset<Quad>, query: Bounds, m: nat) {
    && (forall quad <- quads :: query.Intersects(quad.bounds) ==> quad.order <= m)
    && (m == 0 || exists quad <- quads :: query.Intersects(quad.bounds) && quad.order == m)
  }

  /** The scan depends only on which quads there are, not on where they are stored. */
  lemma {:induction false} NaiveMaxIsHighestHit(log: seq<Quad>, query: Bounds)
    ensures IsHighestHit(multiset(log), query, NaiveMax(log, query))
  {
    if log != [] {
      var front, quad := log[..|log| - 1], log[|log| - 1];
      assert log == front + [quad];
      NaiveMaxIsHighestHit(front, query);
    }
  }

  lemma HighestHitUnique(quads: multiset<Quad>, query: Bounds, m: nat, n: nat)
    requires IsHighestHit(quads, query, m) && IsHighestHit(quads, query, n)
    ensures m == n
  {
  }

  /** Every quad got the order that the scan over its predecessors gives. */
  ghost predicate Ordered(log: seq<Quad>) {
    forall i :: 0 <= i < |log| ==> OrderedAt(log, i)
  }

  ghost predicate OrderedAt(log: seq<Quad>, i: nat)
    requires i < |log|
  {
    log[i].order == NaiveMax(log[..i], log[i].bounds) + 1
  }

  /** One step of the oracle. */
  function Assign(log: seq<Quad>, bounds: Bounds): seq<Quad> {
    log + [Quad(bounds, NaiveMax(log, bounds) + 1)]
  }

  lemma AssignKeepsOrdered(log: seq<Quad>, bounds: Bounds)
    requires Ordered(log)
    ensures Ordered(Assign(log, bounds))
  {
    var next := Assign(log, bounds);
    forall i | 0 <= i < |next|
      ensures OrderedAt(next, i)
    {
      if i < |log| {
        assert OrderedAt(log, i);
        assert next[..i] == log[..i];
      } else {
        assert next[..i] == log;
      }
    }
  }

  /** What a client does with the tree. */
  datatype Request = Place(bounds: Bounds) | Reset

  function NextLog(log: seq<Quad>, request: Request): seq<Quad> {
    if request.Reset? then [] else Assign(log, request.bounds)
  }

  /** The orders that the naive scan hands out over a run of requests. */
  function NaiveOrders(log: seq<Quad>, requests: seq<Request>): seq<nat>
    decreases |requests|
  {
    if requests == [] then []
    else NaiveAnswer(log, requests[0]) + NaiveOrders(NextLog(log, requests[0]), requests[1..])
  }

  function NaiveAnswer(log: seq<Quad>, request: Request): seq<nat> {
    if request.Reset? then [] else [NaiveMax(log, request.bounds) + 1]
  }

  // ---------- Painter's order ----------

  lemma EarlierHitIsBelow(log: seq<Quad>, query: Bounds, i: nat)
    requires i < |log| && log[i].bounds.Intersects(query)
    ensures log[i].order <= NaiveMax(log, query)
  {
    NaiveMaxIsHighestHit(log, query);
    assert log[i] in multiset(log);
  }

  /** Of two intersecting rectangles the later one is strictly above. */
  lemma PaintersOrder(log: seq<Quad>, i: nat, j: nat)
    requires Ordered(log) && i < j < |log|
    requires log[i].bounds.Intersects(log[j].bounds)
    ensures log[i].order < log[j].order
  {
    assert OrderedAt(log, j);
    EarlierHitIsBelow(log[..j], log[j].bounds, i);
  }

  /** Positions of `log`, strictly increasing, each rectangle intersecting the next, ending at `last`. */
  ghost predicate IsStack(log: seq<Quad>, chain: seq<nat>, last: nat) {
    && chain != []
    && chain[|chain| - 1] == last
    && (forall k :: 0 <= k < |chain| ==> chain[k] < |log|)
    && (forall k :: 0 <= k < |chain| - 1 ==>
          chain[k] < chain[k + 1] && log[chain[k]].bounds.Intersects(log[chain[k + 1]].bounds))
  }

  /** No stack of intersecting rectangles ending at `last` is longer than its order... */
  lemma {:induction false} StackNoLongerThanOrder(log: seq<Quad>, chain: seq<nat>, last: nat)
    requires Ordered(log) && IsStack(log, chain, last)
    ensures |chain| <= log[last].order
    decreases |chain|
  {
    assert OrderedAt(log, last);
    if |chain| > 1 {
      var shorter := chain[..|chain| - 1];
      var previous := shorter[|shorter| - 1];
      assert chain[|chain| - 2] == previous && chain[|chain| - 2 + 1] == last;
      assert IsStack(log, shorter, previous);
      StackNoLongerThanOrder(log, shorter, previous);
      PaintersOrder(log, previous, last);
    }
  }

  /** ... and one stack is exactly as long as the order. */
  lemma {:induction false} StackAsLongAsOrder(log: seq<Quad>, last: nat) returns (chain: seq<nat>)
    requires Ordered(log) && last < |log|
    ensures IsStack(log, chain, last) && |chain| == log[last].order
    decreases last
  {
    chain := [last];
    assert OrderedAt(log, last);
    if log[last].order > 1 {
      var below := log[..last];
      NaiveMaxIsHighestHit(below, log[last].bounds);
      var quad: Quad :| quad in multiset(below) && log[last].bounds.Intersects(quad.bounds) && quad.order == log[last].order - 1;
      var i :| 0 <= i < last && below[i] == quad;
      var prefix := StackAsLongAsOrder(log, i);
      chain := prefix + [last];
      forall k | 0 <= k < |chain| - 1
        ensures chain[k] < chain[k + 1] && log[chain[k]].bounds.Intersects(log[chain[k + 1]].bounds)
      {
        if k < |prefix| - 1 {
          assert chain[k] == prefix[k] && chain[k + 1] == prefix[k + 1];
        }
      }
    }
  }

  /** An order is the length of the longest stack of intersecting rectangles ending there. */
  lemma OrderIsLongestStack(log: seq<Quad>, last: nat)
    requires Ordered(log) && last < |log|
    ensures exists chain :: IsStack(log, chain, last) && |chain| == log[last].order
    ensures forall chain :: IsStack(log, chain, last) ==> |chain| <= log[last].order
  {
    var witnessStack := StackAsLongAsOrder(log, last);
    forall chain | IsStack(log, chain, last)
      ensures |chain| <= log[last].order
    {
      StackNoLongerThanOrder(log, chain, last);
    }
  }

  lemma {:induction false} StackFitsInLog(log: seq<Quad>, chain: seq<nat>, last: nat)
    requires IsStack(log, chain, last)
    ensures |chain| <= last + 1
    decreases |chain|
  {
    if |chain| > 1 {
      var shorter := chain[..|chain| - 1];
      var previous := shorter[|shorter| - 1];
      assert chain[|chain| - 2] == previous && chain[|chain| - 2 + 1] == last;
      assert IsStack(log, shorter, previous);
      StackFitsInLog(log, shorter, previous);
    }
  }

  /** Orders never exceed the number of inserts, so a 32-bit order cannot overflow before 2^32 inserts. */
  lemma OrderAtMostInserts(log: seq<Quad>, i: nat)
    requires Ordered(log) && i < |log|
    ensures 1 <= log[i].order <= i + 1
  {
    var chain := StackAsLongAsOrder(log, i);
    StackFitsInLog(log, chain, i);
  }
}
