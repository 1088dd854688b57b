/** The image cache of the gallery, which evicts the least recently used item. */
module LruCaches {
  // A list of keys by recency and a map of items together are the cache.

  import opened Options

  type Key = nat

  /** Stands for a loaded or loading image. */
  type Item = nat

  // ---------- Recency ----------

  function IndexOf(s: seq<Key>, k: Key): (i: nat)
    requires k in s
    ensures i < |s| && s[i] == k && k !in s[..i]
  {
    if s[0] == k then 0
    else
      assert s == [s[0]] + s[1..];
      1 + IndexOf(s[1..], k)
  }

  function Without(s: seq<Key>, k: Key): seq<Key> {
    if k in s then s[..IndexOf(s, k)] + s[IndexOf(s, k) + 1..] else s
  }

  ghost predicate Distinct(s: seq<Key>) {
    forall i, j :: 0 <= i < j < |s| ==> s[i] != s[j]
  }

  /** The keys of a request trace, most recently used first. */
  function Recency(trace: seq<Key>): seq<Key> {
    if trace == [] then []
    else
      var last := |trace| - 1;
      [trace[last]] + Without(Recency(trace[..last]), trace[last])
  }

  function Take(s: seq<Key>, n: nat): seq<Key> {
    if |s| <= n then s else s[..n]
  }

  /** What a cache of `capacity` items holds after `trace`, most recent first. */
  function Contents(trace: seq<Key>, capacity: nat): seq<Key> {
    Take(Recency(trace), capacity)
  }

  /** The keys used since the last use of `k`. */
  ghost function KeysSince(trace: seq<Key>, k: Key): set<Key> {
    if trace == [] || trace[|trace| - 1] == k then {}
    else KeysSince(trace[..|trace| - 1], k) + {trace[|trace| - 1]}
  }

  ghost function Elements(s: seq<Key>): set<Key> {
    set k | k in s
  }

  lemma WithoutDistinct(s: seq<Key>, k: Key)
    requires Distinct(s)
    ensures Distinct(Without(s, k)) && k !in Without(s, k)
    ensures forall x :: x in Without(s, k) <==> x in s && x != k
  {
    var w := Without(s, k);
    if k in s {
      var i := IndexOf(s, k);
      forall x | x in s && x != k
        ensures x in w
      {
        var j :| 0 <= j < |s| && s[j] == x;
        assert w[if j < i then j else j - 1] == x;
      }
    }
  }

  lemma {:induction false} RecencyDistinct(trace: seq<Key>)
    ensures Distinct(Recency(trace))
    ensures forall k :: k in Recency(trace) <==> k in trace
  {
    if trace != [] {
      var front, last := trace[..|trace| - 1], trace[|trace| - 1];
      RecencyDistinct(front);
      WithoutDistinct(Recency(front), last);
      assert trace == front + [last];
    }
  }

  /** Where position `p` of the list without `k` was before. */
  function Origin(s: seq<Key>, k: Key, p: nat): nat {
    if k in s && p >= IndexOf(s, k) then p + 1 else p
  }

  lemma WithoutAt(s: seq<Key>, k: Key, p: nat)
    requires p < |Without(s, k)|
    ensures Origin(s, k, p) < |s| && Without(s, k)[p] == s[Origin(s, k, p)]
  {
  }

  /** The keys in front of a key are exactly those used since its last use. */
  lemma {:induction false} KeysInFront(trace: seq<Key>, p: nat)
    requires p < |Recency(trace)|
    ensures Elements(Recency(trace)[..p]) == KeysSince(trace, Recency(trace)[p])
  {
    var front, last := trace[..|trace| - 1], trace[|trace| - 1];
    RecencyDistinct(front);
    if p > 0 {
      var before := Recency(front);
      WithoutDistinct(before, last);
      WithoutAt(before, last, p - 1);
      var q := Origin(before, last, p - 1);
      assert Recency(trace)[p] == Without(before, last)[p - 1] == before[q];
      KeysInFront(front, q);
      FrontGrows(before, last, p);
    }
  }

  /** A use of `last` moves it in front of all others. */
  lemma FrontGrows(before: seq<Key>, last: Key, p: nat)
    requires Distinct(before) && 0 < p <= |Without(before, last)|
    requires Origin(before, last, p - 1) < |before|
    ensures Elements(([last] + Without(before, last))[..p]) == Elements(before[..Origin(before, last, p - 1)]) + {last}
  {
    var w, q := Without(before, last), Origin(before, last, p - 1);
    assert ([last] + w)[..p] == [last] + w[..p - 1];
    forall x | x != last
      ensures x in w[..p - 1] <==> x in before[..q]
    {
      PrefixOfWithout(before, last, p - 1, q, x);
    }
    forall x
      ensures x in Elements(([last] + w)[..p]) <==> x in Elements(before[..q]) + {last}
    {
    }
  }

  lemma PrefixOfWithout(s: seq<Key>, k: Key, p: nat, q: nat, x: Key)
    requires Distinct(s) && p <= |Without(s, k)| && x != k
    requires q == Origin(s, k, p) <= |s|
    ensures x in Without(s, k)[..p] <==> x in s[..q]
  {
    var w := Without(s, k);
    if k in s {
      var i := IndexOf(s, k);
      if x in s[..q] {
        var j :| 0 <= j < q && s[j] == x;
        assert w[if j < i then j else j - 1] == x;
      }
    }
  }

  lemma DropLast(s: seq<Key>)
    requires s != [] && Distinct(s)
    ensures Elements(s[..|s| - 1]) == Elements(s) - {s[|s| - 1]}
  {
    assert s == s[..|s| - 1] + [s[|s| - 1]];
  }

  lemma {:induction false} DistinctCardinality(s: seq<Key>)
    requires Distinct(s)
    ensures |Elements(s)| == |s|
  {
    if s != [] {
      var front, last := s[..|s| - 1], s[|s| - 1];
      DistinctCardinality(front);
      assert Elements(s) == Elements(front) + {last};
    }
  }

  /** A key is in the cache exactly when it was requested before and fewer than `capacity` other keys
      have been used since. */
  lemma {:induction false} HitIffRecentlyUsed(trace: seq<Key>, capacity: nat, k: Key)
    ensures k in Contents(trace, capacity) <==> k in trace && |KeysSince(trace, k)| < capacity
  {
    RecencyDistinct(trace);
    var r := Recency(trace);
    if k in r {
      var p := IndexOf(r, k);
      KeysInFront(trace, p);
      DistinctCardinality(r[..p]);
      InTakeIff(r, capacity, p);
    }
  }

  lemma InTakeIff(r: seq<Key>, n: nat, p: nat)
    requires p < |r| && Distinct(r)
    ensures r[p] in Take(r, n) <==> p < n
  {
    if p < n {
      TakeContains(r, n, p);
    }
  }

  lemma ContentsDistinct(trace: seq<Key>, capacity: nat)
    ensures Distinct(Contents(trace, capacity))
  {
    RecencyDistinct(trace);
  }

  /** Inclusion: a smaller cache holds a prefix of what a larger one holds. */
  lemma SmallerIsPrefix(trace: seq<Key>, small: nat, large: nat)
    requires small <= large
    ensures Contents(trace, small) <= Contents(trace, large)
  {
  }

  /** How many of the requests in `trace` are hits. */
  function Hits(trace: seq<Key>, capacity: nat): nat {
    if trace == [] then 0
    else
      var front, last := trace[..|trace| - 1], trace[|trace| - 1];
      Hits(front, capacity) + if last in Contents(front, capacity) then 1 else 0
  }

  /** Every hit at one capacity is a hit at any larger one; so a larger cache never hits less often. */
  lemma {:induction false} LargerHitsMore(trace: seq<Key>, small: nat, large: nat)
    requires small <= large
    ensures Hits(trace, small) <= Hits(trace, large)
    ensures forall n, k :: 0 <= n <= |trace| && k in Contents(trace[..n], small) ==> k in Contents(trace[..n], large)
  {
    if trace != [] {
      LargerHitsMore(trace[..|trace| - 1], small, large);
      SmallerIsPrefix(trace[..|trace| - 1], small, large);
    }
    forall n, k | 0 <= n <= |trace| && k in Contents(trace[..n], small)
      ensures k in Contents(trace[..n], large)
    {
      SmallerIsPrefix(trace[..n], small, large);
    }
  }

  /** One request to a cache that holds `usages`. */
  function Touch(usages: seq<Key>, capacity: nat, k: Key): seq<Key> {
    if k in usages then [k] + Without(usages, k)
    else [k] + if |usages| == capacity && usages != [] then usages[..|usages| - 1] else usages
  }

  /** Cutting commutes with removing a key that survives the cut. */
  lemma TakeWithout(r: seq<Key>, n: nat, k: Key)
    requires Distinct(r) && k in Take(r, n) && n > 0
    ensures k in r && Without(Take(r, n), k) == Take(Without(r, k), n - 1)
  {
    var j := IndexOf(Take(r, n), k);
    IndexIs(r, k, j);
    CutCutOut(r, n, j);
  }

  lemma CutCutOut(r: seq<Key>, n: nat, j: nat)
    requires j < |Take(r, n)| && n > 0
    ensures Take(r, n)[..j] + Take(r, n)[j + 1..] == Take(r[..j] + r[j + 1..], n - 1)
  {
    var cut, rest := Take(r, n), r[..j] + r[j + 1..];
    var a, b := cut[..j] + cut[j + 1..], Take(rest, n - 1);
    assert |a| == |b|;
    forall i | 0 <= i < |a| ensures a[i] == b[i] {
      if i < j {
        assert a[i] == cut[i] == r[i];
      } else {
        assert a[i] == cut[i + 1] == r[i + 1];
      }
      assert b[i] == rest[i];
    }
  }

  lemma IndexIs(s: seq<Key>, k: Key, i: nat)
    requires i < |s| && s[i] == k && k !in s[..i]
    ensures IndexOf(s, k) == i
  {
  }

  lemma TakeContains(r: seq<Key>, n: nat, i: nat)
    requires i < n && i < |r|
    ensures r[i] in Take(r, n)
  {
    assert Take(r, n)[i] == r[i];
  }

  /** Removing a key beyond the cut changes nothing before it. */
  lemma TakeWithoutOther(r: seq<Key>, n: nat, k: Key)
    requires Distinct(r) && k !in Take(r, n) && n > 0
    ensures Take(Without(r, k), n - 1) == if |Take(r, n)| == n then Take(r, n)[..n - 1] else Take(r, n)
  {
    if k in r {
      if IndexOf(r, k) < n {
        TakeContains(r, n, IndexOf(r, k));
      }
    }
  }

  /** The list that is updated in place is the ideal list cut to the capacity. */
  lemma TouchIsContents(trace: seq<Key>, capacity: nat, k: Key)
    requires capacity > 0
    ensures Touch(Contents(trace, capacity), capacity, k) == Contents(trace + [k], capacity)
  {
    var r := Recency(trace);
    RecencyDistinct(trace);
    assert (trace + [k])[..|trace|] == trace;
    assert Take([k] + Without(r, k), capacity) == [k] + Take(Without(r, k), capacity - 1);
    if k in Contents(trace, capacity) {
      TakeWithout(r, capacity, k);
    } else {
      TakeWithoutOther(r, capacity, k);
    }
  }

  // ---------- The cache ----------

  datatype Loaded = Loaded(item: Item, evicted: Option<Item>) | Panicked

  class SimpleLruCache {
    const maxItems: nat
    var usages: seq<Key>
    var cache: map<Key, Item>

    /** Every request served so far. */
    ghost var trace: seq<Key>

    ghost predicate Valid()
      reads this
    {
      && usages == Contents(trace, maxItems)
      && (maxItems == 0 ==> trace == [])
      && cache.Keys == Elements(usages)
    }

    constructor (maxItems: nat)
      ensures Valid() && trace == [] && this.maxItems == maxItems
    {
      this.maxItems := maxItems;
      usages, cache, trace := [], map[], [];
    }

    /** Serves the item of `key`, which is `created` when the key is not in the cache.  A cache without
        room for any item panics on its first request and that is the only panic; in particular the
        checks that list and map are in step never fail. */
    method Load(key: Key, created: Item) returns (loaded: Loaded)
      requires Valid()
      modifies this
      ensures Valid()
      ensures loaded.Panicked? <==> maxItems == 0
      ensures trace == if loaded.Panicked? then old(trace) else old(trace) + [key]
      ensures loaded.Panicked? ==> usages == old(usages) && cache == old(cache)
      ensures var hit := key in Contents(old(trace), maxItems);
              var full := |old(usages)| == maxItems;
              loaded.Loaded? ==>
                && loaded.item == (if hit then old(cache)[key] else created)
                && loaded.evicted == (if !hit && full then Some(old(cache)[old(usages)[maxItems - 1]]) else None)
                && cache == (if hit then old(cache)
                             else if full then (old(cache) - {old(usages)[maxItems - 1]})[key := created]
                             else old(cache)[key := created])
    {
      ContentsDistinct(trace, maxItems);
      DistinctCardinality(usages);
      if |usages| != |cache| || |cache| > maxItems {
        return Panicked;
      }
      if key in cache {
        Refresh(key);
        loaded := Loaded(cache[key], None);
      } else if |usages| == maxItems && usages == [] {
        loaded := Panicked;
      } else {
        var evicted := Admit(key, created);
        loaded := Loaded(created, evicted);
      }
    }

    /** A hit: the key moves to the front. */
    method Refresh(key: Key)
      requires Valid() && key in usages
      modifies this`usages, this`trace
      ensures Valid() && trace == old(trace) + [key]
    {
      TouchIsContents(trace, maxItems, key);
      ContentsDistinct(trace, maxItems);
      WithoutDistinct(usages, key);
      var currentIx := Position(key);
      usages := [key] + (usages[..currentIx] + usages[currentIx + 1..]);
      trace := trace + [key];
    }

    /** A miss: the new item goes to the front; a full cache gives up its last one. */
    method Admit(key: Key, created: Item) returns (evicted: Option<Item>)
      requires Valid() && key !in usages && maxItems > 0
      modifies this
      ensures Valid() && trace == old(trace) + [key]
      ensures var full := |old(usages)| == maxItems;
              && evicted == (if full then Some(old(cache)[old(usages)[maxItems - 1]]) else None)
              && cache == (if full then old(cache) - {old(usages)[maxItems - 1]} else old(cache))[key := created]
    {
      ContentsDistinct(trace, maxItems);
      TouchIsContents(trace, maxItems, key);
      evicted := None;
      if |usages| == maxItems {
        evicted := EvictOldest();
      }
      cache := cache[key := created];
      usages := [key] + usages;
      trace := trace + [key];
      assert usages == Touch(old(usages), maxItems, key);
    }

    method EvictOldest() returns (evicted: Option<Item>)
      requires usages != [] && Distinct(usages) && cache.Keys == Elements(usages)
      modifies this`usages, this`cache
      ensures var oldest := old(usages)[|old(usages)| - 1];
              evicted == Some(old(cache)[oldest]) && cache == old(cache) - {oldest}
      ensures usages == old(usages)[..|old(usages)| - 1] && cache.Keys == Elements(usages)
    {
      var oldest := usages[|usages| - 1];
      assert oldest in Elements(usages);
      DropLast(usages);
      evicted := Some(cache[oldest]);
      usages := usages[..|usages| - 1];
      cache := cache - {oldest};
    }

    method Position(key: Key) returns (ix: nat)
      requires key in usages
      ensures ix == IndexOf(usages, key)
    {
      ix := 0;
      while usages[ix] != key
        invariant ix < |usages| && key !in usages[..ix]
        decreases |usages| - ix
      {
        assert key in usages[ix + 1..];
        ix := ix + 1;
      }
    }
  }
}
