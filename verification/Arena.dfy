/** The element arena: a bump allocator over a growing list of equally large chunks. */
module Arenas {
  // Its handles are invalidated by clearing, and clearing is deferred while a scope is open.

  import opened Options

  /** One more than the largest machine address. */
  const ADDRESS_LIMIT: nat := 0x1_0000_0000_0000_0000

  datatype Layout = LayoutOf(size: nat, align: nat)

  predicate IsLayout(layout: Layout) {
    layout.align > 0
  }

  /** The most that one request can use up of a chunk. */
  function Cost(layout: Layout): nat
    requires IsLayout(layout)
  {
    layout.size + layout.align - 1
  }

  // ---------- Placement ----------

  /** The first multiple of `align` at or after `base`. */
  function AlignUp(base: nat, align: nat): (a: nat)
    requires align > 0
    ensures base <= a < base + align
  {
    if base == 0 then 0
    else if base <= align then align
    else align + AlignUp(base - align, align)
  }

  lemma {:induction false} AlignUpIsMultiple(base: nat, align: nat)
    requires align > 0
    ensures AlignUp(base, align) % align == 0
  {
    if base == 0 {
      ModSmall(0, align);
    } else if base <= align {
      ModSmall(0, align);
      ModShift(0, align);
    } else {
      AlignUpIsMultiple(base - align, align);
      ModShift(AlignUp(base - align, align), align);
    }
  }

  /** The distance to the next multiple, from 0 to `align - 1`. */
  function AlignOffset(base: nat, align: nat): nat
    requires align > 0
  {
    (align - base % align) % align
  }

  /** Adding the distance to the next multiple gives the next multiple. */
  lemma {:induction false} AlignOffsetReaches(base: nat, align: nat)
    requires align > 0
    ensures base + AlignOffset(base, align) == AlignUp(base, align)
  {
    if base == 0 {
      ModSmall(0, align);
      ModShift(0, align);
    } else if base < align {
      ModSmall(base, align);
      ModSmall(align - base, align);
    } else {
      ModShift(base - align, align);
      AlignOffsetReaches(base - align, align);
    }
  }

  lemma ModSmall(a: nat, m: nat)
    requires a < m
    ensures a % m == a
  {
  }

  lemma ModShift(a: nat, m: nat)
    requires m > 0
    ensures (a + m) % m == a % m
  {
    var d := (a + m) / m - a / m - 1;
    assert m * d == a % m - (a + m) % m by {
      assert a == m * (a / m) + a % m;
      assert a + m == m * ((a + m) / m) + (a + m) % m;
      assert m * d == m * ((a + m) / m) - m * (a / m) - m;
    }
    MultipleSign(m, d);
  }

  lemma MultipleSign(m: int, d: int)
    requires m > 0
    ensures d > 0 ==> m * d >= m
    ensures d < 0 ==> m * d <= -m
  {
  }

  function CheckedAdd(a: nat, b: nat): Option<nat> {
    if a + b < ADDRESS_LIMIT then Some(a + b) else None
  }

  /** Where a request goes in a chunk whose free part is `offset .. end`. */
  function Fit(offset: nat, end: nat, layout: Layout): (address: Option<nat>)
    requires IsLayout(layout)
    ensures address.Some? ==>
      && offset <= address.value && address.value + layout.size <= end
      && address.value + layout.size <= offset + Cost(layout)
    ensures address.None? ==> offset + Cost(layout) > end
  {
    var aligned := AlignUp(offset, layout.align);
    if aligned + layout.size <= end then Some(aligned) else None
  }

  lemma FitIsAligned(offset: nat, end: nat, layout: Layout)
    requires IsLayout(layout) && Fit(offset, end, layout).Some?
    ensures Fit(offset, end, layout).value % layout.align == 0
  {
    AlignUpIsMultiple(offset, layout.align);
  }

  /** An aligned address at which the request lies inside the free part `offset .. end` of a chunk. */
  ghost predicate IsRoom(a: nat, offset: nat, end: nat, layout: Layout)
    requires IsLayout(layout)
  {
    offset <= a && a % layout.align == 0 && a + layout.size <= end
  }

  ghost predicate HasRoom(offset: nat, end: nat, layout: Layout)
    requires IsLayout(layout)
  {
    exists a: nat :: IsRoom(a, offset, end, layout)
  }

  /** The first address at which there is room, or that there is none. */
  ghost predicate IsFirstRoom(address: Option<nat>, offset: nat, end: nat, layout: Layout)
    requires IsLayout(layout)
  {
    && (address.Some? <==> HasRoom(offset, end, layout))
    && (address.Some? ==> IsRoom(address.value, offset, end, layout))
    && (address.Some? ==> forall a: nat :: IsRoom(a, offset, end, layout) ==> address.value <= a)
  }

  lemma MultiplesApart(a: nat, b: nat, align: nat)
    requires align > 0 && a % align == 0 && b % align == 0 && a < b
    ensures a + align <= b
  {
    var d := b / align - a / align;
    assert a == align * (a / align) && b == align * (b / align);
    assert align * d == b - a;
    MultipleSign(align, d);
  }

  lemma AlignUpIsLeast(base: nat, align: nat, a: nat)
    requires align > 0 && base <= a && a % align == 0
    ensures AlignUp(base, align) <= a
  {
    AlignUpIsMultiple(base, align);
    if a < AlignUp(base, align) {
      MultiplesApart(a, AlignUp(base, align), align);
    }
  }

  /** A request goes to the first aligned address at which it fits, and is turned away only if there is none. */
  lemma FitIsFirstRoom(offset: nat, end: nat, layout: Layout)
    requires IsLayout(layout)
    ensures IsFirstRoom(Fit(offset, end, layout), offset, end, layout)
  {
    AlignUpIsMultiple(offset, layout.align);
    forall a: nat | IsRoom(a, offset, end, layout) ensures AlignUp(offset, layout.align) <= a {
      AlignUpIsLeast(offset, layout.align, a);
    }
    if Fit(offset, end, layout).Some? {
      assert IsRoom(Fit(offset, end, layout).value, offset, end, layout);
    }
  }

  /** Chunk in use and start of its free part. */
  datatype Spot = Spot(chunk: nat, offset: nat)

  /** Next-fit: a request that does not fit moves on to the next chunk for good, even if it does not
      fit there either. */
  function Place(memory: seq<nat>, chunkSize: nat, spot: Spot, layout: Layout): (placed: (Option<nat>, Spot))
    requires IsLayout(layout) && spot.chunk < |memory|
  {
    var here := Fit(spot.offset, memory[spot.chunk] + chunkSize, layout);
    if here.Some? then (here, Spot(spot.chunk, here.value + layout.size))
    else if spot.chunk + 1 == |memory| then (None, spot)
    else
      var start := memory[spot.chunk + 1];
      var there := Fit(start, start + chunkSize, layout);
      if there.Some? then (there, Spot(spot.chunk + 1, there.value + layout.size))
      else (None, Spot(spot.chunk + 1, start))
  }

  /** Here, in the next chunk, or nowhere. */
  lemma PlaceCases(memory: seq<nat>, chunkSize: nat, spot: Spot, layout: Layout)
    requires IsLayout(layout) && spot.chunk < |memory|
    ensures var here, placed := Fit(spot.offset, memory[spot.chunk] + chunkSize, layout), Place(memory, chunkSize, spot, layout);
            && (here.Some? ==> placed == (here, Spot(spot.chunk, here.value + layout.size)))
            && (here.None? && spot.chunk + 1 == |memory| ==> placed == (None, spot))
            && (here.None? && spot.chunk + 1 < |memory| ==>
                  var start := memory[spot.chunk + 1];
                  var there := Fit(start, start + chunkSize, layout);
                  placed == (there, Spot(spot.chunk + 1, if there.Some? then there.value + layout.size else start)))
  {
  }

  /**
   * Next-fit, by what there is room for: the first room in the current chunk; if there is none, the first
   * room in the next one, which stays the current chunk even if there is none in it either.
   */
  ghost predicate IsNextFit(memory: seq<nat>, chunkSize: nat, spot: Spot, layout: Layout, address: Option<nat>, next: Spot)
    requires IsLayout(layout) && spot.chunk < |memory|
  {
    var end := memory[spot.chunk] + chunkSize;
    if HasRoom(spot.offset, end, layout) then
      && IsFirstRoom(address, spot.offset, end, layout)
      && next == Spot(spot.chunk, address.value + layout.size)
    else if spot.chunk + 1 == |memory| then
      address == None && next == spot
    else
      var start := memory[spot.chunk + 1];
      && IsFirstRoom(address, start, start + chunkSize, layout)
      && next == Spot(spot.chunk + 1, if address.Some? then address.value + layout.size else start)
  }

  lemma PlaceIsNextFit(memory: seq<nat>, chunkSize: nat, spot: Spot, layout: Layout)
    requires IsLayout(layout) && spot.chunk < |memory|
    ensures var (address, next) := Place(memory, chunkSize, spot, layout);
            IsNextFit(memory, chunkSize, spot, layout, address, next)
  {
    FitIsFirstRoom(spot.offset, memory[spot.chunk] + chunkSize, layout);
    if spot.chunk + 1 < |memory| {
      FitIsFirstRoom(memory[spot.chunk + 1], memory[spot.chunk + 1] + chunkSize, layout);
    }
  }

  lemma PlaceIsAligned(memory: seq<nat>, chunkSize: nat, spot: Spot, layout: Layout)
    requires IsLayout(layout) && spot.chunk < |memory|
    ensures var address := Place(memory, chunkSize, spot, layout).0;
            address.Some? ==> address.value % layout.align == 0
  {
    if Fit(spot.offset, memory[spot.chunk] + chunkSize, layout).Some? {
      FitIsAligned(spot.offset, memory[spot.chunk] + chunkSize, layout);
    } else if spot.chunk + 1 < |memory| {
      var start := memory[spot.chunk + 1];
      if Fit(start, start + chunkSize, layout).Some? {
        FitIsAligned(start, start + chunkSize, layout);
      }
    }
  }

  lemma PanicMeansTooLarge(memory: seq<nat>, chunkSize: nat, spot: Spot, layout: Layout)
    requires IsLayout(layout) && IsMemory(memory, chunkSize) && spot.chunk < |memory|
    ensures var (address, next) := Place(memory, chunkSize, spot, layout);
            && (address.None? && spot.chunk + 1 < |memory| ==> Cost(layout) > chunkSize && next.chunk == spot.chunk + 1)
            && (address.None? && spot.chunk + 1 == |memory| ==> next.chunk == spot.chunk)
  {
  }

  predicate AllLayouts(layouts: seq<Layout>) {
    forall layout <- layouts :: IsLayout(layout)
  }

  lemma TakeOneMore(layouts: seq<Layout>, i: nat)
    requires i < |layouts|
    ensures layouts[..i + 1] == layouts[..i] + [layouts[i]]
  {
  }

  /** The outcomes of a list of requests to a reset arena whose chunks are at `memory`. */
  function Serve(memory: seq<nat>, chunkSize: nat, requests: seq<Layout>): (served: (seq<Option<nat>>, Spot))
    requires memory != [] && AllLayouts(requests)
    ensures |served.0| == |requests| && served.1.chunk < |memory|
  {
    if requests == [] then ([], Spot(0, memory[0]))
    else
      var last := |requests| - 1;
      var (outcomes, spot) := Serve(memory, chunkSize, requests[..last]);
      var (address, next) := Place(memory, chunkSize, spot, requests[last]);
      (outcomes + [address], next)
  }

  // ---------- Scopes ----------

  datatype Operation = Begin | End | Clear | Request

  /** Open scopes, and effective clears so far. */
  datatype Scope = Scope(depth: nat, generation: nat)

  function Step(scope: Scope, operation: Operation): Scope {
    match operation
    case Begin => Scope(scope.depth + 1, scope.generation)
    case End => if scope.depth == 0 then scope else Scope(scope.depth - 1, scope.generation)
    case Clear => if scope.depth == 0 then Scope(0, scope.generation + 1) else scope
    case Request => scope
  }

  function After(scope: Scope, run: seq<Operation>): Scope {
    if run == [] then scope else Step(After(scope, run[..|run| - 1]), run[|run| - 1])
  }

  ghost function Count(run: seq<Operation>, operation: Operation): nat {
    multiset(run)[operation]
  }

  /** At no time more scopes were ended than open. */
  ghost predicate NeverUnderflows(depth: nat, run: seq<Operation>) {
    forall n :: 0 <= n <= |run| ==> EndedAtMost(depth, run, n)
  }

  ghost predicate EndedAtMost(depth: nat, run: seq<Operation>, n: nat)
    requires n <= |run|
  {
    Count(run[..n], End) <= depth + Count(run[..n], Begin)
  }

  lemma CountOneMore(run: seq<Operation>, n: nat, operation: Operation)
    requires n < |run|
    ensures Count(run[..n + 1], operation) == Count(run[..n], operation) + if run[n] == operation then 1 else 0
  {
    assert run[..n + 1] == run[..n] + [run[n]];
  }

  /** The depth counts the scopes begun and not ended. */
  lemma {:induction false} DepthIsOpenScopes(scope: Scope, run: seq<Operation>)
    requires NeverUnderflows(scope.depth, run)
    ensures After(scope, run).depth == scope.depth + Count(run, Begin) - Count(run, End)
    decreases |run|
  {
    if run != [] {
      var n := |run| - 1;
      var shorter := run[..n];
      forall m | 0 <= m <= |shorter| ensures EndedAtMost(scope.depth, shorter, m) {
        assert EndedAtMost(scope.depth, run, m) && shorter[..m] == run[..m];
      }
      DepthIsOpenScopes(scope, shorter);
      CountOneMore(run, n, Begin);
      CountOneMore(run, n, End);
      assert run[..n + 1] == run && EndedAtMost(scope.depth, run, n + 1);
    }
  }

  /** A balanced run inside an open scope leaves the depth and the generation as they were. */
  lemma BalancedKeepsScope(scope: Scope, run: seq<Operation>)
    requires scope.depth > 0 && Count(run, Begin) == Count(run, End)
    requires NeverUnderflows(scope.depth - 1, run)
    ensures After(scope, run) == scope
  {
    forall n | 0 <= n <= |run| ensures EndedAtMost(scope.depth, run, n) {
      assert EndedAtMost(scope.depth - 1, run, n);
    }
    DepthIsOpenScopes(scope, run);
    NothingClearedWhileOpen(scope, run);
  }

  lemma {:induction false} NothingClearedWhileOpen(scope: Scope, run: seq<Operation>)
    requires scope.depth > 0 && NeverUnderflows(scope.depth - 1, run)
    ensures After(scope, run).generation == scope.generation
    decreases |run|
  {
    if run != [] {
      var shorter := run[..|run| - 1];
      var outer: nat := scope.depth - 1;
      forall m | 0 <= m <= |shorter| ensures EndedAtMost(outer, shorter, m) {
        assert EndedAtMost(outer, run, m) && shorter[..m] == run[..m];
      }
      NothingClearedWhileOpen(scope, shorter);
      forall m | 0 <= m <= |shorter| ensures EndedAtMost(scope.depth, shorter, m) {
        assert EndedAtMost(outer, shorter, m);
      }
      DepthIsOpenScopes(scope, shorter);
      assert EndedAtMost(scope.depth - 1, shorter, |shorter|) && shorter[..|shorter|] == shorter;
    }
  }

  /** The scope begun by step `i` is still open after step `j`. */
  ghost predicate OpenThroughout(scope: Scope, run: seq<Operation>, i: nat, j: nat)
    requires i <= j < |run|
  {
    run[i] == Begin && forall k :: i < k <= j ==> After(scope, run[..k]).depth > After(scope, run[..i]).depth
  }

  /** Nothing is cleared between a begin and its matching end, whatever nested scopes and clears
      happen in between. */
  lemma {:induction false} NoClearInsideScope(scope: Scope, run: seq<Operation>, i: nat, j: nat)
    requires i < j < |run| && OpenThroughout(scope, run, i, j)
    ensures After(scope, run[..j]).generation == After(scope, run[..i]).generation
  {
    assert run[..j][..j - 1] == run[..j - 1];
    if j > i + 1 {
      NoClearInsideScope(scope, run, i, j - 1);
    }
  }

  /** The matching end itself clears nothing either; a clear takes effect exactly when every scope
      has ended. */
  lemma ClearTakesEffect(scope: Scope, run: seq<Operation>)
    ensures After(scope, run + [Clear]).generation ==
            After(scope, run).generation + if After(scope, run).depth == 0 then 1 else 0
    ensures After(scope, run + [End]).generation == After(scope, run).generation
  {
    assert (run + [Clear])[..|run|] == run && (run + [End])[..|run|] == run;
  }

  // ---------- Chunks and handles ----------

  /** The flag shared by the arena and the handles of one generation. */
  class ValidFlag {
    var valid: bool

    constructor ()
      ensures valid
    {
      valid := true;
    }
  }

  /** A chunk owned by the arena's list of chunks. */
  datatype Chunk = Chunk(start: nat, end: nat, offset: nat) {

    static function New(start: nat, size: nat): Chunk {
      Chunk(start, start + size, start)
    }

    /** Returns the chunk as it is afterwards.  A request is turned away exactly if there is no aligned room
        for it, so never by the checks against address overflow, and leaves the chunk as it was. */
    method Allocate(layout: Layout) returns (address: Option<nat>, after: Chunk)
      requires IsLayout(layout) && end < ADDRESS_LIMIT
      ensures address.Some? <==> exists a: nat :: IsRoom(a, offset, end, layout)
      ensures address.Some? ==> IsRoom(address.value, offset, end, layout)
      ensures address.Some? ==> forall a: nat :: IsRoom(a, offset, end, layout) ==> address.value <= a
      ensures address == Fit(offset, end, layout)
      ensures after == if address.Some? then this.(offset := address.value + layout.size) else this
    {
      after := this;
      FitIsFirstRoom(offset, end, layout);
      AlignOffsetReaches(offset, layout.align);
      var aligned := CheckedAdd(offset, AlignOffset(offset, layout.align));
      if aligned.None? {
        return None, after;
      }
      var next := CheckedAdd(aligned.value, layout.size);
      if next.None? {
        return None, after;
      }
      if next.value <= end {
        after := this.(offset := next.value);
        return aligned, after;
      } else {
        return None, after;
      }
    }

    function Reset(): Chunk {
      this.(offset := start)
    }
  }

  /** What the arena must drop: `value` identifies the value written at `address`. */
  datatype Element = Element(address: nat, value: nat)

  datatype ArenaBox = ArenaBox(ptr: nat, flag: ValidFlag)

  datatype Outcome = Allocated(box: ArenaBox) | Panicked | OutOfMemory

  function AddressOf(outcome: Outcome): Option<nat> {
    if outcome.Allocated? then Some(outcome.box.ptr) else None
  }

  // ---------- Pairwise facts ----------

  /** Positions `i` and `j` hold different objects. */
  ghost predicate Differ<T>(objects: seq<T>, i: nat, j: nat)
    requires i < |objects| && j < |objects|
  {
    objects[i] != objects[j]
  }

  ghost predicate AllDiffer<T>(objects: seq<T>) {
    forall i, j :: 0 <= i < |objects| && 0 <= j < |objects| && i != j ==> Differ(objects, i, j)
  }

  lemma AllDifferAppend<T>(objects: seq<T>, next: T)
    requires AllDiffer(objects) && next !in objects
    ensures AllDiffer(objects + [next])
  {
    var longer := objects + [next];
    forall i, j | 0 <= i < |longer| && 0 <= j < |longer| && i != j
      ensures Differ(longer, i, j)
    {
      if i < |objects| && j < |objects| {
        assert Differ(objects, i, j);
      }
    }
  }

  /** Distinct, non-null regions inside the address space. */
  ghost predicate IsMemory(memory: seq<nat>, chunkSize: nat) {
    && chunkSize > 0
    && (forall i :: 0 <= i < |memory| ==> 0 < memory[i] && memory[i] + chunkSize < ADDRESS_LIMIT)
    && (forall i, j :: 0 <= i < |memory| && 0 <= j < |memory| && i != j ==> RegionsApart(memory, chunkSize, i, j))
  }

  ghost predicate RegionsApart(memory: seq<nat>, chunkSize: nat, i: nat, j: nat)
    requires i < |memory| && j < |memory|
  {
    memory[i] + chunkSize <= memory[j] || memory[j] + chunkSize <= memory[i]
  }

  // ---------- The account of one generation ----------

  /** Memory handed out. */
  datatype Block = Block(address: nat, layout: Layout, chunk: nat)

  /** The requests since the last effective clear, their outcomes, the blocks handed out, the cost of
      those in the current chunk, and how many requests panicked. */
  datatype Account = Account(requests: seq<Layout>, outcomes: seq<Option<nat>>, blocks: seq<Block>,
                             costHere: nat, panics: nat)

  /** No byte belongs to two blocks. */
  ghost predicate PairwiseApart(blocks: seq<Block>) {
    forall i, j :: 0 <= i < |blocks| && 0 <= j < |blocks| && i != j ==> BlocksApart(blocks, i, j)
  }

  ghost predicate BlocksApart(blocks: seq<Block>, i: nat, j: nat)
    requires i < |blocks| && j < |blocks|
  {
    var a, b := blocks[i], blocks[j];
    a.address + a.layout.size <= b.address || b.address + b.layout.size <= a.address
  }

  /** The block is aligned and inside the used part of its chunk. */
  ghost predicate IsPlaced(block: Block, memory: seq<nat>, offsets: seq<nat>, current: nat)
    requires |offsets| <= |memory|
  {
    && IsLayout(block.layout)
    && block.address % block.layout.align == 0
    && block.chunk <= current && block.chunk < |offsets|
    && memory[block.chunk] <= block.address
    && block.address + block.layout.size <= offsets[block.chunk]
  }

  ghost predicate BlocksValid(memory: seq<nat>, offsets: seq<nat>, current: nat, elements: seq<Element>, blocks: seq<Block>)
    requires |offsets| <= |memory|
  {
    && |blocks| == |elements|
    && (forall i :: 0 <= i < |blocks| ==>
          IsPlaced(blocks[i], memory, offsets, current) && blocks[i].address == elements[i].address)
    && PairwiseApart(blocks)
  }

  /** Sum of the costs of all blocks. */
  ghost function Spent(blocks: seq<Block>): nat {
    if blocks == [] then 0
    else
      var layout := blocks[|blocks| - 1].layout;
      Spent(blocks[..|blocks| - 1]) + if IsLayout(layout) then Cost(layout) else 0
  }

  /** `n` times `size`, as repeated addition. */
  ghost function Times(n: nat, size: nat): nat {
    if n == 0 then 0 else Times(n - 1, size) + size
  }

  lemma {:induction false} TimesIsProduct(n: nat, size: nat)
    ensures Times(n, size) == n * size
  {
    if n > 0 {
      TimesIsProduct(n - 1, size);
      assert n * size == (n - 1) * size + size;
    }
  }

  /** The current chunk holds no more than was asked for in it, and every spill that found room pays
      for the chunk it left behind. */
  ghost predicate SpaceValid(chunkSize: nat, start: nat, offset: nat, current: nat, account: Account) {
    && offset <= start + account.costHere
    && account.panics <= current
    && 2 * Spent(account.blocks) >= Times(current - account.panics, chunkSize) + account.costHere
    && (account.panics < current ==> 2 * Spent(account.blocks) > Times(current - account.panics, chunkSize))
  }

  /** The outcomes depend only on the requests since the last clear and on where the chunks are. */
  ghost predicate ReplayValid(memory: seq<nat>, chunkSize: nat, offset: nat, current: nat, account: Account)
    requires memory != []
  {
    && AllLayouts(account.requests)
    && Serve(memory, chunkSize, account.requests) == (account.outcomes, Spot(current, offset))
  }

  /** Only an oversized request can have panicked. */
  ghost predicate PanicsExplained(chunkSize: nat, account: Account) {
    account.panics == 0 || exists layout <- account.requests :: IsOversized(chunkSize, layout)
  }

  ghost predicate IsOversized(chunkSize: nat, layout: Layout) {
    IsLayout(layout) && Cost(layout) > chunkSize
  }

  ghost predicate Accounted(memory: seq<nat>, chunkSize: nat, offsets: seq<nat>, current: nat,
                            elements: seq<Element>, account: Account) {
    && IsMemory(memory, chunkSize)
    && current < |offsets| <= |memory|
    && BlocksValid(memory, offsets, current, elements, account.blocks)
    && SpaceValid(chunkSize, memory[current], offsets[current], current, account)
    && ReplayValid(memory, chunkSize, offsets[current], current, account)
    && PanicsExplained(chunkSize, account)
  }

  const EMPTY := Account([], [], [], 0, 0)

  lemma EmptyAccounted(memory: seq<nat>, chunkSize: nat, offsets: seq<nat>)
    requires IsMemory(memory, chunkSize) && 0 < |offsets| <= |memory| && offsets[0] == memory[0]
    ensures Accounted(memory, chunkSize, offsets, 0, [], EMPTY)
  {
  }

  /** The account after one more request, served in chunk `chunk`; `moved` if that is a new chunk. */
  function Charged(account: Account, layout: Layout, address: Option<nat>, chunk: nat, moved: bool): Account
    requires IsLayout(layout)
  {
    match address
    case Some(a) =>
      Account(account.requests + [layout], account.outcomes + [address], account.blocks + [Block(a, layout, chunk)],
              (if moved then 0 else account.costHere) + Cost(layout), account.panics)
    case None =>
      Account(account.requests + [layout], account.outcomes + [address], account.blocks,
              if moved then 0 else account.costHere, account.panics + if moved then 1 else 0)
  }

  lemma SpentAppend(blocks: seq<Block>, block: Block)
    requires IsLayout(block.layout)
    ensures Spent(blocks + [block]) == Spent(blocks) + Cost(block.layout)
  {
    assert (blocks + [block])[..|blocks|] == blocks;
  }

  /** Serving a request keeps the space bound. */
  lemma ChargedKeepsSpace(memory: seq<nat>, chunkSize: nat, offset: nat, current: nat, account: Account,
                          layout: Layout, address: Option<nat>, next: Spot)
    requires IsMemory(memory, chunkSize) && IsLayout(layout) && current < |memory| && next.chunk < |memory|
    requires memory[current] <= offset <= memory[current] + chunkSize
    requires SpaceValid(chunkSize, memory[current], offset, current, account)
    requires Place(memory, chunkSize, Spot(current, offset), layout) == (address, next)
    ensures SpaceValid(chunkSize, memory[next.chunk], next.offset, next.chunk,
                       Charged(account, layout, address, next.chunk, next.chunk > current))
  {
    if address.Some? {
      SpentAppend(account.blocks, Block(address.value, layout, next.chunk));
    }
    if next.chunk > current {
      assert Times(current + 1 - account.panics, chunkSize) == Times(current - account.panics, chunkSize) + chunkSize;
    }
  }

  /** Serving a request keeps all blocks aligned, inside their chunks and disjoint. */
  lemma ChargedKeepsBlocks(memory: seq<nat>, chunkSize: nat, offsets: seq<nat>, current: nat, elements: seq<Element>,
                           blocks: seq<Block>, offsets': seq<nat>, layout: Layout, address: nat, next: Spot, value: nat)
    requires IsMemory(memory, chunkSize) && IsLayout(layout) && current < |offsets| <= |offsets'| <= |memory|
    requires BlocksValid(memory, offsets, current, elements, blocks)
    requires InBounds(memory, chunkSize, offsets)
    requires Place(memory, chunkSize, Spot(current, offsets[current]), layout) == (Some(address), next)
    requires next.chunk < |offsets'| && offsets'[next.chunk] == next.offset
    requires forall i :: 0 <= i < |offsets| && i != next.chunk ==> offsets'[i] == offsets[i]
    requires next.chunk > current && next.chunk < |offsets| ==> offsets[next.chunk] == memory[next.chunk]
    ensures BlocksValid(memory, offsets', next.chunk, elements + [Element(address, value)],
                        blocks + [Block(address, layout, next.chunk)])
  {
    PlaceIsAligned(memory, chunkSize, Spot(current, offsets[current]), layout);
    var block := Block(address, layout, next.chunk);
    var longer := blocks + [block];
    forall i | 0 <= i < |blocks|
      ensures IsPlaced(blocks[i], memory, offsets', next.chunk)
      ensures BlocksApart(longer, i, |blocks|) && BlocksApart(longer, |blocks|, i)
    {
      assert IsPlaced(blocks[i], memory, offsets, current);
      assert blocks[i].chunk != next.chunk ==> RegionsApart(memory, chunkSize, blocks[i].chunk, next.chunk);
    }
    forall i, j | 0 <= i < |longer| && 0 <= j < |longer| && i != j
      ensures BlocksApart(longer, i, j)
    {
      if i < |blocks| && j < |blocks| {
        assert BlocksApart(blocks, i, j);
      }
    }
  }

  ghost predicate InBounds(memory: seq<nat>, chunkSize: nat, offsets: seq<nat>) {
    |offsets| <= |memory| && forall i :: 0 <= i < |offsets| ==> memory[i] <= offsets[i] <= memory[i] + chunkSize
  }

  lemma ChargedKeepsReplay(memory: seq<nat>, chunkSize: nat, offset: nat, current: nat, account: Account,
                           layout: Layout, address: Option<nat>, next: Spot)
    requires memory != [] && current < |memory| && IsLayout(layout)
    requires ReplayValid(memory, chunkSize, offset, current, account)
    requires Place(memory, chunkSize, Spot(current, offset), layout) == (address, next)
    ensures ReplayValid(memory, chunkSize, next.offset, next.chunk,
                        Charged(account, layout, address, next.chunk, next.chunk > current))
  {
    assert (account.requests + [layout])[..|account.requests|] == account.requests;
  }

  /** The elements after one more request. */
  function Stored(elements: seq<Element>, address: Option<nat>, value: nat): seq<Element> {
    if address.Some? then elements + [Element(address.value, value)] else elements
  }

  lemma ChargedKeepsExplained(memory: seq<nat>, chunkSize: nat, offset: nat, current: nat, account: Account,
                              layout: Layout, address: Option<nat>, next: Spot)
    requires IsMemory(memory, chunkSize) && current < |memory| && IsLayout(layout)
    requires PanicsExplained(chunkSize, account)
    requires Place(memory, chunkSize, Spot(current, offset), layout) == (address, next)
    ensures PanicsExplained(chunkSize, Charged(account, layout, address, next.chunk, next.chunk > current))
  {
    var longer := account.requests + [layout];
    assert longer[|account.requests|] == layout;
    PanicMeansTooLarge(memory, chunkSize, Spot(current, offset), layout);
    if account.panics > 0 {
      var earlier :| earlier in account.requests && IsOversized(chunkSize, earlier);
      assert earlier in longer;
    } else if address.None? && next.chunk > current {
      assert IsOversized(chunkSize, layout);
    }
  }

  /** Next-fit wastes less than half: when every request since the last clear leaves room for itself
      in an empty chunk, none has panicked, and the chunks moved past are together smaller than twice
      what was asked for, wherever the chunks are in memory. */
  lemma SpaceBound(memory: seq<nat>, chunkSize: nat, offsets: seq<nat>, current: nat,
                   elements: seq<Element>, account: Account)
    requires Accounted(memory, chunkSize, offsets, current, elements, account)
    requires forall layout <- account.requests :: !IsOversized(chunkSize, layout)
    ensures account.panics == 0
    ensures current >= 1 ==> current * chunkSize < 2 * Spent(account.blocks)
  {
    TimesIsProduct(current, chunkSize);
  }

  /** Two different live blocks have no byte in common, and each is aligned and inside its chunk. */
  lemma LiveBlocksDisjoint(memory: seq<nat>, chunkSize: nat, offsets: seq<nat>, current: nat,
                           elements: seq<Element>, account: Account, i: nat, j: nat, byte: nat)
    requires Accounted(memory, chunkSize, offsets, current, elements, account) && InBounds(memory, chunkSize, offsets)
    requires i < |account.blocks| && j < |account.blocks| && i != j
    requires var a := account.blocks[i]; a.address <= byte < a.address + a.layout.size
    ensures var b := account.blocks[j]; !(b.address <= byte < b.address + b.layout.size)
    ensures var a := account.blocks[i];
            && a.chunk < |memory| && memory[a.chunk] <= byte < memory[a.chunk] + chunkSize
            && IsLayout(a.layout) && a.address % a.layout.align == 0
  {
    assert BlocksApart(account.blocks, i, j);
    assert IsPlaced(account.blocks[i], memory, offsets, current);
  }

  /** A longer list of requests never ends in an earlier chunk. */
  lemma {:induction false} ServeMovesForward(memory: seq<nat>, chunkSize: nat, requests: seq<Layout>, n: nat)
    requires memory != [] && n <= |requests| && AllLayouts(requests)
    ensures Serve(memory, chunkSize, requests[..n]).1.chunk <= Serve(memory, chunkSize, requests).1.chunk
    ensures Serve(memory, chunkSize, requests[..n]).0 == Serve(memory, chunkSize, requests).0[..n]
  {
    if n == |requests| {
      assert requests[..n] == requests;
    } else {
      var last := |requests| - 1;
      ServeMovesForward(memory, chunkSize, requests[..last], n);
      assert requests[..last][..n] == requests[..n];
      OneOutcomeMore(memory, chunkSize, requests, n);
    }
  }

  /** The last request leaves the outcomes before it alone and moves no chunk back. */
  lemma OneOutcomeMore(memory: seq<nat>, chunkSize: nat, requests: seq<Layout>, n: nat)
    requires memory != [] && n < |requests| && AllLayouts(requests)
    ensures Serve(memory, chunkSize, requests[..|requests| - 1]).1.chunk <= Serve(memory, chunkSize, requests).1.chunk
    ensures Serve(memory, chunkSize, requests).0[..n] == Serve(memory, chunkSize, requests[..|requests| - 1]).0[..n]
  {
    var (outcomes, spot) := Serve(memory, chunkSize, requests[..|requests| - 1]);
    var (address, next) := Place(memory, chunkSize, spot, requests[|requests| - 1]);
    assert (outcomes + [address])[..n] == outcomes[..n];
  }

  /** Serving a request keeps the whole account. */
  lemma ChargedKeepsAccounted(memory: seq<nat>, chunkSize: nat, offsets: seq<nat>, current: nat, elements: seq<Element>,
                              account: Account, offsets': seq<nat>, layout: Layout, address: Option<nat>, next: Spot, value: nat)
    requires Accounted(memory, chunkSize, offsets, current, elements, account)
    requires InBounds(memory, chunkSize, offsets) && IsLayout(layout) && |offsets| <= |offsets'| <= |memory|
    requires Place(memory, chunkSize, Spot(current, offsets[current]), layout) == (address, next)
    requires next.chunk < |offsets'| && offsets'[next.chunk] == next.offset
    requires forall i :: 0 <= i < |offsets| && i != next.chunk ==> offsets'[i] == offsets[i]
    requires next.chunk > current && next.chunk < |offsets| ==> offsets[next.chunk] == memory[next.chunk]
    ensures Accounted(memory, chunkSize, offsets', next.chunk, Stored(elements, address, value),
                      Charged(account, layout, address, next.chunk, next.chunk > current))
  {
    ChargedKeepsSpace(memory, chunkSize, offsets[current], current, account, layout, address, next);
    ChargedKeepsReplay(memory, chunkSize, offsets[current], current, account, layout, address, next);
    ChargedKeepsExplained(memory, chunkSize, offsets[current], current, account, layout, address, next);
    if address.Some? {
      ChargedKeepsBlocks(memory, chunkSize, offsets, current, elements, account.blocks, offsets', layout,
                         address.value, next, value);
    } else {
      forall i | 0 <= i < |account.blocks|
        ensures IsPlaced(account.blocks[i], memory, offsets', next.chunk)
      {
        assert IsPlaced(account.blocks[i], memory, offsets, current);
      }
    }
  }

  // ---------- The arena ----------

  ghost function Offsets(chunks: seq<Chunk>): (offsets: seq<nat>)
    ensures |offsets| == |chunks|
  {
    seq(|chunks|, i requires 0 <= i < |chunks| => chunks[i].offset)
  }

  /** The chunks are those of before, plus at most the current one; only the current one changed. */
  ghost predicate Kept(before: seq<Chunk>, after: seq<Chunk>, current: nat) {
    && |after| == (if current < |before| then |before| else current + 1)
    && |before| <= |after|
    && (forall i :: 0 <= i < |before| && i != current ==> after[i] == before[i])
  }

  /** The chunks behind the current one are empty, all are in bounds. */
  ghost predicate CanFollow(memory: seq<nat>, chunkSize: nat, chunks: seq<Chunk>, current: nat) {
    && current < |chunks| && InBounds(memory, chunkSize, Offsets(chunks))
    && forall i :: current < i < |chunks| ==> chunks[i].offset == memory[i]
  }

  lemma KeptAccounted(memory: seq<nat>, chunkSize: nat, before: seq<Chunk>, current: nat, elements: seq<Element>,
                      account: Account, after: seq<Chunk>, layout: Layout, address: Option<nat>, next: Spot, value: nat)
    requires Accounted(memory, chunkSize, Offsets(before), current, elements, account)
    requires CanFollow(memory, chunkSize, before, current) && IsLayout(layout) && |after| <= |memory|
    requires Place(memory, chunkSize, Spot(current, before[current].offset), layout) == (address, next)
    requires Kept(before, after, next.chunk) && next.chunk < |after| && after[next.chunk].offset == next.offset
    ensures Accounted(memory, chunkSize, Offsets(after), next.chunk, Stored(elements, address, value),
                      Charged(account, layout, address, next.chunk, next.chunk > current))
  {
    ChargedKeepsAccounted(memory, chunkSize, Offsets(before), current, elements, account, Offsets(after), layout,
                          address, next, value);
  }

  class Arena {
    var chunks: seq<Chunk>
    var elements: seq<Element>
    var flag: ValidFlag
    var currentChunkIndex: nat
    const chunkSize: nat
    var scopeDepth: nat

    /** Addresses that the system allocator gives out, in order. */
    const memory: seq<nat>

    /** Flags of all generations, the current one last. */
    ghost var flags: seq<ValidFlag>
    /** Everything ever written into the arena, and everything dropped again. */
    ghost var born: seq<Element>
    ghost var dropped: seq<Element>
    ghost var account: Account
    /** The highest chunk index ever in use. */
    ghost var highWater: nat

    ghost predicate ChunksValid()
      reads this`chunks, this`currentChunkIndex, this`highWater
    {
      && IsMemory(memory, chunkSize)
      && |chunks| <= |memory|
      && currentChunkIndex <= highWater == |chunks| - 1
      && (forall i :: 0 <= i < |chunks| ==> chunks[i].start == memory[i] && chunks[i].end == memory[i] + chunkSize)
      && InBounds(memory, chunkSize, Offsets(chunks))
      && (forall i :: currentChunkIndex < i < |chunks| ==> chunks[i].offset == memory[i])
    }

    /** A handle's flag is up exactly in the current generation. */
    ghost predicate FlagsValid()
      reads this`flags, this`flag, flags
    {
      && flags != [] && flags[|flags| - 1] == flag
      && AllDiffer(flags)
      && (forall i :: 0 <= i < |flags| ==> (flags[i].valid <==> i == |flags| - 1))
    }

    ghost predicate AccountValid()
      reads this`chunks, this`currentChunkIndex, this`elements, this`account, this`born, this`dropped
    {
      && Accounted(memory, chunkSize, Offsets(chunks), currentChunkIndex, elements, account)
      && born == dropped + elements
    }

    /** The chunks and the account of what they hold. */
    ghost predicate Stocked()
      reads this`chunks, this`currentChunkIndex, this`highWater, this`elements, this`account, this`born, this`dropped
    {
      ChunksValid() && AccountValid()
    }

    ghost predicate Valid()
      reads this`chunks, this`currentChunkIndex, this`highWater, this`flags, this`flag, this`elements,
            this`account, this`born, this`dropped, flags
    {
      Stocked() && FlagsValid()
    }

    /** Open scopes and effective clears so far. */
    ghost function ScopeState(): Scope
      reads this`flags, this`scopeDepth
      requires flags != []
    {
      Scope(scopeDepth, |flags| - 1)
    }

    constructor (chunkSize: nat, memory: seq<nat>)
      requires memory != [] && IsMemory(memory, chunkSize)
      ensures Valid() && this.chunkSize == chunkSize && this.memory == memory
      ensures fresh(flag)
      ensures ScopeState() == Scope(0, 0) && account == EMPTY && born == [] && |chunks| == 1
    {
      var up := new ValidFlag();
      this.chunkSize, this.memory := chunkSize, memory;
      chunks, elements, flag := [Chunk.New(memory[0], chunkSize)], [], up;
      currentChunkIndex, scopeDepth := 0, 0;
      flags, born, dropped := [up], [], [];
      account, highWater := EMPTY, 0;
    }

    method BeginScope()
      requires Valid()
      modifies this`scopeDepth
      ensures Valid() && ScopeState() == Step(old(ScopeState()), Begin)
    {
      scopeDepth := scopeDepth + 1;
    }

    /** Refuses when no scope is open. */
    method EndScope() returns (ok: bool)
      requires Valid()
      modifies this`scopeDepth
      ensures Valid() && ScopeState() == Step(old(ScopeState()), End)
      ensures ok <==> old(scopeDepth) > 0
    {
      ok := scopeDepth > 0;
      if ok {
        scopeDepth := scopeDepth - 1;
      }
    }

    /** Drops everything and starts over, unless a scope is open. */
    method Clear()
      requires Valid()
      modifies this, flag
      ensures Valid() && ScopeState() == Step(old(ScopeState()), Operation.Clear)
      ensures old(scopeDepth) > 0 ==>
        elements == old(elements) && account == old(account) && dropped == old(dropped) && flags == old(flags)
      ensures old(scopeDepth) == 0 ==> elements == [] && account == EMPTY && dropped == old(born)
      ensures old(flags) <= flags && born == old(born) && |chunks| == |old(chunks)|
      ensures flag == old(flag) || fresh(flag)
    {
      if scopeDepth == 0 {
        ForceClear();
      }
    }

    method ForceClear()
      requires Valid()
      modifies this, flag
      ensures Valid() && scopeDepth == old(scopeDepth)
      ensures fresh(flag) && flags == old(flags) + [flag]
      ensures elements == [] && account == EMPTY && dropped == old(born) && born == old(born)
      ensures |chunks| == |old(chunks)|
    {
      NextGeneration();
      StartOver();
    }

    /** Drops every element and makes every chunk empty. */
    method StartOver()
      requires ChunksValid() && AccountValid()
      modifies this`dropped, this`elements, this`account, this`chunks, this`currentChunkIndex
      ensures ChunksValid() && AccountValid()
      ensures elements == [] && account == EMPTY && dropped == born && |chunks| == |old(chunks)|
    {
      dropped, elements := dropped + elements, [];
      RewindChunks();
      account := EMPTY;
      EmptyAccounted(memory, chunkSize, Offsets(chunks));
    }

    /** Every handle given out so far becomes invalid. */
    method NextGeneration()
      requires FlagsValid()
      modifies this`flag, this`flags, flag
      ensures FlagsValid() && fresh(flag) && flags == old(flags) + [flag]
    {
      FlagDiffers();
      flag.valid := false;
      flag := new ValidFlag();
      AllDifferAppend(flags, flag);
      flags := flags + [flag];
    }

    lemma FlagDiffers()
      requires flags != [] && flags[|flags| - 1] == flag && AllDiffer(flags)
      ensures forall k :: 0 <= k < |flags| - 1 ==> flags[k] != flag
    {
      forall k | 0 <= k < |flags| - 1
        ensures flags[k] != flag
      {
        assert Differ(flags, k, |flags| - 1);
      }
    }

    /** Empties the chunks used so far; the others are empty already. */
    method RewindChunks()
      requires ChunksValid()
      modifies this`currentChunkIndex, this`chunks
      ensures ChunksValid() && currentChunkIndex == 0 && chunks[0].offset == memory[0]
      ensures |chunks| == |old(chunks)|
    {
      for i := 0 to currentChunkIndex + 1
        modifies this`chunks
        invariant |chunks| == |old(chunks)|
        invariant forall k :: 0 <= k < |chunks| ==>
          chunks[k] == if k < i then Chunk.New(memory[k], chunkSize) else old(chunks)[k]
      {
        chunks := chunks[i := chunks[i].Reset()];
      }
      currentChunkIndex := 0;
    }

    /** The current chunk has aligned room for the request. */
    ghost predicate RoomHere(layout: Layout)
      reads this`chunks, this`currentChunkIndex
      requires currentChunkIndex < |chunks| && IsLayout(layout)
    {
      HasRoom(chunks[currentChunkIndex].offset, chunks[currentChunkIndex].end, layout)
    }

    /** Serves a request and hands out a box that is valid until the next effective clear.  It moves on exactly
        if the current chunk has no aligned room left.  A request whose size and alignment leave room for it in
        an empty chunk never panics. */
    method Alloc(layout: Layout, value: nat) returns (outcome: Outcome)
      requires Stocked() && IsLayout(layout)
      modifies this`chunks, this`currentChunkIndex, this`highWater, this`elements, this`born, this`account
      ensures Stocked()
      ensures currentChunkIndex == old(currentChunkIndex) +
              (if !old(RoomHere(layout)) && old(currentChunkIndex) + 1 < |memory| then 1 else 0)
      ensures IsNextFit(memory, chunkSize, old(Here()), layout, AddressOf(outcome), Here())
      ensures AddressOf(outcome) == Place(memory, chunkSize, old(Here()), layout).0
      ensures account == Charged(old(account), layout, AddressOf(outcome), currentChunkIndex, currentChunkIndex > old(currentChunkIndex))
      ensures elements == Stored(old(elements), AddressOf(outcome), value) && born == Stored(old(born), AddressOf(outcome), value)
      ensures outcome.Allocated? ==> outcome.box.flag == flag
      ensures outcome.Panicked? ==> Cost(layout) > chunkSize && currentChunkIndex == old(currentChunkIndex) + 1
      ensures outcome.OutOfMemory? ==> old(currentChunkIndex) + 1 == |memory| && currentChunkIndex == old(currentChunkIndex)
      ensures |chunks| == if currentChunkIndex < |old(chunks)| then |old(chunks)| else currentChunkIndex + 1
    {
      PlaceIsNextFit(memory, chunkSize, Here(), layout);
      var address, exhausted := ReserveAndWrite(layout, value);
      if address.Some? {
        outcome := Allocated(ArenaBox(address.value, flag));
      } else {
        outcome := if exhausted then OutOfMemory else Panicked;
      }
    }

    method ReserveAndWrite(layout: Layout, value: nat) returns (address: Option<nat>, exhausted: bool)
      requires ChunksValid() && AccountValid() && IsLayout(layout)
      modifies this`chunks, this`currentChunkIndex, this`highWater, this`elements, this`born, this`account
      ensures ChunksValid() && AccountValid()
      ensures Place(memory, chunkSize, old(Here()), layout) == (address, Here())
      ensures exhausted ==> old(currentChunkIndex) + 1 == |memory| && currentChunkIndex == old(currentChunkIndex)
      ensures address.None? && !exhausted ==> Cost(layout) > chunkSize && currentChunkIndex == old(currentChunkIndex) + 1
      ensures account == Charged(old(account), layout, address, currentChunkIndex, currentChunkIndex > old(currentChunkIndex))
      ensures elements == Stored(old(elements), address, value) && born == Stored(old(born), address, value)
      ensures |chunks| == if currentChunkIndex < |old(chunks)| then |old(chunks)| else currentChunkIndex + 1
    {
      ghost var before, current := chunks, currentChunkIndex;
      CanFollowNow();
      address, exhausted := Reserve(layout);
      assert |chunks| == if currentChunkIndex < |before| then |before| else currentChunkIndex + 1;
      Write(before, current, layout, address, value);
    }

    lemma CanFollowNow()
      requires ChunksValid()
      ensures CanFollow(memory, chunkSize, chunks, currentChunkIndex) && currentChunkIndex < |chunks|
    {
    }

    /** The account follows once the chunks have made room. */
    method Write(ghost before: seq<Chunk>, ghost current: nat, layout: Layout, address: Option<nat>, value: nat)
      requires Accounted(memory, chunkSize, Offsets(before), current, elements, account) && born == dropped + elements
      requires CanFollow(memory, chunkSize, before, current) && IsLayout(layout)
      requires currentChunkIndex < |chunks| <= |memory| && Kept(before, chunks, currentChunkIndex)
      requires Place(memory, chunkSize, Spot(current, before[current].offset), layout) == (address, Here())
      modifies this`elements, this`born, this`account
      ensures AccountValid()
      ensures account == Charged(old(account), layout, address, currentChunkIndex, currentChunkIndex > current)
      ensures elements == Stored(old(elements), address, value) && born == Stored(old(born), address, value)
    {
      KeptAccounted(memory, chunkSize, before, current, elements, account, chunks, layout, address, Here(), value);
      Book(Charged(account, layout, address, currentChunkIndex, currentChunkIndex > current), address, value);
    }

    /** Puts the value at the reserved address and remembers to drop it. */
    method Book(ghost next: Account, address: Option<nat>, value: nat)
      requires Accounted(memory, chunkSize, Offsets(chunks), currentChunkIndex, Stored(elements, address, value), next)
      requires born == dropped + elements
      modifies this`elements, this`born, this`account
      ensures AccountValid() && account == next
      ensures elements == Stored(old(elements), address, value) && born == Stored(old(born), address, value)
    {
      account := next;
      if address.Some? {
        elements := elements + [Element(address.value, value)];
        born := born + [Element(address.value, value)];
      }
    }

    /** Finds room for the request in the current chunk, or else moves on to the next one. */
    method Reserve(layout: Layout) returns (address: Option<nat>, exhausted: bool)
      requires ChunksValid() && IsLayout(layout)
      modifies this`chunks, this`currentChunkIndex, this`highWater
      ensures ChunksValid()
      ensures Place(memory, chunkSize, old(Here()), layout) == (address, Here())
      ensures exhausted <==> address.None? && old(currentChunkIndex) + 1 == |memory|
      ensures exhausted ==> currentChunkIndex == old(currentChunkIndex)
      ensures address.None? && !exhausted ==> Cost(layout) > chunkSize && currentChunkIndex == old(currentChunkIndex) + 1
      ensures old(currentChunkIndex) <= currentChunkIndex <= old(currentChunkIndex) + 1
      ensures Kept(old(chunks), chunks, currentChunkIndex)
    {
      exhausted := false;
      PlaceCases(memory, chunkSize, Here(), layout);
      address := ReserveHere(layout);
      if address.None? {
        address, exhausted := AllocateNextChunk(layout);
      }
    }

    method ReserveHere(layout: Layout) returns (address: Option<nat>)
      requires ChunksValid() && IsLayout(layout)
      modifies this`chunks
      ensures ChunksValid() && Kept(old(chunks), chunks, currentChunkIndex)
      ensures address == Fit(old(Here()).offset, memory[currentChunkIndex] + chunkSize, layout)
      ensures if address.Some? then Here() == Spot(currentChunkIndex, address.value + layout.size) else chunks == old(chunks)
    {
      var after;
      address, after := chunks[currentChunkIndex].Allocate(layout);
      if address.Some? {
        chunks := chunks[currentChunkIndex := after];
      }
    }

    ghost function Here(): Spot
      reads this`chunks, this`currentChunkIndex
      requires currentChunkIndex < |chunks|
    {
      Spot(currentChunkIndex, chunks[currentChunkIndex].offset)
    }

    method AllocateNextChunk(layout: Layout) returns (address: Option<nat>, exhausted: bool)
      requires ChunksValid() && IsLayout(layout)
      modifies this`chunks, this`currentChunkIndex, this`highWater
      ensures ChunksValid()
      ensures exhausted <==> old(currentChunkIndex) + 1 == |memory|
      ensures exhausted ==> address.None? && Here() == old(Here())
      ensures !exhausted ==>
        var start := memory[currentChunkIndex];
        && currentChunkIndex == old(currentChunkIndex) + 1
        && address == Fit(start, start + chunkSize, layout)
        && Here().offset == if address.Some? then address.value + layout.size else start
      ensures Kept(old(chunks), chunks, currentChunkIndex)
    {
      exhausted := currentChunkIndex + 1 == |memory|;
      if exhausted {
        return None, true;
      }
      currentChunkIndex := currentChunkIndex + 1;
      if currentChunkIndex >= |chunks| {
        chunks := chunks + [Chunk.New(memory[currentChunkIndex], chunkSize)];
        highWater := currentChunkIndex;
      }
      var after;
      address, after := chunks[currentChunkIndex].Allocate(layout);
      chunks := chunks[currentChunkIndex := after];
    }

    /** Dropping the arena drops every element that is left: each value ever written is dropped exactly
        once, in the order of writing. */
    method Drop()
      requires Valid()
      modifies this, flag
      ensures dropped == old(born)
    {
      ForceClear();
    }

    /** Dereferencing a box is refused exactly when it stems from an earlier generation. */
    method Validate(box: ArenaBox, ghost generation: nat) returns (ok: bool)
      requires Valid() && generation < |flags| && box.flag == flags[generation]
      ensures ok <==> generation == ScopeState().generation
    {
      ok := box.flag.valid;
    }

    /** The first `i` requests have been served again, and there are chunks for all of them. */
    ghost predicate ServedAgain(layouts: seq<Layout>, i: nat, count: nat)
      reads this`account, this`chunks
      requires memory != []
    {
      && |chunks| == count && i <= |layouts|
      && AllLayouts(layouts)
      && account.requests == layouts[..i]
      && Serve(memory, chunkSize, layouts).1.chunk < count
    }

    /** After an effective clear the same requests are served at the same addresses, without any new
        chunk. */
    method Replay(layouts: seq<Layout>, values: seq<nat>)
      requires Valid() && scopeDepth == 0
      requires layouts == account.requests && |values| == |layouts|
      modifies this, flag
      ensures Valid() && account.requests == layouts
      ensures account.outcomes == old(account.outcomes) && |chunks| == |old(chunks)|
    {
      Clear();
      ServeAll(layouts, values);
    }

    /** There are chunks for these requests. */
    ghost predicate Roomy(layouts: seq<Layout>)
      reads this`chunks
      requires memory != []
    {
      AllLayouts(layouts) && Serve(memory, chunkSize, layouts).1.chunk < |chunks|
    }

    method ServeAll(layouts: seq<Layout>, values: seq<nat>)
      requires Stocked() && account.requests == [] && |values| == |layouts| && Roomy(layouts)
      modifies this`chunks, this`currentChunkIndex, this`highWater, this`elements, this`born, this`account
      ensures Stocked() && account.requests == layouts && |chunks| == |old(chunks)|
      ensures account.outcomes == Serve(memory, chunkSize, layouts).0
    {
      ghost var count := |chunks|;
      assert layouts[..0] == [];
      for i := 0 to |layouts|
        invariant Stocked() && ServedAgain(layouts, i, count)
      {
        ServeOne(layouts, values[i], i, count);
      }
      assert layouts[..|layouts|] == layouts;
    }

    method ServeOne(layouts: seq<Layout>, value: nat, i: nat, ghost count: nat)
      requires Stocked() && i < |layouts| && ServedAgain(layouts, i, count)
      modifies this`chunks, this`currentChunkIndex, this`highWater, this`elements, this`born, this`account
      ensures Stocked() && ServedAgain(layouts, i + 1, count)
    {
      ServeMovesForward(memory, chunkSize, layouts, i + 1);
      TakeOneMore(layouts, i);
      var _ := Alloc(layouts[i], value);
    }

    ghost function Now(): Tally
      reads this`flags, this`scopeDepth, this`born, this`dropped, this`account
      requires flags != []
    {
      Tally(ScopeState(), account.requests, born, dropped)
    }

    /** Carries out one demand; an allocation that succeeds hands out a box of the current generation. */
    method Perform(demand: Demand) returns (box: Option<ArenaBox>)
      requires Valid() && IsDemand(demand)
      modifies this, flag
      ensures Valid() && Now() == Next(old(Now()), demand, box)
      ensures AddressIn(box) == Answer(memory, chunkSize, old(Now()).requests, demand)
      ensures old(flags) <= flags && (flag == old(flag) || fresh(flag))
      ensures box.Some? ==> flags == old(flags) && box.value.flag == flags[|flags| - 1]
    {
      if demand.Allocate? {
        box := HandOut(demand.layout, demand.value);
      } else {
        Control(demand);
        box := None;
      }
    }

    method HandOut(layout: Layout, value: nat) returns (box: Option<ArenaBox>)
      requires Stocked() && flags != [] && IsLayout(layout)
      modifies this`chunks, this`currentChunkIndex, this`highWater, this`elements, this`born, this`account
      ensures Stocked() && Now() == Next(old(Now()), Allocate(layout, value), box)
      ensures AddressIn(box) == Answer(memory, chunkSize, old(Now()).requests, Allocate(layout, value))
      ensures box.Some? ==> box.value.flag == flag
    {
      AnswerIsPlaced(memory, chunkSize, account.requests, Here(), layout, value);
      box := AllocBox(layout, value);
    }

    /** The box, if there is one. */
    method AllocBox(layout: Layout, value: nat) returns (box: Option<ArenaBox>)
      requires Stocked() && IsLayout(layout)
      modifies this`chunks, this`currentChunkIndex, this`highWater, this`elements, this`born, this`account
      ensures Stocked() && AddressIn(box) == Place(memory, chunkSize, old(Here()), layout).0
      ensures account.requests == old(account.requests) + [layout]
      ensures born == Stored(old(born), AddressIn(box), value)
      ensures box.Some? ==> box.value.flag == flag
    {
      var outcome := Alloc(layout, value);
      box := if outcome.Allocated? then Some(outcome.box) else None;
    }

    method Control(demand: Demand)
      requires Valid() && !demand.Allocate?
      modifies this, flag
      ensures Valid() && Now() == Next(old(Now()), demand, None)
      ensures old(flags) <= flags && (flag == old(flag) || fresh(flag))
    {
      if demand.OpenScope? {
        BeginScope();
      } else if demand.CloseScope? {
        var _ := EndScope();
      } else {
        Clear();
      }
    }
  }

  // ---------- Whole runs ----------

  /** What a client does with the arena. */
  datatype Demand = OpenScope | CloseScope | ClearAll | Allocate(layout: Layout, value: nat)

  predicate IsDemand(demand: Demand) {
    demand.Allocate? ==> IsLayout(demand.layout)
  }

  predicate AllDemands(demands: seq<Demand>) {
    forall demand <- demands :: IsDemand(demand)
  }

  function Kind(demand: Demand): Operation {
    match demand
    case OpenScope => Begin
    case CloseScope => End
    case ClearAll => Operation.Clear
    case Allocate(_, _) => Request
  }

  function Kinds(demands: seq<Demand>): seq<Operation> {
    if demands == [] then [] else Kinds(demands[..|demands| - 1]) + [Kind(demands[|demands| - 1])]
  }

  /** Scopes and clears, the requests since the last effective clear, what was written so far, and what
      of it was dropped again. */
  datatype Tally = Tally(scope: Scope, requests: seq<Layout>, born: seq<Element>, dropped: seq<Element>)

  function AddressIn(box: Option<ArenaBox>): Option<nat> {
    if box.Some? then Some(box.value.ptr) else None
  }

  /** Where an allocation goes: where next-fit puts it after the requests since the last effective
      clear. */
  function Answer(memory: seq<nat>, chunkSize: nat, requests: seq<Layout>, demand: Demand): Option<nat>
    requires memory != [] && AllLayouts(requests) && IsDemand(demand)
  {
    if demand.Allocate? then Place(memory, chunkSize, Serve(memory, chunkSize, requests).1, demand.layout).0 else None
  }

  lemma AnswerIsPlaced(memory: seq<nat>, chunkSize: nat, requests: seq<Layout>, spot: Spot, layout: Layout, value: nat)
    requires memory != [] && AllLayouts(requests) && IsLayout(layout)
    requires Serve(memory, chunkSize, requests).1 == spot
    ensures Answer(memory, chunkSize, requests, Allocate(layout, value)) == Place(memory, chunkSize, spot, layout).0
  {
  }

  /** What one demand does, given the box it was answered with. */
  function Next(tally: Tally, demand: Demand, box: Option<ArenaBox>): (next: Tally)
    ensures AllLayouts(tally.requests) && IsDemand(demand) ==> AllLayouts(next.requests)
  {
    var scope := Step(tally.scope, Kind(demand));
    if demand.Allocate? then
      Tally(scope, tally.requests + [demand.layout], Stored(tally.born, AddressIn(box), demand.value), tally.dropped)
    else if demand.ClearAll? && tally.scope.depth == 0 then
      Tally(scope, [], tally.born, tally.born)
    else
      Tally(scope, tally.requests, tally.born, tally.dropped)
  }

  /** What the answered demands came to. */
  function Tallied(demands: seq<Demand>, boxes: seq<Option<ArenaBox>>): (tally: Tally)
    requires AllDemands(demands) && |boxes| <= |demands|
    ensures AllLayouts(tally.requests)
  {
    if boxes == [] then Tally(Scope(0, 0), [], [], [])
    else
      var n := |boxes| - 1;
      Next(Tallied(demands, boxes[..n]), demands[n], boxes[n])
  }

  lemma TallyOneMore(demands: seq<Demand>, boxes: seq<Option<ArenaBox>>, box: Option<ArenaBox>)
    requires AllDemands(demands) && |boxes| < |demands|
    ensures Tallied(demands, boxes + [box]) == Next(Tallied(demands, boxes), demands[|boxes|], box)
  {
    assert (boxes + [box])[..|boxes|] == boxes;
  }

  /** Clearing obeys the scopes whatever is allocated. */
  lemma {:induction false} TalliedScope(demands: seq<Demand>, boxes: seq<Option<ArenaBox>>)
    requires AllDemands(demands) && |boxes| <= |demands|
    ensures Tallied(demands, boxes).scope == After(Scope(0, 0), Kinds(demands[..|boxes|]))
  {
    if boxes == [] {
      assert demands[..0] == [];
    } else {
      var n := |boxes| - 1;
      TalliedScope(demands, boxes[..n]);
      assert demands[..n + 1][..n] == demands[..n];
      var kinds := Kinds(demands[..n]);
      assert (kinds + [Kind(demands[n])])[..|kinds|] == kinds;
    }
  }

  /** The generation that each value written was written in. */
  function Births(demands: seq<Demand>, boxes: seq<Option<ArenaBox>>): seq<nat>
    requires AllDemands(demands) && |boxes| <= |demands|
  {
    if boxes == [] then []
    else
      var n := |boxes| - 1;
      Births(demands, boxes[..n]) +
        if demands[n].Allocate? && boxes[n].Some? then [Tallied(demands, boxes[..n]).scope.generation] else []
  }

  /** The values written, each with the address it was written at. */
  function Written(demands: seq<Demand>, boxes: seq<Option<ArenaBox>>): seq<Element>
    requires |boxes| <= |demands|
  {
    if boxes == [] then []
    else
      var n := |boxes| - 1;
      Written(demands, boxes[..n]) +
        if demands[n].Allocate? && boxes[n].Some? then [Element(boxes[n].value.ptr, demands[n].value)] else []
  }

  /** Nothing is recorded for dropping but what was written, in the order of writing. */
  lemma {:induction false} BornIsWritten(demands: seq<Demand>, boxes: seq<Option<ArenaBox>>)
    requires AllDemands(demands) && |boxes| <= |demands|
    ensures Tallied(demands, boxes).born == Written(demands, boxes)
  {
    if boxes != [] {
      BornIsWritten(demands, boxes[..|boxes| - 1]);
    }
  }

  /** Of all values written, in the order of writing, exactly those of earlier generations have been
      dropped. */
  ghost predicate DroppedInTime(births: seq<nat>, tally: Tally) {
    && |births| == |tally.born| && tally.dropped <= tally.born
    && forall i :: 0 <= i < |births| ==> InTime(births[i], tally, i)
  }

  ghost predicate InTime(birth: nat, tally: Tally, i: nat) {
    birth <= tally.scope.generation && (i < |tally.dropped| <==> birth < tally.scope.generation)
  }

  lemma NextInTime(births: seq<nat>, tally: Tally, demand: Demand, box: Option<ArenaBox>)
    requires DroppedInTime(births, tally)
    ensures var written := if demand.Allocate? && box.Some? then [tally.scope.generation] else [];
            DroppedInTime(births + written, Next(tally, demand, box))
  {
    var next := Next(tally, demand, box);
    forall i | 0 <= i < |births|
      ensures InTime(births[i], next, i)
    {
      assert InTime(births[i], tally, i);
    }
  }

  /** A value has been dropped, once and in the order of writing, exactly if a clear took effect since
      it was written. */
  lemma {:induction false} DroppedExactly(demands: seq<Demand>, boxes: seq<Option<ArenaBox>>)
    requires AllDemands(demands) && |boxes| <= |demands|
    ensures DroppedInTime(Births(demands, boxes), Tallied(demands, boxes))
  {
    if boxes != [] {
      var n := |boxes| - 1;
      DroppedExactly(demands, boxes[..n]);
      NextInTime(Births(demands, boxes[..n]), Tallied(demands, boxes[..n]), demands[n], boxes[n]);
    }
  }

  /** Each demand was answered as next-fit says, with a box of the generation it was made in. */
  ghost predicate BoxesKnown(memory: seq<nat>, chunkSize: nat, demands: seq<Demand>, boxes: seq<Option<ArenaBox>>,
                             flags: seq<ValidFlag>)
    requires memory != [] && AllDemands(demands) && |boxes| <= |demands|
  {
    forall i :: 0 <= i < |boxes| ==> BoxKnownAt(memory, chunkSize, demands, boxes, flags, i)
  }

  ghost predicate BoxKnownAt(memory: seq<nat>, chunkSize: nat, demands: seq<Demand>, boxes: seq<Option<ArenaBox>>,
                             flags: seq<ValidFlag>, i: nat)
    requires memory != [] && AllDemands(demands) && i < |boxes| <= |demands|
  {
    BoxKnown(memory, chunkSize, Tallied(demands, boxes[..i]), demands[i], boxes[i], flags)
  }

  ghost predicate BoxKnown(memory: seq<nat>, chunkSize: nat, tally: Tally, demand: Demand, box: Option<ArenaBox>,
                           flags: seq<ValidFlag>)
    requires memory != [] && AllLayouts(tally.requests) && IsDemand(demand)
  {
    && AddressIn(box) == Answer(memory, chunkSize, tally.requests, demand)
    && (box.Some? ==> tally.scope.generation < |flags| && box.value.flag == flags[tally.scope.generation])
  }

  lemma BoxesStep(memory: seq<nat>, chunkSize: nat, demands: seq<Demand>, boxes: seq<Option<ArenaBox>>,
                  box: Option<ArenaBox>, before: seq<ValidFlag>, after: seq<ValidFlag>)
    requires memory != [] && AllDemands(demands) && |boxes| < |demands| && before <= after
    requires BoxesKnown(memory, chunkSize, demands, boxes, before)
    requires BoxKnown(memory, chunkSize, Tallied(demands, boxes), demands[|boxes|], box, after)
    ensures BoxesKnown(memory, chunkSize, demands, boxes + [box], after)
  {
    var longer := boxes + [box];
    assert longer[..|boxes|] == boxes;
    forall i | 0 <= i < |boxes|
      ensures BoxKnownAt(memory, chunkSize, demands, longer, after, i)
    {
      assert longer[..i] == boxes[..i];
      assert BoxKnownAt(memory, chunkSize, demands, boxes, before, i);
    }
  }

  /** The first `|boxes|` demands led to the tally and were answered with the boxes. */
  ghost predicate Follows(memory: seq<nat>, chunkSize: nat, demands: seq<Demand>, boxes: seq<Option<ArenaBox>>,
                          flags: seq<ValidFlag>, tally: Tally)
    requires memory != [] && AllDemands(demands) && |boxes| <= |demands|
  {
    && tally == Tallied(demands, boxes)
    && tally.scope.generation == |flags| - 1
    && BoxesKnown(memory, chunkSize, demands, boxes, flags)
  }

  /** One more demand, answered as next-fit says, with the current flag if it was an allocation. */
  lemma FollowsStep(memory: seq<nat>, chunkSize: nat, demands: seq<Demand>, boxes: seq<Option<ArenaBox>>,
                    before: seq<ValidFlag>, tally: Tally, box: Option<ArenaBox>, after: seq<ValidFlag>, next: Tally)
    requires memory != [] && AllDemands(demands) && |boxes| < |demands|
    requires Follows(memory, chunkSize, demands, boxes, before, tally)
    requires next == Next(tally, demands[|boxes|], box)
    requires before <= after && next.scope.generation == |after| - 1
    requires AddressIn(box) == Answer(memory, chunkSize, tally.requests, demands[|boxes|])
    requires box.Some? ==> after == before && box.value.flag == after[|after| - 1]
    ensures Follows(memory, chunkSize, demands, boxes + [box], after, next)
  {
    TallyOneMore(demands, boxes, box);
    assert BoxKnown(memory, chunkSize, tally, demands[|boxes|], box, after);
    BoxesStep(memory, chunkSize, demands, boxes, box, before, after);
  }

  method PerformNext(arena: Arena, demands: seq<Demand>, boxes: seq<Option<ArenaBox>>) returns (box: Option<ArenaBox>)
    requires arena.Valid() && AllDemands(demands) && |boxes| < |demands|
    requires Follows(arena.memory, arena.chunkSize, demands, boxes, arena.flags, arena.Now())
    modifies arena, arena.flag
    ensures arena.Valid() && Follows(arena.memory, arena.chunkSize, demands, boxes + [box], arena.flags, arena.Now())
    ensures arena.flag == old(arena.flag) || fresh(arena.flag)
  {
    box := arena.Perform(demands[|boxes|]);
    FollowsStep(arena.memory, arena.chunkSize, demands, boxes, old(arena.flags), old(arena.Now()), box, arena.flags, arena.Now());
  }

  method RunAll(chunkSize: nat, memory: seq<nat>, demands: seq<Demand>)
    returns (arena: Arena, boxes: seq<Option<ArenaBox>>)
    requires memory != [] && IsMemory(memory, chunkSize) && AllDemands(demands)
    ensures fresh(arena) && arena.Valid() && arena.memory == memory && arena.chunkSize == chunkSize
    ensures |boxes| == |demands| && Follows(memory, chunkSize, demands, boxes, arena.flags, arena.Now())
  {
    arena := new Arena(chunkSize, memory);
    boxes := [];
    for n := 0 to |demands|
      invariant fresh(arena) && fresh(arena.flag) && arena.Valid()
      invariant arena.memory == memory && arena.chunkSize == chunkSize
      invariant |boxes| == n && Follows(memory, chunkSize, demands, boxes, arena.flags, arena.Now())
    {
      var box := PerformNext(arena, demands, boxes);
      boxes := boxes + [box];
    }
  }

  /**
   * Over any run from a new arena: clears obey the scopes; each allocation is answered as next-fit says
   * for the requests since the last effective clear; a box is valid exactly if no clear took effect
   * since it was handed out; and a value has been dropped, once and in the order of writing, exactly if
   * a clear took effect since it was written.
   */
  method Run(chunkSize: nat, memory: seq<nat>, demands: seq<Demand>)
    returns (arena: Arena, boxes: seq<Option<ArenaBox>>)
    requires memory != [] && IsMemory(memory, chunkSize) && AllDemands(demands)
    ensures fresh(arena) && arena.Valid() && |boxes| == |demands|
    ensures arena.Now() == Tallied(demands, boxes)
    ensures arena.ScopeState() == After(Scope(0, 0), Kinds(demands))
    ensures forall i :: 0 <= i < |boxes| ==>
              AddressIn(boxes[i]) == Answer(memory, chunkSize, Tallied(demands, boxes[..i]).requests, demands[i])
    ensures forall i :: 0 <= i < |boxes| && boxes[i].Some? ==>
              (boxes[i].value.flag.valid <==>
               Tallied(demands, boxes[..i]).scope.generation == arena.ScopeState().generation)
    ensures arena.born == Written(demands, boxes) && DroppedInTime(Births(demands, boxes), arena.Now())
  {
    arena, boxes := RunAll(chunkSize, memory, demands);
    TalliedScope(demands, boxes);
    DroppedExactly(demands, boxes);
    BornIsWritten(demands, boxes);
    assert demands[..|demands|] == demands;
    forall i | 0 <= i < |boxes|
      ensures BoxKnown(memory, chunkSize, Tallied(demands, boxes[..i]), demands[i], boxes[i], arena.flags)
    {
      assert BoxKnownAt(memory, chunkSize, demands, boxes, arena.flags, i);
    }
  }
}
