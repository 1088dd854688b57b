# Verified models of the patched UI framework

The repository vendors a patched UI framework under `gpui-pre-patched`. These Dafny modules model
its self-contained algorithms and state machines and prove what they promise.

| file | what it models |
|---|---|
| `Options.dfy` | optional values |
| `Geometry.dfy` | points, sizes and rectangles: union, intersection, covering |
| `DrawOrder.dfy` | what z-orders mean: the naive scan, painter's order, stacks of rectangles |
| `RTree.dfy` | the tree behind the node vector: growth by one leaf, its invariants, pruning |
| `BoundsTrees.dfy` | `BoundsTree`: the flat, growable node vector with descent, split, repair and search |
| `Arena.dfy` | `Arena`, `Chunk`, `ArenaBox`: aligned bump allocation, scopes, generations |
| `AppRuns.dfy` | what `App` does at run time, as functions on its state: effect queue, nested updates, notification index, window leases |
| `AppLaws.dfy` | the laws of those functions: invariants, and what the log of a run says |
| `AppCounts.dfy` | that everything owed is done exactly once |
| `App.dfy` | `App` updated in place, refining the functions |
| `Actions.dfy` | re-entrant dispatch of actions to global listeners |
| `ActionLaws.dfy` | what a dispatch of an action is bound to do: propagation is heeded, listeners are called and carried out |
| `GlyphSlot.dfy` | the re-entrant slot for the missing-glyph callback |
| `LruCache.dfy` | `SimpleLruCache` of the image gallery |
| `Color.dfy` | RGBA and HSLA: conversion and blending (sections 7.1 and 7.2 of CSS Color Module Level 4) |
| `AssetCache.dfy` | the asset table and `CachedLoad` under all interleavings |
| `TextInput.dfy` | the text field: UTF-8 and UTF-16 offsets (section 3 of RFC 3629, section 2 of RFC 2781), selection, editing |

## How the models are built

Structures that the framework updates in place are classes whose methods are proved against
functions of their contents. A ghost log or tree says what the contents are: `BoundsTree.log` and
`BoundsTree.tree`, `Arena.account`, `SimpleLruCache.trace`, `App.log`.

The application context is modelled twice. `AppRuns.dfy` says what each operation makes of the whole
state, re-entry included, and `App.dfy` proves of the methods that update the fields that they do
just that. `AppLaws.dfy` is about the functions. Its main notion is the log: each started action is
logged with the windows then being updated, and each delivered effect, released entity and closed
window with the callbacks that answer it. A step of the log owes the code that it is bound to run
(`Owed`); that all of this happens later in the log, in order, is `Settled`; that the step was right
when it was logged is `Truthful`; that nothing happens more often than it is owed is `Exactly`, in
`AppCounts.dfy`. What the log says of windows and entities, last of all, is kept in `Facts`: what each
window shows, which windows are drawing, which entities were dropped, whom a step must tell (`Tells`).

User code is data, so that re-entry is real. In `AppRuns.dfy` callbacks are scripts of operations, and
the handlers still to be invoked come from a finite list. In `Actions.dfy`, `GlyphSlot.dfy` and
`AssetCache.dfy` a run is a finite tree that gives, for each dispatch, delivery or load, what the
invoked code does; this covers every terminating run of any callbacks, whatever state they keep.
Environment steps (a worker that finishes, a task that is polled, a key that is pressed) are
operations that may come in any order.

What such a run amounts to is said twice as well: by a function that carries it out, and by a predicate
that does not know the function, `Does` for one operation and `DoesInTurn` for a script, which holds the
run to what the operation is for. That every listener, callback or load function that should run does run,
to its end, is then a lemma (`ScriptIsDone`).

Coordinates and color channels are reals. Addresses, counters and indices are unbounded, with the
machine's limit written out where the code checks it (`checked_add` in the arena).

## What the code does that its names do not say

* A dispatch sets the propagation flag at its start, so a listener that stops propagation and then
  dispatches something else has its stop forgotten (`DispatchCalls`, `StopIsLost`).
* Removing a global queues a notification for its observers like setting it does (`app.rs:2177-2179`),
  although its comment says that they are not notified; in the model both are `SetGlobal`.
* Deleting and cutting act on marked text first: cut copies the selection but deletes the marked
  text if there is some (`Cut`, `CutDeletesMarked`, exact condition in `CutThenPaste`).
* A selection passed along with marked text is read off the whole new content and moved by the two
  ends of the replaced range. Whether it is the one asked for depends on the call (`LandsExactly`); at
  a caret in plain ASCII it is (`PlainLandsAtCaret`). Only for the empty range at the start is it so
  whatever is asked (`NewSelectionExactly`), and only there is it always a valid selection
  (`NewSelectionValidExactly`); it can even lie outside the content (`NewSelectionOutside`).
* A load function that asks for the very asset it is loading has the inner load replaced
  (`AskingForItselfLoadsTwice`); one request starts one load exactly if that does not happen
  (`OneLoadPerResidency`).
* A cache of capacity 0 panics on every load; any other capacity never does (`SimpleLruCache.Load`).
* A window that is asked to close while it is opened goes into its slot all the same. The next update
  of it closes it, whoever that is and whatever for (`OpenKept`, `HeldKept`).
* The `expect` that windows are off the stack when observers of a new entity run can fail
  (`MissHappens`, and with observers that ask for nothing `MissHappensUnasked`). It holds if and only if
  there are no observers, or the window is open, no observer but the last asks for it to be closed, and
  it was not asked to close while it was opened unless there is just one observer (`MissedExactly`).

## Model

| member | source | states |
|---|---|---|
| `Geometry.Bounds.Union` | gpui-pre-patched/src/geometry.rs:1185-1189 | the union covers both rectangles, whatever the signs of the sizes |
| `Geometry.UnionIsLeast` | gpui-pre-patched/src/geometry.rs:1185-1189 | a rectangle covers the union exactly when it covers both parts: the union is the least upper bound |
| `Geometry.CoversAntisymmetric` | gpui-pre-patched/src/geometry.rs:1368-1373 | rectangles that cover each other are equal, so "least" determines the box |
| `Geometry.CoverKeepsIntersection` | gpui-pre-patched/src/geometry.rs:965-973 | whatever meets a covered rectangle meets the covering one: the fact that spatial pruning relies on |
| `Geometry.IntersectsIffSharedPoint` | gpui-pre-patched/src/geometry.rs:965-973 | two rectangles share an interior point exactly when both have an interior and `intersects` holds |
| `Geometry.Bounds.FromCorners` | gpui-pre-patched/src/geometry.rs:821-831 | the rectangle with these two corners |
| `DrawOrder.NaiveMaxIsHighestHit` | gpui-pre-patched/src/bounds_tree.rs:458-463 | the one-line scan finds the highest intersecting order of the collection, however it is stored |
| `DrawOrder.HighestHitUnique` | gpui-pre-patched/src/bounds_tree.rs:138-139 | there is only one such order, so any search that finds one agrees with the scan |
| `DrawOrder.AssignKeepsOrdered` | gpui-pre-patched/src/bounds_tree.rs:116-136 | giving each rectangle one more than the scan finds keeps the whole log consistently ordered |
| `DrawOrder.PaintersOrder` | gpui-pre-patched/src/bounds_tree.rs:116-120 | painter's order: of two intersecting rectangles the later one is strictly above |
| `DrawOrder.StackNoLongerThanOrder` | gpui-pre-patched/src/bounds_tree.rs:116-136 | no stack of successively inserted, consecutively intersecting rectangles is longer than the order it ends in |
| `DrawOrder.StackAsLongAsOrder` | gpui-pre-patched/src/bounds_tree.rs:116-136 | and one such stack is exactly that long |
| `DrawOrder.OrderIsLongestStack` | gpui-pre-patched/src/bounds_tree.rs:116-136 | an order is the length of the longest stack of intersecting rectangles ending there |
| `DrawOrder.StackFitsInLog` | gpui-pre-patched/src/bounds_tree.rs:116-136 | a stack has at most as many rectangles as were inserted |
| `DrawOrder.OrderAtMostInserts` | gpui-pre-patched/src/bounds_tree.rs:120-123 | every order lies between 1 and the number of inserts, so 32 bits last for 2^32 - 1 inserts |
| `RTree.TopIsHighest` | gpui-pre-patched/src/bounds_tree.rs:65-70 | in a well-formed tree the order of a branch is the maximum over its leaves, and is reached |
| `RTree.BoxCovers` | gpui-pre-patched/src/bounds_tree.rs:280-281 | a branch's box covers every rectangle below it |
| `RTree.FirstMinimumIsLeast` | gpui-pre-patched/src/bounds_tree.rs:248-262 | the scan over the costs stops at the first of the least ones |
| `RTree.CheapestEnlargesLeast` | gpui-pre-patched/src/bounds_tree.rs:248-262 | no sibling of the child descended into would end up with a smaller width and height together, measured by the corners of both boxes, and none before it with the same |
| `RTree.GrowAddsLeaf` | gpui-pre-patched/src/bounds_tree.rs:197-356 | an insertion adds exactly the new leaf and loses none |
| `RTree.GrowKeepsWellFormed` | gpui-pre-patched/src/bounds_tree.rs:265-353 | after an insertion every branch still has 2 to 12 children, the order of the highest, and that one last: through adding, splitting and the repair on the way up |
| `RTree.GrowKeepsSnug` | gpui-pre-patched/src/bounds_tree.rs:280-333 | after an insertion every box is still exactly the union of the rectangles below it |
| `RTree.GrowKeepsDistinct` | gpui-pre-patched/src/bounds_tree.rs:284-315 | an insertion links exactly the new positions and none twice, so the links stay a tree |
| `RTree.SplitsWhenFull` | gpui-pre-patched/src/bounds_tree.rs:265-315 | a new branch is created only where a branch already has its 12 children; otherwise the leaf is the only new node |
| `RTree.HighestLastIsHighest` | gpui-pre-patched/src/bounds_tree.rs:274-277 | after the swap of the repair the last child is the highest |
| `RTree.PlacedAddsLeaf` | gpui-pre-patched/src/bounds_tree.rs:267-322 | placing the leaf beside or below the chosen child adds it and nothing else |
| `RTree.HighestHitOfLeaves` | gpui-pre-patched/src/bounds_tree.rs:138-193 | a search over a forest answers the question about the collection of its leaves |
| `RTree.PruningIsSound` | gpui-pre-patched/src/bounds_tree.rs:163-171 | both prunings are sound: a subtree that is not above the best found, or whose box misses the query, cannot improve the answer |
| `BoundsTrees.BoundsTree.Insert` | gpui-pre-patched/src/bounds_tree.rs:120-136 | the order returned is one more than the naive scan over everything inserted since the last clear finds, and the tree stays valid |
| `BoundsTrees.BoundsTree.Clear` | gpui-pre-patched/src/bounds_tree.rs:108-114 | forgets everything and leaves a valid empty tree |
| `BoundsTrees.BoundsTree.FindMaxOrdering` | gpui-pre-patched/src/bounds_tree.rs:139-193 | the fast path over the cached leaf and the pruned search both give what the naive scan gives |
| `BoundsTrees.BoundsTree.Search` | gpui-pre-patched/src/bounds_tree.rs:152-192 | the branch-and-bound search over the stack ends with the highest intersecting order of the tree |
| `BoundsTrees.BoundsTree.PushChildren` | gpui-pre-patched/src/bounds_tree.rs:180-187 | pushing only the children that can improve keeps the answer and adds no more work than popping the parent removed |
| `BoundsTrees.BoundsTree.UpdateMaxLeaf` | gpui-pre-patched/src/bounds_tree.rs:128-133 | the cached leaf is one of the highest |
| `BoundsTrees.BoundsTree.InsertLeaf` | gpui-pre-patched/src/bounds_tree.rs:197-356 | afterwards the vector is one well-formed tree with exactly one more leaf, and no leaf node was changed |
| `BoundsTrees.BoundsTree.PairWithRoot` | gpui-pre-patched/src/bounds_tree.rs:211-234 | a lone root and the new leaf come under a new root, the higher one last |
| `BoundsTrees.BoundsTree.InsertBelow` | gpui-pre-patched/src/bounds_tree.rs:236-353 | descent, placement and repair together turn the vector of a tree into that of the grown tree |
| `BoundsTrees.BoundsTree.Descend` | gpui-pre-patched/src/bounds_tree.rs:240-327 | the path follows the cheapest child at every branch, ends where that child is a leaf, and terminates although node indices are in no order |
| `BoundsTrees.BoundsTree.FindBest` | gpui-pre-patched/src/bounds_tree.rs:248-262 | the loop finds the first child of least cost |
| `BoundsTrees.BoundsTree.PlaceLeaf` | gpui-pre-patched/src/bounds_tree.rs:264-322 | the branch at the end of the path receives the leaf, or a new branch if it was full |
| `BoundsTrees.BoundsTree.AddToBase` | gpui-pre-patched/src/bounds_tree.rs:267-282 | a branch with room takes the leaf as its last child, or last but one if it is not higher |
| `BoundsTrees.BoundsTree.SplitBase` | gpui-pre-patched/src/bounds_tree.rs:283-321 | in a full branch the chosen leaf is replaced by a branch over it and the new leaf, which moves last if it is the highest |
| `BoundsTrees.BoundsTree.Propagate` | gpui-pre-patched/src/bounds_tree.rs:329-353 | the bottom-up loop makes every branch of the path the grown branch |
| `BoundsTrees.BoundsTree.RepairNode` | gpui-pre-patched/src/bounds_tree.rs:331-353 | one step: box, maximum, and the updated child last if the maximum rose |
| `BoundsTrees.GrownRepresents` | gpui-pre-patched/src/bounds_tree.rs:197-356 | the grown tree fills the grown vector exactly: every node is reachable once |
| `BoundsTrees.PairRepresents` | gpui-pre-patched/src/bounds_tree.rs:211-234 | the same for a new root over two leaves |
| `BoundsTrees.BranchIsGrown` | gpui-pre-patched/src/bounds_tree.rs:331-353 | a repaired branch over a grown child is the grown branch |
| `BoundsTrees.StepIsGrown` | gpui-pre-patched/src/bounds_tree.rs:331-353 | so each step of the repair carries the claim one branch further up |
| `BoundsTrees.MaxLeafAfterInsert` | gpui-pre-patched/src/bounds_tree.rs:128-133 | replacing the cached leaf only by a strictly higher one keeps it one of the highest |
| `BoundsTrees.Serve` | gpui-pre-patched/src/bounds_tree.rs:458-468 | any run of inserts and clears on any valid tree answers what the naive scan answers |
| `BoundsTrees.Run` | gpui-pre-patched/src/bounds_tree.rs:437-471 | any run on a new tree hands out exactly the orders of the naive scan |
| `Arenas.AlignUpIsMultiple` | gpui-pre-patched/src/arena.rs:63-64 | the aligned address is a multiple of the alignment |
| `Arenas.AlignOffsetReaches` | gpui-pre-patched/src/arena.rs:63-64 | adding the offset to the next multiple gives the least multiple at or after the address |
| `Arenas.FitIsFirstRoom` | gpui-pre-patched/src/arena.rs:55-74 | a request goes to the first aligned address at which it fits in what is left of the chunk, and is turned away exactly if there is none |
| `Arenas.PlaceIsNextFit` | gpui-pre-patched/src/arena.rs:174-180 | next-fit, by what there is room for: the first room in the current chunk; only if there is none, the first room in the next one, which then is current for good |
| `Arenas.Chunk.Allocate` | gpui-pre-patched/src/arena.rs:55-74 | served exactly if some aligned address has room for the request, and at the least such; the free part then begins right behind it; a refused request leaves the chunk as it was |
| `Arenas.PanicMeansTooLarge` | gpui-pre-patched/src/arena.rs:195-215 | a request can fail in a fresh chunk only if size + align - 1 exceeds the chunk size |
| `Arenas.NoClearInsideScope` | gpui-pre-patched/src/arena.rs:113-148 | over every run, nothing is cleared between a begin and its matching end |
| `Arenas.ClearTakesEffect` | gpui-pre-patched/src/arena.rs:133-148 | a clear takes effect exactly when no scope is open, and ending a scope clears nothing |
| `Arenas.DepthIsOpenScopes` | gpui-pre-patched/src/arena.rs:113-131 | the depth is the number of scopes begun and not ended |
| `Arenas.BalancedKeepsScope` | gpui-pre-patched/src/arena.rs:113-148 | whatever balanced run happens inside an open scope, depth and generation are afterwards what they were |
| `Arenas.TalliedScope` | gpui-pre-patched/src/arena.rs:113-148 | in a run of the arena, clears obey the scopes whatever is allocated: the machine that the two lemmas above are about |
| `Arenas.DroppedExactly` | gpui-pre-patched/src/arena.rs:139-158 | of all values written, in the order of writing, exactly those have been dropped that an effective clear followed |
| `Arenas.BornIsWritten` | gpui-pre-patched/src/arena.rs:165-191 | what is recorded for dropping is what was written, each value at its address, in order |
| `Arenas.SpaceBound` | gpui-pre-patched/src/arena.rs:161-215 | next-fit bound: if every request has size + align - 1 at most the chunk size, none has panicked, and k chunks behind the current one cost less than twice what was asked for |
| `Arenas.LiveBlocksDisjoint` | gpui-pre-patched/src/arena.rs:55-78 | any two live blocks have no byte in common, and each is aligned and inside its chunk |
| `Arenas.ServeMovesForward` | gpui-pre-patched/src/arena.rs:194-215 | more requests never end in an earlier chunk, and do not change the outcomes of the first ones |
| `Arenas.ChargedKeepsAccounted` | gpui-pre-patched/src/arena.rs:161-215 | serving one more request keeps blocks, space bound and replay account |
| `Arenas.Arena.constructor` | gpui-pre-patched/src/arena.rs:97-107 | a valid arena of one empty chunk |
| `Arenas.Arena.BeginScope` | gpui-pre-patched/src/arena.rs:116-118 | opens a scope and changes nothing else |
| `Arenas.Arena.EndScope` | gpui-pre-patched/src/arena.rs:126-131 | closes a scope; refuses exactly when none is open |
| `Arenas.Arena.Clear` | gpui-pre-patched/src/arena.rs:139-148 | drops everything ever written and not yet dropped, if no scope is open; otherwise changes nothing |
| `Arenas.Arena.ForceClear` | gpui-pre-patched/src/arena.rs:150-158 | lowers the flag of every handle given out, raises a new one, drops every element, and resets every chunk |
| `Arenas.Arena.RewindChunks` | gpui-pre-patched/src/arena.rs:154-157 | resetting the chunks up to the current one leaves all chunks at their start |
| `Arenas.Arena.Alloc` | gpui-pre-patched/src/arena.rs:161-192 | moves on exactly if the current chunk has no aligned room left, hands out a box of the current generation at the first room, and remembers the element once; a panic means an oversized request |
| `Arenas.Arena.Reserve` | gpui-pre-patched/src/arena.rs:174-180 | finds room by next-fit and touches no chunk but the one it ends in |
| `Arenas.Arena.AllocateNextChunk` | gpui-pre-patched/src/arena.rs:195-215 | moves on by exactly one chunk, which is new only beyond the highest index ever reached |
| `Arenas.Arena.Validate` | gpui-pre-patched/src/arena.rs:232-238 | a box is accepted exactly if no effective clear happened since it was allocated |
| `Arenas.Arena.Drop` | gpui-pre-patched/src/arena.rs:90-94 | dropping the arena drops what is left: every value ever written exactly once, in order |
| `Arenas.Arena.Replay` | gpui-pre-patched/src/arena.rs:150-215 | after an effective clear the same requests are served at the same addresses without a new chunk |
| `Arenas.Arena.Perform` | gpui-pre-patched/src/arena.rs:113-192 | one operation does to scopes, flags, account and dropped values exactly what is specified, and is answered as next-fit says |
| `Arenas.Run` | gpui-pre-patched/src/arena.rs:90-238 | over any run: clears obey the scopes, each allocation is answered as next-fit says for the requests since the last effective clear, a box is valid exactly if no clear took effect since, and of the values written, with the addresses handed out for them, exactly those before the last effective clear have been dropped, in order |
| `AppRuns.AfterScript` | gpui-pre-patched/src/app.rs:1158-1177 | whatever user code does, the counter of updates, the flush mark, the stack of updated windows and the windows held are as before, and released entities and the log only grow |
| `AppRuns.AfterRelease` | gpui-pre-patched/src/app.rs:1853-1870 | releasing ends with no dropped entity left, those dropped by release listeners included |
| `AppRuns.AfterFlush` | gpui-pre-patched/src/app.rs:1781-1848 | the flush ends, with no effect queued and no dropped entity left, however much its handlers queue and drop |
| `AppLaws.PushQueueOk` | gpui-pre-patched/src/app.rs:1760-1776 | each pending notification is queued exactly once, others not at all: kept by queueing |
| `AppLaws.PopQueueOk` | gpui-pre-patched/src/app.rs:1785-1808 | and by taking the front effect, whose emitter may be queued again from then on |
| `AppLaws.PendingIsQueued` | gpui-pre-patched/src/app.rs:1761-1771 | a notification is dropped exactly if the same one is still to be delivered |
| `AppLaws.RecordOk` | gpui-pre-patched/src/app.rs:1210-1237 | the two sides of the index agree again after a window recorded what it shows |
| `AppLaws.ForgetWindowOk` | gpui-pre-patched/src/app.rs:2900-2911 | and after a window was closed |
| `AppLaws.ForgetEntityOk` | gpui-pre-patched/src/app.rs:1860-1864 | and after an entity was released, which loses its entry |
| `AppLaws.ForgetWindowForgottenOk` | gpui-pre-patched/src/app.rs:2900-2911 | a closed window is tracked no more until it is recorded again |
| `AppLaws.ForgetEntityForgottenOk` | gpui-pre-patched/src/app.rs:1862-1864 | a released entity has no windows and no current window until it is recorded again |
| `AppLaws.LiveIsShown` | gpui-pre-patched/src/app.rs:2791-2809 | for an unreleased entity, filtering its entry finds exactly the windows that a scan of all tracked sets finds |
| `AppLaws.NotifyDirties` | gpui-pre-patched/src/app.rs:2817-2819 | a notification dirties the views of the entity in exactly the windows that show it, and nothing else |
| `AppLaws.NotifyTells` | gpui-pre-patched/src/app.rs:2811-2820 | observers are to be told unless windows show the entity and all of them are drawing; never twice |
| `AppLaws.SetGlobalTells` | gpui-pre-patched/src/app.rs:2163-2167 | setting a global queues one notification for its observers, at the end, unless one is queued already |
| `AppLaws.PushesIsTold` | gpui-pre-patched/src/app.rs:2790-2824 | for an unreleased entity a notification is queued exactly if the log says so: no window was last recorded to show it, or one that was is not drawing |
| `AppLaws.FreeIsOpen` | gpui-pre-patched/src/app.rs:2884-2887 | a slot is filled exactly if its window is open and not being updated; the window in it has been asked to close exactly if that happened while it was opened |
| `AppLaws.TakeOk` | gpui-pre-patched/src/app.rs:2884-2891 | the window taken out is the one of its slot, and no other update holds it |
| `AppLaws.ReturnOk` | gpui-pre-patched/src/app.rs:2892-2931 | the window that goes off the stack is the one put back |
| `AppLaws.CloseOk` | gpui-pre-patched/src/app.rs:2893-2899 | or the one closed, which was not closed before |
| `AppLaws.ReserveOk` | gpui-pre-patched/src/app.rs:1353-1354 | the slot of a window being opened is new and empty |
| `AppLaws.SettleOk` | gpui-pre-patched/src/app.rs:1370-1371 | it is filled when the window is there, asked to close or not |
| `AppLaws.AbandonOk` | gpui-pre-patched/src/app.rs:1373-1376 | or removed when opening failed |
| `AppLaws.SimpleKept` | gpui-pre-patched/src/app.rs:1760-1776 | steps that run no user code keep every invariant, the recorded facts among them: what a window shows, whether it is drawing, an entity's current window, dirty views, dropped entities; they queue what they owe, and tell whom they must |
| `AppLaws.ScriptKept` | gpui-pre-patched/src/app.rs:1158-1163 | user code inside an update runs to its end, in order, each step with the windows then being updated; it keeps every invariant, delivers, releases and misses nothing, and everything it is bound to do is done |
| `AppLaws.ActionKept` | gpui-pre-patched/src/app.rs:1158-1163 | the same for one step, logged with the stack it ran under |
| `AppLaws.UpdateKept` | gpui-pre-patched/src/app.rs:1158-1177 | an inner update delivers nothing |
| `AppLaws.CreateKept` | gpui-pre-patched/src/app.rs:2967-2981 | a new entity is announced after its constructor ran, with the innermost window being updated |
| `AppLaws.UpdateWindowKept` | gpui-pre-patched/src/app.rs:2878-2936 | the callback runs with the window on the stack exactly if the window is in its slot; afterwards the same window is there exactly if neither this callback nor the code that opened the window asked for it to be closed |
| `AppLaws.HeldKept` | gpui-pre-patched/src/app.rs:2884-2932 | the same while the window is held, whose request to close is decided by its own flag |
| `AppLaws.StillFlagged` | gpui-pre-patched/src/window.rs:2280-2282 | whether an open window will close with its next update is settled by its opening, whatever other code runs |
| `AppLaws.ClosedKept` | gpui-pre-patched/src/app.rs:2896-2916 | a window asked to close is gone, and the observers of that have all run, in order |
| `AppLaws.ClosingValid` | gpui-pre-patched/src/app.rs:2897-2916 | its slot and its index entries are gone before any of those observers runs |
| `AppLaws.OpenKept` | gpui-pre-patched/src/app.rs:1347-1380 | opening runs its code in order and leaves the window in its slot, with the request to close that its code may have made, or no slot if it failed |
| `AppLaws.BuildKept` | gpui-pre-patched/src/app.rs:1356-1368 | the root view is built with the new window on the stack and drawn after that; the slot stays empty meanwhile, whatever that code does |
| `AppLaws.CallbacksKept` | gpui-pre-patched/src/app.rs:1886-1890 | all handlers of an occasion run, in order |
| `AppLaws.NoneUpdated` | gpui-pre-patched/src/app.rs:1942-1953 | when no slot is empty the stack is empty: the reason that windows are off the stack in a flush |
| `AppLaws.ReleasingValid` | gpui-pre-patched/src/app.rs:1860-1864 | an entity is forgotten before its release listeners run |
| `AppLaws.ReleaseWent` | gpui-pre-patched/src/app.rs:1853-1870 | every dropped entity is released, and all its release listeners run |
| `AppLaws.DeliveringValid` | gpui-pre-patched/src/app.rs:1785-1814 | effects are delivered in the order queued, each answered by the next handlers |
| `AppLaws.DeliverWent` | gpui-pre-patched/src/app.rs:1785-1814 | each delivery runs all handlers of its effect, in order; for a new entity, those that find its window; for a refresh, none |
| `AppLaws.RefreshMarks` | gpui-pre-patched/src/app.rs:1916-1923 | a refresh marks exactly the open windows and takes no handlers |
| `AppLaws.CallbacksInWindowMet` | gpui-pre-patched/src/app.rs:1946-1959 | the observers of a new entity run in its window up to the first update that closes it, on the request of that observer or of the opening, if it is open at all; each later one is a miss |
| `AppLaws.FlushWent` | gpui-pre-patched/src/app.rs:1781-1848 | over a whole flush everything owed is done, in order, and the misses are exactly those that the deliveries account for |
| `AppLaws.FinishFlushes` | gpui-pre-patched/src/app.rs:1170-1177 | the outermost update flushes once and leaves queue, pending sets and dropped entities empty |
| `AppLaws.EntryFlushes` | gpui-pre-patched/src/app.rs:1158-1177 | whatever starts on its own, an update, a new entity, a window updated or opened, runs its code, and then everything queued has been delivered and everything dropped has been released |
| `AppLaws.EntriesGoWell` | gpui-pre-patched/src/app.rs:1158-1177 | over any run of such entries and any handlers: all started in order, everything owed by any step was done after it in order, each entry flushed once, every effect queued was delivered in order, everything dropped was released, nothing is left |
| `AppLaws.EntriesTell` | gpui-pre-patched/src/app.rs:1760-1848 | over any such run, each setting of a global is followed by the delivery to its observers, and each notification of an unreleased entity by the delivery to its own, unless windows show it and all of them are drawing |
| `AppLaws.EntriesRelease` | gpui-pre-patched/src/app.rs:1853-1870 | over any such run the entities released are exactly those whose last handle went away, each once |
| `AppLaws.ReleasedOnce` | gpui-pre-patched/src/app.rs:1860-1870 | at any time no entity has been released twice |
| `AppLaws.DrawingFollows` | gpui-pre-patched/src/window.rs:240-270 | a window counts as drawing exactly if that was said of it last |
| `AppLaws.ShownIsRecorded` | gpui-pre-patched/src/app.rs:1210-1237 | a window shows exactly the entities recorded for it last |
| `AppLaws.CurrentIsLast` | gpui-pre-patched/src/app.rs:1943-1945 | the current window of an entity is the one it was created in or recorded in last, until that window closes or the entity is released |
| `AppCounts.EntriesExact` | gpui-pre-patched/src/app.rs:1158-1177 | and all of it exactly once: over such a run each action was started under each stack, each window opened and closed, and each effect other than a notification queued, exactly as often as an entry or a step of the log calls for it |
| `AppCounts.ScriptExact` | gpui-pre-patched/src/app.rs:1158-1163 | the same for a stretch of user code in any state |
| `AppCounts.CallbacksExact` | gpui-pre-patched/src/app.rs:1886-1890 | each handler of an occasion runs once |
| `AppCounts.CallbacksInWindowExact` | gpui-pre-patched/src/app.rs:1946-1959 | each observer of a new entity that finds its window runs once in it, and the others not at all |
| `AppCounts.FlushExact` | gpui-pre-patched/src/app.rs:1781-1848 | a flush does exactly what its deliveries, releases and closings call for |
| `AppLaws.TruthfulAt` | gpui-pre-patched/src/app.rs:2884-2936 | at each step of a run: the window held was open and not being updated, a window was closed only if the callback that held it asked for that or the code that opened it, a notification was queued only for a step that causes it, an entity was released once and only when dropped, an effect was delivered in turn, with nothing dropped left unreleased, and to the next handlers |
| `AppLaws.OpenWindowsAreInSlots` | gpui-pre-patched/src/app.rs:2928-2931 | between updates the slots, and the handles, are exactly the windows opened and not closed, and all are filled: no update loses a window |
| `AppLaws.OpenWindowIsSomewhere` | gpui-pre-patched/src/app.rs:2884-2931 | at any time an open window is in its slot or on the stack, once |
| `AppLaws.MissedExactly` | gpui-pre-patched/src/app.rs:1946-1959 | no observer of a new entity misses its window if and only if there are no observers, or the window is open, none of them but the last asks for it to be closed, and it was not asked to close while it was opened unless there is just one |
| `AppLaws.ClosedWindowIsMissed` | gpui-pre-patched/src/app.rs:1952-1958 | an update that creates an entity and then closes its window makes the `expect` fail |
| `AppLaws.MissHappens` | gpui-pre-patched/src/app.rs:1952-1958 | and such a run exists from the start |
| `AppLaws.RegrettedWindowIsMissed` | gpui-pre-patched/src/app.rs:1358-1371 | opening a window whose code creates an entity and asks for the window to be closed makes the `expect` fail for the second observer of that entity, though no observer asks for anything |
| `AppLaws.MissHappensUnasked` | gpui-pre-patched/src/app.rs:1358-1371 | such a run, too, exists from the start |
| `Apps.App.constructor` | gpui-pre-patched/src/app.rs:880-960 | nothing queued, no window, no update running |
| `Apps.App.PushEffect` | gpui-pre-patched/src/app.rs:1760-1776 | queue, pending sets and log are exactly as specified |
| `Apps.App.PopEffect` | gpui-pre-patched/src/app.rs:1785-1808 | takes the front effect and its pending mark |
| `Apps.App.RecordEntitiesAccessed` | gpui-pre-patched/src/app.rs:1210-1237 | the in-place loops over both sides of the index, in whatever order, come to the specified index |
| `Apps.App.ForgetWindow` | gpui-pre-patched/src/app.rs:2900-2911 | the same for closing a window |
| `Apps.App.ForgetEntity` | gpui-pre-patched/src/app.rs:1862-1864 | the same for releasing an entity |
| `Apps.App.InvalidateView` | gpui-pre-patched/src/window.rs:167-192 | the view is dirty; its observers are to be told unless the window is drawing |
| `Apps.App.NotifyEntity` | gpui-pre-patched/src/app.rs:2790-2824 | the entry taken out, filtered and put back comes to the specified notification |
| `Apps.App.InvalidateAll` | gpui-pre-patched/src/app.rs:2817-2819 | the loop over the windows comes to the same in whatever order |
| `Apps.App.ApplyRefresh` | gpui-pre-patched/src/app.rs:1916-1923 | the loop over the slots marks the windows in them |
| `Apps.App.RunUpdate` | gpui-pre-patched/src/app.rs:1158-1163 | the in-place update refines the specified one |
| `Apps.App.FinishUpdate` | gpui-pre-patched/src/app.rs:1170-1177 | flushes exactly in the outermost update outside a flush |
| `Apps.App.FlushEffects` | gpui-pre-patched/src/app.rs:1781-1848 | the loop over a queue that its own handlers extend is the specified flush |
| `Apps.App.DeliverEffect` | gpui-pre-patched/src/app.rs:1786-1814 | the front effect goes to its handlers |
| `Apps.App.RunCallbacksInWindow` | gpui-pre-patched/src/app.rs:1948-1959 | each observer runs in the window, or is recorded as a miss |
| `Apps.App.ReleaseDroppedEntities` | gpui-pre-patched/src/app.rs:1853-1870 | the loop over a list that its own listeners extend is the specified release |
| `Apps.App.ReleaseFirst` | gpui-pre-patched/src/app.rs:1860-1868 | one entity is marked, forgotten, and its listeners run |
| `Apps.App.RunScript` | gpui-pre-patched/src/app.rs:1158-1163 | user code performs its steps in order |
| `Apps.App.RunCreateEntity` | gpui-pre-patched/src/app.rs:2967-2981 | constructor, announcement, end of the update |
| `Apps.App.UpdateWindowErased` | gpui-pre-patched/src/app.rs:2878-2936 | take, run, and put back or close as the flag of the window says is the specified update of a window; it runs exactly if the slot is filled |
| `Apps.App.CloseWindow` | gpui-pre-patched/src/app.rs:2897-2916 | slot, handle and index entries go, then the observers run |
| `Apps.App.RunOpenWindow` | gpui-pre-patched/src/app.rs:1347-1380 | reserve, build, draw and settle is the specified opening, a request to close included; the result tells whether it succeeded |
| `Apps.RunSession` | gpui-pre-patched/src/app.rs:1158-1177 | a run of the class from the start: nothing left to deliver or release, all code ran in order, everything owed was done exactly once, all told who had to be, one flush an entry, everything dropped was released, and slots and handles are exactly the windows opened and not closed, each slot holding its own window |
| `Actions.TakenAndReturned` | gpui-pre-patched/src/app.rs:2580-2600 | a list taken out and put back in front of what was registered meanwhile loses nothing |
| `Actions.OpLosesNothing` | gpui-pre-patched/src/app.rs:2363-2393 | every operation of a listener keeps all lists: old list followed by what was registered |
| `Actions.DispatchLosesNothing` | gpui-pre-patched/src/app.rs:2578-2623 | after a dispatch every list, the dispatched one included, is the old list followed by what was registered meanwhile, in order: no loss, no duplicate, for any listeners, early stop and nested dispatch of the same action |
| `Actions.CallLosesNothing` | gpui-pre-patched/src/app.rs:2608-2613 | a call loses nothing and is one call of its own dispatch, whatever it dispatches itself |
| `Actions.CallsInReverse` | gpui-pre-patched/src/app.rs:2608-2613 | the bubble phase calls from the last listener on, each once, all but the last leaving propagation on, until one leaves it off or none is left |
| `Actions.DispatchCalls` | gpui-pre-patched/src/app.rs:2578-2623 | a dispatch calls the listeners of its list as it was at the start: all in order to capture, then in reverse to bubble; propagation at the end is up to the last one, and what it was before makes no difference at all |
| `Actions.StopIsLost` | gpui-pre-patched/src/app.rs:2582-2590 | turning propagation off and then dispatching comes to the dispatch alone: the stop is lost, and propagation is on if the listeners of the dispatch do nothing |
| `Actions.OnlyCaptures` | gpui-pre-patched/src/app.rs:2369-2374 | the capture phase calls each listener once and registers nothing |
| `Actions.EveryRegistrationOnce` | gpui-pre-patched/src/app.rs:2363-2377 | from the start, each list holds its registrations, each once and in order |
| `ActionLaws.LastWord` | gpui-pre-patched/src/app.rs:2382-2393 | a script whose last word on propagation is a stop leaves it off, one whose last word is to propagate leaves it on, and one that only registers leaves it as it was |
| `ActionLaws.DispatchHeeds` | gpui-pre-patched/src/app.rs:2578-2623 | a dispatch makes its capture calls and then bubble calls each of which leaves propagation as its listener's script says |
| `ActionLaws.StopEndsDispatch` | gpui-pre-patched/src/app.rs:2608-2613 | a listener whose script ends by stopping is the last one called in its dispatch, with propagation off; after one that ends by propagating, or says nothing, the next is called if there is one |
| `ActionLaws.RegisterAdds` | gpui-pre-patched/src/app.rs:2363-2377 | a registration adds exactly its listener to the end of its list, nothing to the others, and leaves propagation alone |
| `ActionLaws.CallRegisters` | gpui-pre-patched/src/app.rs:2370-2375 | whatever the script of a called listener registers is registered |
| `ActionLaws.CapturesAre` | gpui-pre-patched/src/app.rs:2584-2589 | the capture phase is one call of each listener, in order, with propagation on |
| `ActionLaws.OpIsDone` | gpui-pre-patched/src/app.rs:2363-2623 | a stop turns propagation off and `propagate` turns it on; a dispatch plays out turn by turn: each bubble call comes behind everything that the script of its listener did, and that script was carried out from the state the turn before left |
| `ActionLaws.ScriptIsDone` | gpui-pre-patched/src/app.rs:2370-2375 | every script is carried out operation by operation, nested dispatches included |
| `Actions.Dispatcher.OnAction` | gpui-pre-patched/src/app.rs:2363-2377 | appends exactly the one listener to the list of its type and leaves all other lists as they were |
| `Actions.Dispatcher.Invoke` | gpui-pre-patched/src/app.rs:2370-2375 | a registered listener does nothing in the capture phase and reacts in the bubble phase |
| `Actions.Dispatcher.DispatchGlobalAction` | gpui-pre-patched/src/app.rs:2578-2623 | the in-place dispatch, with its list out of the table meanwhile, is the specified one |
| `Actions.Dispatcher.CallCaptures` | gpui-pre-patched/src/app.rs:2584-2589 | the loop over the held list calls every listener once, in order, and leaves table and propagation as they were |
| `Actions.Dispatcher.CallBubbles` | gpui-pre-patched/src/app.rs:2608-2613 | the reverse loop with early exit makes exactly the calls of the specified bubble phase |
| `Actions.Dispatcher.RunScript` | gpui-pre-patched/src/app.rs:2370-2375 | a listener performs its operations in order |
| `Actions.Run` | gpui-pre-patched/src/app.rs:2363-2377 | over any whole run the table holds every registration once and in order |
| `GlyphSlots.NeverInsideItself` | gpui-pre-patched/src/app.rs:347-370 | no callback runs inside itself, at any depth |
| `GlyphSlots.HolderIsNewest` | gpui-pre-patched/src/app.rs:338-345 | only the newest registration can be in the slot |
| `GlyphSlots.GoneForGood` | gpui-pre-patched/src/app.rs:347-382 | a replaced or removed callback never comes back and is never called again |
| `GlyphSlots.StillTheSame` | gpui-pre-patched/src/app.rs:358-369 | if the registration is current after the call, the callback put back is its own |
| `GlyphSlots.OpsReturn` | gpui-pre-patched/src/app.rs:347-370 | every operation leaves running what was running: deliveries nest |
| `GlyphSlots.OpIsDone` | gpui-pre-patched/src/app.rs:347-381 | a delivery that reaches a callback starts the holder's, which does what it is scripted to do and returns; any other does nothing; a registration becomes the holder, and a dropped subscription leaves none exactly if it is the current one |
| `GlyphSlots.ScriptIsDone` | gpui-pre-patched/src/app.rs:2101-2106 | every script is carried out operation by operation |
| `GlyphSlots.MissingGlyphCallbackSlot.Replace` | gpui-pre-patched/src/app.rs:338-345 | the new callback takes the slot under a registration of its own |
| `GlyphSlots.MissingGlyphCallbackSlot.Invoke` | gpui-pre-patched/src/app.rs:347-370 | the callback runs, as it is scripted to, exactly if one is subscribed that is not already running, and goes back only if it is still current |
| `GlyphSlots.MissingGlyphCallbackSlot.Remove` | gpui-pre-patched/src/app.rs:372-381 | empties the slot exactly for the current registration |
| `GlyphSlots.MissingGlyphCallbackSlot.OnMissingGlyphs` | gpui-pre-patched/src/app.rs:2093-2117 | registering enables reporting |
| `GlyphSlots.MissingGlyphCallbackSlot.DropSubscription` | gpui-pre-patched/src/app.rs:2110-2116 | dropping a stale subscription changes nothing; dropping the current one turns reporting off |
| `GlyphSlots.MissingGlyphCallbackSlot.RunScript` | gpui-pre-patched/src/app.rs:2101-2106 | whatever a callback registers, drops or causes to be delivered, the slot follows the log |
| `GlyphSlots.Run` | gpui-pre-patched/src/app.rs:333-382 | over any run: every operation does what it is bound to, reporting is on exactly when the slot is occupied, and outside calls an occupied slot has its callback |
| `LruCaches.RecencyDistinct` | gpui-pre-patched/examples/image_gallery.rs:169-173 | the list by recency has every key of the trace exactly once |
| `LruCaches.KeysInFront` | gpui-pre-patched/examples/image_gallery.rs:206-213 | in front of a key are exactly the keys used since its last use |
| `LruCaches.HitIffRecentlyUsed` | gpui-pre-patched/examples/image_gallery.rs:195-234 | a key is in the cache exactly if it was requested before and fewer than the capacity of other keys since |
| `LruCaches.SmallerIsPrefix` | gpui-pre-patched/examples/image_gallery.rs:195-234 | inclusion: a smaller cache's contents are a prefix of a larger one's |
| `LruCaches.LargerHitsMore` | gpui-pre-patched/examples/image_gallery.rs:195-234 | every hit at one capacity is a hit at any larger one |
| `LruCaches.TouchIsContents` | gpui-pre-patched/examples/image_gallery.rs:206-233 | the list updated in place is the ideal list cut to the capacity |
| `LruCaches.SimpleLruCache.constructor` | gpui-pre-patched/examples/image_gallery.rs:176-191 | an empty cache |
| `LruCaches.SimpleLruCache.Load` | gpui-pre-patched/examples/image_gallery.rs:195-234 | after any trace the list is exactly the first keys by recency and the map has the same keys, so both assertions hold; a load panics exactly at capacity 0; what is evicted is the least recently used |
| `LruCaches.SimpleLruCache.Refresh` | gpui-pre-patched/examples/image_gallery.rs:206-216 | a hit moves the key to the front |
| `LruCaches.SimpleLruCache.Admit` | gpui-pre-patched/examples/image_gallery.rs:218-233 | a miss admits the item, and a full cache gives up its last one |
| `LruCaches.SimpleLruCache.EvictOldest` | gpui-pre-patched/examples/image_gallery.rs:219-223 | list and map lose the same key |
| `LruCaches.SimpleLruCache.Position` | gpui-pre-patched/examples/image_gallery.rs:207-211 | the key of a cached item is always found |
| `Colors.ChromaIsSpread` | gpui-pre-patched/src/color.rs:682-694 | saturation is chosen so that the chroma is the spread of the channels, for every lightness |
| `Colors.RedHue` | gpui-pre-patched/src/color.rs:698-699 | the hue of a color whose red is highest leads back to its channels, ties and both sectors included |
| `Colors.GreenHue` | gpui-pre-patched/src/color.rs:700-701 | the same for green |
| `Colors.BlueHue` | gpui-pre-patched/src/color.rs:702-703 | the same for blue |
| `Colors.HueLeadsBack` | gpui-pre-patched/src/color.rs:205-213 | in every sector and on every border the hue leads back to the channels |
| `Colors.RoundTrip` | gpui-pre-patched/src/color.rs:677-712 | RGBA to HSLA and back is the identity on all colors with channels in range |
| `Colors.ToHslaCanonical` | gpui-pre-patched/src/color.rs:677-712 | conversion gives canonical HSLA colors only: hue and saturation in range, no hue on grays, no saturation on black and white |
| `Colors.ChannelsLeadBack` | gpui-pre-patched/src/color.rs:194-221 | the hue is recovered from the channels it leads to, in all six sectors |
| `Colors.NoClamping` | gpui-pre-patched/src/color.rs:215-220 | no channel of a canonical color needs clamping |
| `Colors.RoundTripFromHsla` | gpui-pre-patched/src/color.rs:194-221 | HSLA to RGBA and back is the identity on exactly the canonical colors |
| `Colors.AgreesWithCss` | gpui-pre-patched/src/color.rs:194-221 | for every color in range, a full turn of hue included, the conversion gives what the formula of section 7.1 of CSS Color Module Level 4 gives |
| `Colors.SpreadIsSaturation` | gpui-pre-patched/src/color.rs:194-221 | lightness is the middle between largest and smallest channel, which lie saturation times the smaller of lightness and its complement above and below it |
| `Colors.BlendMoves` | gpui-pre-patched/src/color.rs:58-71 | each channel of a blend moves from the color below toward the one on top by the share that its alpha says; the alpha is that of the color below, unless the one on top is opaque |
| `Colors.PaintedTwice` | gpui-pre-patched/src/color.rs:58-71 | painting a color twice, with alpha p and q, is painting it once with p + q - pq |
| `Colors.BlendInCube` | gpui-pre-patched/src/color.rs:58-71 | blending stays in range |
| `Colors.BlendCommutes` | gpui-pre-patched/src/color.rs:580-593 | RGBA of a blend is the blend of the RGBAs, for all HSLA colors, in range or not |
| `Colors.HslaBlendMoves` | gpui-pre-patched/src/color.rs:580-593 | so the RGBA of an HSLA blend moves by the same share; an opaque color replaces, a transparent one changes nothing |
| `Colors.HslaBlendCanonical` | gpui-pre-patched/src/color.rs:580-593 | and a mixed HSLA color is canonical, hence determined by that, and keeps the lower alpha |
| `AssetCaches.PublishesOnce` | gpui-pre-patched/src/asset_cache.rs:36-40 | a load that has not completed shows nothing yet: the `unreachable!` is unreachable |
| `AssetCaches.FinishesOnce` | gpui-pre-patched/src/asset_cache.rs:28-32 | a worker that is still at work has handed over nothing |
| `AssetCaches.ShowsOwnOutput` | gpui-pre-patched/src/asset_cache.rs:32-37 | what is shown is what the load's own worker handed over |
| `AssetCaches.ShownForGood` | gpui-pre-patched/src/asset_cache.rs:51-67 | a visible result never changes, whatever happens later |
| `AssetCaches.GoneForGood` | gpui-pre-patched/src/app.rs:2748-2751 | a removed or replaced load never comes back; its late completion shows nothing and adds no waiting view |
| `AssetCaches.LateCompletionIsHarmless` | gpui-pre-patched/src/asset_cache.rs:33-35 | a late completion of a removed or replaced load changes no entry, no result, no waiting view and gives no notice |
| `AssetCaches.NotifiedExactlyOnce` | gpui-pre-patched/src/asset_cache.rs:38-45 | a view is notified exactly once if it asked while the load was under way and the load was published, and otherwise never |
| `AssetCaches.OpsKeepProper` | gpui-pre-patched/src/app.rs:2769-2780 | under every interleaving and re-entry the log of a run is a proper one |
| `AssetCaches.PublishIsDone` | gpui-pre-patched/src/asset_cache.rs:31-45 | once its worker has finished, a poll of a load that is in the table shows the output, ends its task and notifies exactly the waiting views, each once; a load that is not gives up and its task ends; before that a poll does nothing |
| `AssetCaches.OpIsDone` | gpui-pre-patched/src/app.rs:2748-2780 | every operation does what it is bound to: asking for an asset that is absent runs its load function and enters a load with an open worker and task, a view without a result waits, a removal takes out its key only, a finish hands over the output |
| `AssetCaches.ScriptIsDone` | gpui-pre-patched/src/app.rs:2769-2780 | every script is carried out operation by operation, load functions included |
| `AssetCaches.AskedOrAbsent` | gpui-pre-patched/src/app.rs:2769-2780 | whatever a load function does, it starts loads of an absent asset exactly if it asks for it; otherwise the asset stays absent |
| `AssetCaches.OneLoadPerResidency` | gpui-pre-patched/src/app.rs:2769-2780 | asking starts no load while one is in the table; otherwise it starts exactly one if and only if the load function, in the course of this load, does not ask for the asset it is loading |
| `AssetCaches.AskingForItselfLoadsTwice` | gpui-pre-patched/src/app.rs:2771-2775 | at any time: a load function that asks once for its own asset has that inner load replaced, two loads for one request |
| `AssetCaches.AssetCache.AssetEntry` | gpui-pre-patched/src/app.rs:2769-2780 | afterwards the asset is in the table, under the load found or started |
| `AssetCaches.AssetCache.FetchAsset` | gpui-pre-patched/src/app.rs:2765-2767 | returns what the load in the table shows |
| `AssetCaches.AssetCache.UseAsset` | gpui-pre-patched/src/window.rs:4106-4108 | the same; a view that gets no result is waiting afterwards, and one that gets it changes nothing |
| `AssetCaches.AssetCache.UseBy` | gpui-pre-patched/src/asset_cache.rs:58-67 | the view is added exactly while the load is under way |
| `AssetCaches.AssetCache.Get` | gpui-pre-patched/src/asset_cache.rs:51-56 | what the load shows |
| `AssetCaches.AssetCache.RemoveAsset` | gpui-pre-patched/src/app.rs:2748-2751 | the entry and its state are gone |
| `AssetCaches.AssetCache.Insert` | gpui-pre-patched/src/app.rs:2773-2774 | a new load, replacing one that the load function put there |
| `AssetCaches.AssetCache.PublishLoad` | gpui-pre-patched/src/asset_cache.rs:31-45 | once the worker has finished, completion shows its output and notifies each waiting view, or gives up if the state is gone; its task is over either way |
| `AssetCaches.AssetCache.NotifyAll` | gpui-pre-patched/src/asset_cache.rs:41-44 | each waiting view once, in whatever order |
| `AssetCaches.Run` | gpui-pre-patched/src/app.rs:2748-2780 | over any run every operation does what it is bound to, and the notices given are exactly those the log calls for |
| `TextInputs.Utf8IsShortest` | gpui-pre-patched/examples/input.rs:213-241 | a character takes as few bytes as have room for its code point |
| `TextInputs.Utf16IsShortest` | gpui-pre-patched/examples/input.rs:213-241 | and one code unit of 16 bits if that has room, otherwise two for the 20 bits beyond |
| `TextInputs.RoundTrip` | gpui-pre-patched/examples/input.rs:213-241 | UTF-8 to UTF-16 to UTF-8 is the identity on character boundaries |
| `TextInputs.RoundTripFromUtf16` | gpui-pre-patched/examples/input.rs:213-241 | and UTF-16 to UTF-8 to UTF-16 |
| `TextInputs.FromUtf16Monotone` | gpui-pre-patched/examples/input.rs:213-226 | the map from UTF-16 is monotone |
| `TextInputs.ToUtf16Monotone` | gpui-pre-patched/examples/input.rs:228-241 | the map to UTF-16 is monotone |
| `TextInputs.FromUtf16Reaches` | gpui-pre-patched/examples/input.rs:213-226 | the offset is a boundary at or past the target, or the end |
| `TextInputs.FromUtf16Least` | gpui-pre-patched/examples/input.rs:213-226 | and the least one |
| `TextInputs.SplicedBoundaries` | gpui-pre-patched/examples/input.rs:329-333 | after a replacement both ends of the new text are boundaries, even for a reversed range |
| `TextInputs.ReplaceBack` | gpui-pre-patched/examples/input.rs:329-333 | putting the removed text back over the new text restores the content |
| `TextInputs.SplicedSame` | gpui-pre-patched/examples/input.rs:329-331 | a replacement changes nothing exactly if the new text is the old |
| `TextInputs.TextInput.OffsetFromUtf16` | gpui-pre-patched/examples/input.rs:213-226 | the counting loop gives the least boundary at or past the target: the map that the laws above are about |
| `TextInputs.TextInput.OffsetToUtf16` | gpui-pre-patched/examples/input.rs:228-241 | the counting loop in the other direction, inverse on boundaries |
| `TextInputs.TextInput.RangeFromUtf16` | gpui-pre-patched/examples/input.rs:247-249 | ends on boundaries, in order if the range was |
| `TextInputs.TextInput.PreviousBoundary` | gpui-pre-patched/examples/input.rs:251-257 | the last grapheme start before the offset, or 0 |
| `TextInputs.TextInput.NextBoundary` | gpui-pre-patched/examples/input.rs:259-264 | the first grapheme start after the offset, or the end |
| `TextInputs.TextInput.MoveTo` | gpui-pre-patched/examples/input.rs:169-172 | an empty selection at a boundary |
| `TextInputs.TextInput.SelectTo` | gpui-pre-patched/examples/input.rs:200-211 | the cursor is where it was sent and the anchor where it was: the selection is the stretch between them, reversed exactly if the cursor is in front; it stays ordered, in range and on boundaries |
| `TextInputs.TextInput.Left` | gpui-pre-patched/examples/input.rs:52-58 | one grapheme back, or to the start of the selection |
| `TextInputs.TextInput.Right` | gpui-pre-patched/examples/input.rs:60-66 | one grapheme on, or to the end of the selection |
| `TextInputs.TextInput.SelectLeft` | gpui-pre-patched/examples/input.rs:68-70 | the cursor goes one grapheme back, the anchor stays |
| `TextInputs.TextInput.SelectRight` | gpui-pre-patched/examples/input.rs:72-74 | the cursor goes one grapheme on, the anchor stays |
| `TextInputs.TextInput.SelectAll` | gpui-pre-patched/examples/input.rs:76-79 | everything is selected |
| `TextInputs.TextInput.Home` | gpui-pre-patched/examples/input.rs:81-83 | the cursor is at the start |
| `TextInputs.TextInput.End` | gpui-pre-patched/examples/input.rs:85-87 | the cursor is at the end |
| `TextInputs.TextInput.OnMouseDown` | gpui-pre-patched/examples/input.rs:113-126 | the cursor is under the mouse; with shift the anchor stays |
| `TextInputs.TextInput.OnMouseMove` | gpui-pre-patched/examples/input.rs:132-136 | only while selecting does the cursor follow |
| `TextInputs.TextInput.Backspace` | gpui-pre-patched/examples/input.rs:89-99 | the bell rings exactly at the start with nothing selected; otherwise marked text, selection or the grapheme before is deleted |
| `TextInputs.TextInput.Delete` | gpui-pre-patched/examples/input.rs:101-111 | the same at the end and for the grapheme after |
| `TextInputs.TextInput.Copy` | gpui-pre-patched/examples/input.rs:153-159 | the selected text, if there is some |
| `TextInputs.TextInput.Cut` | gpui-pre-patched/examples/input.rs:160-167 | copies the selection, but deletes the marked text if there is some |
| `TextInputs.TextInput.Paste` | gpui-pre-patched/examples/input.rs:147-151 | replaces marked text or selection by the clipboard on one line |
| `TextInputs.CutThenPaste` | gpui-pre-patched/examples/input.rs:147-167 | cut and paste restore the content exactly if what was to go is the cut text on one line |
| `TextInputs.CutDeletesMarked` | gpui-pre-patched/examples/input.rs:160-167 | with "b" marked and "c" selected in "abc", cutting copies "c" and leaves "ac" |
| `TextInputs.OnOneLine` | gpui-pre-patched/examples/input.rs:147-151 | pasting keeps a text exactly if it has no line break |
| `TextInputs.TextInput.ReplaceTextInRange` | gpui-pre-patched/examples/input.rs:316-335 | the text before and after the range is kept, the cursor is behind the new text, and the selection is valid, for every range |
| `TextInputs.TextInput.ReplaceAndMarkTextInRange` | gpui-pre-patched/examples/input.rs:337-366 | the new text is in place and is what is marked; without a selection asked for, the cursor is behind it |
| `TextInputs.TextInput.SelectReplacement` | gpui-pre-patched/examples/input.rs:359-364 | the selection asked for is read off the whole new content and moved by the two ends of the replaced range |
| `TextInputs.TextInput.MarkReplacement` | gpui-pre-patched/examples/input.rs:349-358 | the new text is in place, and it is what is marked |
| `TextInputs.LandsExactly` | gpui-pre-patched/examples/input.rs:359-363 | for one call: the selection asked for results exactly if text and selection are such that reading them behind what is in front makes no difference, end and start of the range considered |
| `TextInputs.PlainLandsAtCaret` | gpui-pre-patched/examples/input.rs:359-363 | so it results at a caret when the new text and what is in front are plain ASCII |
| `TextInputs.NewSelectionExactly` | gpui-pre-patched/examples/input.rs:359-363 | for a given content and range: it results for all texts and selections exactly if the range is the empty one at the start |
| `TextInputs.NewSelectionValidExactly` | gpui-pre-patched/examples/input.rs:359-363 | and exactly then the result is a valid selection of the new content for all of them |
| `TextInputs.NewSelectionOutside` | gpui-pre-patched/examples/input.rs:359-363 | marking "x" over all of "ab" with the cursor behind it gives a selection that ends past the content |
| `TextInputs.TextInput.TextForRange` | gpui-pre-patched/examples/input.rs:278-288 | the text of the rounded range; none (a panic) if the range is reversed |
| `TextInputs.TextInput.SelectedTextRange` | gpui-pre-patched/examples/input.rs:290-300 | the selection in UTF-16 offsets, from which it can be read back |
| `TextInputs.TextInput.Reset` | gpui-pre-patched/examples/input.rs:266-274 | an empty field |

## Left out

- Floating-point rounding: coordinates and channels are exact reals, so box equality and the color round trip are claims about exact arithmetic; not-a-number inputs are not modelled.
- RTree.GrowKeepsSnug: exact only over reals, because the union is rebuilt from origin plus difference of corners.
- 32-bit orders: orders are unbounded; `OrderAtMostInserts` shows when 32 bits suffice.
- The unused slots of the fixed child array, and the search stack of pointers, which is modelled as a stack of indices.
- Arenas.Arena.Alloc: does not model a panicking initializer, `ArenaBox::map`, or `align_offset` giving up with the largest address; running out of system memory is an outcome instead of an abort.
- AppLaws.MissedExactly: does not model the unwinding of the failed `expect`; the run goes on, and the window is recorded as missed.
- AppRuns.AfterRelease: releases dropped entities one by one instead of in batches.
- `App::shutdown`, which flushes without marking the flush and clears windows without cleaning the index: the invariants are for runs without it.
- Handlers as sets with deferred activation (`SubscriberSet`), entity storage and entity leases; an effect's handlers are whatever the run says.
- Drawing, which clears the marks on windows and views: `dirty` and `refreshing` are all that was marked so far.
- `ensure_window`, which gives an entity that has no current window one when it starts observing: `CurrentIsLast` is for runs without it.
- Focus handles, scheduling of frames and the extra drawing of dirty windows in test mode at the end of a flush.
- The identity of window invalidators: an invalidator is its window's id.
- Quitting when the last window is closed, and ending a platform drag.
- Which of the active window and the application an action is dispatched to, and dispatch along the element tree.
- Dropping what a replaced callback or listener has captured, which may itself run user code.
- Queueing and deduplication of missing-glyph reports before delivery.
- Hash collisions of asset keys and image keys; loading, decoding and dropping of images.
- Cancellation of background work: a worker may always finish late, which includes every case that cancellation allows.
- Grapheme segmentation: any list of boundaries in order; mouse positions arrive as boundaries of the content.
- TextInputs.TextInput.ReplaceAndMarkTextInRange: promises no valid selection when one is asked for explicitly, because the code gives none; `NewSelectionValidExactly` and `LandsExactly` say when.
- Painting of the text field and `bounds_for_range`, `character_index_for_point`.
- The window tab controller, drag hand-off, hex colors, lengths, and the other color helpers: easy members only.
- The audio engine, build scripts and the other examples.
