# snabbdom's patch engine, modelled in Dafny

This project models the core of snabbdom's virtual-DOM engine, `src/init.ts`. `init(modules,
domApi)` builds a per-phase table of module callbacks and returns `patch(oldVnode, vnode)`.
`patch` brings a host document in line with a new virtual node tree. It does this with the
identity test `sameVnode`, the subtree builder `createElm` (including its selector parse),
`addVnodes`, the destroy cascade `invokeDestroyHook`, `removeVnodes` with the removal countdown
of `createRmCb`, the keyed children reconciliation `updateChildren` and the single-node patcher
`patchVnode`.

The model has two layers:

- **Specification functions on values.** A vnode is a datatype (`VNodes.VNode`). The host
  document is a datatype (`HostTree.Doc`: nodes, child lists, parent links, next free id) with
  one total function per DOM call. The state threaded through a patch is `Machine.St`: the
  document, the trace of every hook call (`Events.Event`) and `insertedVnodeQueue`.
  `Creation`, `Teardown` and `Reconcile` give each routine of `init.ts` as a function from the
  state before to the state after. `updateChildren`'s loop is a value `Reconcile.Loop` holding
  all of its variables, the four cached vnodes and the lazily built key map included.
  `Reconcile.Step` is one iteration, branch by branch in the source's order.
- **The imperative engine.** `Engine.Engine` is a class with the host (`HostTree.Host`, a class
  whose methods are the DOM adapter calls), the hook table, the trace and the insert queue. Its
  methods follow the source's loops: `for` over hook lists, over children and over index
  ranges, and a `while` loop with four cursors. The loop writes tombstones into an `array` of old
  children in place. The removal callback is a class `Removal.RemoveCountdown` with a mutable
  counter. Each method ensures that the new state is the specification function applied to the
  old state. The properties below are proved about those functions; what is not covered is
  listed under "## Left out".

Hooks and module callbacks run arbitrary user code, which the model replaces by trace events. A
`remove` callback carries a flag that says whether it calls the completion callback before
returning.

The deepest result is `Order.UpdateChildrenOrder`. It covers a parent whose host children are
the old children's host nodes, in order. After `updateChildren`, that parent's host children
are exactly the host nodes of the new children, in the order of the new array, and every new
slot is bound. The theorem assumes leaf children, sibling keys that the lookup pairs at most once,
and synchronous removal. The loop invariant (`Order.Inv`) splits the parent's child list into
the placed front, the old window still to visit and the placed back. Each branch of the loop is
proved to keep it.

`Integrity` proves that every routine keeps the host document well formed (child lists and parent
links agree, no list repeats a node, ids stay below the next free one) through the full
recursion of patchVnode and updateChildren. `Scenarios` follows updateChildren step by step on
four concrete lists: a keyed reorder that reuses every host node, an insertion that creates one
node between two kept ones, a removal that takes one node out from between two kept ones, and a
null slot that puts a new node out of order.

## Model

| member | source | states |
|---|---|---|
| VNodes.SameVnodeIsIdentity | src/init.ts:20-26 | sameVnode holds exactly when `sel`, `key` and `data.is` agree; children, text, the host node and the rest of `data` do not matter |
| Reconcile.OldVnode | src/init.ts:498-503 | the vnode patch works from always passes isVnode: a given vnode as is, or, for a live element, a key-less vnode bound to that element with an empty children array |
| HookTable.BuildTable | src/init.ts:73-95 | the nested loops leave, for each of the six phases, exactly the positions of the modules defining that callback, in module order |
| HookTable.PhaseListExact | src/init.ts:86-95 | a phase's list holds a module index exactly when that module defines the phase, strictly increasing and within the module list |
| Engine.Engine.constructor | src/init.ts:72-95 | init builds the table from the modules (the table equals the per-phase lists) and starts with no hook calls and an empty queue |
| KeyMap.CreateKeyToOldIdx | src/init.ts:42-55 | the loop over `beginIdx..endIdx` (both included) yields the key map `KeyIdx` of that slice, out-of-range slots reading as undefined |
| KeyMap.KeyIdxSpec | src/init.ts:42-55 | every entry lies in the slice and points at a non-null child carrying that key; every defined key of the slice is present, at or after each of its occurrences; keys no child carries are absent |
| KeyMap.LastOccurrenceWins | src/init.ts:48-53 | for a repeated key the map holds the highest index carrying it |
| KeyMap.KeyIdxLocal | src/init.ts:48-53 | the map depends only on the keys of the slots inside the slice |
| Selector.IndexOf | src/init.ts:154-155 | JavaScript `indexOf(c, from)`: -1 or the first index at or after `from` (a negative start counts from 0) holding `c` |
| Selector.ParseSelector | src/init.ts:154-178 | the tag is a prefix of the selector, and is the whole selector when it has no `#` and no `.`; the id and the class list hold no `.` |
| Selector.ParseSelectorOf | src/init.ts:154-178 | parsing `tag#id.c1.c2` gives back the tag, the id only when there is one, and the classes with `.` replaced by spaces only when there are any |
| Selector.ParseQuirks | src/init.ts:154-165 | the source's quirks are kept: `div.a#b` has tag `div.a` and id `b`; a leading `#` is not an id marker, so `#x.c` has tag `#x` and class `c` |
| Reconcile.EmptyNodeAtRoundTrip | src/init.ts:98-115 | an element created for `tag#id.classes` and read back by emptyNodeAt yields the same selector |
| Removal.FiredExactlyOnce | src/init.ts:118-125 | a countdown started at `listeners` detaches on exactly one call, the `listeners`-th; a countdown started below one never detaches |
| Removal.RemoveCountdown.constructor | src/init.ts:118 | the shared callback starts with the given count and no calls |
| Removal.RemoveCountdown.Call | src/init.ts:119-124 | one call lowers the count by one; the call that reaches zero removes the node from its current parent, and any other call leaves the document alone |
| Teardown.CallbackCount | src/init.ts:264 | at most one synchronous call per module remove callback, and exactly one each when all of them call back |
| Teardown.RemoveOne | src/init.ts:258-277 | one slot of removeVnodes appends to the trace and changes neither the queue nor the id counter |
| Teardown.RemoveDetachesIff | src/init.ts:259-272 | an element leaves its parent during removeVnodes exactly when every module remove callback calls back and its own remove hook is absent or calls back; otherwise the document is unchanged |
| Teardown.NoHooksRemoveAtOnce | src/init.ts:262-272 | with no module remove callbacks and no remove hook, removeVnodes' own call to `rm` detaches the node at once |
| Teardown.TextRemovedDirectly | src/init.ts:273-276 | a text vnode is removed from the given parent directly; no hook runs |
| Teardown.RemoveVnodes | src/init.ts:249-279 | removing a slot range only appends to the trace and changes neither the queue nor the id counter |
| Teardown.RemoveOneTrace | src/init.ts:259-272 | one slot records its destroy cascade, then each module remove callback, then its own remove hook |
| Teardown.RemoveVnodesTrace | src/init.ts:255-278 | removeVnodes records the removal events of the slots in index order |
| Teardown.RemoveVnodesWf | src/init.ts:249-279 | removal keeps the host document well formed |
| Events.DestroyIsPreOrder | src/init.ts:231-246 | the destroy cascade is a pre-order walk: each reached node's own destroy hook and module destroy callbacks, then its children in order; a node without data is skipped with its subtree |
| Events.PreOrderHasData | src/init.ts:232-233 | every node the cascade reaches has data |
| Events.InsertQueueIsPostOrder | src/init.ts:184-205 | createElm queues the tree's elements that have an insert hook in post-order, children before their parent |
| Engine.Engine.InvokeDestroyHook | src/init.ts:231-246 | the recursive method appends exactly the cascade's events to the trace |
| Engine.Engine.CallModules | src/init.ts:181 | the loop over a phase's callbacks appends one call per module in the table, in order |
| Engine.Engine.CallHook | src/init.ts:200 | an optional per-node hook is recorded exactly when present |
| Creation.Create | src/init.ts:128-211 | createElm binds the vnode to the next free host id and only appends to the trace and the queue |
| Creation.CreateElement | src/init.ts:149-205 | the element branch binds the vnode to the next free id |
| Creation.ElementContent | src/init.ts:184-194 | the content of a new element is bound to that element |
| Creation.CreateChildren | src/init.ts:184-190 | the children loop returns one slot per child slot visited |
| Creation.CreateChildrenBinds | src/init.ts:184-190 | the children loop leaves a slot null exactly when the child slot is null, binds every other slot to a host node created during the loop, and the ids increase from slot to slot |
| Creation.CreateRecords | src/init.ts:128-211 | createElm records `init`, then for an element the module create callbacks, the children's events and the node's create hook; it queues the tree's insert-hooked elements |
| Creation.ElementRecords | src/init.ts:149-205 | the element branch records the module create callbacks before the children and its own create hook after them |
| Creation.NewElementDocIs | src/init.ts:154-178 | the new element carries the parsed tag, the namespace, and the `id` and `class` attributes the parse yields |
| Creation.CreateRenders | src/init.ts:128-211 | createElm builds a fresh, detached host tree that mirrors the vnode tree node for node, with a comment's missing text read as "" |
| Creation.CreateWf | src/init.ts:128-211 | createElm keeps the host document well formed |
| Creation.AddVnodes | src/init.ts:214-228 | addVnodes binds exactly the non-null slots of the range and leaves the slots outside it untouched |
| Engine.Engine.CreateElm | src/init.ts:128-211 | the imperative createElm leaves the state and returns the vnode that Creation.Create gives |
| Engine.Engine.CreateElement | src/init.ts:149-205 | the element branch, with the selector parse and the attributes, is Creation.CreateElement |
| Engine.Engine.CreateChildren | src/init.ts:184-190 | the children loop is Creation.CreateChildren |
| Engine.Engine.AddVnodes | src/init.ts:214-228 | the loop over `startIdx..endIdx` writes into the array what Creation.AddVnodes gives |
| Engine.Engine.RemoveVnodes | src/init.ts:249-279 | the loop over `startIdx..endIdx` is Teardown.RemoveVnodes |
| Engine.Engine.RemoveOne | src/init.ts:258-277 | one slot is Teardown.RemoveOne |
| Engine.Engine.RemoveHooks | src/init.ts:262-272 | a fresh countdown of `cbs.remove.length + 1`, the module remove callbacks, then the node's remove hook or a direct call; the node is detached exactly when the countdown fires |
| Engine.Engine.RemoveModules | src/init.ts:264 | each module remove callback is recorded and calls the countdown when it calls back; the document does not change |
| Reconcile.Step | src/init.ts:302-400 | every iteration keeps the cursors in bounds, visits at least one slot (the measure `(oe-os+1)+(ne-ns+1)` drops), keeps a key map once built, only tombstones old slots, and only appends to the state |
| Reconcile.PatchStarts | src/init.ts:319-323 | the starts branch advances and keeps the loop's shape |
| Reconcile.PatchEnds | src/init.ts:325-329 | the ends branch advances and keeps the loop's shape |
| Reconcile.MovedRight | src/init.ts:331-350 | the moved-right branch advances and keeps the loop's shape |
| Reconcile.MovedLeft | src/init.ts:351-359 | the moved-left branch advances and keeps the loop's shape |
| Reconcile.Keyed | src/init.ts:362-400 | the keyed branch advances the new start only, builds the key map only when there is none yet, and otherwise keeps it |
| Reconcile.KeyedNew | src/init.ts:371-389 | creating a new node leaves the old children untouched |
| Reconcile.KeyedFound | src/init.ts:391-396 | reusing an old child tombstones exactly its slot |
| Reconcile.Run | src/init.ts:302-401 | the loop stops with one window exhausted, the shape kept, the key map kept once built and old slots only tombstoned |
| Reconcile.Leftovers | src/init.ts:403-417 | the step after the loop returns the new array, its length kept, and only appends to the state |
| Reconcile.UpdateChildren | src/init.ts:282-418 | updateChildren returns the new children array, its length kept, and only appends to the state |
| Reconcile.KeyedMap | src/init.ts:365-367 | the key map built on first use maps each key of the old window to the last old index in the window that carries it |
| Reconcile.KeyedMoves | src/init.ts:380-396 | an old child found by key with the same selector is patched, its slot tombstoned, its host node reused by the new vnode and moved before the old start's host node |
| Reconcile.KeyedCreates | src/init.ts:371-389 | otherwise the new vnode gets the next free host node, inserted before the old start's host node, and the old children stay as they are |
| Reconcile.StepReusesHost | src/init.ts:319-359 | in each of the four matching branches the patched vnode stored in the new slot is the new vnode bound to the matched old vnode's host node, and the cursors move as the branch says (both starts, both ends, old start and new end, old end and new start); with no match, only the new start advances |
| Reconcile.PatchContent | src/init.ts:458-483 | the content branches keep the vnode bound to the old host node and keep whether it has a children array and how many slots |
| Reconcile.PatchVnode | src/init.ts:422-486 | patchVnode always binds the new vnode to the old vnode's host node and only appends to the state |
| Reconcile.PatchSelf | src/init.ts:427-438 | patching a vnode with itself records `prepatch` only: no update hook, no host call, no `postpatch` |
| Reconcile.PatchVnodeHookOrder | src/init.ts:427-486 | otherwise `prepatch`, then the module update callbacks and the update hook when there is data, come first, and `postpatch`, when present, is the last call |
| Reconcile.PatchEqualText | src/init.ts:477-483 | a new text equal to the old one leaves the host document unchanged |
| Reconcile.PatchNewText | src/init.ts:477-483 | a new text that differs removes the old children first and then sets the text |
| Reconcile.PatchHookOrder | src/init.ts:488-537 | patch starts with the module pre callbacks and ends with the queued insert hooks followed by the module post callbacks |
| Reconcile.ReplaceRecords | src/init.ts:511-526 | replacing records the new tree's creation and then, when the old host node has a parent, the old vnode's removal; the queue holds the new tree's insert-hooked elements |
| Reconcile.PatchReplaces | src/init.ts:488-537 | for a vnode that is not the same as the old one, the whole trace of patch: pre, creation, removal, the insert hooks in post-order, post |
| Engine.Engine.UpdateChildren | src/init.ts:282-418 | the while loop over four cursors, tombstoning the old array in place, then the leftovers, is Reconcile.UpdateChildren |
| Engine.Engine.Leftovers | src/init.ts:403-417 | the bulk insert or bulk removal after the loop is Reconcile.Leftovers |
| Engine.Engine.Step | src/init.ts:302-400 | one iteration of the loop is Reconcile.Step |
| Engine.Engine.StepStarts | src/init.ts:319-323 | the starts branch is Reconcile.Step in that case |
| Engine.Engine.StepEnds | src/init.ts:325-329 | the ends branch is Reconcile.Step in that case |
| Engine.Engine.StepRight | src/init.ts:331-350 | the moved-right branch is Reconcile.Step in that case |
| Engine.Engine.StepLeft | src/init.ts:351-359 | the moved-left branch is Reconcile.Step in that case |
| Engine.Engine.Keyed | src/init.ts:362-400 | the keyed branch, building the key map with CreateKeyToOldIdx on first use, is Reconcile.Keyed |
| Engine.Engine.KeyedCreate | src/init.ts:371-389 | the create case is Reconcile.Keyed in that case |
| Engine.Engine.KeyedMove | src/init.ts:390-396 | the reuse case, writing the tombstone into the old array, is Reconcile.Keyed in that case |
| Engine.Engine.PatchInto | src/init.ts:320 | patching and storing the patched vnode in the new array |
| Engine.Engine.PatchMovedRight | src/init.ts:341-348 | patching, then `insertBefore(parent, old.elm, nextSibling(oldEnd.elm))` |
| Engine.Engine.PatchMovedLeft | src/init.ts:355-356 | patching, then `insertBefore(parent, oldEnd.elm, oldStart.elm)` |
| Engine.Engine.CreateBefore | src/init.ts:373-377 | creating the new vnode's tree and inserting it before the old start's host node |
| Engine.Engine.PatchMoved | src/init.ts:392-395 | patching, tombstoning the old slot, then moving the host node |
| Engine.Engine.PatchContent | src/init.ts:458-483 | the content branches are Reconcile.PatchContent |
| Engine.Engine.PatchVnode | src/init.ts:422-486 | patchVnode is Reconcile.PatchVnode |
| Engine.Engine.Replace | src/init.ts:511-526 | the patch-or-replace step is Reconcile.Replace |
| Engine.Engine.InvokeInsertHooks | src/init.ts:528-530 | the loop over the queue records one insert hook per queued vnode, in order |
| Engine.Engine.Patch | src/init.ts:488-537 | patch is Reconcile.Patch |
| Order.StartInv | src/init.ts:289-296 | before the first iteration, the parent's child list is the layout front + old window + back |
| Order.SkipStartKeeps | src/init.ts:303-305 | skipping a null old start keeps the layout invariant |
| Order.SkipEndKeeps | src/init.ts:306-308 | skipping a null old end keeps the layout invariant |
| Order.StartsKeeps | src/init.ts:319-323 | the starts branch keeps the layout invariant: the old start's host node becomes the last of the placed front |
| Order.EndsKeeps | src/init.ts:325-329 | the ends branch keeps the layout invariant: the old end's host node becomes the first of the placed back |
| Order.MovedRightKeeps | src/init.ts:331-350 | the moved-right branch keeps the layout invariant: moving before the old end's next sibling puts the node at the head of the placed back |
| Order.MovedLeftKeeps | src/init.ts:351-359 | the moved-left branch keeps the layout invariant: moving before the old start puts the node at the end of the placed front |
| Order.FreshMapOk | src/init.ts:365-367 | a key map built from the current window is consistent with the old children |
| Order.FoundInside | src/init.ts:369-394 | an old child found by key, when neither cached old vnode matched, lies strictly inside the old window |
| Order.KeyedNewKeeps | src/init.ts:371-389 | inserting a created node before the old start keeps the layout invariant |
| Order.KeyedFoundKeeps | src/init.ts:390-396 | moving a reused node before the old start and tombstoning its slot keeps the layout invariant |
| Order.KeyedKeeps | src/init.ts:362-400 | the keyed branch keeps the layout invariant |
| Order.StepKeeps | src/init.ts:302-400 | every iteration keeps the layout invariant |
| Order.RunKeeps | src/init.ts:302-401 | the whole loop keeps the layout invariant |
| Order.AddLeaves | src/init.ts:214-228 | addVnodes of renderable vnodes, inserted before the head of the parent's suffix, puts their new host nodes, in slot order, between the prefix and that suffix |
| Order.RemoveLeaves | src/init.ts:249-279 | removeVnodes of bound vnodes whose removal is synchronous takes their host nodes out of the parent's list and keeps the rest in order |
| Order.AddLeftovers | src/init.ts:404-413 | when the old window is exhausted, the new nodes left over land between the placed front and the placed back |
| Order.RemoveLeftovers | src/init.ts:414-416 | when the new window is exhausted, the old nodes left over leave the parent |
| Order.NoLeftovers | src/init.ts:403 | when both windows are exhausted, the parent's list is already the new children's host nodes |
| Order.UpdateChildrenOrder | src/init.ts:282-418 | after updateChildren, the parent's host children are exactly the new children's host nodes, in order, and every new slot is bound |
| Order.MoveLaterDoc | src/init.ts:341-348 | `insertBefore(p, x, ref)` with `ref` the head of the part after `x` and a run `b`, or null when that part is empty, moves `x` behind `b` and keeps every other child in place |
| Order.RightTailDoc | src/init.ts:331-350 | in the moved-right branch the old start's host node lands directly after the old end's host node, the nodes in between moving up by one |
| Order.MovedLeftDoc | src/init.ts:351-359 | in the moved-left branch the old end's host node lands directly before the old start's host node, the nodes in between moving down by one |
| Order.NewBeforeDoc | src/init.ts:373-389 | a freshly created, detached node inserted before a child `r` lands directly before `r`; the other children keep their order |
| Order.FoundFrontDoc | src/init.ts:390-396 | a node reused by key moves from inside the old window to directly before the old start's host node; the rest of the window keeps its order |
| Order.InsertAfterDoc | src/init.ts:522 | inserting a detached node before the next sibling of `e` puts it directly after `e`, at the end when `e` is last |
| Order.ReplaceInserts | src/init.ts:513-522 | when the root is replaced, the new root's fresh host node is inserted right after the old root's host node in the same parent, so that for a moment both are children of it |
| Order.ReplaceRemoves | src/init.ts:524 | removing the old root vnode, when its removal is synchronous, takes exactly its host node out of the parent and keeps the rest in order |
| Order.ReplaceDoc | src/init.ts:513-526 | replacing a root whose host node sits in an element `q` (that element is what `parentNode` returns): the new root's fresh host node takes the old one's position in `q`'s child list and every other child of `q` stays where it was |
| Integrity.AddVnodesWf | src/init.ts:214-228 | addVnodes keeps the host document well formed |
| Integrity.PatchVnodeWf | src/init.ts:422-486 | patchVnode, through every content branch and nested updateChildren, keeps the host document well formed |
| Integrity.PatchContentWf | src/init.ts:458-483 | the content branches keep the host document well formed |
| Integrity.UpdateChildrenWf | src/init.ts:282-418 | updateChildren keeps the host document well formed, whatever the children's depth |
| Integrity.RunWf | src/init.ts:302-401 | the loop keeps the host document well formed |
| Integrity.StepWf | src/init.ts:302-400 | each iteration, whichever branch it takes, keeps the host document well formed |
| Integrity.KeyedWf | src/init.ts:362-400 | the keyed branch, creating or reusing, keeps the host document well formed |
| Integrity.LeftoversWf | src/init.ts:403-417 | the leftover insertion or removal keeps the host document well formed |
| Integrity.ReplaceWf | src/init.ts:511-526 | patching or replacing the root keeps the host document well formed |
| Integrity.PatchWf | src/init.ts:488-537 | a whole `patch` keeps the host document well formed |
| Scenarios.PatchLi | src/init.ts:422-486 | patching a rendered keyed item with no hooks, text or children by its new version calls only the module update callbacks and leaves the document as it is |
| Scenarios.KeyedRotation | src/init.ts:282-418 | rendering keyed children [a, b, c] as [c, a, b]: each new child keeps its key's old host node, the parent's child list becomes [c, a, b] with the same multiset of nodes, no host node is created (the id counter and the queue are unchanged), and the only calls are the module update callbacks of c, a, b |
| Scenarios.CreateLi | src/init.ts:128-211 | rendering a new keyed item with no hooks, text or children creates exactly one host element, binds the item to it, calls only the module create callbacks on it and queues nothing |
| Scenarios.PureInsertion | src/init.ts:282-418 | rendering keyed children [a, b] as [a, x, b]: a and b keep their host nodes, x is bound to the one new host node, which goes between theirs, the id counter grows by exactly one, and the calls are the module update callbacks of a and b, then the module create callbacks of the new node |
| Scenarios.PureRemoval | src/init.ts:282-418 | rendering keyed children [a, b, c] as [a, c] when removal completes synchronously: a and c keep their host nodes, b's node leaves the parent, nothing is created or queued, and the calls are the module update callbacks of a and c, then b's destroy and remove events |
| Scenarios.NullSlotAppends | src/init.ts:403-413 | old children [c, a], new children [a, b, null, c]: a and c keep their host nodes, b gets a fresh one, and the parent ends with a, c, b: the null slot after b makes `before` null, so b's node is appended instead of going before c's |

## Left out

- The `console.log` calls (src/init.ts:288, 489, 505, 510, 535) are output with no effect on behaviour.
- The concrete `htmlDomApi` and the browser DOM are not part of this model. `HostTree.Host` stands in for the DOM adapter. Most calls the DOM would reject with an exception (unknown nodes, a node inserted under itself, a reference node that is not a child, removing a non-child) leave the model's document unchanged instead of throwing.
- HostTree.CanInsert: two of the DOM's `insertBefore` rejections are not checked. Inserting an ancestor of the parent throws `HierarchyRequestError` in the DOM, while the model links a cycle. Inserting under a text or comment node throws too, while the model gives that node a child.
- `./vnode`, `./is` and `./modules/module` are not part of this model. `VNodes.VNode` is the vnode, and `is.array`/`is.primitive` become the `Children` and `Option` cases.
- Hook and module code is opaque. Each call is a trace event, and `removeCallsBack` says whether a remove callback calls its completion callback synchronously. The model does not cover asynchronous completion later on, an `init` hook that rewrites `data` (src/init.ts:133-136), or a hook that calls `patch` re-entrantly.
- Reference equality (`oldVnode === vnode` at src/init.ts:438, `oldCh !== ch` at src/init.ts:462) is modelled as structural equality of values. Vnodes are values, so the model has no aliasing between vnodes or between their children arrays. The engine copies children into fresh arrays and requires the old and new arrays to be distinct. One consequence is lost: when a new children array holds the very same, already bound child vnodes as the old one, the source still calls updateChildren, since the arrays are different objects, so each child is patched against itself and its `prepatch` hook fires before patchVnode returns at src/init.ts:438. The model's structural test `o.children != v.children` (`Reconcile.PatchContent`) finds them equal and skips the call, so those events are missing from its trace.
- `toLowerCase` is modelled on ASCII letters only (`Selector.LowerAscii`). `emptyNodeAt` reads the tag, the `id` and the `class` attribute from the model's host element.
- Reconcile.Patch: a value passed to `patch` as the old argument whose `sel` is undefined is taken by the source for a DOM element. The model requires the old argument to be either a vnode with a selector or an element of the document (`Reconcile.Patchable`).
- Creation.Create: an element vnode without `data` would make the source throw at `vnode.data!.hook` (src/init.ts:196). The model treats it as having no hooks. The rendering lemmas assume elements carry data (`VNodes.Renderable`).
- Creation.Create: a text vnode whose text is undefined becomes a text node holding "undefined", as `createTextNode(undefined)` does.
- Reconcile.Keyed: when the key map points at a slot already tombstoned, the source reads `.sel` of undefined and throws (src/init.ts:381-383). The model creates a new node instead, as for a missing key.
- Reconcile.Lookup: an undefined key is looked up as the string "undefined", as the source's coercion does. Keys that collide with properties of `Object.prototype` are not modelled.
- Order.UpdateChildrenOrder: the order theorem covers only these lists:
  - the old children are null or leaves bound to the parent's host children, in order;
  - the new children are non-null leaves;
  - an old and a new child with the same key and selector are sameVnode;
  - each old key is looked up by at most one new child;
  - every old element's removal is synchronous.
  Nested children are patched by the same functions and are covered by the well-formedness lemmas (`Integrity.PatchVnodeWf` and its companions), but not by the ordering proof. A frame for the nested case would need an invariant on the whole subtree: every old vnode's children bound, in order, to its host node's child list. Each patchVnode would have to re-establish it for the subtree below the patched node, which is the ordering theorem applied recursively. That proof is not part of this model.
  With a null new slot just after the new window, `before` becomes null at src/init.ts:405, so the leftover nodes are appended after the placed back. The theorem's hypotheses exclude that case; `Scenarios.NullSlotAppends` shows it on a concrete list.
  Pure insertion and pure removal have no general lemma either. `Scenarios.PureInsertion` and `Scenarios.PureRemoval` prove one concrete list each.
- Integer widths do not arise: indices and counters are unbounded integers, and the source uses JavaScript numbers far below 2^53.
