# snabbdom core, modelled in Dafny

This project models the core of snabbdom, a virtual-DOM library. It covers
the `vnode` record constructor, the hyperscript helper `h`, and the patching
engine that `init` returns. The engine is made of `createElm`, `addVnodes`,
`removeVnodes` with its deferred removal callbacks, `invokeDestroyHook`,
the keyed children diff `updateChildren`, `patchVnode` and `patch`.

How the model is built:

- Virtual nodes are values: the datatype `VNodes.VNode` has a selector,
  data, a child list with nullable slots, text, a sink handle and a key.
- The DOM is replaced by the class `Dom.Sink`. A sink holds, for every
  handle, its child list, its parent, its kind (element with tag and
  namespace, text or comment), its text content and its attributes.
- The engine is the class `Snabbdom.Engine`. It holds the sink, the module
  hook lists assembled by `init`, a trace of every hook call made so far,
  and every removal callback handed out so far.
- The imperative parts of the source stay imperative: the engine's methods
  change the sink through its methods, and loops become `while` loops with
  invariants.
- Each method is specified against value-level predicates, and the
  properties of those predicates are proved as lemmas:
  - `Mounted`: the sink holds a tree's nodes, their kinds and their child
    lists;
  - `Texts.Shows`: every text of a tree is on show in the sink. A text or
    comment node holds its text. An element with text has exactly one
    text child that holds it, or no child when the text is empty.
    `Texts.TextsKept` says which nodes' texts a call may change;
  - `Patched`: a node was patched in place;
  - `DiffDone`: the parent's children after the diff;
  - `CreatedIn`: what creation leaves in the sink;
  - `Queued`: the queue of nodes with `insert` hooks;
  - `Inserts.Made` and `Inserts.QueuedExactly`: which nodes a call queued.
    A node counts as made by a call when its handle is at least the sink's
    size when the call began;
  - `Patching` and `Structural`: the order of hook calls.

The main results:

- `patch` turns a mounted tree into one shaped like the new tree.
- If the roots differ, the new root takes the old root's place under the
  same parent.
- `pre` hooks run first, the queued `insert` hooks run after all structural
  work, and `post` hooks run last. When the root is replaced, the queue is
  exactly the new tree's nodes with `insert` hooks, in creation order. When
  the root is patched in place, the queue holds exactly the result's nodes
  with `insert` hooks that the patch created, each once. The order is not
  stated in that case.
- The diff leaves the parent's children in the order of the new children.
  This holds for the model, which inserts the nodes added after the loop
  before the first back result. The source's reference at
  src/snabbdom.ts:347 can put them after the back results instead (see
  Findings). A removal held back by `remove` hooks is the other exception:
  the held-back node stays in place until its callback runs.
- Keyed children keep their sink nodes: a new child that pairs by key with
  an old child gets that old child's handle. A result that holds a handle
  older than the diff holds the handle of an old child it pairs with.

## Model

| member | source | states |
|---|---|---|
| VNodes.Vnode | src/vnode.ts:42-49 | The record copies `sel`, `data`, `children`, `text` and `elm` unchanged. The key is absent without data and equals `data.key` otherwise. |
| Identity.SameVnodeIgnoresOtherFields | src/snabbdom.ts:20-22 | Whether two nodes pair up depends only on their keys and selectors. Data, children, text and handle play no part. |
| Identity.SameVnodeIsEquivalence | src/snabbdom.ts:20-22 | The pairing is reflexive, symmetric and transitive. |
| Identity.IsVnodeCases | src/snabbdom.ts:25-27 | A sink element is never taken for a virtual node. A virtual node counts exactly when its `sel` is defined. |
| KeyMap.CreateKeyToOldIdx | src/snabbdom.ts:38-47 | Every key in the map points to a slot within `[beginIdx, endIdx]` that holds that key. Every keyed slot in range has its key in the map, at that slot or at a later one. |
| KeyMap.HighestIndexWins | src/snabbdom.ts:40-44 | When two slots in range share a key, the map keeps the later slot, because the loop overwrites. |
| ModuleHooks.Defining | src/snabbdom.ts:82-93 | A phase's list holds exactly the indices of the modules that define that hook, in increasing order. |
| ModuleHooks.InitHooks | src/snabbdom.ts:82-93 | The nested loops of `init` fill every phase's list with exactly `Defining(modules, phase)`. |
| ModuleHooks.IncreasingUnique | src/snabbdom.ts:85-92 | An increasing list is determined by its members, so a phase's list is unique. |
| Snabbdom.Engine.constructor | src/snabbdom.ts:66-93 | A new engine starts with an empty trace and no callbacks. Its hook list for every phase is `Defining(modules, phase)`. |
| Selector.IndexFrom | src/snabbdom.ts:134-135 | `indexOf` returns the first position at or after `from` (a negative `from` counts as 0) that holds the character, and -1 exactly when there is none. |
| Selector.ParseSelector | src/snabbdom.ts:134-138 | The tag is a prefix of the selector. A selector without `#` or `.` is its own tag with no id and no class. The class string contains no dots. |
| Selector.ReplaceDots | src/snabbdom.ts:145 | Every dot becomes a space and every other character stays, so the length is kept and no dot is left. |
| Selector.ParseRender | src/snabbdom.ts:134-145 | Parsing `tag#id.c1.c2` gives back the tag, the id and the classes joined by spaces. Without `#id`, there is no id. |
| Snabbdom.SelectorAttrs | src/snabbdom.ts:144-145 | `id` is set exactly when the selector has an id, and `class` exactly when it has classes. Both take the parsed values, and no other attribute is set. |
| Snabbdom.RmCb.constructor | src/snabbdom.ts:103-104 | The callback records the node it removes and the number of listeners. |
| Snabbdom.RmCb.Release | src/snabbdom.ts:104-109 | Each call decrements the counter. When the counter reaches 0 and the node has a parent, exactly that node leaves exactly that parent. Otherwise the sink is unchanged. |
| Snabbdom.DetachesOnNthCall | src/snabbdom.ts:103-110 | Over any number of calls, the node is detached exactly once (on the n-th call), and never when n is not positive. |
| Snabbdom.Engine.InvokeDestroyHook | src/snabbdom.ts:197-214 | The trace grows by `DestroyEvents`. For a node with data, that is its own `destroy` hook, then the module `destroy` hooks, then the same for each non-null child in order. A node without data adds nothing. |
| Events.DestroyEventsKinds | src/snabbdom.ts:197-214 | Destruction only calls `destroy` hooks, and each call concerns a node with data. |
| Snabbdom.Engine.RemoveElement | src/snabbdom.ts:226-241 | An element's subtree gets its `destroy` hooks, then every module `remove` hook, then its own `remove` hook if it has one. A fresh callback is recorded whose count is the number of module `remove` hooks plus one when the node has its own. The node leaves the parent at once exactly when nothing can delay it. |
| Snabbdom.Engine.RemoveOne | src/snabbdom.ts:224-245 | A null slot changes nothing. A text node is detached at once without hooks. An element is handled as in `RemoveElement`. |
| Snabbdom.Engine.RemoveVnodes | src/snabbdom.ts:217-247 | The trace grows by the hook calls for the range, in slot order. The parent loses exactly the handles of the slots in range that detach at once. Nothing else in the sink changes. |
| Snabbdom.Engine.RemoveLoop | src/snabbdom.ts:221-246 | The loop of `removeVnodes` reaches the end of the range with the trace and the sink stated by `RemoveVnodes`. |
| Events.RemoveEventsStructural | src/snabbdom.ts:217-247 | Removal calls only `destroy` and `remove` hooks, never `pre`, `post` or `insert`. |
| Snabbdom.Engine.CreateElm | src/snabbdom.ts:113-176 | The result is the node with fresh handles: mounted, detached and shaped like the input. A comment or text node holds the text (an absent comment text becomes `""`). An element has the tag, namespace and `id`/`class` attributes of its selector, and its children or text. Older sink nodes keep their records. The trace grows by the creation hooks, and the queue grows by the new nodes that have `insert` hooks, in `InsertOrder`. |
| Snabbdom.Engine.CreateNode | src/snabbdom.ts:127-173 | Dispatches on the selector. Comment and text nodes call no hooks. An element runs the module `create` hooks, then its children's creation, then its own `create` hook. |
| Snabbdom.Engine.CreateLeaf | src/snabbdom.ts:127-131 | A comment or text node becomes one fresh, detached sink node of the right kind holding the node's text. |
| Snabbdom.Engine.NewElement | src/snabbdom.ts:133-145 | A new element is appended to the sink with the selector's tag, `data.ns` as its namespace, the selector's attributes and no children. |
| Snabbdom.Engine.BuildElement | src/snabbdom.ts:132-169 | The hook order for an element is: module `create`, then its children's creation hooks, then its own `create` hook. The node is queued after its descendants when it has an `insert` hook. |
| Snabbdom.Engine.MakeElement | src/snabbdom.ts:132-159 | The element is created and filled, and its result has the shape of the input. |
| Snabbdom.Engine.FillElement | src/snabbdom.ts:146-159 | The element gets its children when it has a child array. Otherwise, when it has text, it gets one text node. |
| Snabbdom.Engine.FillChildren | src/snabbdom.ts:148-155 | The element's child list becomes the handles of its non-null children, in order. |
| Snabbdom.Engine.FillText | src/snabbdom.ts:156-159 | An element with text and no children gets exactly one text child holding that text. |
| Snabbdom.Engine.AppendText | src/snabbdom.ts:158 | A fresh text node holding the text becomes the only child of the element. Every other node's children stay as they were. |
| Snabbdom.Engine.CreateChildren | src/snabbdom.ts:148-155 | The loop appends the created node of every non-null slot, in slot order, and skips null slots. Every appended child shows its text (`Texts.AllShow`), and no existing text changes. |
| Snabbdom.Engine.AppendCreated | src/snabbdom.ts:153 | The created child is mounted and appended at the end of the element's child list. The child shows its text (`Texts.Shows`), and no existing text changes. |
| Snabbdom.Engine.CreateChild | src/snabbdom.ts:150-154 | One step of the child loop keeps the loop invariant. |
| Events.CreateEventsKinds | src/snabbdom.ts:113-176 | Creation only calls `init`, module `create` and node `create` hooks. |
| Events.CreateHookLast | src/snabbdom.ts:146-164 | An element's own `create` hook is the last call made while creating it. |
| Trees.InsertOrderQueued | src/snabbdom.ts:165-168 | Every node that creation queues is an element with an `insert` hook. |
| Inserts.MadeMembers | src/snabbdom.ts:165-168 | The nodes a call made in a tree are exactly the nodes creation queues for that tree whose handles are at least the sink's size when the call began. |
| Inserts.MadeNone | src/snabbdom.ts:364-396 | A tree whose handles are all older than the call made nothing, so patching it without creating queues nothing. |
| Inserts.MadeAll | src/snabbdom.ts:113-176 | Every node that a freshly created, mounted tree queues was made by the call. |
| Inserts.MadeByPatch | src/snabbdom.ts:357-399 | A patched node that keeps old handles or uses ones newer than the patch made the same nodes as seen from the start of the diff. |
| Inserts.MadeBySlotPatch | src/snabbdom.ts:279 | The same for the result of patching an old slot within the diff. |
| Inserts.MadeSlotsAll | src/snabbdom.ts:179-194 | Every node that freshly added slots queue was made by the call. |
| Inserts.MadeSlotsAppend | src/snabbdom.ts:250-354 | The nodes made in two slot lists side by side are those of the first, then those of the second. |
| Inserts.MadeSlotsOne | src/snabbdom.ts:272-275 | A single slot made the nodes of its node, and a null slot made nothing. |
| Inserts.MadeParent | src/snabbdom.ts:374-381 | An element older than the call made only what its children made. |
| Inserts.MadeLeaf | src/snabbdom.ts:383-396 | An old node left without children made nothing. |
| Inserts.InsertOrderSlotsAppend | src/snabbdom.ts:150-155 | The queue contribution of two slot lists side by side is the first one's, then the second one's. |
| Inserts.QueuedHandles | src/snabbdom.ts:165-168 | Every node creation would queue for a tree has a handle of that tree, if it has one. |
| Inserts.QueuedMounted | src/snabbdom.ts:165-168 | In a mounted tree, every node creation would queue has a handle. |
| Inserts.MadeStarted | src/snabbdom.ts:250-266 | Before the loop, nothing was queued and there are no results. |
| Inserts.MadeFront | src/snabbdom.ts:277-281 | A step that adds a result at the end of the front results and queues that result's made nodes keeps `DiffMade`. |
| Inserts.MadeBack | src/snabbdom.ts:282-300 | A step that adds a result at the start of the back results and queues that result's made nodes keeps `DiffMade`. |
| Inserts.MadeFinished | src/snabbdom.ts:344-353 | After the loop, with the added slots between the front and back results, the queue holds exactly the nodes all the results made. |
| Snabbdom.Engine.AddVnodes | src/snabbdom.ts:179-194 | The parent's list `pre + post` becomes `pre`, then the created nodes of the non-null slots in range in order, then `post`, so everything is inserted before `before`. The results have the shapes of the slots and fresh handles. The trace and queue grow by those slots' creation. Every result shows its text, and no existing text changes. |
| Snabbdom.Engine.AddNext | src/snabbdom.ts:187-193 | One step of the `addVnodes` loop keeps its invariant. |
| Snabbdom.Engine.InsertCreated | src/snabbdom.ts:191 | The created node is inserted into the parent right before the reference, or at the end when there is none. The new tree shows its text, and no existing text changes. |
| Snabbdom.Engine.AttachNew | src/snabbdom.ts:191 | A detached tree is inserted at the reference, and no other node's children change. The tree keeps showing its text. |
| Snabbdom.Engine.PatchVnode | src/snabbdom.ts:357-399 | The result keeps the old handle and has the new node's shape. The trace is: the `prepatch` hook, then the module and own `update` hooks (unless old and new are identical or the new node has no data), then only structural calls, then the `postpatch` hook (unless old and new are identical). Identical nodes change nothing but the trace, which gets only `prepatch`. The queue grows by exactly the result's nodes with `insert` hooks that were created during the call, each once, in some order (`Inserts.Made`). New text reaches the sink when it differs. Only nodes of the old tree change children. When no removal can be delayed, the result is mounted. When both nodes have child arrays, the children's handles are reused as `Reuse.AllReuse` states. The result shows every text of the new tree (`Texts.Shows`), and only texts of the old tree's nodes change (`Texts.TextsKept`). |
| Snabbdom.Engine.OpenPatch | src/snabbdom.ts:357-369 | The trace grows by exactly the opening hooks: `prepatch`, then the module and own `update` hooks unless the nodes are identical or the new one has no data. At most two own hooks are added beyond one per module. |
| Snabbdom.Engine.PatchContent | src/snabbdom.ts:364-396 | Picks the branch of `patchVnode` by text and children, and gives the same guarantees as `PatchVnode`, including handle reuse for two child arrays (equal arrays reuse every handle). The result shows every text of the new tree, and only texts of the old tree's nodes change. |
| Snabbdom.Engine.PatchChildren | src/snabbdom.ts:374-375 | When both nodes have child arrays, their children are diffed, the node is patched, and every keyed pair keeps its old handle. The queue grows by exactly the created nodes of the result. The result shows its text, which is the text of every child after the diff, and only texts of the old tree's nodes change. |
| Snabbdom.Engine.AddChildren | src/snabbdom.ts:377-381 | When only the new node has children, stale text is cleared and all children are appended. The result is mounted, and the queue grows by exactly its created nodes with `insert` hooks. The result shows the text of every new child, and no existing text changes. |
| Snabbdom.Engine.AppendChildren | src/snabbdom.ts:381 | Appending the new children into the emptied element gives a patched node whose created nodes are exactly the ones queued. The result shows the text of every new child, and no existing text changes. |
| Snabbdom.Engine.DropChildren | src/snabbdom.ts:383-384 | When only the old node has children, they are removed. The result shows its text. |
| Snabbdom.Engine.ClearText | src/snabbdom.ts:386-387 | When neither node has children, old text is cleared. The result shows its text, and only the node's own text changes. |
| Snabbdom.Engine.ReplaceText | src/snabbdom.ts:390-396 | Old children are removed, and the element then shows exactly the new text. The trace grows by exactly the removal events of the old children, in slot order, and by nothing when there were none. Only the element's own text changes. |
| Snabbdom.Engine.RemoveAllChildren | src/snabbdom.ts:391-393 | Removing all old children changes only the node's own child list. The trace grows by exactly their removal events, in slot order. |
| Events.PatchEventsStructural | src/snabbdom.ts:358-398 | The calls `patchVnode` makes itself are all structural. |
| Events.PatchingExtends | src/snabbdom.ts:357-399 | A patch only appends to the trace. |
| Diff.ChildrenPatched | src/snabbdom.ts:374-375 | Diffing the children of a mounted node gives a patched node of the new shape. |
| Diff.ChildrenAdded | src/snabbdom.ts:377-381 | Appending the new children to an emptied node gives a patched, mounted node. |
| Snabbdom.Engine.UpdateChildren | src/snabbdom.ts:250-354 | The results have the new children's shapes. A new child that pairs by key with an old child gets that old child's handle. Any other result holds the handle of an old child it is `sameVnode` with, or a handle made during the diff. The parent's list is the results' handles in order, with held-back old nodes in between. The nodes added after the loop go before the first back result, the corrected reference of Findings. With no possible delay there are none, and every result is mounted. Nodes outside the old children keep their children. The queue grows by exactly the results' nodes with `insert` hooks that the diff created, each once. Every result shows its text (`Texts.AllShow`), and only texts of the old children's nodes change. |
| Snabbdom.Engine.DiffStep | src/snabbdom.ts:267-342 | One turn of the loop keeps the diff invariant, including the reuse invariant and `Inserts.DiffMade`, and strictly decreases the number of slots left. `DiffMade` says the queue holds exactly the created nodes of the front and back results. The results and the old slots in play keep showing their text (`Texts.DiffShows`), and only texts of the old children's nodes change. |
| Snabbdom.Engine.SkipOld | src/snabbdom.ts:268-271 | A null old start (tested first) or old end moves its cursor inwards and keeps both invariants. The text invariant `Texts.DiffShows` is kept. |
| Snabbdom.Engine.SkipNew | src/snabbdom.ts:272-275 | A null new start (tested first) or new end moves its cursor inwards, places a null result and keeps both invariants. The text invariant `Texts.DiffShows` is kept. |
| Snabbdom.Engine.DiffMatch | src/snabbdom.ts:277-341 | With all four cursor slots present, the pairings are tried in the source's order: start with start, end with end, start with end, end with start, then by key. The turn keeps the diff, reuse, queue and text invariants, and strictly decreases the number of slots left. |
| Snabbdom.Engine.PatchSlot | src/snabbdom.ts:279 | Patching an old slot against a new one yields a node of the new shape, patched in place. The queue grows by exactly the result's nodes that are newer than the diff. The result, the other results and the other old slots in play show their text (`Texts.SlotPatchedShows`). Only texts of the old children's nodes change. |
| Snabbdom.Engine.StepFront | src/snabbdom.ts:277-281 | Matching first slots are patched in place, and both start cursors advance. The text invariant `Texts.DiffShows` is kept, and only texts of the old children's nodes change. |
| Snabbdom.Engine.StepBack | src/snabbdom.ts:282-286 | Matching last slots are patched in place, and both end cursors retreat. The text invariant `Texts.DiffShows` is kept, and only texts of the old children's nodes change. |
| Snabbdom.Engine.MoveWithin | src/snabbdom.ts:298 | Moving a child within its parent puts it right before the reference. The parent keeps the same set of children. |
| Snabbdom.Engine.StepRight | src/snabbdom.ts:287-300 | When the old first slot matches the new last slot, it is patched and moved right after the old last node. The text invariant `Texts.DiffShows` is kept, and only texts of the old children's nodes change. |
| Snabbdom.Engine.MoveRight | src/snabbdom.ts:298-300 | The move right keeps the diff invariant. The move changes no text. |
| Snabbdom.Engine.StepLeft | src/snabbdom.ts:301-314 | When the old last slot matches the new first slot, it is patched and moved right before the old first node. The text invariant `Texts.DiffShows` is kept, and only texts of the old children's nodes change. |
| Snabbdom.Engine.MoveLeft | src/snabbdom.ts:312-314 | The move left keeps the diff invariant. The move changes no text. |
| Snabbdom.Engine.StepByKey | src/snabbdom.ts:315-341 | With no end matching, the key index is built once and the first new slot is looked up. The text invariant `Texts.DiffShows` is kept, and only texts of the old children's nodes change. |
| Snabbdom.Engine.StepLookup | src/snabbdom.ts:321-340 | An unknown key, or a known key with another selector, creates a fresh node. A match moves the old node. The text invariant `Texts.DiffShows` is kept, and only texts of the old children's nodes change. |
| Snabbdom.Engine.StepKeyed | src/snabbdom.ts:326-337 | When the first new slot's key is in the index, an old slot with another selector leads to a fresh node, and one with the same selector is patched and moved. Either way the turn keeps every invariant of the loop, including the text invariant. |
| Snabbdom.Engine.StepCreate | src/snabbdom.ts:323-330 | A fresh node for the first new slot is inserted before the old first node. The text invariant `Texts.DiffShows` is kept, and no existing text changes. |
| Snabbdom.Engine.StepMiddle | src/snabbdom.ts:331-337 | The old slot with the key is patched, cleared, and moved before the old first node. The text invariant `Texts.DiffShows` is kept, and only texts of the old children's nodes change. |
| Snabbdom.Engine.MoveFromMiddle | src/snabbdom.ts:334-336 | Clearing the old slot and moving its node keeps the diff invariant. The move changes no text. |
| Snabbdom.Engine.DiffFinish | src/snabbdom.ts:344-353 | After the loop, the remaining new slots are added, or the remaining old slots are removed. Either way the diff is done and every result reuses handles as `Reuse.AllReuse` states. The queue holds exactly the results' nodes created during the diff. Every result shows its text, and only texts of the old children's nodes change. |
| Snabbdom.Engine.FinishAdding | src/snabbdom.ts:346-348 | The remaining new slots are inserted between the front and back results (corrected reference, see Findings). The diff is done, every result reuses handles rightly, and the queue holds exactly the results' created nodes. Every result shows its text, and no existing text changes. |
| Snabbdom.Engine.AddRemaining | src/snabbdom.ts:347-348 | The new slots left are created with fresh handles and land between the front and back results of the parent. The queue grows by their `InsertOrder`, slot by slot. The front results, the added nodes and the back results all show their text, and no existing text changes. |
| Snabbdom.Engine.FinishRemoving | src/snabbdom.ts:344-352 | When the new slots ran out, the results are the front and back results. The old slots left in play are removed, and the diff is done. Every result shows its text, and no text changes. |
| Snabbdom.Engine.RemoveLeftOver | src/snabbdom.ts:349-352 | The old slots left in play are removed from the parent. The results are the front then the back results, the diff is done, and every result shows its text. No text changes. |
| Snabbdom.Engine.RemoveKnown | src/snabbdom.ts:351 | The remaining old slots are removed, leaving exactly the planned child lists. No node's kind or text changes. |
| Snabbdom.Engine.RemovalPlanned | src/snabbdom.ts:349-352 | Removing the remaining old slots completes the diff. The only nodes left between the front and back results are those whose removal is held back. |
| Snabbdom.Engine.GoneFromMid | src/snabbdom.ts:351 | Only old nodes still in play are detached. With no possible delay, all of them are. |
| Texts.TextsKeptTrans | src/snabbdom.ts:357-399 | Allowing text changes at the same nodes is transitive over successive calls. |
| Texts.ShowsFrame | src/snabbdom.ts:379-395 | A tree keeps showing its text when its own nodes keep their children, kinds are kept, and texts changed only at nodes outside the tree and outside the text children of its elements. |
| Texts.OutsideNothing | src/snabbdom.ts:156-159 | When no text may change, no element's text child is in the way. |
| Texts.ShowsKept | src/snabbdom.ts:113-176 | A tree keeps showing its text when its nodes keep their children and kinds and no old text changes. |
| Texts.ShowsOutside | src/snabbdom.ts:153 | A tree created after a node keeps showing its text when only that older node's children change. |
| Texts.AllShowKept | src/snabbdom.ts:250-354 | Slots keep showing their text when only nodes outside them change their children and no old text changes. |
| Texts.AllShowSnoc | src/snabbdom.ts:187-193 | Appending a slot that shows its text keeps every slot on show. |
| Texts.AllShowJoin | src/snabbdom.ts:344-353 | Two runs of slots on show are on show together. |
| Texts.AllShowReplaced | src/snabbdom.ts:349-352 | The front and back results stay on show, side by side, when the children of a parent outside them are replaced. |
| Texts.AllShowPair | src/snabbdom.ts:349-352 | Two runs of slots on show before a change confined to other nodes' children are on show together after it. |
| Texts.AllShowAround | src/snabbdom.ts:346-348 | Results on show before the remaining new slots are added, around added slots on show after it, are all on show. |
| Texts.ShowsChildren | src/snabbdom.ts:374-375 | The children of a tree on show are on show. |
| Texts.ShowsParent | src/snabbdom.ts:374-375 | A node without text whose children are all on show is on show. |
| Texts.ShowsRetold | src/snabbdom.ts:357-366 | A node that takes over the handle, selector, text and children of a node on show is on show. |
| Texts.TreeParents | src/snabbdom.ts:148-155 | Every node of a mounted tree below its root has its parent within the tree. |
| Texts.TextKidsApart | src/snabbdom.ts:250-354 | No text child of one tree belongs to a disjoint sibling tree under a node outside the first, so patching the sibling leaves the first tree's text alone. |
| Texts.PatchedRest | src/snabbdom.ts:279 | Patching one old slot in play, which changes only its own nodes' children and texts, keeps every result and every other slot in play on show. |
| Texts.ShowsStep | src/snabbdom.ts:267-342 | A turn that takes at most one slot out of play and adds a result on show to the front or the back keeps `DiffShows`. |
| Texts.ShowsStarted | src/snabbdom.ts:254-261 | Before the first turn, every old child in play is on show and there are no results. |
| Texts.ShowsStepMoved | src/snabbdom.ts:287-337 | A turn as in `ShowsStep`, followed by a move inside the parent alone, keeps `DiffShows`. |
| Texts.ShowsRightMoved | src/snabbdom.ts:287-300 | The turn that moves the old start's node to the right keeps `DiffShows`. |
| Texts.ShowsLeftMoved | src/snabbdom.ts:301-314 | The turn that moves the old end's node to the left keeps `DiffShows`. |
| Texts.ShowsMiddleMoved | src/snabbdom.ts:331-337 | The turn that takes an old node from the middle by key keeps `DiffShows`. |
| Texts.ShowsSkipped | src/snabbdom.ts:268-271 | Skipping a null old slot keeps `DiffShows`. |
| Texts.ShowsMoved | src/snabbdom.ts:298-336 | A change to the parent's children alone, with no old text changed, keeps `DiffShows`. |
| Reuse.SelfReuse | src/snabbdom.ts:373-375 | Children that are not diffed, because the arrays are equal, keep every handle, which meets the reuse property. |
| Reuse.ReuseStarted | src/snabbdom.ts:254-261 | At the start, no result is placed and every keyed pair is still waiting on an old slot in play. |
| Reuse.ReusePatched | src/snabbdom.ts:277-286 | A result patched from an old node it is `sameVnode` with holds the handle of every old child that pairs with it by key, because old keys are unique. |
| Reuse.ReuseCreated | src/snabbdom.ts:323-330 | A created node, made after the diff began, for a slot that pairs with no old child meets the reuse property. |
| Reuse.NoneWaiting | src/snabbdom.ts:320-325 | A missing key, a key not in the index, or an indexed old node with another selector means no old child pairs by key with the new slot. |
| Reuse.ReuseStep | src/snabbdom.ts:267-342 | A turn that takes one old slot out of play and places one rightly reusing result keeps the reuse invariant, because that old slot pairs with no other new slot left. |
| Reuse.ReuseMatched | src/snabbdom.ts:277-337 | Each of the four end matches and the keyed move keeps the reuse invariant. |
| Reuse.ReuseSkippedOld | src/snabbdom.ts:268-271 | Skipping a null old slot keeps the reuse invariant. |
| Reuse.ReuseIndexed | src/snabbdom.ts:316-321 | Once the key index is built, every keyed pair still waiting is found by the index at its old slot. |
| Reuse.IndexReady | src/snabbdom.ts:316-318 | Building the key index keeps the whole diff invariant. |
| Reuse.ReuseAdded | src/snabbdom.ts:346-348 | Nodes created after the loop, together with the front and back results, all reuse rightly. |
| Reuse.AddedDone | src/snabbdom.ts:346-348 | Adding the remaining new slots completes the diff with every result reusing rightly. |
| Reuse.ReuseNoneLeft | src/snabbdom.ts:349-352 | When the new slots ran out, the front and back results all reuse rightly. |
| Reuse.ReuseJoined | src/snabbdom.ts:344-353 | The front results, the middle results and the back results, each reusing rightly, make a whole result list that does. |
| Reuse.ReuseAt | src/snabbdom.ts:250-354 | For one pair: a new child that pairs by key with an old child gets its handle. Conversely, a result holding a handle older than the diff holds that of an old child that is `sameVnode` with its new child. |
| Diff.Started | src/snabbdom.ts:254-261 | The cursors start on the full old and new ranges, and the invariant holds. |
| Diff.SkippedOld | src/snabbdom.ts:268-271 | Skipping a null old slot at either end keeps the invariant. |
| Diff.SkippedNew | src/snabbdom.ts:272-275 | Skipping a null new slot at either end keeps the invariant. |
| Diff.PatchedFront | src/snabbdom.ts:277-281 | Patching the matching first slots keeps the invariant. |
| Diff.PatchedBack | src/snabbdom.ts:282-286 | Patching the matching last slots keeps the invariant. |
| Diff.MovedRight | src/snabbdom.ts:287-300 | Patching and moving the old first node after the old last node keeps the invariant. |
| Diff.MovedLeft | src/snabbdom.ts:301-314 | Patching and moving the old last node before the old first node keeps the invariant. |
| Diff.CreatedFront | src/snabbdom.ts:323-330 | Inserting a fresh node before the old first node keeps the invariant. |
| Diff.MovedFromMiddle | src/snabbdom.ts:331-337 | Patching, clearing and moving a keyed old slot keeps the invariant. |
| Diff.ListMovedRight | src/snabbdom.ts:298 | After the move right, the parent's list is the front results, then the old slots in play, then the back results. |
| Diff.ListMovedLeft | src/snabbdom.ts:312 | After the move left, the parent's list is the front results, then the slots in play, then the back results. |
| Diff.ListInserted | src/snabbdom.ts:324 | After inserting a fresh node, the parent's list is the front results, then the slots in play, then the back results. |
| Diff.ListMovedFromMiddle | src/snabbdom.ts:334-336 | After moving a keyed node, the parent's list is the front results, then the slots in play, then the back results. |
| Diff.FinishNone | src/snabbdom.ts:344 | When both ranges run out together, the results are the front and back results. |
| Diff.FinishAdd | src/snabbdom.ts:346-348 | The nodes added between the front and back results complete the diff. |
| Diff.FinishRemove | src/snabbdom.ts:349-352 | Removing the remaining old slots completes the diff, leaving only held-back nodes in between. |
| Diff.BeforeCorrected | src/snabbdom.ts:347 | The reference is the first handle among the back results, or none when there are none. |
| Diff.BeforeCorrectedPlaces | src/snabbdom.ts:347 | Inserting before the corrected reference puts the node exactly between the front and back results. |
| Diff.BeforeAgrees | src/snabbdom.ts:347 | The reference as written and the corrected one agree unless the slot right after the new range is null. |
| Diff.BeforeAsWrittenMisplaces | src/snabbdom.ts:347 | As written, a null slot right after the new range sends the added node past the back results. |
| Snabbdom.OldRoot | src/snabbdom.ts:409-412 | A virtual node with a selector is its own old root. A sink element becomes an empty node with that handle and selector, no key and no children. A virtual text node has none. |
| Snabbdom.Engine.Patch | src/snabbdom.ts:403-439 | See the details after this table. |
| Snabbdom.Engine.PatchRoot | src/snabbdom.ts:415-430 | Patches a matching root in place, or replaces it. A replaced root queues exactly its new tree's `InsertOrder`. An identical root changes nothing and queues nothing. A patched root reuses its children's handles. In every case the queue holds exactly the result's created nodes with `insert` hooks, each once. The result shows every text of the new tree. |
| Snabbdom.Engine.ReplaceRoot | src/snabbdom.ts:417-430 | The new root is created. When the old root has a parent, the new root lands right after it and the old root is removed. Every node the new tree queues was created by this call. The new tree shows its text, and no existing text changes. |
| Snabbdom.Engine.SwapIn | src/snabbdom.ts:425-429 | Inserts the new root after the old one and removes the old one, so the parent's list ends as `Replaced` states. |
| Snabbdom.Engine.PutAfter | src/snabbdom.ts:427 | Inserting before the old root's next sibling places the new node right after the old root. No other list changes. |
| Snabbdom.Engine.OneDetached | src/snabbdom.ts:428 | `removeVnodes(parent, [old], 0, 0)` drops the old root from the list exactly when nothing delays it. |
| Snabbdom.ReplacedBy | src/snabbdom.ts:425-429 | Insert-after followed by the removal gives the `Replaced` layout. |
| Builder.Classify | src/h.ts:33-57 | `children` and `text` are never both set. |
| Builder.ClassifyThird | src/h.ts:33-47 | With a third argument: `data` is the second argument, or `{}` for null. An array becomes `children`, a primitive becomes `text`, and a node with a selector becomes `[c]`. Anything else sets neither. |
| Builder.ClassifySecond | src/h.ts:48-57 | With only a second argument, it is tested in this order: array, then primitive, then node with a selector, otherwise data. Null or undefined leaves `{}`. |
| Builder.NodeAsData | src/h.ts:56 | A node without a selector taken as data exposes only its key to the engine. |
| Builder.Wrap | src/h.ts:61-63 | A primitive becomes a text node holding it. Anything else is unchanged. No primitive remains. |
| Builder.TextChild | src/h.ts:62 | The wrapping node has only `text` set. |
| Builder.WrapPrimitives | src/h.ts:59-64 | Every element of the result is `Wrap` of the element at the same index, so no primitive is left and the length is kept. |
| Builder.ChildListOf | src/h.ts:59-64 | Children are undefined exactly when the classification gave none. Otherwise there is one slot per element. |
| Builder.NsData | src/h.ts:11 | `ns` becomes the SVG namespace. Key and hooks are kept. |
| Builder.AddNS | src/h.ts:10-20 | Fails exactly when `data` is undefined or the walk meets an empty slot. Otherwise it returns the data with the namespace and the walked children. |
| Builder.NsChildrenCovers | src/h.ts:12-18 | Without failure, every node reached with data carries the SVG namespace. |
| Builder.NsChildrenOnlyNs | src/h.ts:10-20 | `addNS` changes nothing but namespaces. |
| Builder.NsChildrenIdempotent | src/h.ts:10-20 | A second walk changes nothing. |
| Builder.ForeignObjectNotDescended | src/h.ts:12-16 | A `foreignObject` child gets the namespace, but its children are left as given. |
| Builder.IsSvgSelPrefix | src/h.ts:66-69 | The SVG test holds iff the selector starts with `svg` followed by its end, `.` or `#`. |
| Builder.SvgTagIsSvgSel | src/h.ts:66-69 | A selector whose tag, as `createElm` parses it, is `svg` passes the SVG test. |
| Builder.H | src/h.ts:27-74 | `h` fails exactly in the SVG step. Otherwise its result is built from the classified parts, the wrapped children and, for SVG, the walked namespaces. |
| Builder.BuiltFields | src/h.ts:73 | The result has the given selector, no sink node, the classified text and the key of `data`. It has one slot per child: a text node for a primitive, an empty slot for null or undefined, and the node itself otherwise. |
| Builder.BuiltPlain | src/h.ts:66-73 | Without the SVG test, `h` cannot fail and passes `data` through untouched. |
| Builder.BuiltSvg | src/h.ts:66-73 | With the SVG test, `data` and every node reached carry the namespace, and nothing else changes. |
| Dom.Sink.InsertBefore | src/snabbdom.ts:191 | The node is detached from its old parent and inserted before the reference (or at the end). No other list changes. |
| Dom.Sink.AppendChild | src/snabbdom.ts:153 | The node is detached and appended at the end of the parent. |
| Dom.Sink.RemoveChild | src/snabbdom.ts:106-107 | The child leaves exactly that parent's list and has no parent afterwards. |
| Dom.Sink.SetTextContent | src/snabbdom.ts:395 | On an element, every child is detached and, unless the text is empty, one fresh text node holding the text becomes the only child. The former children lose their parent; every other node keeps its children and parent, and every old node keeps its kind, text and attributes. On a text or comment node, only its text is replaced. |
| Dom.Sink.NextSibling | src/snabbdom.ts:298 | A sibling found is in the list of the node's parent. |
| Dom.Sink.CreateElement | src/snabbdom.ts:140-142 | A fresh, detached element with the given tag and namespace. |
| Dom.Sink.CreateTextNode | src/snabbdom.ts:158 | A fresh, detached text node with the given text. |
| Dom.Sink.CreateComment | src/snabbdom.ts:131 | A fresh, detached comment with the given text. |
| Dom.Sink.SetAttribute | src/snabbdom.ts:144-145 | Exactly one attribute of one node changes. |

`Snabbdom.Engine.Patch` (src/snabbdom.ts:403-439) states:

- It fails exactly when the old root is a virtual text node.
- The trace is the `pre` hooks, then only structural calls, then the queued
  `insert` hooks in order, then the `post` hooks.
- A matching root is patched in place.
- Otherwise the new root takes the old root's place under its parent.
  This path needs only the old root's handle, not a mounted old tree.
- The result has the new tree's shape, and it shows every text of the new
  tree (`Texts.Shows`).
- An identical new root is returned as is, with no `insert` hooks and no
  change to the sink.
- A matching root with child arrays reuses its children's handles as
  `Reuse.AllReuse` states.
- The `insert` hooks run for exactly the result's nodes with an `insert`
  hook that the call created, each once (as multisets, `Inserts.Made`).

## Left out

- The concrete DOM adapter (`htmldomapi`) is not part of this model. `Dom.Sink` stands in for it. Handles are indices, and child lists are sequences.
- `emptyNodeAt` reads `id` and `className` from a live element. Here the root element comes with its selector.
- `Snabbdom.Engine.Patch` and `Snabbdom.Engine.PatchRoot`: when the new root matches the old one, the old root must be mounted and must show its text (`Texts.Shows`), as every tree built by `createElm` or `patch` does. For a sink element this means the element has no children. The source also accepts a matching element that has children: `emptyNodeAt` (src/snabbdom.ts:96-100) gives it an empty child list, so the new children are appended after the existing ones, and those are cleared only when the new root has text. The model does not cover that case, because `Mounted` lists every child of the element. When the roots do not match, only the old root's handle is needed, so a container with children is covered there.
- A virtual text node as the old root is modelled as an error. The source throws there, because `emptyNodeAt` calls `tagName` on it.
- Module and hook bodies are not modelled. Each hook call is recorded as a trace event. In particular, an `init` hook cannot change the node's data, although the source re-reads `data` after it.
- The asynchronous timing of the `rm` callbacks is not modelled. `RmCb.Release` models one call, and the engine records each callback it hands out.
- Object identity is modelled as value equality: `oldVnode === vnode` and `oldCh !== ch` compare values.
- Writes to `vnode.elm`, and the default `""` text of a comment, are modelled by returning the updated node instead of mutating the caller's object.
- Keys `1` and `"1"` are different keys here. In the source they collide in the key index, because object keys are strings.
- `Snabbdom.Engine.PatchVnode`, `Snabbdom.Engine.PatchContent`, `Snabbdom.Engine.PatchChildren` and `Snabbdom.Engine.UpdateChildren`: the old tree must show its text (`Texts.Shows`), which every tree that `createElm` builds and `patch` keeps does. A sink whose text was changed outside the engine is not covered.
- `Snabbdom.Engine.PatchVnode` and `Snabbdom.Engine.UpdateChildren`: sibling keys must be unique. With duplicate keys, the diff's behaviour is not specified.
- `Snabbdom.Engine.CreateElm`, `Snabbdom.Engine.PatchVnode` and `Snabbdom.Engine.AddVnodes`: nodes must be well formed:
  - only elements have children, and those have no text of their own;
  - every element has data;
  - every text node has text.

  The source crashes or misbehaves otherwise; for example, `createElm` reads `vnode.data!.hook`.
- `updateChildren` caches the four cursor nodes in locals. The model reads them from the array, which gives the same result when new keys are unique.
- Numbers as text or children are modelled as their decimal string.
- `Builder.H` requires the typed overloads of `h`: after a defined third argument, the second is data, null or undefined. The source's in-place rewrite of the caller's children array, and the sharing of data records that `addNS` mutates, are modelled on returned values.
- `Snabbdom.Engine.PatchRoot`, `Snabbdom.Engine.PatchVnode`, `Snabbdom.Engine.PatchContent`, `Snabbdom.Engine.PatchChildren` and `Snabbdom.Engine.UpdateChildren`: when a root or node is patched in place, the queue is stated as a multiset: exactly the created nodes with `insert` hooks, each once. Their order is not stated. The diff creates nodes in the order it visits new slots, from both ends, and that order is not captured. The exact order is stated only when a root is replaced or a tree is created.
- `Snabbdom.Engine.PatchVnode`: the trace records hook calls only. The order of hook calls against sink operations is not modelled, for example that the old children's removal hooks run before the new text is set (src/snabbdom.ts:390-395).
- `Snabbdom.Engine.UpdateChildren`, `Snabbdom.Engine.DiffFinish`, `Snabbdom.Engine.FinishAdding`, `Snabbdom.Engine.AddRemaining` and `Diff.FinishAdd`: the nodes added after the loop are inserted before the first back result (`Diff.BeforeCorrected`), not before `newCh[newEndIdx + 1].elm` as src/snabbdom.ts:347 does. The exact child order is proved for the corrected reference only. The two agree unless the slot right after the new range is null (`Diff.BeforeAgrees`).
- `Snabbdom.RmCb.Release`: when the count reaches zero and the node has no parent, the model changes nothing. The source (src/snabbdom.ts:106-107) calls `removeChild` on a null parent there, which throws. This can happen when a removal is held back and the element is then cleared by `setTextContent` (src/snabbdom.ts:390-395).
- `Snabbdom.Engine.StepLookup` and `KeyMap.CreateKeyToOldIdx`: the key index is a map from keys to slots. The source's index is a plain object, which behaves differently in three cases. Inherited property names such as `constructor` or `toString` look up a function instead of being missing. The key `__proto__` is never stored. A new node without a key looks up the property `"undefined"`, which an old node with the key `"undefined"` would answer.
- `tovnode`, `thunk` and the concrete modules (class, style, props, event listeners, hero) are not part of this model.

## Findings

| source | as written | input that shows it | evidently intended | confidence | as-written member | corrected member |
|---|---|---|---|---|---|---|
| src/snabbdom.ts:347 | The reference for the nodes added after the loop is `newCh[newEndIdx + 1].elm`, or `null` (append at the end) when that slot is null. | Old children `[B, A]`, new children `[A, C, null, B]`, keyed `a`, `b`, `c`. `C` is appended after `B`, so the parent ends as `[A, B, C]` instead of `[A, C, B]`. | Use the first non-null new child after `newEndIdx`, that is, the first back result, so added nodes land before the back results. | not executed | Diff.BeforeAsWrittenMisplaces | Diff.BeforeCorrectedPlaces |
