/**
 * The virtual node record and its constructor (src/vnode.ts).
 *
 * A virtual node describes one node of the desired tree: a selector
 * (`undefined` for a text node, `"!"` for a comment), optional data, optional
 * children, optional text, the handle of the materialised sink node once it
 * exists, and the key used to recognise the node among its siblings.
 */
module VNodes {
  import opened Wrappers

  /** A sink node handle (the source's `elm`). */
  type Handle = nat

  /** A sibling key: the source accepts a string or a number. */
  datatype Key = StrKey(s: string) | NumKey(n: int)

  /** Which per-node hooks `data.hook` defines. */
  datatype Hooks = Hooks(init: bool, create: bool, insert: bool, prepatch: bool,
                         update: bool, postpatch: bool, destroy: bool, remove: bool)

  /** The parts of `VNodeData` that the engine reads. */
  datatype VNodeData = VNodeData(key: Option<Key>, hook: Option<Hooks>, ns: Option<string>)

  /** `children` of a node: `undefined`, or an array whose slots may be null. */
  datatype ChildList = Undefined | Array(items: seq<Option<VNode>>)

  datatype VNode = VNode(sel: Option<string>, data: Option<VNodeData>, children: ChildList,
                         text: Option<string>, elm: Option<Handle>, key: Option<Key>)

  /** `data = {}`. */
  const EmptyData := VNodeData(None, None, None)

  /** The key of a node built from `data`: `data.key`, or none without data. */
  function KeyOf(data: Option<VNodeData>): Option<Key> {
    match data
    case None => None
    case Some(d) => d.key
  }

  /** The `vnode` constructor: copies its arguments and derives the key from `data`. */
  function Vnode(sel: Option<string>, data: Option<VNodeData>, children: ChildList,
                 text: Option<string>, elm: Option<Handle>): (v: VNode)
    ensures data.None? ==> v.key.None?
    ensures data.Some? ==> v.key == data.value.key
    ensures v.sel == sel && v.data == data && v.children == children
    ensures v.text == text && v.elm == elm
  {
    VNode(sel, data, children, text, elm, KeyOf(data))
  }

  /** The hooks of a node, when it has data with a hook record. */
  function HooksOf(v: VNode): Option<Hooks> {
    if v.data.Some? then v.data.value.hook else None
  }

  predicate HasInit(v: VNode) { HooksOf(v).Some? && HooksOf(v).value.init }
  predicate HasCreate(v: VNode) { HooksOf(v).Some? && HooksOf(v).value.create }
  predicate HasInsert(v: VNode) { HooksOf(v).Some? && HooksOf(v).value.insert }
  predicate HasPrepatch(v: VNode) { HooksOf(v).Some? && HooksOf(v).value.prepatch }
  predicate HasUpdate(v: VNode) { HooksOf(v).Some? && HooksOf(v).value.update }
  predicate HasPostpatch(v: VNode) { HooksOf(v).Some? && HooksOf(v).value.postpatch }
  predicate HasDestroy(v: VNode) { HooksOf(v).Some? && HooksOf(v).value.destroy }
  predicate HasRemove(v: VNode) { HooksOf(v).Some? && HooksOf(v).value.remove }

  /** An element node: a selector that is not the comment marker. */
  predicate IsElement(v: VNode) { v.sel.Some? && v.sel.value != "!" }
}
