/**
 * The patching engine that `init` returns (src/snabbdom.ts:49-439): it turns
 * virtual trees into sink nodes, reconciles an old tree with a new one and
 * calls the module and node hooks on the way.
 *
 * Virtual nodes are values here: where the source writes `vnode.elm` or
 * `vnode.text` into a node object, the model returns the updated node.
 */
module Snabbdom {
  import opened Wrappers
  import opened Seqs
  import opened VNodes
  import opened Selector
  import opened Identity
  import opened KeyMap
  import opened ModuleHooks
  import opened Dom
  import opened Trees
  import opened Events
  import opened Diff
  import opened Reuse
  import opened Inserts
  import opened Texts

  /** The kind of sink node `createElm` makes for a node. */
  function KindFor(v: VNode): NodeKind {
    if v.sel.None? then TextNode
    else if v.sel == Some("!") then CommentNode
    else Element(ParseSelector(v.sel.value).tag, if v.data.Some? then v.data.value.ns else None)
  }

  /** The attributes `createElm` sets from a parsed selector: `id`, then `class`. */
  function SelectorAttrs(p: Parsed): (m: map<string, string>)
    ensures "id" in m <==> p.id.Some?
    ensures "class" in m <==> p.classes.Some?
    ensures p.id.Some? ==> m["id"] == p.id.value
    ensures p.classes.Some? ==> m["class"] == p.classes.value
    ensures forall a :: a in m ==> a == "id" || a == "class"
  {
    var withId := if p.id.Some? then map["id" := p.id.value] else map[];
    if p.classes.Some? then withId["class" := p.classes.value] else withId
  }

  /**
   * How many times a removal callback created with `n` listeners detaches
   * its node over its first `k` calls: each call counts down and the one
   * that reaches zero detaches. This is the count `RmCb.Release` below
   * keeps: its `i`-th call leaves `listeners == n - i` and detaches exactly
   * when that is zero, so the `i`-th call contributes one here iff
   * `n - i == 0`.
   */
  function Detachments(n: int, k: nat): nat {
    if k == 0 then 0 else Detachments(n, k - 1) + (if n - k == 0 then 1 else 0)
  }

  /** A callback detaches exactly once, on its `n`-th call, and never when `n` is not positive. */
  lemma {:induction false} DetachesOnNthCall(n: int, k: nat)
    ensures Detachments(n, k) == if 1 <= n <= k then 1 else 0
  {
    if k > 0 {
      DetachesOnNthCall(n, k - 1);
    }
  }

  /**
   * The function `createRmCb` returns: it counts its calls down from
   * `listeners` and detaches `childElm` from its parent on the call that
   * reaches zero.
   */
  class RmCb {
    const api: Sink
    const childElm: Handle
    var listeners: int

    constructor (api: Sink, childElm: Handle, listeners: int)
      ensures this.api == api && this.childElm == childElm && this.listeners == listeners
    {
      this.api := api;
      this.childElm := childElm;
      this.listeners := listeners;
    }

    /** One call of the callback. */
    method Release()
      requires api.Valid() && childElm < |api.kids|
      modifies this, api`kids, api`parent
      ensures listeners == old(listeners) - 1
      ensures api.Valid()
      ensures var q := old(api.parent[childElm]);
        if listeners == 0 && q.Some? then
          api.kids == old(api.kids)[q.value := Without(old(api.kids)[q.value], {childElm})]
          && api.parent == old(api.parent)[childElm := None]
        else
          api.kids == old(api.kids) && api.parent == old(api.parent)
    {
      listeners := listeners - 1;
      if listeners == 0 {
        var q := api.ParentNode(childElm);
        if q.Some? {
          api.ChildOnlyOfParent(q.value, childElm);
          api.RemoveChild(q.value, childElm);
        }
      }
    }
  }

  lemma RemoveEventsFront(msD: seq<nat>, msR: seq<nat>, s: seq<Option<VNode>>, lo: nat, hi: nat, rm: nat)
    requires lo < hi <= |s|
    ensures RemoveEvents(msD, msR, s, lo, hi, rm)
            == RemoveStep(msD, msR, s[lo], rm)
               + RemoveEvents(msD, msR, s, lo + 1, hi, if s[lo].Some? && s[lo].value.sel.Some? then rm + 1 else rm)
  {
  }

  /** One more detachment from the child list of `P`. */
  lemma DetachKids(k: seq<seq<Handle>>, k0: seq<seq<Handle>>, k1: seq<seq<Handle>>, P: Handle,
                   gone: set<Handle>, gone': set<Handle>, detach: bool, c: Handle)
    requires P < |k| && k0 == k[P := Without(k[P], gone)]
    requires k1 == if detach then k0[P := Without(k0[P], {c})] else k0
    requires gone' == gone + if detach then {c} else {}
    ensures k1 == k[P := Without(k[P], gone')]
  {
    if detach {
      WithoutTwice(k[P], gone, c);
    } else {
      assert gone + {} == gone;
    }
  }

  /**
   * The slots `0` to `j - 1` of `items` have been created as `out`, with
   * handles from `|k0|` on, and appended in order to `elm`, the only old
   * node whose children changed.
   */
  predicate ChildrenMade(elm: Handle, items: seq<Option<VNode>>, j: int, out: seq<Option<VNode>>,
                         k0: seq<seq<Handle>>, d0: seq<NodeKind>, kids: seq<seq<Handle>>, kind: seq<NodeKind>)
  {
    0 <= j <= |items| && elm < |k0| && Grown(k0, d0, kids, kind, elm)
    && SameShapes(out, items[..j]) && kids[elm] == Elms(out)
    && SlotsDisjoint(out) && Built(out, |k0|, kids, kind)
  }

  /**
   * A freshly created child `r`, built on top of the sink `k1`/`d1` and
   * appended to `elm` (giving `k3`/`d3`), extends the children made so far.
   */
  lemma ChildAppended(elm: Handle, items: seq<Option<VNode>>, j: nat, out: seq<Option<VNode>>, r: VNode,
                      k0: seq<seq<Handle>>, d0: seq<NodeKind>, k1: seq<seq<Handle>>, d1: seq<NodeKind>,
                      k3: seq<seq<Handle>>, d3: seq<NodeKind>)
    requires j < |items| && items[j].Some? && ChildrenMade(elm, items, j, out, k0, d0, k1, d1)
    requires r.elm.Some? && Shape(r) == Shape(items[j].value)
    requires Mounted(r, k3, d3) && HandlesIn(r, |k1|, |k3|) && Grown(k1, d1, k3, d3, elm)
    requires k3[elm] == k1[elm] + [r.elm.value]
    ensures ChildrenMade(elm, items, j + 1, out + [Some(r)], k0, d0, k3, d3)
  {
    BuiltFrame(out, |k0|, k1, d1, k3, d3);
    BuiltSnoc(out, |k0|, |k1|, k3, d3, r);
    ElmsAppend(out, [Some(r)]);
    SameShapesSnoc(out, items, j, Some(r));
  }

  /** A null slot adds nothing. */
  lemma NullChild(elm: Handle, items: seq<Option<VNode>>, j: nat, out: seq<Option<VNode>>,
                  k0: seq<seq<Handle>>, d0: seq<NodeKind>, kids: seq<seq<Handle>>, kind: seq<NodeKind>)
    requires j < |items| && items[j].None? && ChildrenMade(elm, items, j, out, k0, d0, kids, kind)
    ensures ChildrenMade(elm, items, j + 1, out + [None], k0, d0, kids, kind)
    ensures InsertOrderSlots(out + [None]) == InsertOrderSlots(out)
  {
    SameShapesSnoc(out, items, j, None);
    ElmsAppend(out, [None]);
    InsertOrderSnoc(out, None);
    assert forall i :: 0 <= i < |out| ==> (out + [None])[i] == out[i];
  }

  /**
   * The slots `0` to `j - 1` of `items` have been created as `out`, with
   * handles from `|k0|` on, and inserted in order into `P` between the
   * handles `pre` and `post`; `P` is the only old node whose children
   * changed.
   */
  predicate SlotsAdded(P: Handle, items: seq<Option<VNode>>, j: int, out: seq<Option<VNode>>, pre: seq<Handle>,
                       post: seq<Handle>, k0: seq<seq<Handle>>, d0: seq<NodeKind>, kids: seq<seq<Handle>>, kind: seq<NodeKind>)
  {
    0 <= j <= |items| && P < |k0| && Grown(k0, d0, kids, kind, P)
    && SameShapes(out, items[..j]) && kids[P] == pre + Elms(out) + post
    && SlotsDisjoint(out) && Built(out, |k0|, kids, kind)
  }

  /**
   * A freshly created tree `r`, built on `k1`/`d1` and inserted into `P`
   * before the first handle of `post` (giving `k3`/`d3`), extends the slots
   * added so far.
   */
  lemma SlotAdded(P: Handle, items: seq<Option<VNode>>, j: nat, out: seq<Option<VNode>>, r: VNode,
                  pre: seq<Handle>, post: seq<Handle>, before: Option<Handle>,
                  k0: seq<seq<Handle>>, d0: seq<NodeKind>, k1: seq<seq<Handle>>, d1: seq<NodeKind>,
                  k3: seq<seq<Handle>>, d3: seq<NodeKind>)
    requires j < |items| && items[j].Some? && SlotsAdded(P, items, j, out, pre, post, k0, d0, k1, d1)
    requires r.elm.Some? && Shape(r) == Shape(items[j].value)
    requires Mounted(r, k3, d3) && HandlesIn(r, |k1|, |k3|) && Grown(k1, d1, k3, d3, P)
    requires NoDup(k1[P]) && r.elm.value !in k1[P]
    requires before.None? ==> post == []
    requires before.Some? ==> post != [] && post[0] == before.value
    requires k3[P] == InsertAt(k1[P], r.elm.value, before)
    ensures SlotsAdded(P, items, j + 1, out + [Some(r)], pre, post, k0, d0, k3, d3)
  {
    BuiltFrame(out, |k0|, k1, d1, k3, d3);
    BuiltSnoc(out, |k0|, |k1|, k3, d3, r);
    SameShapesSnoc(out, items, j, Some(r));
    AddedKids(out, r, pre, post, before, k1[P], k3[P]);
  }

  /** The child list of the parent once the fresh node of `r` is inserted before `post`. */
  lemma AddedKids(out: seq<Option<VNode>>, r: VNode, pre: seq<Handle>, post: seq<Handle>, before: Option<Handle>,
                  k1: seq<Handle>, k3: seq<Handle>)
    requires r.elm.Some? && k1 == pre + Elms(out) + post && NoDup(k1) && r.elm.value !in k1
    requires before.None? ==> post == []
    requires before.Some? ==> post != [] && post[0] == before.value
    requires k3 == InsertAt(k1, r.elm.value, before)
    ensures k3 == pre + Elms(out + [Some(r)]) + post
  {
    KidsResult(out, r, []);
    InsertBeforeTail(pre + Elms(out), post, r.elm.value, before, k3);
  }

  /**
   * Inserting the detached root of a freshly built tree `r` (built on top
   * of `k1` into `k2`) into an old node `elm` before `ref` gives `k3`: only
   * the children of `elm` changed, by the one insertion.
   */
  lemma Inserted(elm: Handle, r: VNode, ref: Option<Handle>, k1: seq<seq<Handle>>, d1: seq<NodeKind>,
                 k2: seq<seq<Handle>>, d2: seq<NodeKind>, k3: seq<seq<Handle>>, content: seq<string>)
    requires elm < |k1| && r.elm.Some? && Mounted(r, k2, d2) && HandlesIn(r, |k1|, |k2|) && Shows(r, k2, d2, content)
    requires Grown(k1, d1, k2, d2, -1) && forall h :: h in k1[elm] ==> h < |k1|
    requires |k3| == |k2| && k3[elm] == InsertAt(Without(k2[elm], {r.elm.value}), r.elm.value, ref)
    requires forall h :: 0 <= h < |k3| && h != elm ==> k3[h] == k2[h]
    ensures Mounted(r, k3, d2) && Grown(k1, d1, k3, d2, elm) && Shows(r, k3, d2, content)
    ensures r.elm.value !in k1[elm] && k3[elm] == InsertAt(k1[elm], r.elm.value, ref)
  {
    assert r.elm.value in Handles(r);
    WithoutDisjoint(k2[elm], {r.elm.value});
    MountedFrame(r, k2, d2, k3, d2);
    ShowsOutside(r, elm, |k1|, k2, k3, d2, content);
  }

  /** A null slot adds nothing. */
  lemma SlotSkipped(P: Handle, items: seq<Option<VNode>>, j: nat, out: seq<Option<VNode>>, pre: seq<Handle>,
                    post: seq<Handle>, k0: seq<seq<Handle>>, d0: seq<NodeKind>, kids: seq<seq<Handle>>, kind: seq<NodeKind>)
    requires j < |items| && items[j].None? && SlotsAdded(P, items, j, out, pre, post, k0, d0, kids, kind)
    ensures SlotsAdded(P, items, j + 1, out + [None], pre, post, k0, d0, kids, kind)
    ensures InsertOrderSlots(out + [None]) == InsertOrderSlots(out)
  {
    SameShapesSnoc(out, items, j, None);
    ElmsOne(None);
    ElmsAppend(out, [None]);
    InsertOrderSnoc(out, None);
    assert forall i :: 0 <= i < |out| ==> (out + [None])[i] == out[i];
  }

  /**
   * Appending the detached root of a freshly built tree `r` (built on top
   * of `k1` into `k2`) to an old node `elm` gives `k3`: only the children
   * of `elm` changed, by one at the end.
   */
  lemma Appended(elm: Handle, r: VNode, k1: seq<seq<Handle>>, d1: seq<NodeKind>,
                 k2: seq<seq<Handle>>, d2: seq<NodeKind>, k3: seq<seq<Handle>>)
    requires elm < |k1| && r.elm.Some? && Mounted(r, k2, d2) && HandlesIn(r, |k1|, |k2|)
    requires Grown(k1, d1, k2, d2, -1) && r.elm.value !in k2[elm]
    requires |k3| == |k2| && k3[elm] == Without(k2[elm], {r.elm.value}) + [r.elm.value]
    requires forall h :: 0 <= h < |k3| && h != elm ==> k3[h] == k2[h]
    ensures Mounted(r, k3, d2) && Grown(k1, d1, k3, d2, elm)
    ensures k3[elm] == k1[elm] + [r.elm.value]
  {
    WithoutDisjoint(k2[elm], {r.elm.value});
    MountedFrame(r, k2, d2, k3, d2);
  }

  /**
   * A node without children, given the fresh handle `|k0|` and nothing
   * else changed below `|k0|`, is mounted with the shape it was given.
   */
  lemma LeafMounted(v: VNode, res: VNode, k0: seq<seq<Handle>>, d0: seq<NodeKind>, kids: seq<seq<Handle>>, kind: seq<NodeKind>)
    requires WF(v) && v.children.Undefined? && res.children == v.children
    requires res.sel == v.sel && res.data == v.data && res.key == v.key
    requires res.text == if v.sel == Some("!") && v.text.None? then Some("") else v.text
    requires res.elm == Some(|k0|) && |k0| < |kids| && |k0| < |kind| && kind[|k0|] == KindFor(v)
    requires IsElement(v) && v.text.None? ==> kids[|k0|] == []
    requires Grown(k0, d0, kids, kind, -1)
    ensures Shape(res) == Shape(v) && Mounted(res, kids, kind) && HandlesIn(res, |k0|, |kids|)
  {
    assert Handles(res) == {|k0|};
  }

  /**
   * An element given the fresh handle `|k0|`, whose children were then
   * made on top of the sink `k1`/`d1`, is mounted with the shape it was
   * given.
   */
  lemma ElementMounted(v: VNode, res: VNode, k0: seq<seq<Handle>>, d0: seq<NodeKind>, k1: seq<seq<Handle>>, d1: seq<NodeKind>,
                       kids: seq<seq<Handle>>, kind: seq<NodeKind>)
    requires IsElement(v) && v.children.Array? && res.children.Array?
    requires res == v.(children := res.children, elm := Some(|k0|))
    requires |d0| == |k0| && k1 == k0 + [[]] && d1 == d0 + [KindFor(v)] && KindFor(v).Element?
    requires ChildrenMade(|k0|, v.children.items, |v.children.items|, res.children.items, k1, d1, kids, kind)
    ensures Shape(res) == Shape(v) && Mounted(res, kids, kind) && HandlesIn(res, |k0|, |kids|)
    ensures Grown(k1, d1, kids, kind, |k0|)
  {
    assert v.children.items[..|v.children.items|] == v.children.items;
    assert d1[|k0|] == KindFor(v);
    ShapeOfParent(res, v);
    MountParent(res, kids, kind);
  }

  /**
   * What `createElm` leaves in the sink for `v`, starting from the records
   * `k0` ... `p0`: `res` is `v` with its handles, all fresh, mounted and
   * detached, with the kind, attributes and text `createElm` gives them,
   * showing every text of `res`; every older node keeps its records.
   */
  predicate CreatedIn(v: VNode, res: VNode, k0: seq<seq<Handle>>, d0: seq<NodeKind>, a0: seq<map<string, string>>,
                      c0: seq<string>, p0: seq<Option<Handle>>, kids: seq<seq<Handle>>, kind: seq<NodeKind>,
                      attrs: seq<map<string, string>>, content: seq<string>, parent: seq<Option<Handle>>)
  {
    |kind| == |kids| && |attrs| == |kids| && |content| == |kids| && |parent| == |kids|
    && res.elm.Some? && |k0| <= res.elm.value < |kids| && Shape(res) == Shape(v)
    && Mounted(res, kids, kind) && HandlesIn(res, |k0|, |kids|) && Shows(res, kids, kind, content)
    && Grown(k0, d0, kids, kind, -1)
    && Kept(a0, attrs) && Kept(c0, content) && Kept(p0, parent)
    && parent[res.elm.value].None?
    && kind[res.elm.value] == KindFor(v)
    && (IsElement(v) ==> attrs[res.elm.value] == SelectorAttrs(ParseSelector(v.sel.value)))
    && (!IsElement(v) ==> res.text.Some? && content[res.elm.value] == res.text.value)
    && (IsElement(v) && v.children.Undefined? && v.text.Some? ==>
          |k0| + 1 < |kids| && kids[res.elm.value] == [|k0| + 1] && content[|k0| + 1] == v.text.value)
  }

  /**
   * What filling the new element `elm` (the last node of `k1`) with the
   * children or the text of `v` leaves in the sink.
   */
  predicate FilledIn(v: VNode, res: VNode, elm: Handle, k1: seq<seq<Handle>>, d1: seq<NodeKind>, a1: seq<map<string, string>>,
                     c1: seq<string>, p1: seq<Option<Handle>>, kids: seq<seq<Handle>>, kind: seq<NodeKind>,
                     attrs: seq<map<string, string>>, content: seq<string>, parent: seq<Option<Handle>>)
  {
    |content| == |kids| && res.elm == Some(elm) && Shape(res) == Shape(v)
    && Mounted(res, kids, kind) && HandlesIn(res, elm, |kids|) && Shows(res, kids, kind, content)
    && Grown(k1, d1, kids, kind, elm)
    && Kept(a1, attrs) && Kept(c1, content) && Kept(p1, parent)
    && (v.children.Undefined? && v.text.Some? ==>
          elm + 1 < |kids| && kids[elm] == [elm + 1] && content[elm + 1] == v.text.value)
  }

  /** A comment or text node made on the fresh handle `|k0|` is created. */
  lemma LeafCreated(v: VNode, res: VNode, k0: seq<seq<Handle>>, d0: seq<NodeKind>, a0: seq<map<string, string>>,
                    c0: seq<string>, p0: seq<Option<Handle>>, kids: seq<seq<Handle>>, kind: seq<NodeKind>,
                    attrs: seq<map<string, string>>, content: seq<string>, parent: seq<Option<Handle>>)
    requires WF(v) && !IsElement(v) && |d0| == |k0| && |a0| == |k0| && |c0| == |k0| && |p0| == |k0|
    requires res.sel == v.sel && res.data == v.data && res.children == v.children && res.key == v.key
    requires res.text == (if v.sel.Some? && v.text.None? then Some("") else v.text) && res.text.Some?
    requires res.elm == Some(|k0|) && kids == k0 + [[]] && parent == p0 + [None]
    requires kind == d0 + [KindFor(v)] && attrs == a0 + [map[]] && content == c0 + [res.text.value]
    ensures CreatedIn(v, res, k0, d0, a0, c0, p0, kids, kind, attrs, content, parent)
  {
    LeafMounted(v, res, k0, d0, kids, kind);
  }

  /**
   * An element made on the fresh handle `|k0|` (giving `k1` ... `p1`) and
   * then filled is created.
   */
  lemma ElementCreated(v: VNode, res: VNode, k0: seq<seq<Handle>>, d0: seq<NodeKind>, a0: seq<map<string, string>>,
                       c0: seq<string>, p0: seq<Option<Handle>>, k1: seq<seq<Handle>>, d1: seq<NodeKind>,
                       a1: seq<map<string, string>>, c1: seq<string>, p1: seq<Option<Handle>>,
                       kids: seq<seq<Handle>>, kind: seq<NodeKind>,
                       attrs: seq<map<string, string>>, content: seq<string>, parent: seq<Option<Handle>>)
    requires IsElement(v) && |d0| == |k0| && |a0| == |k0| && |c0| == |k0| && |p0| == |k0|
    requires |kind| == |kids| && |attrs| == |kids| && |parent| == |kids|
    requires k1 == k0 + [[]] && p1 == p0 + [None] && d1 == d0 + [KindFor(v)] && c1 == c0 + [""]
    requires a1 == a0 + [SelectorAttrs(ParseSelector(v.sel.value))]
    requires FilledIn(v, res, |k0|, k1, d1, a1, c1, p1, kids, kind, attrs, content, parent)
    ensures CreatedIn(v, res, k0, d0, a0, c0, p0, kids, kind, attrs, content, parent)
  {
    KeptTrans(a0, a1, attrs);
    KeptTrans(c0, c1, content);
    KeptTrans(p0, p1, parent);
    assert parent[|k0|] == p1[|k0|] && attrs[|k0|] == a1[|k0|] && kind[|k0|] == d1[|k0|];
    GrownFresh(k0, d0, k1, d1, kids, kind);
  }

  /**
   * The sink node `h` shows the text `text`: an element holds it in its
   * only child, a text node, or has no child when it is empty; any other node
   * holds it as its own text.
   */
  predicate ShowsText(h: Handle, text: string, kids: seq<seq<Handle>>, kind: seq<NodeKind>, content: seq<string>) {
    h < |kids| && h < |kind| && h < |content|
    && if kind[h].Element?
       then (text == "" ==> kids[h] == [])
            && (text != "" ==> |kids[h]| == 1 && kids[h][0] < |kind| && kids[h][0] < |content|
                               && kind[kids[h][0]] == TextNode && content[kids[h][0]] == text)
       else content[h] == text
  }

  /**
   * `emptyNodeAt(elm)`: the virtual node standing for a sink element, with
   * the selector read back from the element, empty data and no children.
   */
  function EmptyNodeAt(elm: Handle, sel: string): VNode {
    Vnode(Some(sel), Some(EmptyData), Array([]), None, Some(elm))
  }

  /**
   * The old root `patch` works from: the virtual node itself, or the node
   * `emptyNodeAt` makes for a sink element; none for a virtual text node,
   * whose missing tag name makes `emptyNodeAt` throw.
   */
  function OldRoot(r: Root): (o: Option<VNode>)
    ensures o.Some? <==> r.ElmRoot? || IsVnode(r)
    ensures r.ElmRoot? ==> o.Some? && o.value.elm == Some(r.elm) && o.value.sel == Some(r.sel)
                           && o.value.key.None? && o.value.children == Array([])
    ensures IsVnode(r) ==> o == Some(r.v)
  {
    match r
    case VRoot(v) => if IsVnode(r) then Some(v) else None
    case ElmRoot(elm, sel) => Some(EmptyNodeAt(elm, sel))
  }

  /**
   * The old root `o`, whose parent was `p1[o]`, was replaced by the freshly
   * created tree `res`: without a parent every old node keeps its children;
   * with one, only the parent's children changed, and `res` sits right
   * after `o` there, or in `o`'s place when `o` was detached at once (`now`).
   */
  predicate Replaced(o: Handle, res: VNode, k1: seq<seq<Handle>>, d1: seq<NodeKind>, p1: seq<Option<Handle>>,
                     k2: seq<seq<Handle>>, d2: seq<NodeKind>, now: bool)
  {
    o < |k1| && o < |p1| && res.elm.Some? && |k1| <= res.elm.value
    && HandlesIn(res, |k1|, |k2|) && Mounted(res, k2, d2)
    && if p1[o].None? then Grown(k1, d1, k2, d2, -1)
       else
         var p := p1[o].value;
         p < |k1| && o in k1[p] && Grown(k1, d1, k2, d2, p)
         && var i := IndexOf(k1[p], o);
         k2[p] == k1[p][..i] + (if now then [] else [o]) + [res.elm.value] + k1[p][i + 1..]
  }

  /**
   * The sink `k1`/`d1` grew from `k0`/`d0` by the detached tree `res`; then
   * only the children of `P`, the old root's parent, changed, from
   * `a + [o] + b` to the same list with `res`'s node after `o`, or in its
   * place: the old root was replaced.
   */
  lemma ReplacedBy(P: Handle, o: Handle, res: VNode, k0: seq<seq<Handle>>, d0: seq<NodeKind>, p0: seq<Option<Handle>>,
                   k1: seq<seq<Handle>>, d1: seq<NodeKind>, k2: seq<seq<Handle>>, k3: seq<seq<Handle>>,
                   a: seq<Handle>, b: seq<Handle>, now: bool)
    requires o < |k0| && o < |p0| && p0[o] == Some(P) && P < |k0|
    requires res.elm.Some? && |k0| <= res.elm.value && HandlesIn(res, |k0|, |k1|) && Mounted(res, k1, d1)
    requires Grown(k0, d0, k1, d1, -1) && k1[P] == a + [o] + b && o !in a
    requires |k2| == |k1| && forall h :: 0 <= h < |k2| && h != P ==> k2[h] == k1[h]
    requires k3 == k2[P := a + (if now then [] else [o]) + ([res.elm.value] + b)]
    ensures Replaced(o, res, k0, d0, p0, k3, d1, now)
  {
    var s := k0[P];
    assert s == a + [o] + b;
    assert s[|a|] == o;
    assert IndexOf(s, o) == |a|;
    assert s[..|a|] == a && s[|a| + 1..] == b;
    assert k3[P] == a + (if now then [] else [o]) + [res.elm.value] + b;
    MountedFrame(res, k1, d1, k3, d1);
  }

  class Engine {
    /** The sink (`htmlDomApi` or another `DOMAPI`). */
    const api: Sink
    /** The module hook lists assembled by `init`. */
    const cbs: map<Phase, seq<nat>>
    /** Every hook call made so far. */
    var trace: seq<Event>
    /** Every removal callback handed out so far. */
    var callbacks: seq<RmCb>

    function Cbs(ph: Phase): seq<nat> {
      if ph in cbs then cbs[ph] else []
    }

    ghost predicate Valid()
      reads this`callbacks, api
    {
      api.Valid()
      && forall i :: 0 <= i < |callbacks| ==> callbacks[i].api == api && callbacks[i].childElm < |api.kids|
    }

    /** `init`: collects the hooks of the modules, phase by phase, in module order. */
    constructor (api: Sink, modules: seq<Module>)
      requires api.Valid()
      ensures Valid() && this.api == api && trace == [] && callbacks == []
      ensures forall ph: Phase :: Cbs(ph) == Defining(modules, ph)
    {
      var lists := InitHooks(modules);
      this.api := api;
      cbs := lists;
      trace := [];
      callbacks := [];
    }

    /** A node is detached by `removeVnodes` at once: it is a text node, or nothing may delay it. */
    predicate DetachesAtOnce(v: VNode) {
      v.sel.None? || (Cbs(Remove) == [] && !HasRemove(v))
    }

    /** Calls hooks one after the other, as the `for` loops over `cbs` lists do. */
    method Emit(evs: seq<Event>)
      modifies this`trace
      ensures trace == old(trace) + evs
    {
      var i := 0;
      while i < |evs|
        invariant 0 <= i <= |evs|
        invariant trace == old(trace) + evs[..i]
      {
        trace := trace + [evs[i]];
        i := i + 1;
        assert evs[..i] == evs[..i - 1] + [evs[i - 1]];
      }
      assert evs[..i] == evs;
    }

    /** `invokeDestroyHook`. */
    method InvokeDestroyHook(v: VNode)
      modifies this`trace
      ensures trace == old(trace) + DestroyEvents(Cbs(Destroy), v)
      decreases v
    {
      if v.data.Some? {
        if HasDestroy(v) {
          trace := trace + [DestroyHook(v)];
        }
        Emit(ModuleDestroys(Cbs(Destroy), v));
        InvokeDestroyHookOnChildren(v.children);
      }
    }

    /** The loop of `invokeDestroyHook` over a node's children. */
    method InvokeDestroyHookOnChildren(c: ChildList)
      modifies this`trace
      ensures trace == old(trace) + DestroyEventsUpTo(Cbs(Destroy), c, if c.Array? then |c.items| else 0)
      decreases c
    {
      if c.Array? {
        var j := 0;
        while j < |c.items|
          invariant 0 <= j <= |c.items|
          invariant trace == old(trace) + DestroyEventsUpTo(Cbs(Destroy), c, j)
        {
          if c.items[j].Some? {
            InvokeDestroyHook(c.items[j].value);
          }
          j := j + 1;
        }
      }
    }

    /** One iteration of `removeVnodes`, for the slot `x` of the parent `P`. */
    method RemoveOne(P: Handle, x: Option<VNode>)
      requires Valid() && P < |api.kids|
      requires x.Some? ==> x.value.elm.Some? && x.value.elm.value in api.kids[P]
      modifies this, api`kids, api`parent
      ensures Valid()
      ensures trace == old(trace) + RemoveStep(Cbs(Destroy), Cbs(Remove), x, old(|callbacks|))
      ensures api.kids == if x.Some? && DetachesAtOnce(x.value)
                          then old(api.kids)[P := Without(old(api.kids[P]), {x.value.elm.value})]
                          else old(api.kids)
      ensures |callbacks| == old(|callbacks|) + (if x.Some? && x.value.sel.Some? then 1 else 0)
    {
      if x.Some? {
        if x.value.sel.Some? {
          RemoveElement(P, x.value);
        } else {
          api.RemoveChild(P, x.value.elm.value);
        }
      }
    }

    /**
     * The element case of `removeVnodes`: destroy hooks, a fresh removal
     * callback expecting one call per module `remove` hook plus one, the
     * module `remove` hooks, then the node's own `remove` hook or, when it
     * has none, one call of the callback.
     */
    method RemoveElement(P: Handle, ch: VNode)
      requires Valid() && P < |api.kids|
      requires ch.sel.Some? && ch.elm.Some? && ch.elm.value in api.kids[P]
      modifies this, api`kids, api`parent
      ensures Valid()
      ensures trace == old(trace) + RemoveStep(Cbs(Destroy), Cbs(Remove), Some(ch), old(|callbacks|))
      ensures api.kids == if DetachesAtOnce(ch)
                          then old(api.kids)[P := Without(old(api.kids[P]), {ch.elm.value})]
                          else old(api.kids)
      ensures |callbacks| == old(|callbacks|) + 1 && callbacks[..old(|callbacks|)] == old(callbacks)
      ensures var rm := callbacks[old(|callbacks|)];
        fresh(rm) && rm.api == api && rm.childElm == ch.elm.value
        && rm.listeners == |Cbs(Remove)| + (if HasRemove(ch) then 1 else 0)
    {
      var c := ch.elm.value;
      api.ChildOnlyOfParent(P, c);
      ghost var t0 := trace;
      InvokeDestroyHook(ch);
      var listeners := |Cbs(Remove)| + 1;
      var rm := new RmCb(api, c, listeners);
      var k := |callbacks|;
      callbacks := callbacks + [rm];
      Emit(ModuleRemoves(Cbs(Remove), ch, k));
      if HasRemove(ch) {
        trace := trace + [RemoveHook(ch, k)];
      } else {
        rm.Release();
      }
      Assoc4(t0, DestroyEvents(Cbs(Destroy), ch), ModuleRemoves(Cbs(Remove), ch, k),
             if HasRemove(ch) then [RemoveHook(ch, k)] else []);
    }

    /** The handles `removeVnodes` detaches at once from the slots `lo` to `hi - 1`. */
    function DetachedAtOnce(s: seq<Option<VNode>>, lo: nat, hi: nat): set<Handle>
      requires lo <= hi <= |s|
      decreases hi
    {
      if hi == lo then {}
      else DetachedAtOnce(s, lo, hi - 1)
           + if s[hi - 1].Some? && s[hi - 1].value.elm.Some? && DetachesAtOnce(s[hi - 1].value) then {s[hi - 1].value.elm.value} else {}
    }

    lemma DetachedStep(s: seq<Option<VNode>>, lo: nat, i: nat)
      requires lo <= i < |s| && (s[i].Some? ==> s[i].value.elm.Some?)
      ensures DetachedAtOnce(s, lo, i + 1)
              == DetachedAtOnce(s, lo, i) + if s[i].Some? && DetachesAtOnce(s[i].value) then {s[i].value.elm.value} else {}
    {
    }

    /** A slot past the range has not been detached, when the slots' handles are distinct. */
    lemma {:induction false} NotYetDetached(s: seq<Option<VNode>>, lo: nat, hi: nat, i: nat)
      requires lo <= hi <= i < |s| && s[i].Some? && s[i].value.elm.Some?
      requires forall j :: lo <= j < hi && s[j].Some? ==> s[j].value.elm != s[i].value.elm
      ensures s[i].value.elm.value !in DetachedAtOnce(s, lo, hi)
      decreases hi
    {
      if hi > lo {
        NotYetDetached(s, lo, hi - 1, i);
      }
    }

    /** The slots `startIdx` to `i - 1` have been removed, starting from the child lists `K`. */
    ghost predicate RemovedUpTo(P: Handle, vnodes: seq<Option<VNode>>, startIdx: int, endIdx: int, i: int,
                                K: seq<seq<Handle>>, T: seq<Event>)
      reads this, api
    {
      0 <= startIdx <= i <= endIdx + 1 <= |vnodes| && P < |K|
      && Valid() && |api.kids| == |K|
      && trace + RemoveEvents(Cbs(Destroy), Cbs(Remove), vnodes, i, endIdx + 1, |callbacks|) == T
      && api.kids == K[P := Without(K[P], DetachedAtOnce(vnodes, startIdx, i))]
    }

    /** The slots' handles are distinct children of `P` in `K`. */
    predicate Removable(P: Handle, vnodes: seq<Option<VNode>>, startIdx: int, endIdx: int, K: seq<seq<Handle>>)
      requires 0 <= startIdx <= endIdx + 1 <= |vnodes| && P < |K|
    {
      (forall j :: startIdx <= j <= endIdx && vnodes[j].Some? ==>
         vnodes[j].value.elm.Some? && vnodes[j].value.elm.value in K[P])
      && (forall i, j :: startIdx <= i < j <= endIdx && vnodes[i].Some? && vnodes[j].Some? ==>
            vnodes[i].value.elm != vnodes[j].value.elm)
    }

    /** One iteration of the loop of `removeVnodes`. */
    method RemoveNext(P: Handle, vnodes: seq<Option<VNode>>, startIdx: int, endIdx: int, i: int,
                      ghost K: seq<seq<Handle>>, ghost T: seq<Event>)
      requires RemovedUpTo(P, vnodes, startIdx, endIdx, i, K, T) && i <= endIdx
      requires Removable(P, vnodes, startIdx, endIdx, K)
      modifies this, api`kids, api`parent
      ensures RemovedUpTo(P, vnodes, startIdx, endIdx, i + 1, K, T)
    {
      var x := vnodes[i];
      ghost var gone := DetachedAtOnce(vnodes, startIdx, i);
      if x.Some? {
        NotYetDetached(vnodes, startIdx, i, i);
      }
      ghost var t0, n0, k0 := trace, |callbacks|, api.kids;
      RemoveOne(P, x);
      RemoveEventsFront(Cbs(Destroy), Cbs(Remove), vnodes, i, endIdx + 1, n0);
      Regroup(T, t0, trace, RemoveEvents(Cbs(Destroy), Cbs(Remove), vnodes, i, endIdx + 1, n0),
              RemoveStep(Cbs(Destroy), Cbs(Remove), x, n0),
              RemoveEvents(Cbs(Destroy), Cbs(Remove), vnodes, i + 1, endIdx + 1, |callbacks|));
      DetachedStep(vnodes, startIdx, i);
      DetachKids(K, k0, api.kids, P, gone, DetachedAtOnce(vnodes, startIdx, i + 1),
                 x.Some? && DetachesAtOnce(x.value), if x.Some? then x.value.elm.value else 0);
    }

    /** Before the first iteration nothing has been removed. */
    lemma RemovalStarts(P: Handle, vnodes: seq<Option<VNode>>, startIdx: int, endIdx: int, T: seq<Event>)
      requires Valid() && P < |api.kids|
      requires 0 <= startIdx <= endIdx + 1 <= |vnodes|
      requires T == trace + RemoveEvents(Cbs(Destroy), Cbs(Remove), vnodes, startIdx, endIdx + 1, |callbacks|)
      ensures RemovedUpTo(P, vnodes, startIdx, endIdx, startIdx, api.kids, T)
    {
      WithoutNothing(api.kids[P]);
    }

    /** After the last iteration every slot has been removed. */
    lemma RemovalEnds(P: Handle, vnodes: seq<Option<VNode>>, startIdx: int, endIdx: int, K: seq<seq<Handle>>, T: seq<Event>)
      requires RemovedUpTo(P, vnodes, startIdx, endIdx, endIdx + 1, K, T)
      ensures trace == T
      ensures api.kids == K[P := Without(K[P], DetachedAtOnce(vnodes, startIdx, endIdx + 1))]
    {
      assert trace + [] == trace;
    }

    /**
     * `removeVnodes`: the slots `startIdx` to `endIdx` of `vnodes`, children
     * of `P`, are destroyed and handed to the remove hooks; those nothing
     * delays are detached.
     */
    method RemoveVnodes(P: Handle, vnodes: seq<Option<VNode>>, startIdx: int, endIdx: int)
      requires Valid() && P < |api.kids|
      requires 0 <= startIdx <= endIdx + 1 <= |vnodes|
      requires Removable(P, vnodes, startIdx, endIdx, api.kids)
      modifies this, api`kids, api`parent
      ensures Valid()
      ensures trace == old(trace) + RemoveEvents(Cbs(Destroy), Cbs(Remove), vnodes, startIdx, endIdx + 1, old(|callbacks|))
      ensures api.kids == old(api.kids)[P := Without(old(api.kids[P]), DetachedAtOnce(vnodes, startIdx, endIdx + 1))]
    {
      ghost var K, T := api.kids, trace + RemoveEvents(Cbs(Destroy), Cbs(Remove), vnodes, startIdx, endIdx + 1, |callbacks|);
      RemovalStarts(P, vnodes, startIdx, endIdx, T);
      RemoveLoop(P, vnodes, startIdx, endIdx, K, T);
      RemovalEnds(P, vnodes, startIdx, endIdx, K, T);
    }

    /** The loop of `removeVnodes`, from `startIdx` to `endIdx`. */
    method RemoveLoop(P: Handle, vnodes: seq<Option<VNode>>, startIdx: int, endIdx: int,
                      ghost K: seq<seq<Handle>>, ghost T: seq<Event>)
      requires RemovedUpTo(P, vnodes, startIdx, endIdx, startIdx, K, T)
      requires Removable(P, vnodes, startIdx, endIdx, K)
      modifies this, api`kids, api`parent
      ensures RemovedUpTo(P, vnodes, startIdx, endIdx, endIdx + 1, K, T)
    {
      for i := startIdx to endIdx + 1
        invariant RemovedUpTo(P, vnodes, startIdx, endIdx, i, K, T)
      {
        RemoveNext(P, vnodes, startIdx, endIdx, i, K, T);
      }
    }

    // ------------------------------------------------------------- creation

    /**
     * `createElm`: makes the sink nodes of the tree `v`, calls its creation
     * hooks and queues its nodes that have an `insert` hook. The result is
     * `v` with every handle filled in (and a comment's missing text set to
     * the empty string); its root is detached and every handle is new.
     */
    method CreateElm(v: VNode, queue: seq<VNode>) returns (res: VNode, queue': seq<VNode>)
      requires Valid() && WF(v)
      modifies this`trace, api
      ensures Valid()
      ensures CreatedIn(v, res, old(api.kids), old(api.kind), old(api.attrs), old(api.content), old(api.parent),
                        api.kids, api.kind, api.attrs, api.content, api.parent)
      ensures trace == old(trace) + CreateEvents(Cbs(Create), v)
      ensures queue' == queue + InsertOrder(res)
      decreases v, 5
    {
      ghost var t0 := trace;
      Emit(if HasInit(v) then [InitHook(v)] else []);
      ghost var t1 := trace;
      res, queue' := CreateNode(v, queue);
      Assoc3(t0, if HasInit(v) then [InitHook(v)] else [], trace[|t1|..]);
    }

    /** `createElm` after the `init` hook: an element, or a comment or text node. */
    method CreateNode(v: VNode, queue: seq<VNode>) returns (res: VNode, queue': seq<VNode>)
      requires Valid() && WF(v)
      modifies this`trace, api
      ensures Valid()
      ensures CreatedIn(v, res, old(api.kids), old(api.kind), old(api.attrs), old(api.content), old(api.parent),
                        api.kids, api.kind, api.attrs, api.content, api.parent)
      ensures trace == old(trace) + (if IsElement(v) then ModuleCreates(Cbs(Create), v)
                                       + CreateEventsUpTo(Cbs(Create), v.children, if v.children.Array? then |v.children.items| else 0)
                                       + (if HasCreate(v) then [CreateHook(v)] else [])
                                     else [])
      ensures queue' == queue + InsertOrder(res)
      decreases v, 4
    {
      if IsElement(v) {
        res, queue' := BuildElement(v, queue);
      } else {
        res := CreateLeaf(v);
        queue' := queue;
        assert InsertOrder(res) == [];
        assert trace + [] == trace && queue + [] == queue;
      }
    }

    /** The comment and text cases of `createElm`, after the `init` hook. */
    method CreateLeaf(v: VNode) returns (res: VNode)
      requires Valid() && WF(v) && !IsElement(v)
      modifies api
      ensures Valid()
      ensures CreatedIn(v, res, old(api.kids), old(api.kind), old(api.attrs), old(api.content), old(api.parent),
                        api.kids, api.kind, api.attrs, api.content, api.parent)
    {
      ghost var k0, d0, a0, c0, p0 := api.kids, api.kind, api.attrs, api.content, api.parent;
      if v.sel == Some("!") {
        var text := if v.text.Some? then v.text.value else "";
        var h := api.CreateComment(text);
        res := v.(text := Some(text), elm := Some(h));
      } else {
        var h := api.CreateTextNode(v.text.value);
        res := v.(elm := Some(h));
      }
      LeafCreated(v, res, k0, d0, a0, c0, p0, api.kids, api.kind, api.attrs, api.content, api.parent);
    }

    /**
     * `api.createElement(tag)` or `api.createElementNS(ns, tag)` with the
     * tag of the selector, then its `id` and `class` attributes.
     */
    method NewElement(v: VNode) returns (elm: Handle)
      requires Valid() && IsElement(v) && v.data.Some?
      modifies api
      ensures Valid() && elm == old(|api.kids|)
      ensures api.kids == old(api.kids) + [[]] && api.parent == old(api.parent) + [None]
      ensures api.kind == old(api.kind) + [KindFor(v)] && api.content == old(api.content) + [""]
      ensures api.attrs == old(api.attrs) + [SelectorAttrs(ParseSelector(v.sel.value))]
    {
      var p := ParseSelector(v.sel.value);
      elm := api.CreateElement(p.tag, v.data.value.ns);
      if p.id.Some? {
        api.SetAttribute(elm, "id", p.id.value);
      }
      if p.classes.Some? {
        api.SetAttribute(elm, "class", p.classes.value);
      }
    }

    /** `api.appendChild(elm, api.createTextNode(vnode.text))`. */
    method AppendText(elm: Handle, text: string)
      requires Valid() && elm < |api.kids| && api.kids[elm] == []
      modifies api
      ensures Valid() && |api.kids| == old(|api.kids|) + 1
      ensures api.kids[elm] == [old(|api.kids|)]
      ensures forall h :: 0 <= h < old(|api.kids|) && h != elm ==> api.kids[h] == old(api.kids[h])
      ensures api.kind == old(api.kind) + [TextNode] && api.attrs == old(api.attrs) + [map[]]
      ensures api.content == old(api.content) + [text]
      ensures Kept(old(api.parent), api.parent)
    {
      var t := api.CreateTextNode(text);
      api.AppendChild(elm, t);
    }

    /** The element case of `createElm`, after the `init` hook. */
    method BuildElement(v: VNode, queue: seq<VNode>) returns (res: VNode, queue': seq<VNode>)
      requires Valid() && WF(v) && IsElement(v)
      modifies this`trace, api
      ensures Valid()
      ensures CreatedIn(v, res, old(api.kids), old(api.kind), old(api.attrs), old(api.content), old(api.parent),
                        api.kids, api.kind, api.attrs, api.content, api.parent)
      ensures trace == old(trace) + (ModuleCreates(Cbs(Create), v)
                                     + CreateEventsUpTo(Cbs(Create), v.children, if v.children.Array? then |v.children.items| else 0)
                                     + (if HasCreate(v) then [CreateHook(v)] else []))
      ensures queue' == queue + InsertOrder(res)
      decreases v, 3
    {
      ghost var t0 := trace;
      res, queue' := MakeElement(v, queue);
      if HasCreate(v) {
        trace := trace + [CreateHook(v)];
      }
      if HasInsert(v) {
        queue' := queue' + [res];
      }
      Assoc3(t0, ModuleCreates(Cbs(Create), v)
                 + CreateEventsUpTo(Cbs(Create), v.children, if v.children.Array? then |v.children.items| else 0),
             if HasCreate(v) then [CreateHook(v)] else []);
      Assoc3(queue, InsertOrderSlots(if v.children.Array? then res.children.items else []), if HasInsert(v) then [res] else []);
    }

    /**
     * The element case of `createElm` up to its own `create` hook: the
     * element, the module `create` hooks, then its children or its text.
     */
    method MakeElement(v: VNode, queue: seq<VNode>) returns (res: VNode, queue': seq<VNode>)
      requires Valid() && WF(v) && IsElement(v)
      modifies this`trace, api
      ensures Valid() && res.elm.Some? && Shape(res) == Shape(v)
      ensures CreatedIn(v, res, old(api.kids), old(api.kind), old(api.attrs), old(api.content), old(api.parent),
                        api.kids, api.kind, api.attrs, api.content, api.parent)
      ensures trace == old(trace) + (ModuleCreates(Cbs(Create), v)
                                     + CreateEventsUpTo(Cbs(Create), v.children, if v.children.Array? then |v.children.items| else 0))
      ensures queue' == queue + InsertOrderSlots(if v.children.Array? then res.children.items else [])
      decreases v, 2
    {
      ghost var k0, d0, a0, c0, p0, t0 := api.kids, api.kind, api.attrs, api.content, api.parent, trace;
      var elm := NewElement(v);
      ghost var k1, d1, a1, c1, p1 := api.kids, api.kind, api.attrs, api.content, api.parent;
      Emit(ModuleCreates(Cbs(Create), v));
      res, queue' := FillElement(v, elm, queue);
      ElementCreated(v, res, k0, d0, a0, c0, p0, k1, d1, a1, c1, p1, api.kids, api.kind, api.attrs, api.content, api.parent);
      Assoc3(t0, ModuleCreates(Cbs(Create), v),
             CreateEventsUpTo(Cbs(Create), v.children, if v.children.Array? then |v.children.items| else 0));
    }

    /**
     * The children or the text of the new element `elm`, the last node of
     * the sink: the children loop of `createElm`, or one text node.
     */
    method FillElement(v: VNode, elm: Handle, queue: seq<VNode>) returns (res: VNode, queue': seq<VNode>)
      requires Valid() && WF(v) && IsElement(v)
      requires elm + 1 == |api.kids| && api.kids[elm] == [] && api.kind[elm] == KindFor(v)
      modifies this`trace, api
      ensures Valid()
      ensures FilledIn(v, res, elm, old(api.kids), old(api.kind), old(api.attrs), old(api.content), old(api.parent),
                       api.kids, api.kind, api.attrs, api.content, api.parent)
      ensures trace == old(trace) + CreateEventsUpTo(Cbs(Create), v.children, if v.children.Array? then |v.children.items| else 0)
      ensures queue' == queue + InsertOrderSlots(if v.children.Array? then res.children.items else [])
      decreases v, 1
    {
      if v.children.Array? {
        res, queue' := FillChildren(v, elm, queue);
      } else {
        res := FillText(v, elm);
        queue' := queue;
        assert trace + [] == trace && queue + [] == queue;
      }
    }

    /** The children loop of `createElm` on the new element `elm`. */
    method FillChildren(v: VNode, elm: Handle, queue: seq<VNode>) returns (res: VNode, queue': seq<VNode>)
      requires Valid() && WF(v) && IsElement(v) && v.children.Array?
      requires elm + 1 == |api.kids| && api.kids[elm] == [] && api.kind[elm] == KindFor(v)
      modifies this`trace, api
      ensures Valid() && res.children.Array?
      ensures FilledIn(v, res, elm, old(api.kids), old(api.kind), old(api.attrs), old(api.content), old(api.parent),
                       api.kids, api.kind, api.attrs, api.content, api.parent)
      ensures trace == old(trace) + CreateEventsUpTo(Cbs(Create), v.children, |v.children.items|)
      ensures queue' == queue + InsertOrderSlots(res.children.items)
      decreases v, 0
    {
      ghost var k1, d1 := api.kids[..elm], api.kind[..elm];
      assert api.kids == k1 + [[]] && api.kind == d1 + [KindFor(v)];
      var out;
      out, queue' := CreateChildren(elm, v.children, queue);
      res := v.(children := Array(out), elm := Some(elm));
      ElementMounted(v, res, k1, d1, old(api.kids), old(api.kind), api.kids, api.kind);
    }

    /** The text case of `createElm` on the new element `elm`: one text node, if there is text. */
    method FillText(v: VNode, elm: Handle) returns (res: VNode)
      requires Valid() && WF(v) && IsElement(v) && v.children.Undefined?
      requires elm + 1 == |api.kids| && api.kids[elm] == [] && api.kind[elm] == KindFor(v)
      modifies api
      ensures Valid() && res == v.(elm := Some(elm))
      ensures FilledIn(v, res, elm, old(api.kids), old(api.kind), old(api.attrs), old(api.content), old(api.parent),
                       api.kids, api.kind, api.attrs, api.content, api.parent)
    {
      ghost var k1, d1 := api.kids[..elm], api.kind[..elm];
      assert api.kids == k1 + [[]] && api.kind == d1 + [KindFor(v)];
      if v.text.Some? {
        AppendText(elm, v.text.value);
      }
      res := v.(elm := Some(elm));
      LeafMounted(v, res, k1, d1, api.kids, api.kind);
    }

    /** The slots `0` to `j - 1` of `c` have been created and appended to `elm`. */
    ghost predicate ChildrenUpTo(elm: Handle, c: ChildList, j: int, out: seq<Option<VNode>>,
                                 queue: seq<VNode>, queue': seq<VNode>, k0: seq<seq<Handle>>, d0: seq<NodeKind>,
                                 a0: seq<map<string, string>>, c0: seq<string>, p0: seq<Option<Handle>>, t0: seq<Event>)
      reads this, api
    {
      c.Array? && 0 <= j <= |c.items| && Valid()
      && ChildrenMade(elm, c.items, j, out, k0, d0, api.kids, api.kind)
      && Kept(a0, api.attrs) && Kept(c0, api.content) && Kept(p0, api.parent)
      && AllShow(out, api.kids, api.kind, api.content)
      && trace == t0 + CreateEventsUpTo(Cbs(Create), c, j)
      && queue' == queue + InsertOrderSlots(out)
    }

    /** The loop of `createElm` over the children of the element `elm`. */
    method CreateChildren(elm: Handle, c: ChildList, queue: seq<VNode>) returns (out: seq<Option<VNode>>, queue': seq<VNode>)
      requires Valid() && c.Array? && elm < |api.kids| && api.kids[elm] == []
      requires forall i :: 0 <= i < |c.items| && c.items[i].Some? ==> WF(c.items[i].value)
      modifies this`trace, api
      ensures Valid() && ChildrenMade(elm, c.items, |c.items|, out, old(api.kids), old(api.kind), api.kids, api.kind)
      ensures Kept(old(api.attrs), api.attrs) && Kept(old(api.content), api.content) && Kept(old(api.parent), api.parent)
      ensures AllShow(out, api.kids, api.kind, api.content)
      ensures trace == old(trace) + CreateEventsUpTo(Cbs(Create), c, |c.items|)
      ensures queue' == queue + InsertOrderSlots(out)
      decreases c, 1
    {
      ghost var k0, d0, a0, c0, p0, t0 := api.kids, api.kind, api.attrs, api.content, api.parent, trace;
      ChildrenStart(elm, c, queue);
      out, queue' := [], queue;
      var j := 0;
      while j < |c.items|
        invariant 0 <= j <= |c.items|
        invariant ChildrenUpTo(elm, c, j, out, queue, queue', k0, d0, a0, c0, p0, t0)
      {
        out, queue' := CreateChild(elm, c, j, out, queue, queue', k0, d0, a0, c0, p0, t0);
        j := j + 1;
      }
    }

    lemma ChildrenStart(elm: Handle, c: ChildList, queue: seq<VNode>)
      requires Valid() && c.Array? && elm < |api.kids| && api.kids[elm] == []
      ensures ChildrenUpTo(elm, c, 0, [], queue, queue, api.kids, api.kind, api.attrs, api.content, api.parent, trace)
    {
      assert trace + [] == trace && queue + [] == queue;
    }

    /** `api.appendChild(elm, createElm(ch, insertedVnodeQueue))`. */
    method AppendCreated(elm: Handle, v: VNode, queue: seq<VNode>) returns (r: VNode, queue': seq<VNode>)
      requires Valid() && WF(v) && elm < |api.kids|
      modifies this`trace, api
      ensures Valid() && r.elm.Some? && Shape(r) == Shape(v)
      ensures Mounted(r, api.kids, api.kind) && HandlesIn(r, old(|api.kids|), |api.kids|)
      ensures Shows(r, api.kids, api.kind, api.content)
      ensures Grown(old(api.kids), old(api.kind), api.kids, api.kind, elm)
      ensures api.kids[elm] == old(api.kids[elm]) + [r.elm.value]
      ensures Kept(old(api.attrs), api.attrs) && Kept(old(api.content), api.content) && Kept(old(api.parent), api.parent)
      ensures trace == old(trace) + CreateEvents(Cbs(Create), v)
      ensures queue' == queue + InsertOrder(r)
      decreases v, 6
    {
      ghost var k1, d1 := api.kids, api.kind;
      r, queue' := CreateElm(v, queue);
      ghost var k2, p2 := api.kids, api.parent;
      api.ChildOnlyOfParent(elm, r.elm.value);
      api.AppendChild(elm, r.elm.value);
      assert r.elm.value in Handles(r);
      KeptUpdate(old(api.parent), p2, r.elm.value, Some(elm));
      Appended(elm, r, k1, d1, k2, api.kind, api.kids);
      ShowsOutside(r, elm, |k1|, k2, api.kids, api.kind, api.content);
    }

    /** One iteration of the children loop of `createElm`. */
    method CreateChild(elm: Handle, c: ChildList, j: int, out: seq<Option<VNode>>, queue: seq<VNode>, q: seq<VNode>,
                       ghost k0: seq<seq<Handle>>, ghost d0: seq<NodeKind>, ghost a0: seq<map<string, string>>,
                       ghost c0: seq<string>, ghost p0: seq<Option<Handle>>, ghost t0: seq<Event>)
      returns (out': seq<Option<VNode>>, q': seq<VNode>)
      requires ChildrenUpTo(elm, c, j, out, queue, q, k0, d0, a0, c0, p0, t0) && j < |c.items|
      requires forall i :: 0 <= i < |c.items| && c.items[i].Some? ==> WF(c.items[i].value)
      modifies this`trace, api
      ensures ChildrenUpTo(elm, c, j + 1, out', queue, q', k0, d0, a0, c0, p0, t0)
      decreases c, 0
    {
      var ch := c.items[j];
      if ch.Some? {
        ghost var k1, d1, c1 := api.kids, api.kind, api.content;
        var r, q1 := AppendCreated(elm, ch.value, q);
        ChildAppended(elm, c.items, j, out, r, k0, d0, k1, d1, api.kids, api.kind);
        SlotHandlesMem(out);
        AllShowKept(out, {elm}, k1, d1, c1, api.kids, api.kind, api.content);
        AllShowSnoc(out, Some(r), api.kids, api.kind, api.content);
        Assoc3(t0, CreateEventsUpTo(Cbs(Create), c, j), CreateEvents(Cbs(Create), ch.value));
        InsertOrderSnoc(out, Some(r));
        Assoc3(queue, InsertOrderSlots(out), InsertOrder(r));
        out', q' := out + [Some(r)], q1;
      } else {
        out', q' := out + [None], q;
        NullChild(elm, c.items, j, out, k0, d0, api.kids, api.kind);
      }
    }

    // ------------------------------------------------------------- adding

    /** The slots `0` to `j - 1` of `items` have been created and inserted into `P` before `before`. */
    ghost predicate AddingUpTo(P: Handle, before: Option<Handle>, items: seq<Option<VNode>>, j: int,
                               out: seq<Option<VNode>>, pre: seq<Handle>, post: seq<Handle>,
                               queue: seq<VNode>, queue': seq<VNode>, k0: seq<seq<Handle>>, d0: seq<NodeKind>,
                               c0: seq<string>, t0: seq<Event>)
      reads this, api
    {
      Valid() && SlotsAdded(P, items, j, out, pre, post, k0, d0, api.kids, api.kind)
      && Kept(c0, api.content) && AllShow(out, api.kids, api.kind, api.content)
      && (before.None? ==> post == []) && (before.Some? ==> post != [] && post[0] == before.value)
      && trace == t0 + CreateEventsUpTo(Cbs(Create), Array(items), j)
      && queue' == queue + InsertOrderSlots(out)
    }

    /**
     * `addVnodes`: creates the slots `startIdx` to `endIdx` of `vnodes`, in
     * order, and inserts each into `P` before `before`, or last when
     * `before` is absent. `pre` and `post` are the children of `P` before
     * and from `before` on: the new nodes end up between them.
     */
    method AddVnodes(P: Handle, before: Option<Handle>, vnodes: seq<Option<VNode>>, startIdx: int, endIdx: int,
                     queue: seq<VNode>, ghost pre: seq<Handle>, ghost post: seq<Handle>)
      returns (out: seq<Option<VNode>>, queue': seq<VNode>)
      requires Valid() && P < |api.kids| && 0 <= startIdx <= endIdx + 1 <= |vnodes|
      requires forall i :: startIdx <= i <= endIdx && vnodes[i].Some? ==> WF(vnodes[i].value)
      requires api.kids[P] == pre + post
      requires before.None? ==> post == []
      requires before.Some? ==> post != [] && post[0] == before.value
      modifies this`trace, api
      ensures Valid()
      ensures SameShapes(out, vnodes[startIdx..endIdx + 1]) && SlotsDisjoint(out)
      ensures Built(out, old(|api.kids|), api.kids, api.kind)
      ensures Grown(old(api.kids), old(api.kind), api.kids, api.kind, P)
      ensures api.kids[P] == pre + Elms(out) + post
      ensures Kept(old(api.content), api.content) && AllShow(out, api.kids, api.kind, api.content)
      ensures trace == old(trace) + CreateEventsSlots(Cbs(Create), vnodes[startIdx..endIdx + 1])
      ensures queue' == queue + InsertOrderSlots(out)
    {
      var items := vnodes[startIdx..endIdx + 1];
      ghost var k0, d0, c0, t0 := api.kids, api.kind, api.content, trace;
      assert api.kids[P] == pre + Elms([]) + post;
      assert trace + [] == trace && queue + [] == queue;
      out, queue' := [], queue;
      var j := 0;
      while j < |items|
        invariant 0 <= j <= |items|
        invariant AddingUpTo(P, before, items, j, out, pre, post, queue, queue', k0, d0, c0, t0)
      {
        out, queue' := AddNext(P, before, items, j, out, queue, queue', pre, post, k0, d0, c0, t0);
        j := j + 1;
      }
      assert items[..j] == items;
    }

    /** One iteration of the loop of `addVnodes`. */
    method AddNext(P: Handle, before: Option<Handle>, items: seq<Option<VNode>>, j: int, out: seq<Option<VNode>>,
                   queue: seq<VNode>, q: seq<VNode>, ghost pre: seq<Handle>, ghost post: seq<Handle>,
                   ghost k0: seq<seq<Handle>>, ghost d0: seq<NodeKind>, ghost c0: seq<string>, ghost t0: seq<Event>)
      returns (out': seq<Option<VNode>>, q': seq<VNode>)
      requires AddingUpTo(P, before, items, j, out, pre, post, queue, q, k0, d0, c0, t0) && j < |items|
      requires forall i :: 0 <= i < |items| && items[i].Some? ==> WF(items[i].value)
      modifies this`trace, api
      ensures AddingUpTo(P, before, items, j + 1, out', pre, post, queue, q', k0, d0, c0, t0)
    {
      var ch := items[j];
      if ch.Some? {
        ghost var k1, d1, c1 := api.kids, api.kind, api.content;
        api.ChildrenBelow(P);
        var r, q1 := InsertCreated(P, ch.value, before, q);
        SlotAdded(P, items, j, out, r, pre, post, before, k0, d0, k1, d1, api.kids, api.kind);
        SlotHandlesMem(out);
        AllShowKept(out, {P}, k1, d1, c1, api.kids, api.kind, api.content);
        AllShowSnoc(out, Some(r), api.kids, api.kind, api.content);
        Assoc3(t0, CreateEventsUpTo(Cbs(Create), Array(items), j), CreateEvents(Cbs(Create), ch.value));
        InsertOrderSnoc(out, Some(r));
        Assoc3(queue, InsertOrderSlots(out), InsertOrder(r));
        out', q' := out + [Some(r)], q1;
      } else {
        out', q' := out + [None], q;
        SlotSkipped(P, items, j, out, pre, post, k0, d0, api.kids, api.kind);
      }
    }

    /** `api.insertBefore(P, createElm(v, insertedVnodeQueue), before)`. */
    method InsertCreated(P: Handle, v: VNode, before: Option<Handle>, queue: seq<VNode>) returns (r: VNode, queue': seq<VNode>)
      requires Valid() && WF(v) && P < |api.kids|
      requires before.Some? ==> before.value in api.kids[P]
      modifies this`trace, api
      ensures Valid() && r.elm.Some? && Shape(r) == Shape(v)
      ensures Mounted(r, api.kids, api.kind) && HandlesIn(r, old(|api.kids|), |api.kids|)
      ensures Shows(r, api.kids, api.kind, api.content) && Kept(old(api.content), api.content)
      ensures Grown(old(api.kids), old(api.kind), api.kids, api.kind, P)
      ensures r.elm.value !in old(api.kids[P]) && api.kids[P] == InsertAt(old(api.kids[P]), r.elm.value, before)
      ensures trace == old(trace) + CreateEvents(Cbs(Create), v)
      ensures queue' == queue + InsertOrder(r)
    {
      ghost var k1, d1 := api.kids, api.kind;
      api.ChildrenBelow(P);
      r, queue' := CreateElm(v, queue);
      AttachNew(P, r, before, k1, d1);
    }

    /** Inserts the detached root of the tree `r`, made since the sink was `k1`/`d1`, into `P` before `before`. */
    method AttachNew(P: Handle, r: VNode, before: Option<Handle>, ghost k1: seq<seq<Handle>>, ghost d1: seq<NodeKind>)
      requires Valid() && P < |k1| && r.elm.Some? && Mounted(r, api.kids, api.kind) && HandlesIn(r, |k1|, |api.kids|)
      requires Grown(k1, d1, api.kids, api.kind, -1) && api.parent[r.elm.value].None?
      requires NoDup(k1[P]) && (forall h :: h in k1[P] ==> h < |k1|) && (before.Some? ==> before.value in k1[P])
      requires Shows(r, api.kids, api.kind, api.content)
      modifies api`kids, api`parent
      ensures Valid() && Mounted(r, api.kids, api.kind) && HandlesIn(r, |k1|, |api.kids|)
      ensures Shows(r, api.kids, api.kind, api.content)
      ensures Grown(k1, d1, api.kids, api.kind, P)
      ensures r.elm.value !in k1[P] && api.kids[P] == InsertAt(k1[P], r.elm.value, before)
    {
      ghost var k2 := api.kids;
      assert r.elm.value in Handles(r) && k2[P] == k1[P];
      api.InsertBefore(P, r.elm.value, before);
      Inserted(P, r, before, k1, d1, k2, api.kind, api.kids, api.content);
    }

    // ------------------------------------------------------------- removing what patching drops

    /** Nothing can delay the removal of the trees in the slots `s`. */
    predicate NoDelay(s: seq<Option<VNode>>) {
      Cbs(Remove) == [] && forall i :: 0 <= i < |s| && s[i].Some? ==> NoRemoveHooks(s[i].value)
    }

    /**
     * `removeVnodes` detaches at once only handles of the slots' nodes, and
     * all of them when nothing can delay a removal.
     */
    lemma DetachedOfSlots(s: seq<Option<VNode>>, lo: nat, hi: nat)
      requires lo <= hi <= |s|
      ensures forall h :: h in DetachedAtOnce(s, lo, hi) ==> h in Elms(s[lo..hi])
      ensures NoDelay(s[lo..hi]) ==> forall h :: h in Elms(s[lo..hi]) ==> h in DetachedAtOnce(s, lo, hi)
    {
      DetachedWithin(s, lo, hi);
      if NoDelay(s[lo..hi]) {
        forall i | lo <= i < hi && s[i].Some?
          ensures NoRemoveHooks(s[i].value)
        {
          assert s[lo..hi][i - lo] == s[i];
        }
        DetachedAll(s, lo, hi);
      }
    }

    lemma {:induction false} DetachedWithin(s: seq<Option<VNode>>, lo: nat, hi: nat)
      requires lo <= hi <= |s|
      ensures forall h :: h in DetachedAtOnce(s, lo, hi) ==> h in Elms(s[lo..hi])
      decreases hi
    {
      if hi > lo {
        DetachedWithin(s, lo, hi - 1);
        ElmsBack(s, lo, hi);
      }
    }

    lemma {:induction false} DetachedAll(s: seq<Option<VNode>>, lo: nat, hi: nat)
      requires lo <= hi <= |s| && Cbs(Remove) == []
      requires forall i :: lo <= i < hi && s[i].Some? ==> NoRemoveHooks(s[i].value)
      ensures forall h :: h in Elms(s[lo..hi]) ==> h in DetachedAtOnce(s, lo, hi)
      decreases hi
    {
      if hi > lo {
        DetachedAll(s, lo, hi - 1);
        ElmsBack(s, lo, hi);
      } else {
        assert s[lo..hi] == [];
      }
    }

    /** The old slots still in play when the new slots run out can be handed to `removeVnodes`. */
    lemma MidRemovable(P: Handle, oldCh: seq<Option<VNode>>, st: DiffState, K: seq<seq<Handle>>, D: seq<NodeKind>,
                       kids: seq<seq<Handle>>, kind: seq<NodeKind>, nd: bool)
      requires Cleared(oldCh, st.cur) && 0 <= st.os <= st.oe + 1 <= |st.cur| && P < |kids|
      requires OldOk(P, oldCh, K, D) && DiffSink(P, oldCh, st, K, D, kids, kind, nd)
      ensures Removable(P, st.cur, st.os, st.oe, kids)
    {
      forall j | st.os <= j <= st.oe && st.cur[j].Some?
        ensures st.cur[j].value.elm.Some? && st.cur[j].value.elm.value in kids[P]
      {
        InPlay(P, oldCh, st, K, D, kids, kind, nd, j);
      }
      forall i, j | st.os <= i < j <= st.oe && st.cur[i].Some? && st.cur[j].Some?
        ensures st.cur[i].value.elm != st.cur[j].value.elm
      {
        InPlayDistinct(oldCh, st.cur, i, j);
      }
    }

    /** The children of a mounted node can be handed to `removeVnodes`. */
    lemma MountedRemovable(prev: VNode, kids: seq<seq<Handle>>, kind: seq<NodeKind>)
      requires Mounted(prev, kids, kind) && prev.children.Array?
      ensures Removable(prev.elm.value, prev.children.items, 0, |prev.children.items| - 1, kids)
    {
      var s := prev.children.items;
      MountedOldOk(prev, kids, kind);
      forall j | 0 <= j < |s| && s[j].Some?
        ensures s[j].value.elm.Some? && s[j].value.elm.value in kids[prev.elm.value]
      {
        ElmIn(s, j);
      }
      forall i, j | 0 <= i < j < |s| && s[i].Some? && s[j].Some?
        ensures s[i].value.elm != s[j].value.elm
      {
        InPlayDistinct(s, s, i, j);
      }
    }

    // ------------------------------------------------------------- patching one node

    /**
     * `patchVnode(prev, v)`: `v` takes over `prev`'s sink node, which is
     * brought in line with `v`. The result has `v`'s shape and `prev`'s
     * handle; only nodes of `prev` changed their children; it is mounted
     * when no removal can be delayed. The hooks run are `v`'s `prepatch`,
     * the `update` hooks, whatever the structural work calls, and `v`'s
     * `postpatch`. Every text of the result is on show, and only texts of
     * `prev`'s nodes changed.
     */
    method PatchVnode(prev: VNode, v: VNode, queue: seq<VNode>) returns (res: VNode, queue': seq<VNode>)
      requires Valid() && WF(v) && KeysUnique(v) && KeysUnique(prev) && SameVnode(prev, v)
      requires Mounted(prev, api.kids, api.kind) && Shows(prev, api.kids, api.kind, api.content)
      modifies this, api
      ensures Valid() && Shape(res) == Shape(v)
      ensures Patched(prev, res, old(api.kids), old(api.kind), api.kids, api.kind, Cbs(Remove) == [] && NoRemoveHooks(prev))
      ensures Shows(res, api.kids, api.kind, api.content) && TextsKept(old(api.content), api.content, Handles(prev))
      ensures Patching(old(trace), trace, PatchOpen(Cbs(Update), prev, v), PatchClose(prev, v, res))
      ensures Queued(queue, queue') && QueuedExactly(queue, queue', Made(res, old(|api.kids|)))
      ensures prev != v && v.text.Some? && prev.text != v.text ==> ShowsText(prev.elm.value, v.text.value, api.kids, api.kind, api.content)
      ensures prev != v && v.text.None? && prev.children.Array? && v.children.Array? ==>
        res.children.Array? && AllReuse(prev.children.items, v.children.items, res.children.items, old(|api.kids|))
      ensures prev == v ==>
        res == v && queue' == queue && api.kids == old(api.kids) && api.kind == old(api.kind)
        && trace == old(trace) + PatchOpen(Cbs(Update), prev, v)
      decreases Size(v), 3
    {
      ghost var t0 := trace;
      OpenPatch(prev, v);
      ghost var open := PatchOpen(Cbs(Update), prev, v);
      if prev == v {
        res, queue' := v, queue;
        QueuedRefl(queue);
        MountedBound(prev, api.kids, api.kind);
        MadeNone(v, |api.kids|);
        QueuedNothing(queue);
        ExtendsRefl(trace);
        PatchingBy(t0, open, trace, trace, []);
        assert trace + [] == trace;
        return;
      }
      var w := v.(elm := prev.elm);
      WithHandle(v, prev.elm);
      ghost var t1 := trace;
      res, queue' := PatchContent(prev, w, queue);
      ghost var t2 := trace;
      Emit(PatchClose(prev, v, res));
      PatchingBy(t0, open, t1, t2, PatchClose(prev, v, res));
    }

    /**
     * The hooks `patchVnode` calls before it looks at text and children:
     * `v`'s `prepatch` and, when `v` is not `prev` and has data, the module
     * and own `update` hooks.
     */
    method OpenPatch(prev: VNode, v: VNode)
      modifies this`trace
      ensures trace == old(trace) + PatchOpen(Cbs(Update), prev, v)
      ensures |trace| <= |old(trace)| + 2 + |Cbs(Update)|
    {
      Emit(if HasPrepatch(v) then [PrepatchHook(prev, v)] else []);
      if prev != v && v.data.Some? {
        var w := v.(elm := prev.elm);
        Emit(ModuleUpdates(Cbs(Update), prev, w) + if HasUpdate(v) then [UpdateHook(prev, w)] else []);
      }
    }

    /** `patchVnode` from the test of `text` on: `w` is the new node holding `prev`'s handle. */
    method PatchContent(prev: VNode, w: VNode, queue: seq<VNode>) returns (res: VNode, queue': seq<VNode>)
      requires Valid() && WF(w) && KeysUnique(w) && KeysUnique(prev) && SameVnode(prev, w) && w.elm == prev.elm
      requires Mounted(prev, api.kids, api.kind) && Shows(prev, api.kids, api.kind, api.content)
      modifies this, api
      ensures Valid() && Shape(res) == Shape(w)
      ensures Patched(prev, res, old(api.kids), old(api.kind), api.kids, api.kind, Cbs(Remove) == [] && NoRemoveHooks(prev))
      ensures Shows(res, api.kids, api.kind, api.content) && TextsKept(old(api.content), api.content, Handles(prev))
      ensures Extends(old(trace), trace) && Queued(queue, queue') && QueuedExactly(queue, queue', Made(res, old(|api.kids|)))
      ensures w.text.Some? && prev.text != w.text ==> ShowsText(prev.elm.value, w.text.value, api.kids, api.kind, api.content)
      ensures w.text.None? && prev.children.Array? && w.children.Array? ==>
        res.children.Array? && AllReuse(prev.children.items, w.children.items, res.children.items, old(|api.kids|))
      decreases Size(w), 2
    {
      ghost var mounted := Cbs(Remove) == [] && NoRemoveHooks(prev);
      ghost var lo := |api.kids|;
      MountedBound(prev, api.kids, api.kind);
      QueuedNothing(queue);
      if w.text.None? {
        if prev.children.Array? && w.children.Array? {
          if prev.children == w.children {
            res, queue' := w, queue;
            SelfReuse(prev.children.items, |api.kids|);
            Untouched(prev, w, api.kids, api.kind, mounted);
            ExtendsRefl(trace);
            QueuedRefl(queue);
            assert Handles(w) == Handles(prev);
            MadeNone(w, lo);
            ShowsRetold(prev, w, api.kids, api.kind, api.content);
          } else {
            res, queue' := PatchChildren(prev, w, queue);
          }
        } else if w.children.Array? {
          res, queue' := AddChildren(prev, w, queue);
        } else if prev.children.Array? {
          DropChildren(prev, w);
          res, queue' := w, queue;
          QueuedRefl(queue);
          MadeLeaf(w, lo);
        } else if prev.text.Some? {
          ClearText(prev, w);
          res, queue' := w, queue;
          ExtendsRefl(trace);
          QueuedRefl(queue);
          MadeLeaf(w, lo);
        } else {
          res, queue' := w, queue;
          Untouched(prev, w, api.kids, api.kind, mounted);
          ExtendsRefl(trace);
          QueuedRefl(queue);
          MadeLeaf(w, lo);
          ShowsRetold(prev, w, api.kids, api.kind, api.content);
        }
      } else if prev.text != w.text {
        ghost var d0 := api.kind;
        ReplaceText(prev, w);
        res, queue' := w, queue;
        QueuedRefl(queue);
        MadeLeaf(w, lo);
        assert api.kind[prev.elm.value] == d0[prev.elm.value];
      } else {
        res, queue' := w, queue;
        Untouched(prev, w, api.kids, api.kind, mounted);
        ExtendsRefl(trace);
        QueuedRefl(queue);
        MadeLeaf(w, lo);
        ShowsRetold(prev, w, api.kids, api.kind, api.content);
      }
    }

    /** Old and new children both present and different: `updateChildren` on them. */
    method PatchChildren(prev: VNode, w: VNode, queue: seq<VNode>) returns (res: VNode, queue': seq<VNode>)
      requires Valid() && WF(w) && KeysUnique(w) && KeysUnique(prev) && SameVnode(prev, w) && w.elm == prev.elm
      requires Mounted(prev, api.kids, api.kind) && prev.children.Array? && w.children.Array? && w.text.None?
      requires Shows(prev, api.kids, api.kind, api.content)
      modifies this, api
      ensures Valid() && Shape(res) == Shape(w)
      ensures Patched(prev, res, old(api.kids), old(api.kind), api.kids, api.kind, Cbs(Remove) == [] && NoRemoveHooks(prev))
      ensures Shows(res, api.kids, api.kind, api.content) && TextsKept(old(api.content), api.content, Handles(prev))
      ensures Extends(old(trace), trace) && Queued(queue, queue') && QueuedExactly(queue, queue', Made(res, old(|api.kids|)))
      ensures res.children.Array? && AllReuse(prev.children.items, w.children.items, res.children.items, old(|api.kids|))
      decreases Size(w), 1
    {
      ghost var K, D := api.kids, api.kind;
      ghost var mounted := Cbs(Remove) == [] && NoRemoveHooks(prev);
      MountedOldOk(prev, api.kids, api.kind);
      SizeChildren(w);
      ShowsChildren(prev, api.kids, api.kind, api.content);
      var out;
      ghost var n, pending;
      out, queue', n, pending := UpdateChildren(prev.elm.value, prev.children.items, w.children.items, queue);
      res := w.(children := Array(out));
      ChildrenPatched(prev, w, res, K, D, api.kids, api.kind, n, pending, NoDelay(prev.children.items), mounted);
      MountedBound(prev, K, D);
      MadeParent(res, |K|);
      HandlesOfParent(prev);
      ShowsParent(res, api.kids, api.kind, api.content);
    }

    /** Only new children: clear a text, then `addVnodes` appends them all. */
    method AddChildren(prev: VNode, w: VNode, queue: seq<VNode>) returns (res: VNode, queue': seq<VNode>)
      requires Valid() && WF(w) && SameVnode(prev, w) && w.elm == prev.elm
      requires Mounted(prev, api.kids, api.kind) && prev.children.Undefined? && w.children.Array?
      modifies this, api
      ensures Valid() && Shape(res) == Shape(w)
      ensures Patched(prev, res, old(api.kids), old(api.kind), api.kids, api.kind, Cbs(Remove) == [] && NoRemoveHooks(prev))
      ensures Shows(res, api.kids, api.kind, api.content) && Kept(old(api.content), api.content)
      ensures Extends(old(trace), trace) && Queued(queue, queue') && QueuedExactly(queue, queue', Made(res, old(|api.kids|)))
    {
      var elm := prev.elm.value;
      ghost var K, D := api.kids, api.kind;
      if prev.text.Some? {
        api.SetTextContent(elm, "");
      }
      res, queue' := AppendChildren(prev, w, queue, K, D);
    }

    /** `addVnodes(elm, null, ch, 0, ch.length - 1)` into the element of `prev`, emptied from the sink `K`/`D`. */
    method AppendChildren(prev: VNode, w: VNode, queue: seq<VNode>, ghost K: seq<seq<Handle>>, ghost D: seq<NodeKind>)
      returns (res: VNode, queue': seq<VNode>)
      requires Valid() && WF(w) && SameVnode(prev, w) && w.elm == prev.elm
      requires Mounted(prev, K, D) && prev.children.Undefined? && w.children.Array?
      requires api.kind == D && |api.kids| == |K| && api.kids[prev.elm.value] == []
      requires forall x :: 0 <= x < |K| && x != prev.elm.value ==> api.kids[x] == K[x]
      modifies this`trace, api
      ensures Valid() && Shape(res) == Shape(w)
      ensures Patched(prev, res, K, D, api.kids, api.kind, Cbs(Remove) == [] && NoRemoveHooks(prev))
      ensures Shows(res, api.kids, api.kind, api.content) && Kept(old(api.content), api.content)
      ensures Extends(old(trace), trace) && Queued(queue, queue') && QueuedExactly(queue, queue', Made(res, |K|))
    {
      var elm := prev.elm.value;
      var items := w.children.items;
      ghost var k1 := api.kids;
      ghost var t1 := trace;
      var out;
      out, queue' := AddVnodes(elm, None, items, 0, |items| - 1, queue, [], []);
      res := w.(children := Array(out));
      ChildrenAdded(prev, w, res, K, D, k1, api.kids, api.kind, Cbs(Remove) == [] && NoRemoveHooks(prev));
      ExtendsByCreateSlots(t1, Cbs(Create), items[0..|items|]);
      QueuedBySlots(queue, out);
      MadeSlotsAll(out, |K|, |K|, api.kids, api.kind);
      QueuedExactlyAppend(queue, InsertOrderSlots(out));
      MountedBound(prev, K, D);
      MadeParent(res, |K|);
    }

    /** Only old children: `removeVnodes` drops them all. */
    method DropChildren(prev: VNode, w: VNode)
      requires Valid() && SameVnode(prev, w) && w.elm == prev.elm && w.children.Undefined? && w.text.None?
      requires Mounted(prev, api.kids, api.kind) && prev.children.Array?
      modifies this, api`kids, api`parent
      ensures Valid()
      ensures Patched(prev, w, old(api.kids), old(api.kind), api.kids, api.kind, Cbs(Remove) == [] && NoRemoveHooks(prev))
      ensures Shows(w, api.kids, api.kind, api.content)
      ensures Extends(old(trace), trace)
    {
      var elm, items := prev.elm.value, prev.children.items;
      ghost var t0, n0 := trace, |callbacks|;
      MountedRemovable(prev, api.kids, api.kind);
      MountedBound(prev, api.kids, api.kind);
      RemoveVnodes(elm, items, 0, |items| - 1);
      ExtendsByRemove(t0, Cbs(Destroy), Cbs(Remove), items, 0, |items|, n0);
      assert Handles(w) == {elm};
      if Cbs(Remove) == [] && NoRemoveHooks(prev) {
        DetachedOfSlots(items, 0, |items|);
        assert items[0..|items|] == items;
        WithoutAll(Elms(items), DetachedAtOnce(items, 0, |items|));
      }
    }

    /** No children on either side and an old text: the text is cleared. */
    method ClearText(prev: VNode, w: VNode)
      requires Valid() && SameVnode(prev, w) && w.elm == prev.elm && w.children.Undefined? && w.text.None?
      requires Mounted(prev, api.kids, api.kind) && prev.children.Undefined?
      modifies api
      ensures Valid()
      ensures Patched(prev, w, old(api.kids), old(api.kind), api.kids, api.kind, Cbs(Remove) == [] && NoRemoveHooks(prev))
      ensures Shows(w, api.kids, api.kind, api.content) && TextsKept(old(api.content), api.content, {prev.elm.value})
    {
      api.SetTextContent(prev.elm.value, "");
      assert Handles(w) == {prev.elm.value};
    }

    /** A new text that differs from the old one: old children go, then the text is set. */
    method ReplaceText(prev: VNode, w: VNode)
      requires Valid() && WF(w) && SameVnode(prev, w) && w.elm == prev.elm && w.text.Some?
      requires Mounted(prev, api.kids, api.kind)
      modifies this, api
      ensures Valid()
      ensures Patched(prev, w, old(api.kids), old(api.kind), api.kids, api.kind, Cbs(Remove) == [] && NoRemoveHooks(prev))
      ensures ShowsText(prev.elm.value, w.text.value, api.kids, api.kind, api.content)
      ensures TextsKept(old(api.content), api.content, {prev.elm.value})
      ensures Extends(old(trace), trace)
      ensures trace == old(trace) + if prev.children.Undefined? then [] else
        RemoveEvents(Cbs(Destroy), Cbs(Remove), prev.children.items, 0, |prev.children.items|, old(|callbacks|))
    {
      var elm := prev.elm.value;
      ExtendsRefl(trace);
      if prev.children.Array? {
        RemoveAllChildren(prev);
      }
      api.SetTextContent(elm, w.text.value);
      assert Handles(w) == {elm};
    }

    /** `removeVnodes` over all old children: only the list of the node itself changes. */
    method RemoveAllChildren(prev: VNode)
      requires Valid() && Mounted(prev, api.kids, api.kind) && prev.children.Array?
      modifies this, api`kids, api`parent
      ensures Valid() && Extends(old(trace), trace)
      ensures trace == old(trace) + RemoveEvents(Cbs(Destroy), Cbs(Remove), prev.children.items, 0, |prev.children.items|, old(|callbacks|))
      ensures api.kids == old(api.kids)[prev.elm.value := api.kids[prev.elm.value]]
    {
      var elm, items := prev.elm.value, prev.children.items;
      ghost var t0, n0 := trace, |callbacks|;
      MountedRemovable(prev, api.kids, api.kind);
      RemoveVnodes(elm, items, 0, |items| - 1);
      ExtendsByRemove(t0, Cbs(Destroy), Cbs(Remove), items, 0, |items|, n0);
    }

    // ------------------------------------------------------------- updateChildren

    /**
     * The invariant of the loop of `updateChildren` on the children of `P`,
     * started from the sink `K`/`D`, the trace `t0` and the queue `q0`.
     */
    ghost predicate Diffing(P: Handle, oldCh: seq<Option<VNode>>, newCh: seq<Option<VNode>>, st: DiffState,
                            K: seq<seq<Handle>>, D: seq<NodeKind>, t0: seq<Event>, q0: seq<VNode>, q: seq<VNode>)
      reads this, api
    {
      Valid() && OldOk(P, oldCh, K, D) && NewOk(newCh) && |D| == |K| && DiffValues(oldCh, newCh, st)
      && DiffSink(P, oldCh, st, K, D, api.kids, api.kind, NoDelay(oldCh))
      && Extends(t0, trace) && Queued(q0, q)
    }

    /**
     * `updateChildren(P, oldCh, newCh)`: brings the children of `P`, which
     * lists the old children's nodes, in line with `newCh`. The results
     * have the new children's shapes and sit in `P` in order (with the
     * nodes whose removal is delayed still in place); only old handles and
     * new ones are used; nodes outside the old children keep their
     * children. Every text of the results is on show, and only texts of
     * the old children's nodes changed.
     */
    method UpdateChildren(P: Handle, oldCh: seq<Option<VNode>>, newCh: seq<Option<VNode>>, queue: seq<VNode>)
      returns (out: seq<Option<VNode>>, queue': seq<VNode>, ghost n: int, ghost pending: seq<Handle>)
      requires Valid() && OldOk(P, oldCh, api.kids, api.kind) && OldKeys(oldCh) && NewOk(newCh)
      requires api.kids[P] == Elms(oldCh) && AllShow(oldCh, api.kids, api.kind, api.content)
      modifies this, api
      ensures Valid()
      ensures DiffDone(P, oldCh, newCh, out, old(api.kids), old(api.kind), api.kids, api.kind, NoDelay(oldCh), n, pending)
      ensures AllShow(out, api.kids, api.kind, api.content) && TextsKept(old(api.content), api.content, SlotHandles(oldCh))
      ensures AllReuse(oldCh, newCh, out, old(|api.kids|))
      ensures Extends(old(trace), trace) && Queued(queue, queue')
      ensures QueuedExactly(queue, queue', MadeSlots(out, old(|api.kids|)))
      decreases SizeSeq(newCh), 8
    {
      ghost var K, D, t0 := api.kids, api.kind, trace;
      var st := Start(oldCh, newCh);
      Started(P, oldCh, newCh, K, D, NoDelay(oldCh));
      ShowsStarted(oldCh, newCh, api.kids, api.kind, api.content);
      ReuseStarted(oldCh, newCh, |K|);
      ExtendsRefl(trace);
      QueuedRefl(queue);
      MadeStarted(queue, st, |K|);
      var q := queue;
      ghost var C0 := api.content;
      while st.os <= st.oe && st.ns <= st.ne
        invariant Diffing(P, oldCh, newCh, st, K, D, t0, queue, q) && DiffReuse(oldCh, newCh, st, |K|)
        invariant DiffMade(queue, q, st, |K|)
        invariant DiffShows(st, api.kids, api.kind, api.content) && TextsKept(C0, api.content, SlotHandles(oldCh))
        decreases Left(st)
      {
        ghost var c1 := api.content;
        st, q := DiffStep(P, oldCh, newCh, st, q, K, D, t0, queue);
        TextsKeptTrans(C0, c1, api.content, SlotHandles(oldCh));
      }
      ghost var c1 := api.content;
      out, queue', n, pending := DiffFinish(P, oldCh, newCh, st, q, K, D, t0, queue);
      TextsKeptTrans(C0, c1, api.content, SlotHandles(oldCh));
    }

    /** One iteration of the loop of `updateChildren`, its branches in the source's order. */
    method DiffStep(P: Handle, oldCh: seq<Option<VNode>>, newCh: seq<Option<VNode>>, st: DiffState, q: seq<VNode>,
                    ghost K: seq<seq<Handle>>, ghost D: seq<NodeKind>, ghost t0: seq<Event>, ghost q0: seq<VNode>)
      returns (st': DiffState, q': seq<VNode>)
      requires Diffing(P, oldCh, newCh, st, K, D, t0, q0, q) && OldKeys(oldCh) && DiffReuse(oldCh, newCh, st, |K|)
      requires DiffMade(q0, q, st, |K|) && DiffShows(st, api.kids, api.kind, api.content)
      requires st.os <= st.oe && st.ns <= st.ne
      modifies this, api
      ensures Diffing(P, oldCh, newCh, st', K, D, t0, q0, q') && DiffReuse(oldCh, newCh, st', |K|) && Left(st') < Left(st)
      ensures DiffMade(q0, q', st', |K|)
      ensures DiffShows(st', api.kids, api.kind, api.content) && TextsKept(old(api.content), api.content, SlotHandles(oldCh))
      decreases SizeSeq(newCh), 7
    {
      if st.cur[st.os].None? || st.cur[st.oe].None? {
        q' := q;
        st' := SkipOld(P, oldCh, newCh, st, K, D, t0, q0, q);
      } else if newCh[st.ns].None? || newCh[st.ne].None? {
        q' := q;
        st' := SkipNew(P, oldCh, newCh, st, K, D, t0, q0, q);
      } else {
        st', q' := DiffMatch(P, oldCh, newCh, st, q, K, D, t0, q0);
      }
    }

    /** The iterations of the loop of `updateChildren` where all four ends are present: the pairings tried in order. */
    method DiffMatch(P: Handle, oldCh: seq<Option<VNode>>, newCh: seq<Option<VNode>>, st: DiffState, q: seq<VNode>,
                     ghost K: seq<seq<Handle>>, ghost D: seq<NodeKind>, ghost t0: seq<Event>, ghost q0: seq<VNode>)
      returns (st': DiffState, q': seq<VNode>)
      requires Diffing(P, oldCh, newCh, st, K, D, t0, q0, q) && OldKeys(oldCh) && DiffReuse(oldCh, newCh, st, |K|)
      requires DiffMade(q0, q, st, |K|) && DiffShows(st, api.kids, api.kind, api.content)
      requires st.os <= st.oe && st.ns <= st.ne
      requires st.cur[st.os].Some? && st.cur[st.oe].Some? && newCh[st.ns].Some? && newCh[st.ne].Some?
      modifies this, api
      ensures Diffing(P, oldCh, newCh, st', K, D, t0, q0, q') && DiffReuse(oldCh, newCh, st', |K|) && Left(st') < Left(st)
      ensures DiffMade(q0, q', st', |K|)
      ensures DiffShows(st', api.kids, api.kind, api.content) && TextsKept(old(api.content), api.content, SlotHandles(oldCh))
      decreases SizeSeq(newCh), 6
    {
      if SameVnode(st.cur[st.os].value, newCh[st.ns].value) {
        st', q' := StepFront(P, oldCh, newCh, st, q, K, D, t0, q0);
      } else if SameVnode(st.cur[st.oe].value, newCh[st.ne].value) {
        st', q' := StepBack(P, oldCh, newCh, st, q, K, D, t0, q0);
      } else if SameVnode(st.cur[st.os].value, newCh[st.ne].value) {
        st', q' := StepRight(P, oldCh, newCh, st, q, K, D, t0, q0);
      } else if SameVnode(st.cur[st.oe].value, newCh[st.ns].value) {
        st', q' := StepLeft(P, oldCh, newCh, st, q, K, D, t0, q0);
      } else {
        st', q' := StepByKey(P, oldCh, newCh, st, q, K, D, t0, q0);
      }
    }

    /** A null old start (tested first) or old end: its index moves inwards. */
    method SkipOld(P: Handle, oldCh: seq<Option<VNode>>, newCh: seq<Option<VNode>>, st: DiffState,
                   ghost K: seq<seq<Handle>>, ghost D: seq<NodeKind>, ghost t0: seq<Event>, ghost q0: seq<VNode>,
                   ghost q: seq<VNode>)
      returns (st': DiffState)
      requires Diffing(P, oldCh, newCh, st, K, D, t0, q0, q) && DiffReuse(oldCh, newCh, st, |K|) && DiffMade(q0, q, st, |K|)
      requires st.os <= st.oe && (st.cur[st.os].None? || st.cur[st.oe].None?) && DiffShows(st, api.kids, api.kind, api.content)
      ensures DiffShows(st', api.kids, api.kind, api.content)
      ensures Diffing(P, oldCh, newCh, st', K, D, t0, q0, q) && DiffReuse(oldCh, newCh, st', |K|) && Left(st') < Left(st)
      ensures DiffMade(q0, q, st', |K|)
      ensures st' == if st.cur[st.os].None? then st.(os := st.os + 1) else st.(oe := st.oe - 1)
    {
      if st.cur[st.os].None? {
        st' := st.(os := st.os + 1);
        SkippedOld(P, oldCh, newCh, st, st', K, D, api.kids, api.kind, NoDelay(oldCh));
        ReuseSkippedOld(oldCh, newCh, st, st', |K|);
        ShowsSkipped(st, st', api.kids, api.kind, api.content);
      } else {
        st' := st.(oe := st.oe - 1);
        SkippedOld(P, oldCh, newCh, st, st', K, D, api.kids, api.kind, NoDelay(oldCh));
        ReuseSkippedOld(oldCh, newCh, st, st', |K|);
        ShowsSkipped(st, st', api.kids, api.kind, api.content);
      }
    }

    /** A null new start (tested first) or new end: its index moves inwards and its result is null. */
    method SkipNew(P: Handle, oldCh: seq<Option<VNode>>, newCh: seq<Option<VNode>>, st: DiffState,
                   ghost K: seq<seq<Handle>>, ghost D: seq<NodeKind>, ghost t0: seq<Event>, ghost q0: seq<VNode>,
                   ghost q: seq<VNode>)
      returns (st': DiffState)
      requires Diffing(P, oldCh, newCh, st, K, D, t0, q0, q) && DiffReuse(oldCh, newCh, st, |K|) && DiffMade(q0, q, st, |K|)
      requires st.ns <= st.ne && (newCh[st.ns].None? || newCh[st.ne].None?) && DiffShows(st, api.kids, api.kind, api.content)
      ensures DiffShows(st', api.kids, api.kind, api.content)
      ensures Diffing(P, oldCh, newCh, st', K, D, t0, q0, q) && DiffReuse(oldCh, newCh, st', |K|) && Left(st') < Left(st)
      ensures DiffMade(q0, q, st', |K|)
      ensures st' == if newCh[st.ns].None? then st.(ns := st.ns + 1, front := st.front + [None])
                     else st.(ne := st.ne - 1, back := [None] + st.back)
    {
      if newCh[st.ns].None? {
        st' := st.(ns := st.ns + 1, front := st.front + [None]);
        SkippedNew(P, oldCh, newCh, st, st', K, D, api.kids, api.kind, NoDelay(oldCh));
        ReuseStep(oldCh, newCh, st, st', -1, st.ns, None, |K|);
        MadeSlotsOne(None, |K|);
        QueuedNothing(q);
        MadeFront(q0, q, q, st, st', None, |K|);
        ShowsStep(st, st', -1, None, api.kids, api.kind, api.content);
      } else {
        st' := st.(ne := st.ne - 1, back := [None] + st.back);
        SkippedNew(P, oldCh, newCh, st, st', K, D, api.kids, api.kind, NoDelay(oldCh));
        ReuseStep(oldCh, newCh, st, st', -1, st.ne, None, |K|);
        MadeSlotsOne(None, |K|);
        QueuedNothing(q);
        MadeBack(q0, q, q, st, st', None, |K|);
        ShowsStep(st, st', -1, None, api.kids, api.kind, api.content);
      }
    }

    /** `patchVnode` on the old slot `i` in play and the new slot `j`, within the loop. */
    method PatchSlot(P: Handle, oldCh: seq<Option<VNode>>, newCh: seq<Option<VNode>>, st: DiffState, i: int, j: int,
                     q: seq<VNode>, ghost K: seq<seq<Handle>>, ghost D: seq<NodeKind>, ghost t0: seq<Event>, ghost q0: seq<VNode>)
      returns (r: VNode, q': seq<VNode>)
      requires Diffing(P, oldCh, newCh, st, K, D, t0, q0, q) && OldKeys(oldCh)
      requires st.os <= i <= st.oe && st.cur[i].Some? && 0 <= j < |newCh| && newCh[j].Some?
      requires SameVnode(st.cur[i].value, newCh[j].value) && DiffShows(st, api.kids, api.kind, api.content)
      modifies this, api
      ensures Valid() && Extends(t0, trace) && Queued(q0, q')
      ensures Patched(st.cur[i].value, r, old(api.kids), old(api.kind), api.kids, api.kind, NoDelay(oldCh))
      ensures SlotPatchedShows(st, i, r, api.kids, api.kind, api.content) && TextsKept(old(api.content), api.content, SlotHandles(oldCh))
      ensures Shape(r) == Shape(newCh[j].value)
      ensures QueuedExactly(q, q', Made(r, |K|))
      decreases SizeSeq(newCh), 1
    {
      InPlay(P, oldCh, st, K, D, api.kids, api.kind, NoDelay(oldCh), i);
      assert st.cur[i] == oldCh[i];
      SizeSlot(newCh, j);
      ghost var t1, k1, d1, c1, p1 := trace, api.kids, api.kind, api.content, api.parent;
      r, q' := PatchVnode(st.cur[i].value, newCh[j].value, q);
      PatchedRest(P, oldCh, st, i, K, D, NoDelay(oldCh), k1, d1, c1, p1, api.kids, api.kind, api.content);
      PatchingExtends(Cbs(Update), st.cur[i].value, newCh[j].value, r, t1, trace);
      ExtendsTrans(t0, t1, trace);
      QueuedTrans(q0, q, q');
      if NoDelay(oldCh) {
        assert NoRemoveHooks(oldCh[i].value);
      }
      MadeBySlotPatch(oldCh, i, r, |K|, |k1|);
    }

    /** `sameVnode(oldStartVnode, newStartVnode)`: patched in place. */
    method StepFront(P: Handle, oldCh: seq<Option<VNode>>, newCh: seq<Option<VNode>>, st: DiffState, q: seq<VNode>,
                     ghost K: seq<seq<Handle>>, ghost D: seq<NodeKind>, ghost t0: seq<Event>, ghost q0: seq<VNode>)
      returns (st': DiffState, q': seq<VNode>)
      requires Diffing(P, oldCh, newCh, st, K, D, t0, q0, q) && OldKeys(oldCh) && DiffReuse(oldCh, newCh, st, |K|)
      requires DiffMade(q0, q, st, |K|)
      requires st.os <= st.oe && st.ns <= st.ne
      requires st.cur[st.os].Some? && newCh[st.ns].Some? && SameVnode(st.cur[st.os].value, newCh[st.ns].value)
      requires DiffShows(st, api.kids, api.kind, api.content)
      modifies this, api
      ensures Diffing(P, oldCh, newCh, st', K, D, t0, q0, q') && DiffReuse(oldCh, newCh, st', |K|) && Left(st') < Left(st)
      ensures DiffMade(q0, q', st', |K|)
      ensures DiffShows(st', api.kids, api.kind, api.content) && TextsKept(old(api.content), api.content, SlotHandles(oldCh))
      decreases SizeSeq(newCh), 3
    {
      ghost var k1, d1 := api.kids, api.kind;
      var r;
      r, q' := PatchSlot(P, oldCh, newCh, st, st.os, st.ns, q, K, D, t0, q0);
      st' := st.(os := st.os + 1, ns := st.ns + 1, front := st.front + [Some(r)]);
      PatchedFront(P, oldCh, newCh, st, st', r, K, D, k1, d1, api.kids, api.kind, NoDelay(oldCh));
      ShowsStep(st, st', st.os, Some(r), api.kids, api.kind, api.content);
      ReuseMatched(oldCh, newCh, st, st', st.os, st.ns, r, |K|);
      MadeSlotsOne(Some(r), |K|);
      MadeFront(q0, q, q', st, st', Some(r), |K|);
    }

    /** `sameVnode(oldEndVnode, newEndVnode)`: patched in place. */
    method StepBack(P: Handle, oldCh: seq<Option<VNode>>, newCh: seq<Option<VNode>>, st: DiffState, q: seq<VNode>,
                    ghost K: seq<seq<Handle>>, ghost D: seq<NodeKind>, ghost t0: seq<Event>, ghost q0: seq<VNode>)
      returns (st': DiffState, q': seq<VNode>)
      requires Diffing(P, oldCh, newCh, st, K, D, t0, q0, q) && OldKeys(oldCh) && DiffReuse(oldCh, newCh, st, |K|)
      requires DiffMade(q0, q, st, |K|)
      requires st.os <= st.oe && st.ns <= st.ne
      requires st.cur[st.oe].Some? && newCh[st.ne].Some? && SameVnode(st.cur[st.oe].value, newCh[st.ne].value)
      requires DiffShows(st, api.kids, api.kind, api.content)
      modifies this, api
      ensures Diffing(P, oldCh, newCh, st', K, D, t0, q0, q') && DiffReuse(oldCh, newCh, st', |K|) && Left(st') < Left(st)
      ensures DiffMade(q0, q', st', |K|)
      ensures DiffShows(st', api.kids, api.kind, api.content) && TextsKept(old(api.content), api.content, SlotHandles(oldCh))
      decreases SizeSeq(newCh), 3
    {
      ghost var k1, d1 := api.kids, api.kind;
      var r;
      r, q' := PatchSlot(P, oldCh, newCh, st, st.oe, st.ne, q, K, D, t0, q0);
      st' := st.(oe := st.oe - 1, ne := st.ne - 1, back := [Some(r)] + st.back);
      PatchedBack(P, oldCh, newCh, st, st', r, K, D, k1, d1, api.kids, api.kind, NoDelay(oldCh));
      ShowsStep(st, st', st.oe, Some(r), api.kids, api.kind, api.content);
      ReuseMatched(oldCh, newCh, st, st', st.oe, st.ne, r, |K|);
      MadeSlotsOne(Some(r), |K|);
      MadeBack(q0, q, q', st, st', Some(r), |K|);
    }

    /**
     * `insertBefore(P, c, ref)` for a node `c` already among `P`'s children:
     * only `P`'s list changes.
     */
    method MoveWithin(P: Handle, c: Handle, ref: Option<Handle>)
      requires Valid() && P < |api.kids| && c in api.kids[P]
      requires ref.Some? ==> ref.value in api.kids[P] && ref.value != c
      modifies api`kids, api`parent
      ensures Valid() && api.kind == old(api.kind) && |api.kids| == old(|api.kids|)
      ensures Grown(old(api.kids), api.kind, api.kids, api.kind, P)
      ensures NoDup(old(api.kids[P])) && api.kids[P] == InsertAt(Without(old(api.kids[P]), {c}), c, ref)
    {
      api.ChildrenBelow(P);
      api.ChildOnlyOfParent(P, c);
      api.InsertBefore(P, c, ref);
    }

    /** `sameVnode(oldStartVnode, newEndVnode)`: patched, then moved right after the old end's node. */
    method StepRight(P: Handle, oldCh: seq<Option<VNode>>, newCh: seq<Option<VNode>>, st: DiffState, q: seq<VNode>,
                     ghost K: seq<seq<Handle>>, ghost D: seq<NodeKind>, ghost t0: seq<Event>, ghost q0: seq<VNode>)
      returns (st': DiffState, q': seq<VNode>)
      requires Diffing(P, oldCh, newCh, st, K, D, t0, q0, q) && OldKeys(oldCh) && DiffReuse(oldCh, newCh, st, |K|)
      requires DiffMade(q0, q, st, |K|)
      requires st.os < st.oe && st.ns <= st.ne
      requires st.cur[st.os].Some? && st.cur[st.oe].Some? && newCh[st.ne].Some?
      requires SameVnode(st.cur[st.os].value, newCh[st.ne].value)
      requires DiffShows(st, api.kids, api.kind, api.content)
      modifies this, api
      ensures Diffing(P, oldCh, newCh, st', K, D, t0, q0, q') && DiffReuse(oldCh, newCh, st', |K|) && Left(st') < Left(st)
      ensures DiffMade(q0, q', st', |K|)
      ensures DiffShows(st', api.kids, api.kind, api.content) && TextsKept(old(api.content), api.content, SlotHandles(oldCh))
      decreases SizeSeq(newCh), 3
    {
      ghost var k1, d1 := api.kids, api.kind;
      var r;
      r, q' := PatchSlot(P, oldCh, newCh, st, st.os, st.ne, q, K, D, t0, q0);
      ghost var k2, d2 := api.kids, api.kind;
      st' := MoveRight(P, oldCh, newCh, st, r, K, D, k1, d1, t0, q0, q');
      ShowsRightMoved(P, oldCh, st, st', r, k2, d2, api.content, api.kids, api.kind);
      ReuseMatched(oldCh, newCh, st, st', st.os, st.ne, r, |K|);
      MadeSlotsOne(Some(r), |K|);
      MadeBack(q0, q, q', st, st', Some(r), |K|);
    }

    /** The second half of the step above: the patched node moves after the old end's node. */
    method MoveRight(P: Handle, oldCh: seq<Option<VNode>>, newCh: seq<Option<VNode>>, st: DiffState, r: VNode,
                     ghost K: seq<seq<Handle>>, ghost D: seq<NodeKind>, ghost k1: seq<seq<Handle>>, ghost d1: seq<NodeKind>,
                     ghost t0: seq<Event>, ghost q0: seq<VNode>, ghost q: seq<VNode>)
      returns (st': DiffState)
      requires Valid() && OldOk(P, oldCh, K, D) && NewOk(newCh) && |D| == |K| && DiffValues(oldCh, newCh, st)
      requires DiffSink(P, oldCh, st, K, D, k1, d1, NoDelay(oldCh)) && Extends(t0, trace) && Queued(q0, q)
      requires st.os < st.oe && st.ns <= st.ne && st.cur[st.os].Some? && st.cur[st.oe].Some? && newCh[st.ne].Some?
      requires st.cur[st.os].value.key == newCh[st.ne].value.key
      requires Patched(st.cur[st.os].value, r, k1, d1, api.kids, api.kind, NoDelay(oldCh))
      requires Shape(r) == Shape(newCh[st.ne].value)
      modifies api`kids, api`parent
      ensures Grown(old(api.kids), old(api.kind), api.kids, api.kind, P)
      ensures MovedApart(P, oldCh, st') && api.content == old(api.content)
      ensures Diffing(P, oldCh, newCh, st', K, D, t0, q0, q) && Left(st') < Left(st)
      ensures st' == st.(os := st.os + 1, ne := st.ne - 1, back := [Some(r)] + st.back)
    {
      ghost var nd := NoDelay(oldCh);
      InPlay(P, oldCh, st, K, D, k1, d1, nd, st.os);
      InPlay(P, oldCh, st, K, D, k1, d1, nd, st.oe);
      ghost var k2, d2 := api.kids, api.kind;
      assert k2[P] == k1[P];
      var c, e := r.elm.value, st.cur[st.oe].value.elm.value;
      api.ChildrenBelow(P);
      api.ChildOnlyOfParent(P, e);
      RightRef(st, k2[P]);
      var ref := api.NextSibling(e);
      assert ref == NextOf(k2[P], e);
      MoveWithin(P, c, ref);
      st' := st.(os := st.os + 1, ne := st.ne - 1, back := [Some(r)] + st.back);
      MovedRight(P, oldCh, newCh, st, st', r, K, D, k1, d1, k2, d2, api.kids, nd);
    }

    /** `sameVnode(oldEndVnode, newStartVnode)`: patched, then moved before the old start's node. */
    method StepLeft(P: Handle, oldCh: seq<Option<VNode>>, newCh: seq<Option<VNode>>, st: DiffState, q: seq<VNode>,
                    ghost K: seq<seq<Handle>>, ghost D: seq<NodeKind>, ghost t0: seq<Event>, ghost q0: seq<VNode>)
      returns (st': DiffState, q': seq<VNode>)
      requires Diffing(P, oldCh, newCh, st, K, D, t0, q0, q) && OldKeys(oldCh) && DiffReuse(oldCh, newCh, st, |K|)
      requires DiffMade(q0, q, st, |K|)
      requires st.os < st.oe && st.ns <= st.ne
      requires st.cur[st.os].Some? && st.cur[st.oe].Some? && newCh[st.ns].Some?
      requires SameVnode(st.cur[st.oe].value, newCh[st.ns].value)
      requires DiffShows(st, api.kids, api.kind, api.content)
      modifies this, api
      ensures Diffing(P, oldCh, newCh, st', K, D, t0, q0, q') && DiffReuse(oldCh, newCh, st', |K|) && Left(st') < Left(st)
      ensures DiffMade(q0, q', st', |K|)
      ensures DiffShows(st', api.kids, api.kind, api.content) && TextsKept(old(api.content), api.content, SlotHandles(oldCh))
      decreases SizeSeq(newCh), 3
    {
      ghost var k1, d1 := api.kids, api.kind;
      var r;
      r, q' := PatchSlot(P, oldCh, newCh, st, st.oe, st.ns, q, K, D, t0, q0);
      ghost var k2, d2 := api.kids, api.kind;
      st' := MoveLeft(P, oldCh, newCh, st, r, K, D, k1, d1, t0, q0, q');
      ShowsLeftMoved(P, oldCh, st, st', r, k2, d2, api.content, api.kids, api.kind);
      ReuseMatched(oldCh, newCh, st, st', st.oe, st.ns, r, |K|);
      MadeSlotsOne(Some(r), |K|);
      MadeFront(q0, q, q', st, st', Some(r), |K|);
    }

    /** The second half of the step above: the patched node moves before the old start's node. */
    method MoveLeft(P: Handle, oldCh: seq<Option<VNode>>, newCh: seq<Option<VNode>>, st: DiffState, r: VNode,
                    ghost K: seq<seq<Handle>>, ghost D: seq<NodeKind>, ghost k1: seq<seq<Handle>>, ghost d1: seq<NodeKind>,
                    ghost t0: seq<Event>, ghost q0: seq<VNode>, ghost q: seq<VNode>)
      returns (st': DiffState)
      requires Valid() && OldOk(P, oldCh, K, D) && NewOk(newCh) && |D| == |K| && DiffValues(oldCh, newCh, st)
      requires DiffSink(P, oldCh, st, K, D, k1, d1, NoDelay(oldCh)) && Extends(t0, trace) && Queued(q0, q)
      requires st.os < st.oe && st.ns <= st.ne && st.cur[st.os].Some? && st.cur[st.oe].Some? && newCh[st.ns].Some?
      requires st.cur[st.oe].value.key == newCh[st.ns].value.key
      requires Patched(st.cur[st.oe].value, r, k1, d1, api.kids, api.kind, NoDelay(oldCh))
      requires Shape(r) == Shape(newCh[st.ns].value)
      modifies api`kids, api`parent
      ensures Grown(old(api.kids), old(api.kind), api.kids, api.kind, P)
      ensures MovedApart(P, oldCh, st') && api.content == old(api.content)
      ensures Diffing(P, oldCh, newCh, st', K, D, t0, q0, q) && Left(st') < Left(st)
      ensures st' == st.(oe := st.oe - 1, ns := st.ns + 1, front := st.front + [Some(r)])
    {
      ghost var nd := NoDelay(oldCh);
      InPlay(P, oldCh, st, K, D, k1, d1, nd, st.os);
      InPlay(P, oldCh, st, K, D, k1, d1, nd, st.oe);
      InPlayDistinct(oldCh, st.cur, st.oe, st.os);
      ghost var k2, d2 := api.kids, api.kind;
      assert k2[P] == k1[P];
      MoveWithin(P, r.elm.value, st.cur[st.os].value.elm);
      st' := st.(oe := st.oe - 1, ns := st.ns + 1, front := st.front + [Some(r)]);
      MovedLeft(P, oldCh, newCh, st, st', r, K, D, k1, d1, k2, d2, api.kids, nd);
    }

    /**
     * None of the four ends pair up: the key index (built on first use)
     * finds an old node with the new start's key and selector, which is
     * patched and moved; otherwise a new node is created.
     */
    method StepByKey(P: Handle, oldCh: seq<Option<VNode>>, newCh: seq<Option<VNode>>, st: DiffState, q: seq<VNode>,
                     ghost K: seq<seq<Handle>>, ghost D: seq<NodeKind>, ghost t0: seq<Event>, ghost q0: seq<VNode>)
      returns (st': DiffState, q': seq<VNode>)
      requires Diffing(P, oldCh, newCh, st, K, D, t0, q0, q) && OldKeys(oldCh) && DiffReuse(oldCh, newCh, st, |K|)
      requires DiffMade(q0, q, st, |K|)
      requires st.os <= st.oe && st.ns <= st.ne
      requires st.cur[st.os].Some? && st.cur[st.oe].Some? && newCh[st.ns].Some?
      requires !SameVnode(st.cur[st.os].value, newCh[st.ns].value) && !SameVnode(st.cur[st.oe].value, newCh[st.ns].value)
      requires DiffShows(st, api.kids, api.kind, api.content)
      modifies this, api
      ensures Diffing(P, oldCh, newCh, st', K, D, t0, q0, q') && DiffReuse(oldCh, newCh, st', |K|) && Left(st') < Left(st)
      ensures DiffMade(q0, q', st', |K|)
      ensures DiffShows(st', api.kids, api.kind, api.content) && TextsKept(old(api.content), api.content, SlotHandles(oldCh))
      decreases SizeSeq(newCh), 5
    {
      var st1 := st;
      if st.keyIdx.None? {
        var m := CreateKeyToOldIdx(st.cur, st.os, st.oe);
        IndexReady(P, oldCh, newCh, st, m, K, D, api.kids, api.kind, NoDelay(oldCh));
        st1 := st.(keyIdx := Some(m));
        MadeKept(q0, q, st, st1, |K|);
        ShowsSkipped(st, st1, api.kids, api.kind, api.content);
      }
      st', q' := StepLookup(P, oldCh, newCh, st1, q, K, D, t0, q0);
    }

    /** The lookup half of the step above, once the key index exists. */
    method StepLookup(P: Handle, oldCh: seq<Option<VNode>>, newCh: seq<Option<VNode>>, st: DiffState, q: seq<VNode>,
                      ghost K: seq<seq<Handle>>, ghost D: seq<NodeKind>, ghost t0: seq<Event>, ghost q0: seq<VNode>)
      returns (st': DiffState, q': seq<VNode>)
      requires Diffing(P, oldCh, newCh, st, K, D, t0, q0, q) && OldKeys(oldCh) && DiffReuse(oldCh, newCh, st, |K|)
      requires DiffMade(q0, q, st, |K|)
      requires st.os <= st.oe && st.ns <= st.ne && st.keyIdx.Some?
      requires st.cur[st.os].Some? && st.cur[st.oe].Some? && newCh[st.ns].Some?
      requires !SameVnode(st.cur[st.os].value, newCh[st.ns].value) && !SameVnode(st.cur[st.oe].value, newCh[st.ns].value)
      requires DiffShows(st, api.kids, api.kind, api.content)
      modifies this, api
      ensures Diffing(P, oldCh, newCh, st', K, D, t0, q0, q') && DiffReuse(oldCh, newCh, st', |K|) && Left(st') < Left(st)
      ensures DiffMade(q0, q', st', |K|)
      ensures DiffShows(st', api.kids, api.kind, api.content) && TextsKept(old(api.content), api.content, SlotHandles(oldCh))
      decreases SizeSeq(newCh), 4
    {
      var v := newCh[st.ns].value;
      var m := st.keyIdx.value;
      if v.key.None? || v.key.value !in m {
        NoneWaiting(oldCh, newCh, st);
        st', q' := StepCreate(P, oldCh, newCh, st, q, K, D, t0, q0);
      } else {
        st', q' := StepKeyed(P, oldCh, newCh, st, q, K, D, t0, q0);
      }
    }

    /** The new start's key is in the index: the old node found is reused when its selector agrees, else a node is made. */
    method StepKeyed(P: Handle, oldCh: seq<Option<VNode>>, newCh: seq<Option<VNode>>, st: DiffState, q: seq<VNode>,
                     ghost K: seq<seq<Handle>>, ghost D: seq<NodeKind>, ghost t0: seq<Event>, ghost q0: seq<VNode>)
      returns (st': DiffState, q': seq<VNode>)
      requires Diffing(P, oldCh, newCh, st, K, D, t0, q0, q) && OldKeys(oldCh) && DiffReuse(oldCh, newCh, st, |K|)
      requires DiffMade(q0, q, st, |K|)
      requires st.os <= st.oe && st.ns <= st.ne && st.keyIdx.Some?
      requires st.cur[st.os].Some? && st.cur[st.oe].Some? && newCh[st.ns].Some?
      requires newCh[st.ns].value.key.Some? && newCh[st.ns].value.key.value in st.keyIdx.value
      requires !SameVnode(st.cur[st.os].value, newCh[st.ns].value) && !SameVnode(st.cur[st.oe].value, newCh[st.ns].value)
      requires DiffShows(st, api.kids, api.kind, api.content)
      modifies this, api
      ensures Diffing(P, oldCh, newCh, st', K, D, t0, q0, q') && DiffReuse(oldCh, newCh, st', |K|) && Left(st') < Left(st)
      ensures DiffMade(q0, q', st', |K|)
      ensures DiffShows(st', api.kids, api.kind, api.content) && TextsKept(old(api.content), api.content, SlotHandles(oldCh))
      decreases SizeSeq(newCh), 3
    {
      var v := newCh[st.ns].value;
      var idx := st.keyIdx.value[v.key.value];
      assert KeyAt(newCh, st.ns) == Some(v.key.value);
      if st.cur[idx].value.sel != v.sel {
        NoneWaiting(oldCh, newCh, st);
        st', q' := StepCreate(P, oldCh, newCh, st, q, K, D, t0, q0);
      } else {
        st', q' := StepMiddle(P, oldCh, newCh, st, idx, q, K, D, t0, q0);
      }
    }

    /** A new node for the new start, created and inserted before the old start's node. */
    method StepCreate(P: Handle, oldCh: seq<Option<VNode>>, newCh: seq<Option<VNode>>, st: DiffState, q: seq<VNode>,
                      ghost K: seq<seq<Handle>>, ghost D: seq<NodeKind>, ghost t0: seq<Event>, ghost q0: seq<VNode>)
      returns (st': DiffState, q': seq<VNode>)
      requires Diffing(P, oldCh, newCh, st, K, D, t0, q0, q) && OldKeys(oldCh) && DiffReuse(oldCh, newCh, st, |K|)
      requires DiffMade(q0, q, st, |K|)
      requires st.os <= st.oe && st.ns <= st.ne
      requires st.cur[st.os].Some? && newCh[st.ns].Some?
      requires forall i :: 0 <= i < |oldCh| ==> !KeyedMatch(oldCh[i], newCh[st.ns])
      requires DiffShows(st, api.kids, api.kind, api.content)
      modifies this, api
      ensures Diffing(P, oldCh, newCh, st', K, D, t0, q0, q') && DiffReuse(oldCh, newCh, st', |K|) && Left(st') < Left(st)
      ensures DiffMade(q0, q', st', |K|)
      ensures DiffShows(st', api.kids, api.kind, api.content) && TextsKept(old(api.content), api.content, SlotHandles(oldCh))
    {
      InPlay(P, oldCh, st, K, D, api.kids, api.kind, NoDelay(oldCh), st.os);
      api.ChildrenBelow(P);
      ghost var k1, d1, c1, t1 := api.kids, api.kind, api.content, trace;
      var r;
      r, q' := InsertCreated(P, newCh[st.ns].value, st.cur[st.os].value.elm, q);
      st' := st.(ns := st.ns + 1, front := st.front + [Some(r)]);
      ShowsMoved(P, oldCh, st, k1, d1, c1, api.kids, api.kind, api.content);
      ShowsStep(st, st', -1, Some(r), api.kids, api.kind, api.content);
      CreatedFront(P, oldCh, newCh, st, st', r, K, D, k1, d1, api.kids, api.kind, NoDelay(oldCh));
      ReuseCreated(oldCh, newCh, st.ns, r, |K|, |k1|, |api.kids|);
      ReuseStep(oldCh, newCh, st, st', -1, st.ns, Some(r), |K|);
      ExtendsByCreate(t1, Cbs(Create), newCh[st.ns].value);
      ExtendsTrans(t0, t1, trace);
      QueuedByTree(q, r);
      QueuedTrans(q0, q, q');
      MadeAll(r, |K|, api.kids, api.kind);
      QueuedExactlyAppend(q, InsertOrder(r));
      MadeSlotsOne(Some(r), |K|);
      MadeFront(q0, q, q', st, st', Some(r), |K|);
    }

    /** The old node `idx` found by key: patched, its slot cleared, and moved before the old start's node. */
    method StepMiddle(P: Handle, oldCh: seq<Option<VNode>>, newCh: seq<Option<VNode>>, st: DiffState, idx: int, q: seq<VNode>,
                      ghost K: seq<seq<Handle>>, ghost D: seq<NodeKind>, ghost t0: seq<Event>, ghost q0: seq<VNode>)
      returns (st': DiffState, q': seq<VNode>)
      requires Diffing(P, oldCh, newCh, st, K, D, t0, q0, q) && OldKeys(oldCh) && DiffReuse(oldCh, newCh, st, |K|)
      requires DiffMade(q0, q, st, |K|)
      requires st.os < idx < st.oe && st.ns <= st.ne
      requires st.cur[st.os].Some? && st.cur[idx].Some? && newCh[st.ns].Some?
      requires SameVnode(st.cur[idx].value, newCh[st.ns].value)
      requires DiffShows(st, api.kids, api.kind, api.content)
      modifies this, api
      ensures Diffing(P, oldCh, newCh, st', K, D, t0, q0, q') && DiffReuse(oldCh, newCh, st', |K|) && Left(st') < Left(st)
      ensures DiffMade(q0, q', st', |K|)
      ensures DiffShows(st', api.kids, api.kind, api.content) && TextsKept(old(api.content), api.content, SlotHandles(oldCh))
      decreases SizeSeq(newCh), 2
    {
      ghost var k1, d1 := api.kids, api.kind;
      var r;
      r, q' := PatchSlot(P, oldCh, newCh, st, idx, st.ns, q, K, D, t0, q0);
      ghost var k2, d2 := api.kids, api.kind;
      st' := MoveFromMiddle(P, oldCh, newCh, st, idx, r, K, D, k1, d1, t0, q0, q');
      ShowsMiddleMoved(P, oldCh, st, st', idx, r, k2, d2, api.content, api.kids, api.kind);
      ReuseMatched(oldCh, newCh, st, st', idx, st.ns, r, |K|);
      MadeSlotsOne(Some(r), |K|);
      MadeFront(q0, q, q', st, st', Some(r), |K|);
    }

    /** The second half of the step above: the slot is cleared and the node moves before the old start's node. */
    method MoveFromMiddle(P: Handle, oldCh: seq<Option<VNode>>, newCh: seq<Option<VNode>>, st: DiffState, idx: int, r: VNode,
                          ghost K: seq<seq<Handle>>, ghost D: seq<NodeKind>, ghost k1: seq<seq<Handle>>, ghost d1: seq<NodeKind>,
                          ghost t0: seq<Event>, ghost q0: seq<VNode>, ghost q: seq<VNode>)
      returns (st': DiffState)
      requires Valid() && OldOk(P, oldCh, K, D) && NewOk(newCh) && |D| == |K| && DiffValues(oldCh, newCh, st)
      requires DiffSink(P, oldCh, st, K, D, k1, d1, NoDelay(oldCh)) && Extends(t0, trace) && Queued(q0, q)
      requires st.os < idx < st.oe && st.ns <= st.ne && st.cur[st.os].Some? && st.cur[idx].Some? && newCh[st.ns].Some?
      requires st.cur[idx].value.key == newCh[st.ns].value.key
      requires Patched(st.cur[idx].value, r, k1, d1, api.kids, api.kind, NoDelay(oldCh))
      requires Shape(r) == Shape(newCh[st.ns].value)
      modifies api`kids, api`parent
      ensures Grown(old(api.kids), old(api.kind), api.kids, api.kind, P)
      ensures MovedApart(P, oldCh, st') && api.content == old(api.content)
      ensures Diffing(P, oldCh, newCh, st', K, D, t0, q0, q) && Left(st') < Left(st)
      ensures st' == st.(cur := st.cur[idx := None], ns := st.ns + 1, front := st.front + [Some(r)])
    {
      ghost var nd := NoDelay(oldCh);
      InPlay(P, oldCh, st, K, D, k1, d1, nd, st.os);
      InPlay(P, oldCh, st, K, D, k1, d1, nd, idx);
      InPlayDistinct(oldCh, st.cur, idx, st.os);
      ghost var k2, d2 := api.kids, api.kind;
      assert k2[P] == k1[P];
      MoveWithin(P, r.elm.value, st.cur[st.os].value.elm);
      st' := st.(cur := st.cur[idx := None], ns := st.ns + 1, front := st.front + [Some(r)]);
      MovedFromMiddle(P, oldCh, newCh, st, st', idx, r, K, D, k1, d1, k2, d2, api.kids, nd);
    }

    /**
     * After the loop: new slots left are created and inserted before the
     * first back result (or last); old slots left are removed.
     */
    method DiffFinish(P: Handle, oldCh: seq<Option<VNode>>, newCh: seq<Option<VNode>>, st: DiffState, q: seq<VNode>,
                      ghost K: seq<seq<Handle>>, ghost D: seq<NodeKind>, ghost t0: seq<Event>, ghost q0: seq<VNode>)
      returns (out: seq<Option<VNode>>, q': seq<VNode>, ghost n: int, ghost pending: seq<Handle>)
      requires Diffing(P, oldCh, newCh, st, K, D, t0, q0, q) && OldKeys(oldCh) && DiffReuse(oldCh, newCh, st, |K|)
      requires DiffMade(q0, q, st, |K|) && DiffShows(st, api.kids, api.kind, api.content)
      requires !(st.os <= st.oe && st.ns <= st.ne)
      modifies this, api
      ensures Valid() && Extends(t0, trace) && Queued(q0, q')
      ensures DiffDone(P, oldCh, newCh, out, K, D, api.kids, api.kind, NoDelay(oldCh), n, pending)
      ensures AllShow(out, api.kids, api.kind, api.content) && TextsKept(old(api.content), api.content, SlotHandles(oldCh))
      ensures AllReuse(oldCh, newCh, out, |K|)
      ensures QueuedExactly(q0, q', MadeSlots(out, |K|))
    {
      if st.os > st.oe && st.ns <= st.ne {
        out, q', n, pending := FinishAdding(P, oldCh, newCh, st, q, K, D, t0, q0);
      } else {
        q' := q;
        ReuseNoneLeft(oldCh, newCh, st, |K|);
        out, n, pending := FinishRemoving(P, oldCh, newCh, st, K, D, t0, q0, q);
        MadeSlotsAppend(st.front, st.back, |K|);
      }
    }

    /** New slots used up: the old slots left, if any, are removed; the results are the front and back ones. */
    method FinishRemoving(P: Handle, oldCh: seq<Option<VNode>>, newCh: seq<Option<VNode>>, st: DiffState,
                          ghost K: seq<seq<Handle>>, ghost D: seq<NodeKind>, ghost t0: seq<Event>, ghost q0: seq<VNode>,
                          ghost q: seq<VNode>)
      returns (out: seq<Option<VNode>>, ghost n: int, ghost pending: seq<Handle>)
      requires Diffing(P, oldCh, newCh, st, K, D, t0, q0, q) && st.ns > st.ne
      requires DiffShows(st, api.kids, api.kind, api.content)
      modifies this, api
      ensures Valid() && Extends(t0, trace)
      ensures DiffDone(P, oldCh, newCh, out, K, D, api.kids, api.kind, NoDelay(oldCh), n, pending)
      ensures out == st.front + st.back
      ensures AllShow(out, api.kids, api.kind, api.content) && api.content == old(api.content)
    {
      ResultsBelow(P, oldCh, st, K, D, api.kids, api.kind, NoDelay(oldCh));
      if st.os > st.oe {
        FinishNone(P, oldCh, newCh, st, K, D, api.kids, api.kind, NoDelay(oldCh));
        out, n, pending := st.front + st.back, |st.front|, [];
        AllShowJoin(st.front, st.back, api.kids, api.kind, api.content);
      } else {
        out, n, pending := RemoveLeftOver(P, oldCh, newCh, st, K, D, t0, q0, q);
      }
    }

    /** The old slots left in play are removed from `P`. */
    method RemoveLeftOver(P: Handle, oldCh: seq<Option<VNode>>, newCh: seq<Option<VNode>>, st: DiffState,
                          ghost K: seq<seq<Handle>>, ghost D: seq<NodeKind>, ghost t0: seq<Event>, ghost q0: seq<VNode>,
                          ghost q: seq<VNode>)
      returns (out: seq<Option<VNode>>, ghost n: int, ghost pending: seq<Handle>)
      requires Diffing(P, oldCh, newCh, st, K, D, t0, q0, q) && st.ns > st.ne && st.os <= st.oe
      requires AllShow(st.front, api.kids, api.kind, api.content) && AllShow(st.back, api.kids, api.kind, api.content)
      requires P !in SlotHandles(st.front) && P !in SlotHandles(st.back)
      modifies this, api
      ensures Valid() && Extends(t0, trace)
      ensures DiffDone(P, oldCh, newCh, out, K, D, api.kids, api.kind, NoDelay(oldCh), n, pending)
      ensures out == st.front + st.back
      ensures AllShow(out, api.kids, api.kind, api.content) && api.content == old(api.content)
    {
      RemovalPlanned(P, oldCh, newCh, st, K, D, api.kids, api.kind);
      ghost var gone := DetachedAtOnce(st.cur, st.os, st.oe + 1);
      out, n, pending := st.front + st.back, |st.front|, Without(Elms(Mid(st)), gone);
      AllShowReplaced(st.front, st.back, P, Without(api.kids[P], gone), api.kids, api.kind, api.content);
      RemoveKnown(P, st.cur, st.os, st.oe, t0, api.kids[P := Without(api.kids[P], gone)]);
    }

    /** Old slots used up: the new slots left are created and inserted before the first back result. */
    method FinishAdding(P: Handle, oldCh: seq<Option<VNode>>, newCh: seq<Option<VNode>>, st: DiffState, q: seq<VNode>,
                      ghost K: seq<seq<Handle>>, ghost D: seq<NodeKind>, ghost t0: seq<Event>, ghost q0: seq<VNode>)
      returns (out: seq<Option<VNode>>, q': seq<VNode>, ghost n: int, ghost pending: seq<Handle>)
      requires Valid() && NewOk(newCh) && DiffValues(oldCh, newCh, st) && st.os > st.oe && st.ns <= st.ne
      requires DiffSink(P, oldCh, st, K, D, api.kids, api.kind, NoDelay(oldCh)) && DiffReuse(oldCh, newCh, st, |K|)
      requires Extends(t0, trace) && Queued(q0, q) && DiffMade(q0, q, st, |K|)
      requires DiffShows(st, api.kids, api.kind, api.content)
      modifies this, api
      ensures Valid() && Extends(t0, trace) && Queued(q0, q')
      ensures DiffDone(P, oldCh, newCh, out, K, D, api.kids, api.kind, NoDelay(oldCh), n, pending)
      ensures AllReuse(oldCh, newCh, out, |K|)
      ensures QueuedExactly(q0, q', MadeSlots(out, |K|))
      ensures AllShow(out, api.kids, api.kind, api.content) && Kept(old(api.content), api.content)
    {
      ghost var nd := NoDelay(oldCh);
      ghost var k1, d1 := api.kids, api.kind;
      n, pending := |st.front|, [];
      AddReady(P, oldCh, st, K, D, k1, d1, nd);
      var added;
      added, q' := AddRemaining(P, newCh, st, q, t0, q0);
      out := st.front + added + st.back;
      AddedDone(P, oldCh, newCh, st, added, K, D, k1, d1, api.kids, api.kind, nd);
      MadeSlotsAll(added, |K|, |k1|, api.kids, api.kind);
      QueuedExactlyAppend(q, InsertOrderSlots(added));
      MadeFinished(q0, q, q', st, added, |K|);
    }

    /**
     * The `addVnodes` call of the step above: the new slots `ns..ne` are
     * created and inserted between the front and the back results of `P`.
     */
    method AddRemaining(P: Handle, newCh: seq<Option<VNode>>, st: DiffState, q: seq<VNode>,
                        ghost t0: seq<Event>, ghost q0: seq<VNode>)
      returns (added: seq<Option<VNode>>, q': seq<VNode>)
      requires Valid() && P < |api.kids| && 0 <= st.ns <= st.ne < |newCh|
      requires forall i :: st.ns <= i <= st.ne && newCh[i].Some? ==> WF(newCh[i].value)
      requires api.kids[P] == Elms(st.front) + Elms(st.back)
      requires AllShow(st.front, api.kids, api.kind, api.content) && AllShow(st.back, api.kids, api.kind, api.content)
      requires P !in SlotHandles(st.front) && P !in SlotHandles(st.back)
      requires Extends(t0, trace) && Queued(q0, q)
      modifies this`trace, api
      ensures Valid() && Extends(t0, trace) && Queued(q0, q')
      ensures SameShapes(added, newCh[st.ns..st.ne + 1]) && SlotsDisjoint(added)
      ensures Built(added, old(|api.kids|), api.kids, api.kind)
      ensures Grown(old(api.kids), old(api.kind), api.kids, api.kind, P)
      ensures api.kids[P] == Elms(st.front) + Elms(added) + Elms(st.back)
      ensures AllShow(st.front + added + st.back, api.kids, api.kind, api.content) && Kept(old(api.content), api.content)
      ensures q' == q + InsertOrderSlots(added)
    {
      ghost var t1 := trace;
      ghost var t2 := t1 + CreateEventsSlots(Cbs(Create), newCh[st.ns..st.ne + 1]);
      ExtendsByCreateSlots(t1, Cbs(Create), newCh[st.ns..st.ne + 1]);
      ExtendsTrans(t0, t1, t2);
      var before := BeforeCorrected(st.back);
      ghost var k1, d1, c1 := api.kids, api.kind, api.content;
      added, q' := AddVnodes(P, before, newCh, st.ns, st.ne, q, Elms(st.front), Elms(st.back));
      AllShowAround(st.front, added, st.back, {P}, k1, d1, c1, api.kids, api.kind, api.content);
      assert trace == t2;
      QueuedBySlots(q, added);
      QueuedTrans(q0, q, q');
    }

    /** Clearing slots keeps a list free of removal hooks. */
    lemma NoDelayCleared(oldCh: seq<Option<VNode>>, cur: seq<Option<VNode>>, lo: nat, hi: nat)
      requires Cleared(oldCh, cur) && lo <= hi <= |cur| && NoDelay(oldCh)
      ensures NoDelay(cur[lo..hi])
    {
      forall i | 0 <= i < hi - lo && cur[lo..hi][i].Some?
        ensures NoRemoveHooks(cur[lo..hi][i].value)
      {
        assert cur[lo..hi][i] == cur[lo + i] == oldCh[lo + i];
      }
    }

    /** The nodes detached at once are nodes of the old slots left, and all of them when nothing delays. */
    lemma GoneFromMid(oldCh: seq<Option<VNode>>, st: DiffState)
      requires Cleared(oldCh, st.cur) && 0 <= st.os <= st.oe < |st.cur|
      ensures forall h :: h in DetachedAtOnce(st.cur, st.os, st.oe + 1) ==> h in Elms(Mid(st))
      ensures NoDelay(oldCh) ==> forall h :: h in Elms(Mid(st)) ==> h in DetachedAtOnce(st.cur, st.os, st.oe + 1)
    {
      DetachedOfSlots(st.cur, st.os, st.oe + 1);
      if NoDelay(oldCh) {
        NoDelayCleared(oldCh, st.cur, st.os, st.oe + 1);
      }
    }

    /** What removing the old slots left will do to `P`'s list, worked out before the removal. */
    lemma RemovalPlanned(P: Handle, oldCh: seq<Option<VNode>>, newCh: seq<Option<VNode>>, st: DiffState,
                         K: seq<seq<Handle>>, D: seq<NodeKind>, k1: seq<seq<Handle>>, d1: seq<NodeKind>)
      requires DiffValues(oldCh, newCh, st) && OldOk(P, oldCh, K, D) && st.os <= st.oe && st.ns > st.ne
      requires DiffSink(P, oldCh, st, K, D, k1, d1, NoDelay(oldCh))
      ensures P < |k1| && Removable(P, st.cur, st.os, st.oe, k1)
      ensures DiffDone(P, oldCh, newCh, st.front + st.back, K, D, k1[P := Without(k1[P], DetachedAtOnce(st.cur, st.os, st.oe + 1))],
                       d1, NoDelay(oldCh), |st.front|, Without(Elms(Mid(st)), DetachedAtOnce(st.cur, st.os, st.oe + 1)))
    {
      var nd := NoDelay(oldCh);
      MidRemovable(P, oldCh, st, K, D, k1, d1, nd);
      var gone := DetachedAtOnce(st.cur, st.os, st.oe + 1);
      GoneFromMid(oldCh, st);
      FinishRemove(P, oldCh, newCh, st, gone, K, D, k1, k1[P := Without(k1[P], gone)], d1, nd);
    }

    /**
     * `removeVnodes` where the caller knows the children of `P` it leaves
     * behind (`k2`): the calls it makes extend the trace.
     */
    method RemoveKnown(P: Handle, vnodes: seq<Option<VNode>>, startIdx: int, endIdx: int,
                       ghost t0: seq<Event>, ghost k2: seq<seq<Handle>>)
      requires Valid() && 0 <= startIdx <= endIdx + 1 <= |vnodes| && P < |api.kids|
      requires Removable(P, vnodes, startIdx, endIdx, api.kids)
      requires k2 == api.kids[P := Without(api.kids[P], DetachedAtOnce(vnodes, startIdx, endIdx + 1))]
      requires Extends(t0, trace)
      modifies this, api`kids, api`parent
      ensures Valid() && Extends(t0, trace) && api.kids == k2
      ensures api.kind == old(api.kind) && api.content == old(api.content)
    {
      ghost var t2 := trace + RemoveEvents(Cbs(Destroy), Cbs(Remove), vnodes, startIdx, endIdx + 1, |callbacks|);
      ExtendsByRemove(trace, Cbs(Destroy), Cbs(Remove), vnodes, startIdx, endIdx + 1, |callbacks|);
      ExtendsTrans(t0, trace, t2);
      RemoveVnodes(P, vnodes, startIdx, endIdx);
    }

    // ------------------------------------------------------------- patch

    /**
     * `patch(root, v)`: calls the `pre` hooks; patches the old root in place
     * when `v` matches it, and otherwise creates `v` and, when the old root
     * has a parent, puts `v`'s node after it and removes it; then calls the
     * queued `insert` hooks and the `post` hooks. A virtual text node as the
     * old root makes `emptyNodeAt` throw after the `pre` hooks ran.
     */
    method Patch(root: Root, v: VNode) returns (r: Result<VNode, string>, ghost mid: seq<Event>, ghost inserted: seq<VNode>)
      requires Valid() && WF(v) && KeysUnique(v)
      requires OldRoot(root).Some? ==> var o := OldRoot(root).value;
        o.elm.Some? && o.elm.value < |api.kids|
        && (SameVnode(o, v) ==> Mounted(o, api.kids, api.kind) && KeysUnique(o) && Shows(o, api.kids, api.kind, api.content))
      modifies this, api
      ensures Valid()
      ensures r.Ok? ==> Shows(r.value, api.kids, api.kind, api.content)
      ensures r.Err? <==> OldRoot(root).None?
      ensures r.Err? ==> trace == old(trace) + PreEvents(Cbs(Pre)) && api.kids == old(api.kids)
      ensures r.Ok? ==> trace == old(trace) + PreEvents(Cbs(Pre)) + mid + InsertEvents(inserted) + PostEvents(Cbs(Post))
      ensures r.Ok? ==> Structural(mid) && Queued([], inserted) && Shape(r.value) == Shape(v)
      ensures r.Ok? ==> multiset(inserted) == multiset(Made(r.value, old(|api.kids|)))
      ensures r.Ok? && SameVnode(OldRoot(root).value, v) ==>
        Patched(OldRoot(root).value, r.value, old(api.kids), old(api.kind), api.kids, api.kind,
                Cbs(Remove) == [] && NoRemoveHooks(OldRoot(root).value))
      ensures r.Ok? && OldRoot(root).value == v ==> r.value == v && inserted == [] && api.kids == old(api.kids)
      ensures r.Ok? ==> var prev := OldRoot(root).value;
        SameVnode(prev, v) && prev != v && v.text.None? && prev.children.Array? && v.children.Array? ==>
          r.value.children.Array? && AllReuse(prev.children.items, v.children.items, r.value.children.items, old(|api.kids|))
      ensures r.Ok? && !SameVnode(OldRoot(root).value, v) ==>
        inserted == InsertOrder(r.value)
        && Replaced(OldRoot(root).value.elm.value, r.value, old(api.kids), old(api.kind), old(api.parent),
                    api.kids, api.kind, DetachesAtOnce(OldRoot(root).value))
    {
      Emit(PreEvents(Cbs(Pre)));
      ghost var t1 := trace;
      var prev := OldRoot(root);
      if prev.None? {
        r, mid, inserted := Err("emptyNodeAt: a virtual text node has no tag name"), [], [];
        return;
      }
      var res, queue := PatchRoot(prev.value, v);
      assert queue[0..] == queue;
      mid, inserted := trace[|t1|..], queue;
      assert trace == t1 + mid;
      Emit(InsertEvents(queue));
      Emit(PostEvents(Cbs(Post)));
      r := Ok(res);
    }

    /** The middle of `patch`: the old root is patched, or replaced by `v`'s new tree. */
    method PatchRoot(prev: VNode, v: VNode) returns (res: VNode, queue: seq<VNode>)
      requires Valid() && WF(v) && KeysUnique(v) && prev.elm.Some? && prev.elm.value < |api.kids|
      requires SameVnode(prev, v) ==> Mounted(prev, api.kids, api.kind) && KeysUnique(prev) && Shows(prev, api.kids, api.kind, api.content)
      modifies this, api
      ensures Valid() && Extends(old(trace), trace) && Queued([], queue) && Shape(res) == Shape(v)
      ensures Shows(res, api.kids, api.kind, api.content)
      ensures QueuedExactly([], queue, Made(res, old(|api.kids|)))
      ensures SameVnode(prev, v) ==>
        Patched(prev, res, old(api.kids), old(api.kind), api.kids, api.kind, Cbs(Remove) == [] && NoRemoveHooks(prev))
      ensures prev == v ==> res == v && queue == [] && api.kids == old(api.kids)
      ensures SameVnode(prev, v) && prev != v && v.text.None? && prev.children.Array? && v.children.Array? ==>
        res.children.Array? && AllReuse(prev.children.items, v.children.items, res.children.items, old(|api.kids|))
      ensures !SameVnode(prev, v) ==>
        queue == InsertOrder(res)
        && Replaced(prev.elm.value, res, old(api.kids), old(api.kind), old(api.parent), api.kids, api.kind, DetachesAtOnce(prev))
    {
      if SameVnode(prev, v) {
        ghost var t0 := trace;
        res, queue := PatchVnode(prev, v, []);
        PatchingExtends(Cbs(Update), prev, v, res, t0, trace);
      } else {
        res, queue := ReplaceRoot(prev, v, []);
        QueuedByTree([], res);
        assert [] + InsertOrder(res) == InsertOrder(res);
        QueuedExactlyAppend([], InsertOrder(res));
      }
    }

    /**
     * The branch of `patch` for an old root `prev` that `v` does not match:
     * `v` is created, and when `prev` has a parent, `v`'s node goes right
     * after `prev` and `prev` is removed.
     */
    method ReplaceRoot(prev: VNode, v: VNode, queue: seq<VNode>) returns (res: VNode, queue': seq<VNode>)
      requires Valid() && WF(v) && prev.elm.Some? && prev.elm.value < |api.kids|
      modifies this, api
      ensures Valid() && Shape(res) == Shape(v) && Extends(old(trace), trace) && queue' == queue + InsertOrder(res)
      ensures Made(res, old(|api.kids|)) == InsertOrder(res)
      ensures Shows(res, api.kids, api.kind, api.content) && Kept(old(api.content), api.content)
      ensures Replaced(prev.elm.value, res, old(api.kids), old(api.kind), old(api.parent), api.kids, api.kind, DetachesAtOnce(prev))
    {
      var elm := prev.elm.value;
      var parent := api.ParentNode(elm);
      ghost var k0, d0, p0, t0 := api.kids, api.kind, api.parent, trace;
      ExtendsByCreate(t0, Cbs(Create), v);
      res, queue' := CreateElm(v, queue);
      MadeAll(res, |k0|, api.kids, api.kind);
      assert Extends(t0, trace);
      if parent.Some? {
        api.ChildOnlyOfParent(parent.value, elm);
        ghost var k1 := api.kids;
        SwapIn(parent.value, prev, res, k0, d0, p0, t0);
        ShowsKept(res, k1, api.kind, api.content, api.kids, api.kind, api.content);
      }
    }

    /** `insertBefore(parent, res, nextSibling(prev))` and `removeVnodes(parent, [prev], 0, 0)`. */
    method SwapIn(P: Handle, prev: VNode, res: VNode, ghost k0: seq<seq<Handle>>, ghost d0: seq<NodeKind>,
                  ghost p0: seq<Option<Handle>>, ghost t0: seq<Event>)
      requires Valid() && prev.elm.Some? && prev.elm.value < |k0| && prev.elm.value < |p0| && p0[prev.elm.value] == Some(P) && P < |k0|
      requires prev.elm.value < |api.kids| && P < |api.kids| && prev.elm.value in api.kids[P]
      requires res.elm.Some? && |k0| <= res.elm.value < |api.kids| && api.parent[res.elm.value].None?
      requires HandlesIn(res, |k0|, |api.kids|) && Mounted(res, api.kids, api.kind) && Grown(k0, d0, api.kids, api.kind, -1)
      requires Extends(t0, trace)
      modifies this, api`kids, api`parent
      ensures Valid() && Extends(t0, trace)
      ensures Replaced(prev.elm.value, res, k0, d0, p0, api.kids, api.kind, DetachesAtOnce(prev))
      ensures |api.kids| == old(|api.kids|) && forall h :: 0 <= h < |api.kids| && h != P ==> api.kids[h] == old(api.kids[h])
    {
      var o, e := prev.elm.value, res.elm.value;
      ghost var k1, d1 := api.kids, api.kind;
      api.ChildrenBelow(P);
      ghost var a, b := SplitAround(k1[P], o);
      PutAfter(P, o, e, a, b);
      ghost var k2 := api.kids;
      ghost var now := DetachesAtOnce(prev);
      ghost var k3 := k2[P := a + (if now then [] else [o]) + ([e] + b)];
      api.ChildrenBelow(P);
      OneDetached(prev, a, [e] + b);
      assert Valid();
      RemoveKnown(P, [Some(prev)], 0, 0, t0, k3);
      ReplacedBy(P, o, res, k0, d0, p0, k1, d1, k2, k3, a, b, now);
    }

    /** `insertBefore(P, e, nextSibling(o))` for a detached node `e`: it goes right after `o`. */
    method PutAfter(P: Handle, o: Handle, e: Handle, ghost a: seq<Handle>, ghost b: seq<Handle>)
      requires Valid() && P < |api.kids| && e < |api.kids| && api.parent[e].None? && api.kids[P] == a + [o] + b
      modifies api`kids, api`parent
      ensures api.Valid() && |api.kids| == old(|api.kids|) && api.kids[P] == a + [o] + ([e] + b)
      ensures forall h :: 0 <= h < |api.kids| && h != P ==> api.kids[h] == old(api.kids[h])
    {
      api.ChildrenBelow(P);
      api.ChildOnlyOfParent(P, e);
      assert o in api.kids[P];
      api.ChildOnlyOfParent(P, o);
      var next := api.NextSibling(o);
      PlacedAfterFresh(a, o, b, e, next);
      api.InsertBefore(P, e, next);
    }

    /** Removing the old root `prev` alone from between `pre` and `post`. */
    lemma OneDetached(prev: VNode, pre: seq<Handle>, post: seq<Handle>)
      requires prev.elm.Some? && NoDup(pre + [prev.elm.value] + post)
      ensures Without(pre + [prev.elm.value] + post, DetachedAtOnce([Some(prev)], 0, 0 + 1))
              == pre + (if DetachesAtOnce(prev) then [] else [prev.elm.value]) + post
    {
      var o := prev.elm.value;
      assert DetachedAtOnce([Some(prev)], 0, 1) == if DetachesAtOnce(prev) then {o} else {};
      if DetachesAtOnce(prev) {
        WithoutOne(pre, o, post);
        assert pre + [] + post == pre + post;
      } else {
        WithoutNothing(pre + [o] + post);
      }
    }
  }
}
