/**
 * The hyperscript helper `h` (src/h.ts): it sorts its optional second and
 * third arguments into `data`, `children` and `text`, wraps primitive
 * children in text nodes, marks SVG subtrees with the SVG namespace
 * (`addNS`) and builds the node with the `vnode` constructor.
 */
module Builder {
  import opened Wrappers
  import opened VNodes
  import Selector

  /** The namespace `addNS` writes. */
  const SvgNS := "http://www.w3.org/2000/svg"

  /** One element of a children array as callers pass it: a node, a string or number, null or undefined. */
  datatype Child = CNode(v: VNode) | CPrim(p: string) | CNull | CUndefined

  /** An optional argument of `h`, by the runtime test that classifies it. */
  datatype Arg = Absent | Null | Prim(p: string) | Kids(items: seq<Child>) | Node(v: VNode) | Data(d: VNodeData)

  /** What the argument classification leaves in the locals `data`, `children` and `text`. */
  datatype Parts = Parts(data: Option<VNodeData>, children: Option<seq<Child>>, text: Option<string>)

  /** `c && c.sel`: an object counts as a node when its selector is a non-empty string. */
  predicate HasSel(v: VNode) { v.sel.Some? && v.sel.value != "" }

  /**
   * A node object used as `data` (a second argument with no truthy `sel`):
   * of what the engine reads, only its `key` property is present.
   */
  function NodeAsData(v: VNode): (d: VNodeData)
    ensures d.key == v.key && d.hook.None? && d.ns.None?
  {
    VNodeData(v.key, None, None)
  }

  /**
   * The typed overloads of `h`: a third argument is only passed after data
   * (`VNodeData | null`, or left undefined).
   */
  predicate ArgsTyped(b: Arg, c: Arg) {
    !c.Absent? ==> b.Absent? || b.Null? || b.Data?
  }

  /** The classification of the two optional arguments. */
  function Classify(b: Arg, c: Arg): (p: Parts)
    requires ArgsTyped(b, c)
    ensures p.children.None? || p.text.None?
  {
    if !c.Absent? then
      var data := match b { case Null => Some(EmptyData) case Data(d) => Some(d) case _ => None };
      match c
      case Kids(items) => Parts(data, Some(items), None)
      case Prim(s) => Parts(data, None, Some(s))
      case Node(v) => if HasSel(v) then Parts(data, Some([CNode(v)]), None) else Parts(data, None, None)
      case _ => Parts(data, None, None)
    else
      match b
      case Kids(items) => Parts(Some(EmptyData), Some(items), None)
      case Prim(s) => Parts(Some(EmptyData), None, Some(s))
      case Node(v) => if HasSel(v) then Parts(Some(EmptyData), Some([CNode(v)]), None)
                      else Parts(Some(NodeAsData(v)), None, None)
      case Data(d) => Parts(Some(d), None, None)
      case _ => Parts(Some(EmptyData), None, None)
  }

  /** The node a primitive child is replaced by: only `text` is set. */
  function TextChild(s: string): (v: VNode)
    ensures v.sel.None? && v.data.None? && v.children.Undefined? && v.text == Some(s)
    ensures v.elm.None? && v.key.None?
  {
    Vnode(None, None, Undefined, Some(s), None)
  }

  /** One step of the wrapping loop: a primitive becomes a text node, anything else stays. */
  function Wrap(ch: Child): (w: Child)
    ensures !w.CPrim?
    ensures ch.CPrim? ==> w == CNode(TextChild(ch.p))
    ensures !ch.CPrim? ==> w == ch
  {
    if ch.CPrim? then CNode(TextChild(ch.p)) else ch
  }

  /** A wrapped child as a slot of a child list: null and undefined are both an empty slot. */
  function Slot(ch: Child): Option<VNode>
    requires !ch.CPrim?
  {
    if ch.CNode? then Some(ch.v) else None
  }

  /**
   * The SVG test of `h`: the selector starts with `svg` followed by its end,
   * a `.` or a `#`. Characters past the end read as `undefined`, which
   * matches no character.
   */
  predicate IsSvgSel(sel: string) {
    |sel| > 2 && sel[0] == 's' && sel[1] == 'v' && sel[2] == 'g'
    && (|sel| == 3 || sel[3] == '.' || sel[3] == '#')
  }

  /** Whether `addNS` walks the children: not below `foreignObject`, and only when there are children. */
  predicate Descends(sel: Option<string>, children: ChildList) {
    sel != Some("foreignObject") && children.Array?
  }

  /** `addNS` reads `data` of every child it walks: an empty slot there raises a TypeError. */
  predicate NsFails(children: ChildList, sel: Option<string>)
    decreases children
  {
    Descends(sel, children)
    && exists i :: 0 <= i < |children.items| && SlotFails(children, i)
  }

  predicate SlotFails(children: ChildList, i: int)
    requires children.Array? && 0 <= i < |children.items|
    decreases children, 0
  {
    children.items[i].None?
    || (children.items[i].value.data.Some?
        && NsFails(children.items[i].value.children, children.items[i].value.sel))
  }

  /** `data.ns = SVG`. */
  function NsData(d: VNodeData): (r: VNodeData)
    ensures r.ns == Some(SvgNS) && r.key == d.key && r.hook == d.hook
  {
    d.(ns := Some(SvgNS))
  }

  /** The child list after `addNS` has walked it. */
  function NsChildren(children: ChildList, sel: Option<string>): ChildList
    decreases children
  {
    if !Descends(sel, children) then children
    else Array(seq(|children.items|, i requires 0 <= i < |children.items| =>
                     NsSlot(children, i)))
  }

  /** One slot after `addNS`: a child with data gets the namespace, and its own children are walked. */
  function NsSlot(children: ChildList, i: int): Option<VNode>
    requires children.Array? && 0 <= i < |children.items|
    decreases children, 0
  {
    match children.items[i]
    case None => None
    case Some(w) =>
      if w.data.None? then children.items[i]
      else Some(w.(data := Some(NsData(w.data.value)), children := NsChildren(w.children, w.sel)))
  }

  /**
   * `addNS(data, children, sel)`: sets the namespace on `data` and, unless
   * `sel` is `foreignObject`, on every child that has data, recursively.
   * The source updates the data records in place; here the updated
   * records are returned.
   */
  method AddNS(data: Option<VNodeData>, children: ChildList, sel: Option<string>)
      returns (r: Result<(VNodeData, ChildList), string>)
    ensures r.Err? <==> data.None? || NsFails(children, sel)
    ensures r.Ok? ==> r.value == (NsData(data.value), NsChildren(children, sel))
    decreases children
  {
    if data.None? {
      return Err("TypeError: cannot set 'ns' of undefined");
    }
    var d := data.value.(ns := Some(SvgNS));
    if sel == Some("foreignObject") || children.Undefined? {
      return Ok((d, children));
    }
    var items := children.items;
    var i := 0;
    while i < |items|
      invariant 0 <= i <= |items| == |children.items|
      invariant forall j :: 0 <= j < i ==> items[j] == NsSlot(children, j) && !SlotFails(children, j)
      invariant forall j :: i <= j < |items| ==> items[j] == children.items[j]
    {
      if items[i].None? {
        assert SlotFails(children, i);
        return Err("TypeError: cannot read 'data' of a missing child");
      }
      var child := children.items[i].value;
      if child.data.Some? {
        var sub := AddNS(child.data, child.children, child.sel);
        if sub.Err? {
          assert SlotFails(children, i);
          return Err(sub.error);
        }
        items := items[i := Some(child.(data := Some(sub.value.0), children := sub.value.1))];
      }
      i := i + 1;
    }
    assert items == NsChildren(children, sel).items;
    return Ok((d, Array(items)));
  }

  /** The wrapping loop: every primitive element of `children` is replaced by a text node, in place. */
  method WrapPrimitives(children: seq<Child>) returns (out: seq<Child>)
    ensures |out| == |children|
    ensures forall i :: 0 <= i < |out| ==> out[i] == Wrap(children[i])
    ensures forall i :: 0 <= i < |out| ==> !out[i].CPrim?
  {
    out := children;
    var i := 0;
    while i < |out|
      invariant 0 <= i <= |out| == |children|
      invariant forall j :: 0 <= j < i ==> out[j] == Wrap(children[j])
      invariant forall j :: i <= j < |out| ==> out[j] == children[j]
    {
      if out[i].CPrim? {
        out := out[i := CNode(Vnode(None, None, Undefined, Some(out[i].p), None))];
      }
      i := i + 1;
    }
  }

  /** The child list built from the wrapped children, or `undefined`. */
  function ChildListOf(children: Option<seq<Child>>): (c: ChildList)
    ensures children.None? <==> c.Undefined?
    ensures children.Some? ==> |c.items| == |children.value|
  {
    match children
    case None => Undefined
    case Some(s) => Array(seq(|s|, i requires 0 <= i < |s| => Slot(Wrap(s[i]))))
  }

  /** Whether `h(sel, b, c)` raises: only in the SVG step, on undefined data or an empty slot. */
  predicate HFails(sel: string, p: Parts) {
    IsSvgSel(sel) && (p.data.None? || NsFails(ChildListOf(p.children), Some(sel)))
  }

  /** The node `h(sel, b, c)` returns, for the parts the classification produced. */
  function Built(sel: string, p: Parts): VNode
    requires !HFails(sel, p)
  {
    var kids := ChildListOf(p.children);
    if IsSvgSel(sel) then Vnode(Some(sel), Some(NsData(p.data.value)), NsChildren(kids, Some(sel)), p.text, None)
    else Vnode(Some(sel), p.data, kids, p.text, None)
  }

  /** `h(sel, b, c)`. */
  method H(sel: string, b: Arg, c: Arg) returns (r: Result<VNode, string>)
    requires ArgsTyped(b, c)
    ensures r.Err? <==> HFails(sel, Classify(b, c))
    ensures r.Ok? ==> r.value == Built(sel, Classify(b, c))
  {
    var data: Option<VNodeData> := Some(EmptyData);
    var children: Option<seq<Child>> := None;
    var text: Option<string> := None;
    if !c.Absent? {
      if !b.Null? {
        data := if b.Data? then Some(b.d) else None;
      }
      if c.Kids? {
        children := Some(c.items);
      } else if c.Prim? {
        text := Some(c.p);
      } else if c.Node? && HasSel(c.v) {
        children := Some([CNode(c.v)]);
      }
    } else if !b.Absent? && !b.Null? {
      if b.Kids? {
        children := Some(b.items);
      } else if b.Prim? {
        text := Some(b.p);
      } else if b.Node? && HasSel(b.v) {
        children := Some([CNode(b.v)]);
      } else {
        data := Some(if b.Node? then NodeAsData(b.v) else b.d);
      }
    }
    assert Parts(data, children, text) == Classify(b, c);
    var kids := Undefined;
    if children.Some? {
      var wrapped := WrapPrimitives(children.value);
      kids := Array(seq(|wrapped|, i requires 0 <= i < |wrapped| => Slot(wrapped[i])));
      assert kids == ChildListOf(children);
    }
    if IsSvgSel(sel) {
      var ns := AddNS(data, kids, Some(sel));
      if ns.Err? {
        return Err(ns.error);
      }
      data, kids := Some(ns.value.0), ns.value.1;
    }
    return Ok(Vnode(Some(sel), data, kids, text, None));
  }

  /** Every child the walk reaches is present and, when it has data, carries the SVG namespace. */
  predicate Covered(children: ChildList, sel: Option<string>)
    decreases children
  {
    Descends(sel, children)
    ==> forall i :: 0 <= i < |children.items| ==> SlotCovered(children, i)
  }

  predicate SlotCovered(children: ChildList, i: int)
    requires children.Array? && 0 <= i < |children.items|
    decreases children, 0
  {
    children.items[i].Some?
    && (children.items[i].value.data.Some? ==>
          children.items[i].value.data.value.ns == Some(SvgNS)
          && Covered(children.items[i].value.children, children.items[i].value.sel))
  }

  /** When `addNS` does not raise, it leaves every node it reaches with the SVG namespace. */
  lemma {:induction false} NsChildrenCovers(children: ChildList, sel: Option<string>)
    requires !NsFails(children, sel)
    ensures Covered(NsChildren(children, sel), sel)
    decreases children
  {
    if Descends(sel, children) {
      var out := NsChildren(children, sel);
      forall i | 0 <= i < |out.items|
        ensures SlotCovered(out, i)
      {
        assert !SlotFails(children, i);
        var w := children.items[i].value;
        assert out.items[i] == NsSlot(children, i);
        if w.data.Some? {
          NsChildrenCovers(w.children, w.sel);
          assert out.items[i].value.children == NsChildren(w.children, w.sel);
        }
      }
    }
  }

  /** The tree with every namespace erased: what `addNS` must leave unchanged. */
  function StripNs(children: ChildList): ChildList
    decreases children
  {
    if children.Undefined? then children
    else Array(seq(|children.items|, i requires 0 <= i < |children.items| => StripSlot(children, i)))
  }

  function StripSlot(children: ChildList, i: int): Option<VNode>
    requires children.Array? && 0 <= i < |children.items|
    decreases children, 0
  {
    match children.items[i]
    case None => None
    case Some(w) =>
      Some(w.(data := if w.data.Some? then Some(w.data.value.(ns := None)) else None,
              children := StripNs(w.children)))
  }

  /** `addNS` changes namespaces only: selectors, keys, hooks, text and the shape of the tree stay. */
  lemma {:induction false} NsChildrenOnlyNs(children: ChildList, sel: Option<string>)
    ensures StripNs(NsChildren(children, sel)) == StripNs(children)
    decreases children
  {
    if Descends(sel, children) {
      var out := NsChildren(children, sel);
      forall i | 0 <= i < |children.items|
        ensures StripSlot(out, i) == StripSlot(children, i)
      {
        assert out.items[i] == NsSlot(children, i);
        if children.items[i].Some? && children.items[i].value.data.Some? {
          var w := children.items[i].value;
          NsChildrenOnlyNs(w.children, w.sel);
          assert out.items[i].value.children == NsChildren(w.children, w.sel);
        }
      }
      assert StripNs(out).items == StripNs(children).items;
    }
  }

  /** Walking a tree a second time changes nothing. */
  lemma {:induction false} NsChildrenIdempotent(children: ChildList, sel: Option<string>)
    ensures NsChildren(NsChildren(children, sel), sel) == NsChildren(children, sel)
    decreases children
  {
    if Descends(sel, children) {
      var out := NsChildren(children, sel);
      forall i | 0 <= i < |children.items|
        ensures NsSlot(out, i) == NsSlot(children, i)
      {
        if children.items[i].Some? && children.items[i].value.data.Some? {
          var w := children.items[i].value;
          NsChildrenIdempotent(w.children, w.sel);
        }
      }
      assert NsChildren(out, sel).items == out.items;
    }
  }

  /** A `foreignObject` child receives the namespace, but its own children are left exactly as given. */
  lemma ForeignObjectNotDescended(children: ChildList, sel: Option<string>, i: int)
    requires Descends(sel, children) && 0 <= i < |children.items|
    requires children.items[i].Some? && children.items[i].value.sel == Some("foreignObject")
    requires children.items[i].value.data.Some?
    ensures var w := NsChildren(children, sel).items[i];
      w.Some? && w.value.data.Some? && w.value.data.value.ns == Some(SvgNS)
      && w.value.children == children.items[i].value.children
  {
    var w := children.items[i].value;
    assert NsChildren(children, sel).items[i] == NsSlot(children, i);
    assert NsChildren(w.children, w.sel) == w.children;
  }

  /** The SVG test as a prefix test. */
  lemma IsSvgSelPrefix(sel: string)
    ensures IsSvgSel(sel) <==> |sel| >= 3 && sel[..3] == "svg" && (|sel| == 3 || sel[3] in {'.', '#'})
  {
    if |sel| >= 3 && sel[..3] == "svg" {
      assert sel[0] == sel[..3][0] && sel[1] == sel[..3][1] && sel[2] == sel[..3][2];
    }
  }

  /**
   * A selector whose tag, as `createElm` reads it, is `svg` passes the SVG
   * test of `h`, so the element is created in the namespace `h` recorded.
   */
  lemma {:induction false} SvgTagIsSvgSel(sel: string)
    requires Selector.ParseSelector(sel).tag == "svg"
    ensures IsSvgSel(sel)
  {
    var p := Selector.ParseSelector(sel);
    assert sel[..3] == "svg";
    assert sel[0] == sel[..3][0] && sel[1] == sel[..3][1] && sel[2] == sel[..3][2];
    if |sel| > 3 {
      var hashIdx := Selector.IndexFrom(sel, '#', 0);
      var dotIdx := Selector.IndexFrom(sel, '.', hashIdx);
      assert hashIdx != -1 || dotIdx != -1;
    }
  }

  /** Without the SVG test, `data` is passed through untouched. */
  lemma BuiltPlain(sel: string, p: Parts)
    requires !IsSvgSel(sel)
    ensures !HFails(sel, p)
    ensures Built(sel, p).data == p.data
  {
  }

  /**
   * The result of `h`: the given selector, no sink node, the key of `data`,
   * the classified text, and one slot per child where a primitive became a
   * text node and null or undefined an empty slot.
   */
  lemma BuiltFields(sel: string, p: Parts)
    requires !HFails(sel, p)
    ensures var v := Built(sel, p);
      v.sel == Some(sel) && v.elm.None? && v.text == p.text && v.key == KeyOf(p.data)
      && (p.children.None? <==> v.children.Undefined?)
      && (p.children.Some? ==> |v.children.items| == |p.children.value|)
      && (p.children.Some? && !IsSvgSel(sel) ==>
            forall i :: 0 <= i < |p.children.value| ==>
              v.children.items[i] == match p.children.value[i]
                                     case CNode(w) => Some(w)
                                     case CPrim(s) => Some(TextChild(s))
                                     case _ => None)
  {
  }

  /** With the SVG test passed, `data` and every node the walk reaches carry the SVG namespace. */
  lemma {:induction false} BuiltSvg(sel: string, p: Parts)
    requires IsSvgSel(sel) && !HFails(sel, p)
    ensures var v := Built(sel, p);
      v.data.Some? && v.data.value.ns == Some(SvgNS) && Covered(v.children, Some(sel))
      && StripNs(v.children) == StripNs(ChildListOf(p.children))
  {
    NsChildrenCovers(ChildListOf(p.children), Some(sel));
    NsChildrenOnlyNs(ChildListOf(p.children), Some(sel));
  }

  /** A defined third argument: `data` is the second one, or `{}` for null, and the third decides the content. */
  lemma ClassifyThird(b: Arg, c: Arg)
    requires ArgsTyped(b, c) && !c.Absent?
    ensures var p := Classify(b, c);
      p.data == (if b.Null? then Some(EmptyData) else if b.Data? then Some(b.d) else None)
      && (c.Kids? ==> p.children == Some(c.items) && p.text.None?)
      && (c.Prim? ==> p.text == Some(c.p) && p.children.None?)
      && (c.Node? && HasSel(c.v) ==> p.children == Some([CNode(c.v)]) && p.text.None?)
      && (!c.Kids? && !c.Prim? && !(c.Node? && HasSel(c.v)) ==> p.children.None? && p.text.None?)
  {
  }

  /** Only a second argument: an array, a primitive, a node, and otherwise data, in that order. */
  lemma ClassifySecond(b: Arg)
    ensures var p := Classify(b, Absent);
      (b.Kids? ==> p == Parts(Some(EmptyData), Some(b.items), None))
      && (b.Prim? ==> p == Parts(Some(EmptyData), None, Some(b.p)))
      && (b.Node? && HasSel(b.v) ==> p == Parts(Some(EmptyData), Some([CNode(b.v)]), None))
      && (b.Node? && !HasSel(b.v) ==> p == Parts(Some(NodeAsData(b.v)), None, None))
      && (b.Data? ==> p == Parts(Some(b.d), None, None))
      && (b.Absent? || b.Null? ==> p == Parts(Some(EmptyData), None, None))
  {
  }
}
