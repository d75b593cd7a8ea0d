/**
 * Facts about trees of virtual nodes that the engine's contracts are stated
 * with: sizes (for termination), the handles a tree holds, the child
 * handles a slot list contributes to its parent, well-formedness, and the
 * relation "this tree is what the sink currently shows".
 */
module Trees {
  import opened Wrappers
  import opened Seqs
  import opened VNodes
  import opened Dom

  /** The key of slot `j`, when it holds a node with a key. */
  function KeyAt(s: seq<Option<VNode>>, j: int): Option<Key> {
    if 0 <= j < |s| && s[j].Some? then s[j].value.key else None
  }

  /** No two slots of a child list carry the same defined key. */
  predicate UniqueKeys(s: seq<Option<VNode>>) {
    forall i, j :: 0 <= i < |s| && 0 <= j < |s| && i != j && KeyAt(s, i).Some? ==> KeyAt(s, i) != KeyAt(s, j)
  }

  // ---------------------------------------------------------------- sizes

  /** Number of nodes and slots of a tree; children are strictly smaller than their parent. */
  function Size(v: VNode): nat
    decreases v
  {
    1 + SizeUpTo(v.children, if v.children.Array? then |v.children.items| else 0)
  }

  /** Size of the first `n` slots of a child list, one for each slot plus its node. */
  function SizeUpTo(c: ChildList, n: nat): nat
    requires c.Array? ==> n <= |c.items|
    decreases c, n
  {
    if c.Undefined? || n == 0 then 0
    else SizeUpTo(c, n - 1) + 1 + (if c.items[n - 1].Some? then Size(c.items[n - 1].value) else 0)
  }

  function SizeSeq(s: seq<Option<VNode>>): nat {
    SizeUpTo(Array(s), |s|)
  }

  lemma {:induction false} SizeUpToMem(c: ChildList, n: nat, i: nat)
    requires c.Array? && i < n <= |c.items| && c.items[i].Some?
    ensures Size(c.items[i].value) < SizeUpTo(c, n)
    decreases n
  {
    if i < n - 1 {
      SizeUpToMem(c, n - 1, i);
    }
  }

  /** A node in a slot is smaller than the slot list. */
  lemma SizeSlot(s: seq<Option<VNode>>, i: nat)
    requires i < |s| && s[i].Some?
    ensures Size(s[i].value) < SizeSeq(s)
  {
    SizeUpToMem(Array(s), |s|, i);
  }

  /** A node's children are smaller than the node. */
  lemma SizeChildren(v: VNode)
    requires v.children.Array?
    ensures SizeSeq(v.children.items) < Size(v)
  {
    assert Array(v.children.items) == v.children;
  }

  // ---------------------------------------------------------------- handles

  /** Every sink handle a tree refers to. */
  function Handles(v: VNode): set<Handle>
    decreases v
  {
    (if v.elm.Some? then {v.elm.value} else {})
    + HandlesUpTo(v.children, if v.children.Array? then |v.children.items| else 0)
  }

  /** Every sink handle the first `n` slots of a child list refer to. */
  function HandlesUpTo(c: ChildList, n: nat): set<Handle>
    requires c.Array? ==> n <= |c.items|
    decreases c, n
  {
    if c.Undefined? || n == 0 then {}
    else HandlesUpTo(c, n - 1) + (if c.items[n - 1].Some? then Handles(c.items[n - 1].value) else {})
  }

  /** Every sink handle a slot list refers to. */
  function SlotHandles(s: seq<Option<VNode>>): set<Handle> {
    HandlesUpTo(Array(s), |s|)
  }

  /** A handle of the first `n` slots belongs to one of them, and each of them contributes all its handles. */
  lemma {:induction false} HandlesUpToMem(c: ChildList, n: nat)
    requires c.Array? && n <= |c.items|
    ensures forall i :: 0 <= i < n && c.items[i].Some? ==> Handles(c.items[i].value) <= HandlesUpTo(c, n)
    ensures forall h :: h in HandlesUpTo(c, n) ==> exists i :: 0 <= i < n && c.items[i].Some? && h in Handles(c.items[i].value)
  {
    if n > 0 {
      HandlesUpToMem(c, n - 1);
    }
  }

  /** The handles of the nodes in the slots, in order, null slots skipped. */
  function Elms(s: seq<Option<VNode>>): seq<Handle> {
    if s == [] then []
    else (if s[0].Some? && s[0].value.elm.Some? then [s[0].value.elm.value] else []) + Elms(s[1..])
  }

  lemma {:induction false} ElmsAppend(a: seq<Option<VNode>>, b: seq<Option<VNode>>)
    ensures Elms(a + b) == Elms(a) + Elms(b)
  {
    if a != [] {
      assert (a + b)[1..] == a[1..] + b;
      ElmsAppend(a[1..], b);
    } else {
      assert a + b == b;
    }
  }

  /** Taking one more slot off the front of a slice. */
  lemma ElmsFront(s: seq<Option<VNode>>, lo: nat, hi: nat)
    requires lo < hi <= |s|
    ensures Elms(s[lo..hi]) == (if s[lo].Some? && s[lo].value.elm.Some? then [s[lo].value.elm.value] else []) + Elms(s[lo + 1..hi])
  {
    assert s[lo..hi][1..] == s[lo + 1..hi];
  }

  /** Taking one more slot off the back of a slice. */
  lemma ElmsBack(s: seq<Option<VNode>>, lo: nat, hi: nat)
    requires lo < hi <= |s|
    ensures Elms(s[lo..hi]) == Elms(s[lo..hi - 1]) + (if s[hi - 1].Some? && s[hi - 1].value.elm.Some? then [s[hi - 1].value.elm.value] else [])
  {
    assert s[lo..hi] == s[lo..hi - 1] + [s[hi - 1]];
    ElmsAppend(s[lo..hi - 1], [s[hi - 1]]);
  }

  /** A handle listed by `Elms` belongs to one of the slots. */
  lemma {:induction false} ElmsMem(s: seq<Option<VNode>>, h: Handle) returns (i: nat)
    requires h in Elms(s)
    ensures i < |s| && s[i].Some? && s[i].value.elm == Some(h)
  {
    if s[0].Some? && s[0].value.elm == Some(h) {
      i := 0;
    } else {
      var j := ElmsMem(s[1..], h);
      i := j + 1;
    }
  }

  // ---------------------------------------------------------------- shape

  /**
   * Well-formed as `createElm` and `patchVnode` expect: only elements have
   * children and those have no text of their own, every element has data
   * (`createElm` reads `vnode.data!.hook`), and a text node has text.
   */
  predicate WF(v: VNode)
    decreases v
  {
    (v.children.Array? ==> IsElement(v) && v.text.None?)
    && (IsElement(v) ==> v.data.Some?)
    && (v.sel.None? ==> v.text.Some?)
    && (v.children.Array? ==>
          forall i :: 0 <= i < |v.children.items| && v.children.items[i].Some? ==> WF(v.children.items[i].value))
  }

  /** Sibling keys are unique at every level. */
  predicate KeysUnique(v: VNode)
    decreases v
  {
    v.children.Array? ==>
      UniqueKeys(v.children.items)
      && forall i :: 0 <= i < |v.children.items| && v.children.items[i].Some? ==> KeysUnique(v.children.items[i].value)
  }

  /** No node of the tree defines its own `remove` hook. */
  predicate NoRemoveHooks(v: VNode)
    decreases v
  {
    !HasRemove(v)
    && (v.children.Array? ==>
          forall i :: 0 <= i < |v.children.items| && v.children.items[i].Some? ==> NoRemoveHooks(v.children.items[i].value))
  }

  /**
   * A tree with its sink handles forgotten and the default text that
   * `createElm` gives a comment filled in: what the caller described.
   */
  function Shape(v: VNode): VNode
    decreases v
  {
    VNode(v.sel, v.data,
          match v.children
          case Undefined => Undefined
          case Array(items) =>
            Array(seq(|items|, i requires 0 <= i < |items| =>
                             if items[i].Some? then Some(Shape(items[i].value)) else None)),
          if v.sel == Some("!") && v.text.None? then Some("") else v.text,
          None, v.key)
  }

  /** Slot lists whose nodes have the same shapes, slot by slot. */
  predicate SameShapes(a: seq<Option<VNode>>, b: seq<Option<VNode>>) {
    |a| == |b|
    && forall i :: 0 <= i < |a| ==> (a[i].Some? <==> b[i].Some?) && (a[i].Some? ==> Shape(a[i].value) == Shape(b[i].value))
  }

  /** Two nodes with the same own fields and children of the same shapes have the same shape. */
  lemma ShapeOfParent(v: VNode, w: VNode)
    requires v.sel == w.sel && v.data == w.data && v.text == w.text && v.key == w.key
    requires v.children.Undefined? <==> w.children.Undefined?
    requires v.children.Array? ==> SameShapes(v.children.items, w.children.items)
    ensures Shape(v) == Shape(w)
  {
    if v.children.Array? {
      var a, b := v.children.items, w.children.items;
      var sa := seq(|a|, i requires 0 <= i < |a| => if a[i].Some? then Some(Shape(a[i].value)) else None);
      var sb := seq(|b|, i requires 0 <= i < |b| => if b[i].Some? then Some(Shape(b[i].value)) else None);
      assert sa == sb;
    }
  }

  // ---------------------------------------------------------------- mounting

  /** The slots' subtrees share no handle. */
  predicate SlotsDisjoint(s: seq<Option<VNode>>) {
    forall i, j :: 0 <= i < |s| && 0 <= j < |s| && i != j && s[i].Some? && s[j].Some? ==>
      Handles(s[i].value) !! Handles(s[j].value)
  }

  /**
   * The sink shows the tree: every node has a handle, which is a sink
   * element exactly when the node is an element, an element's child list in the sink is exactly the
   * handles of its non-null children in order, an element without children
   * and text has no sink children, and the subtrees of distinct children,
   * and the node itself, share no handle.
   */
  predicate Mounted(v: VNode, kids: seq<seq<Handle>>, kind: seq<NodeKind>)
    decreases v
  {
    v.elm.Some? && v.elm.value < |kids| && v.elm.value < |kind|
    && (IsElement(v) <==> kind[v.elm.value].Element?)
    && (v.children.Undefined? && IsElement(v) && v.text.None? ==> kids[v.elm.value] == [])
    && (v.children.Array? ==>
          kids[v.elm.value] == Elms(v.children.items)
          && SlotsDisjoint(v.children.items)
          && forall i :: 0 <= i < |v.children.items| && v.children.items[i].Some? ==>
               Mounted(v.children.items[i].value, kids, kind) && v.elm.value !in Handles(v.children.items[i].value))
  }

  /** A mounted tree only refers to handles the sink has. */
  lemma {:induction false} MountedBound(v: VNode, kids: seq<seq<Handle>>, kind: seq<NodeKind>)
    requires Mounted(v, kids, kind)
    ensures forall h :: h in Handles(v) ==> h < |kids|
    decreases v
  {
    if v.children.Array? {
      var items := v.children.items;
      forall i | 0 <= i < |items| && items[i].Some?
        ensures forall h :: h in Handles(items[i].value) ==> h < |kids|
      {
        MountedBound(items[i].value, kids, kind);
      }
      HandlesOfParent(v);
      SlotHandlesMem(items);
    }
  }

  /** The sink kept every node it had, possibly adding more, and changed no node's kind. */
  predicate KindsKept(d1: seq<NodeKind>, d2: seq<NodeKind>) {
    |d1| <= |d2| && forall h :: 0 <= h < |d1| ==> d2[h] == d1[h]
  }

  /**
   * Mounting survives any change of the sink that keeps kinds and leaves
   * the child lists of the tree's own handles alone.
   */
  lemma {:induction false} MountedFrame(v: VNode, k1: seq<seq<Handle>>, d1: seq<NodeKind>, k2: seq<seq<Handle>>, d2: seq<NodeKind>)
    requires Mounted(v, k1, d1) && |k1| <= |k2| && KindsKept(d1, d2)
    requires forall h :: 0 <= h < |k1| && h in Handles(v) ==> k2[h] == k1[h]
    ensures Mounted(v, k2, d2)
    decreases v
  {
    if v.children.Array? {
      var items := v.children.items;
      HandlesOfParent(v);
      SlotHandlesMem(items);
      forall i | 0 <= i < |items| && items[i].Some?
        ensures Mounted(items[i].value, k2, d2)
      {
        MountedFrame(items[i].value, k1, d1, k2, d2);
      }
    }
  }

  /** The handles of a slot's subtree are among the handles of the slot list, and every handle of the list comes from a slot. */
  lemma SlotHandlesMem(s: seq<Option<VNode>>)
    ensures forall i :: 0 <= i < |s| && s[i].Some? ==> Handles(s[i].value) <= SlotHandles(s)
    ensures forall h :: h in SlotHandles(s) ==> exists i :: 0 <= i < |s| && s[i].Some? && h in Handles(s[i].value)
  {
    HandlesUpToMem(Array(s), |s|);
  }

  /** A slot list whose every node's handles lie in `b`'s has all its handles there. */
  lemma SlotHandlesCover(a: seq<Option<VNode>>, b: seq<Option<VNode>>)
    requires forall i :: 0 <= i < |a| && a[i].Some? ==> Handles(a[i].value) <= SlotHandles(b)
    ensures SlotHandles(a) <= SlotHandles(b)
  {
    SlotHandlesMem(a);
  }

  /** The handles of a node with children: its own and those of its slots. */
  lemma HandlesOfParent(v: VNode)
    requires v.children.Array? && v.elm.Some?
    ensures Handles(v) == {v.elm.value} + SlotHandles(v.children.items)
  {
    assert Array(v.children.items) == v.children;
  }

  // ---------------------------------------------------------------- insert order

  /**
   * The order in which `createElm` queues the nodes of a freshly built tree
   * for their `insert` hook: children first, left to right, then the node
   * itself; only elements are queued.
   */
  function InsertOrder(v: VNode): seq<VNode>
    decreases v
  {
    if IsElement(v) then
      InsertOrderUpTo(v.children, if v.children.Array? then |v.children.items| else 0)
      + (if HasInsert(v) then [v] else [])
    else []
  }

  function InsertOrderUpTo(c: ChildList, n: nat): seq<VNode>
    requires c.Array? ==> n <= |c.items|
    decreases c, n
  {
    if c.Undefined? || n == 0 then []
    else InsertOrderUpTo(c, n - 1) + (if c.items[n - 1].Some? then InsertOrder(c.items[n - 1].value) else [])
  }

  /** The queue contribution of a list of slots. */
  function InsertOrderSlots(s: seq<Option<VNode>>): seq<VNode> {
    InsertOrderUpTo(Array(s), |s|)
  }

  lemma {:induction false} InsertOrderUpToPrefix(s: seq<Option<VNode>>, t: seq<Option<VNode>>, n: nat)
    requires n <= |s| && n <= |t| && s[..n] == t[..n]
    ensures InsertOrderUpTo(Array(s), n) == InsertOrderUpTo(Array(t), n)
  {
    if n > 0 {
      assert s[..n - 1] == t[..n - 1];
      assert s[n - 1] == s[..n][n - 1] == t[..n][n - 1] == t[n - 1];
      InsertOrderUpToPrefix(s, t, n - 1);
    }
  }

  /** Adding a slot at the end adds its subtree's queue contribution at the end. */
  lemma InsertOrderSnoc(s: seq<Option<VNode>>, x: Option<VNode>)
    ensures InsertOrderSlots(s + [x]) == InsertOrderSlots(s) + (if x.Some? then InsertOrder(x.value) else [])
  {
    assert (s + [x])[..|s|] == s[..|s|];
    InsertOrderUpToPrefix(s + [x], s, |s|);
  }

  // ---------------------------------------------------------------- building

  /** Every non-null slot is mounted and uses only handles from `lo` on. */
  predicate Built(s: seq<Option<VNode>>, lo: nat, kids: seq<seq<Handle>>, kind: seq<NodeKind>) {
    forall i :: 0 <= i < |s| && s[i].Some? ==>
      Mounted(s[i].value, kids, kind) && forall h :: h in Handles(s[i].value) ==> lo <= h < |kids|
  }

  /** Every handle of the tree is at least `lo` and below `hi`. */
  predicate HandlesIn(v: VNode, lo: int, hi: int) {
    forall h :: h in Handles(v) ==> lo <= h < hi
  }

  /**
   * The sink only grew: it kept every node, the children of each node other
   * than `x`, and every node's kind.
   */
  predicate Grown(k1: seq<seq<Handle>>, d1: seq<NodeKind>, k2: seq<seq<Handle>>, d2: seq<NodeKind>, x: int) {
    |k1| <= |k2| && KindsKept(d1, d2) && forall h :: 0 <= h < |k1| && h != x ==> k2[h] == k1[h]
  }

  lemma GrownTrans(k1: seq<seq<Handle>>, d1: seq<NodeKind>, k2: seq<seq<Handle>>, d2: seq<NodeKind>,
                   k3: seq<seq<Handle>>, d3: seq<NodeKind>, x: int)
    requires Grown(k1, d1, k2, d2, x) && Grown(k2, d2, k3, d3, x)
    ensures Grown(k1, d1, k3, d3, x)
  {
  }

  /** One more slot whose node has the shape of the next source slot. */
  lemma SameShapesSnoc(out: seq<Option<VNode>>, items: seq<Option<VNode>>, j: nat, x: Option<VNode>)
    requires j < |items| && SameShapes(out, items[..j])
    requires x.Some? <==> items[j].Some?
    requires x.Some? ==> Shape(x.value) == Shape(items[j].value)
    ensures SameShapes(out + [x], items[..j + 1])
  {
    assert items[..j + 1] == items[..j] + [items[j]];
  }

  lemma SameShapesCons(back: seq<Option<VNode>>, items: seq<Option<VNode>>, j: nat, x: Option<VNode>)
    requires j < |items| && SameShapes(back, items[j + 1..])
    requires x.Some? <==> items[j].Some?
    requires x.Some? ==> Shape(x.value) == Shape(items[j].value)
    ensures SameShapes([x] + back, items[j..])
  {
    assert items[j..] == [items[j]] + items[j + 1..];
  }

  /** Built slots stay built when only nodes below `lo` change their children. */
  lemma BuiltFrame(s: seq<Option<VNode>>, lo: nat, k1: seq<seq<Handle>>, d1: seq<NodeKind>, k2: seq<seq<Handle>>, d2: seq<NodeKind>)
    requires Built(s, lo, k1, d1) && |k1| <= |k2| && KindsKept(d1, d2)
    requires forall h :: lo <= h < |k1| ==> k2[h] == k1[h]
    ensures Built(s, lo, k2, d2)
  {
    forall i | 0 <= i < |s| && s[i].Some?
      ensures Mounted(s[i].value, k2, d2)
    {
      MountedFrame(s[i].value, k1, d1, k2, d2);
    }
  }

  /**
   * A freshly built node after built slots whose handles are all below
   * `mid`, while its own are from `mid` on: the slots stay built and
   * pairwise disjoint.
   */
  lemma BuiltSnoc(s: seq<Option<VNode>>, lo: nat, mid: nat, kids: seq<seq<Handle>>, kind: seq<NodeKind>, r: VNode)
    requires Built(s, lo, kids, kind) && SlotsDisjoint(s)
    requires forall i, h :: 0 <= i < |s| && s[i].Some? && h in Handles(s[i].value) ==> h < mid
    requires Mounted(r, kids, kind) && HandlesIn(r, mid, |kids|) && lo <= mid
    ensures Built(s + [Some(r)], lo, kids, kind) && SlotsDisjoint(s + [Some(r)])
  {
    var t := s + [Some(r)];
    assert forall i :: 0 <= i < |s| ==> t[i] == s[i];
    forall i, j | 0 <= i < |t| && 0 <= j < |t| && i != j && t[i].Some? && t[j].Some?
      ensures Handles(t[i].value) !! Handles(t[j].value)
    {
      if i == |s| || j == |s| {
        var a, b := if i == |s| then j else i, |s|;
        assert forall h :: h in Handles(t[a].value) ==> h < mid;
      }
    }
  }

  /**
   * An element whose slots are built from `elm + 1` on, pairwise disjoint
   * and listed in order as its sink children is mounted, with its handles
   * from `elm` on.
   */
  lemma MountParent(v: VNode, kids: seq<seq<Handle>>, kind: seq<NodeKind>)
    requires v.elm.Some? && v.elm.value < |kids| && v.elm.value < |kind| && IsElement(v) && kind[v.elm.value].Element?
    requires v.children.Array? && kids[v.elm.value] == Elms(v.children.items)
    requires SlotsDisjoint(v.children.items) && Built(v.children.items, v.elm.value + 1, kids, kind)
    ensures Mounted(v, kids, kind) && HandlesIn(v, v.elm.value, |kids|)
  {
    HandlesOfParent(v);
    SlotHandlesMem(v.children.items);
  }

  /** Slots built on top of `lo` are mounted and use only handles from `lo` on. */
  lemma BuiltSlots(s: seq<Option<VNode>>, lo: nat, kids: seq<seq<Handle>>, kind: seq<NodeKind>)
    requires Built(s, lo, kids, kind)
    ensures AllMounted(s, kids, kind) && forall h :: h in SlotHandles(s) ==> lo <= h < |kids|
  {
    SlotHandlesMem(s);
  }

  /** A node whose mounted, disjoint slots are listed as its sink children, none holding its own handle, is mounted. */
  lemma MountedOver(v: VNode, kids: seq<seq<Handle>>, kind: seq<NodeKind>)
    requires v.elm.Some? && v.elm.value < |kids| && v.elm.value < |kind| && (IsElement(v) <==> kind[v.elm.value].Element?)
    requires v.children.Array? && kids[v.elm.value] == Elms(v.children.items) && SlotsDisjoint(v.children.items)
    requires AllMounted(v.children.items, kids, kind) && v.elm.value !in SlotHandles(v.children.items)
    ensures Mounted(v, kids, kind)
  {
    SlotHandlesMem(v.children.items);
  }

  /** The handle of a node takes no part in its shape, size, well-formedness or keys. */
  lemma WithHandle(v: VNode, e: Option<Handle>)
    ensures Shape(v.(elm := e)) == Shape(v) && Size(v.(elm := e)) == Size(v)
    ensures WF(v.(elm := e)) == WF(v) && KeysUnique(v.(elm := e)) == KeysUnique(v)
  {
  }

  /** A per-node record that only grew: old entries are unchanged. */
  predicate Kept<T(==)>(a: seq<T>, b: seq<T>) {
    |a| <= |b| && forall h :: 0 <= h < |a| ==> b[h] == a[h]
  }

  /** The handles `Elms` lists are handles of the slots' subtrees. */
  lemma {:induction false} ElmsBelow(s: seq<Option<VNode>>, n: int)
    requires forall i, h :: 0 <= i < |s| && s[i].Some? && h in Handles(s[i].value) ==> h < n
    ensures forall h :: h in Elms(s) ==> h < n
  {
    if s != [] {
      assert forall i, h :: 0 <= i < |s[1..]| && s[1..][i].Some? && h in Handles(s[1..][i].value) ==> h < n by {
        assert forall i :: 0 <= i < |s[1..]| ==> s[1..][i] == s[i + 1];
      }
      ElmsBelow(s[1..], n);
      if s[0].Some? && s[0].value.elm.Some? {
        assert s[0].value.elm.value in Handles(s[0].value);
      }
    }
  }

  lemma KeptTrans<T>(a: seq<T>, b: seq<T>, c: seq<T>)
    requires Kept(a, b) && Kept(b, c)
    ensures Kept(a, c)
  {
  }

  /** Growing by one node and then changing only that node's children is growing. */
  lemma GrownFresh(k0: seq<seq<Handle>>, d0: seq<NodeKind>, k1: seq<seq<Handle>>, d1: seq<NodeKind>, k2: seq<seq<Handle>>, d2: seq<NodeKind>)
    requires Grown(k0, d0, k1, d1, -1) && |k1| == |k0| + 1 && Grown(k1, d1, k2, d2, |k0|)
    ensures Grown(k0, d0, k2, d2, -1)
  {
  }

  /** Changing an entry past the old ones keeps them. */
  lemma KeptUpdate<T>(a: seq<T>, b: seq<T>, i: nat, x: T)
    requires Kept(a, b) && |a| <= i < |b|
    ensures Kept(a, b[i := x])
  {
  }

  // ---------------------------------------------------------------- slot lists

  /** Every non-null slot is mounted. */
  predicate AllMounted(s: seq<Option<VNode>>, kids: seq<seq<Handle>>, kind: seq<NodeKind>) {
    forall i :: 0 <= i < |s| && s[i].Some? ==> Mounted(s[i].value, kids, kind)
  }

  /** Every non-null slot has a handle. */
  predicate Handled(s: seq<Option<VNode>>) {
    forall i :: 0 <= i < |s| && s[i].Some? ==> s[i].value.elm.Some?
  }

  /** The handles of two slot lists side by side. */
  lemma SlotHandlesAppend(a: seq<Option<VNode>>, b: seq<Option<VNode>>)
    ensures SlotHandles(a + b) == SlotHandles(a) + SlotHandles(b)
  {
    var s := a + b;
    SlotHandlesMem(a);
    SlotHandlesMem(b);
    SlotHandlesMem(s);
    forall h | h in SlotHandles(s)
      ensures h in SlotHandles(a) + SlotHandles(b)
    {
      var i :| 0 <= i < |s| && s[i].Some? && h in Handles(s[i].value);
      if i < |a| {
        assert s[i] == a[i];
      } else {
        assert s[i] == b[i - |a|];
      }
    }
    forall h | h in SlotHandles(a) + SlotHandles(b)
      ensures h in SlotHandles(s)
    {
      if h in SlotHandles(a) {
        var i :| 0 <= i < |a| && a[i].Some? && h in Handles(a[i].value);
        assert s[i] == a[i];
      } else {
        var i :| 0 <= i < |b| && b[i].Some? && h in Handles(b[i].value);
        assert s[|a| + i] == b[i];
      }
    }
  }

  /** The handles of one slot. */
  lemma SlotHandlesOne(x: Option<VNode>)
    ensures SlotHandles([x]) == if x.Some? then Handles(x.value) else {}
  {
    assert HandlesUpTo(Array([x]), 0) == {};
  }

  /** Two slot lists side by side are pairwise disjoint when each is and they share no handle. */
  lemma DisjointJoin(a: seq<Option<VNode>>, b: seq<Option<VNode>>)
    requires SlotsDisjoint(a) && SlotsDisjoint(b) && SlotHandles(a) !! SlotHandles(b)
    ensures SlotsDisjoint(a + b)
  {
    var s := a + b;
    SlotHandlesMem(a);
    SlotHandlesMem(b);
    forall i, j | 0 <= i < |s| && 0 <= j < |s| && i != j && s[i].Some? && s[j].Some?
      ensures Handles(s[i].value) !! Handles(s[j].value)
    {
      if i < |a| && j < |a| {
        assert s[i] == a[i] && s[j] == a[j];
      } else if |a| <= i && |a| <= j {
        assert s[i] == b[i - |a|] && s[j] == b[j - |a|];
      } else if i < |a| {
        assert s[i] == a[i] && s[j] == b[j - |a|];
      } else {
        assert s[j] == a[j] && s[i] == b[i - |a|];
      }
    }
  }

  /** The parts of a pairwise disjoint slot list are pairwise disjoint and share no handle. */
  lemma DisjointSplit(a: seq<Option<VNode>>, b: seq<Option<VNode>>)
    requires SlotsDisjoint(a + b)
    ensures SlotsDisjoint(a) && SlotsDisjoint(b) && SlotHandles(a) !! SlotHandles(b)
  {
    var s := a + b;
    SlotHandlesMem(a);
    SlotHandlesMem(b);
    assert forall i :: 0 <= i < |a| ==> s[i] == a[i];
    assert forall i :: 0 <= i < |b| ==> s[|a| + i] == b[i];
    forall h | h in SlotHandles(a)
      ensures h !in SlotHandles(b)
    {
      var i :| 0 <= i < |a| && a[i].Some? && h in Handles(a[i].value);
      forall j | 0 <= j < |b| && b[j].Some?
        ensures h !in Handles(b[j].value)
      {
        assert Handles(s[i].value) !! Handles(s[|a| + j].value);
      }
    }
  }

  /** Each node `createElm` queues is an element with an `insert` hook. */
  lemma {:induction false} InsertOrderQueued(v: VNode)
    ensures forall x :: x in InsertOrder(v) ==> IsElement(x) && HasInsert(x)
    decreases v, 1
  {
    if IsElement(v) {
      InsertOrderUpToQueued(v.children, if v.children.Array? then |v.children.items| else 0);
    }
  }

  lemma {:induction false} InsertOrderUpToQueued(c: ChildList, n: nat)
    requires c.Array? ==> n <= |c.items|
    ensures forall x :: x in InsertOrderUpTo(c, n) ==> IsElement(x) && HasInsert(x)
    decreases c, n
  {
    if c.Array? && n > 0 {
      InsertOrderUpToQueued(c, n - 1);
      if c.items[n - 1].Some? {
        InsertOrderQueued(c.items[n - 1].value);
      }
    }
  }

  /** Slot lists that are all mounted side by side are all mounted. */
  lemma AllMountedJoin(a: seq<Option<VNode>>, b: seq<Option<VNode>>, kids: seq<seq<Handle>>, kind: seq<NodeKind>)
    requires AllMounted(a, kids, kind) && AllMounted(b, kids, kind)
    ensures AllMounted(a + b, kids, kind)
  {
    var s := a + b;
    forall i | 0 <= i < |s| && s[i].Some?
      ensures Mounted(s[i].value, kids, kind)
    {
      if i < |a| {
        assert s[i] == a[i];
      } else {
        assert s[i] == b[i - |a|];
      }
    }
  }

  /**
   * Mounted slots stay mounted when the sink keeps kinds and changes no
   * child list of theirs: none of their handles is in `x`, the only
   * changed nodes.
   */
  lemma AllMountedFrame(s: seq<Option<VNode>>, x: set<Handle>, k1: seq<seq<Handle>>, d1: seq<NodeKind>,
                        k2: seq<seq<Handle>>, d2: seq<NodeKind>)
    requires AllMounted(s, k1, d1) && |k1| <= |k2| && KindsKept(d1, d2)
    requires forall h :: h in SlotHandles(s) ==> h !in x
    requires forall h :: 0 <= h < |k1| && h !in x ==> k2[h] == k1[h]
    ensures AllMounted(s, k2, d2)
  {
    SlotHandlesMem(s);
    forall i | 0 <= i < |s| && s[i].Some?
      ensures Mounted(s[i].value, k2, d2)
    {
      MountedFrame(s[i].value, k1, d1, k2, d2);
    }
  }

  // ---------------------------------------------------------------- the queue

  /** `q` is `q0` followed by elements that have an `insert` hook. */
  predicate Queued(q0: seq<VNode>, q: seq<VNode>) {
    |q0| <= |q| && q[..|q0|] == q0 && forall i :: |q0| <= i < |q| ==> IsElement(q[i]) && HasInsert(q[i])
  }

  lemma QueuedRefl(q: seq<VNode>)
    ensures Queued(q, q)
  {
  }

  lemma QueuedTrans(a: seq<VNode>, b: seq<VNode>, c: seq<VNode>)
    requires Queued(a, b) && Queued(b, c)
    ensures Queued(a, c)
  {
    assert c[..|a|] == c[..|b|][..|a|];
  }

  /** Queueing a freshly built tree. */
  lemma QueuedByTree(q: seq<VNode>, v: VNode)
    ensures Queued(q, q + InsertOrder(v))
  {
    InsertOrderQueued(v);
    assert (q + InsertOrder(v))[..|q|] == q;
    assert forall i :: |q| <= i < |q + InsertOrder(v)| ==> (q + InsertOrder(v))[i] == InsertOrder(v)[i - |q|];
  }

  /** Queueing a list of freshly built trees. */
  lemma QueuedBySlots(q: seq<VNode>, s: seq<Option<VNode>>)
    ensures Queued(q, q + InsertOrderSlots(s))
  {
    InsertOrderUpToQueued(Array(s), |s|);
    assert (q + InsertOrderSlots(s))[..|q|] == q;
    assert forall i :: |q| <= i < |q + InsertOrderSlots(s)| ==> (q + InsertOrderSlots(s))[i] == InsertOrderSlots(s)[i - |q|];
  }
}
