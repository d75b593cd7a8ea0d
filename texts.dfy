/**
 * The text the sink shows for a tree of virtual nodes. `createElm` puts the
 * text of a text node or a comment into the node itself
 * (src/snabbdom.ts:131, 172), and the text of an element into one text
 * child (src/snabbdom.ts:156-159); `patchVnode` replaces it with
 * `setTextContent` (src/snabbdom.ts:379, 387, 395).
 * `Shows` states that every text of a tree is on show. The lemmas here carry
 * it over the changes the engine makes elsewhere in the sink, including the
 * patching of a sibling, which can only reach its own nodes.
 */
module Texts {
  import opened Wrappers
  import opened VNodes
  import opened Dom
  import opened Trees
  import opened Diff

  /**
   * The sink node `h` shows the text `t`: as its own text when it is not an
   * element (`elem`); when it is one, as the text of its only child, a text
   * node, or with no child at all when `t` is empty.
   */
  predicate TextShown(h: Handle, elem: bool, t: string, kids: seq<seq<Handle>>, kind: seq<NodeKind>, content: seq<string>) {
    h < |kids| && h < |content|
    && if elem then
         (t == "" && kids[h] == [])
         || (|kids[h]| == 1 && kids[h][0] < |kind| && kids[h][0] < |content|
             && kind[kids[h][0]] == TextNode && content[kids[h][0]] == t)
       else content[h] == t
  }

  /** Every node of `v` has a handle, and every text of `v` is on show at its node. */
  predicate Shows(v: VNode, kids: seq<seq<Handle>>, kind: seq<NodeKind>, content: seq<string>)
    decreases v
  {
    v.elm.Some? && v.elm.value < |kids| && v.elm.value < |content|
    && (v.text.Some? ==> TextShown(v.elm.value, IsElement(v), v.text.value, kids, kind, content))
    && (v.children.Array? ==>
          forall i :: 0 <= i < |v.children.items| && v.children.items[i].Some? ==>
            Shows(v.children.items[i].value, kids, kind, content))
  }

  /** Every non-null slot shows its text. */
  predicate AllShow(s: seq<Option<VNode>>, kids: seq<seq<Handle>>, kind: seq<NodeKind>, content: seq<string>) {
    forall i :: 0 <= i < |s| && s[i].Some? ==> Shows(s[i].value, kids, kind, content)
  }

  /** Only the texts of the nodes in `W` changed, and nodes may have been added. */
  predicate TextsKept(c1: seq<string>, c2: seq<string>, W: set<Handle>) {
    |c1| <= |c2| && forall h :: 0 <= h < |c1| && h !in W ==> c2[h] == c1[h]
  }

  lemma TextsKeptTrans(c1: seq<string>, c2: seq<string>, c3: seq<string>, W: set<Handle>)
    requires TextsKept(c1, c2, W) && TextsKept(c2, c3, W)
    ensures TextsKept(c1, c3, W)
  {
  }

  /** The text children that the elements of `v` show their text in lie outside `W`. */
  predicate TextKidsOutside(v: VNode, kids: seq<seq<Handle>>, W: set<Handle>)
    decreases v
  {
    (IsElement(v) && v.text.Some? && v.elm.Some? && v.elm.value < |kids| && |kids[v.elm.value]| == 1 ==>
       kids[v.elm.value][0] !in W)
    && (v.children.Array? ==>
          forall i :: 0 <= i < |v.children.items| && v.children.items[i].Some? ==>
            TextKidsOutside(v.children.items[i].value, kids, W))
  }

  // ---------------------------------------------------------------- frames

  /**
   * A tree keeps showing its text when its nodes keep their children, kinds
   * are kept, and the only texts that changed are of nodes in `W`, which
   * holds neither a node of the tree nor a text child of one.
   */
  lemma {:induction false} ShowsFrame(v: VNode, k1: seq<seq<Handle>>, d1: seq<NodeKind>, c1: seq<string>,
                                      k2: seq<seq<Handle>>, d2: seq<NodeKind>, c2: seq<string>, W: set<Handle>)
    requires Shows(v, k1, d1, c1) && |k1| <= |k2| && KindsKept(d1, d2) && TextsKept(c1, c2, W)
    requires forall h :: 0 <= h < |k1| && h in Handles(v) ==> k2[h] == k1[h]
    requires Handles(v) !! W && TextKidsOutside(v, k1, W)
    ensures Shows(v, k2, d2, c2)
    decreases v
  {
    assert v.elm.value in Handles(v);
    if v.children.Array? {
      var items := v.children.items;
      HandlesOfParent(v);
      SlotHandlesMem(items);
      forall i | 0 <= i < |items| && items[i].Some?
        ensures Shows(items[i].value, k2, d2, c2)
      {
        ShowsFrame(items[i].value, k1, d1, c1, k2, d2, c2, W);
      }
    }
  }

  /** With no text changed, no text child is in the way. */
  lemma {:induction false} OutsideNothing(v: VNode, kids: seq<seq<Handle>>)
    ensures TextKidsOutside(v, kids, {})
    decreases v
  {
    if v.children.Array? {
      var items := v.children.items;
      forall i | 0 <= i < |items| && items[i].Some?
        ensures TextKidsOutside(items[i].value, kids, {})
      {
        OutsideNothing(items[i].value, kids);
      }
    }
  }

  /** A tree keeps showing its text when its nodes keep their children and kinds and no old text changed. */
  lemma ShowsKept(v: VNode, k1: seq<seq<Handle>>, d1: seq<NodeKind>, c1: seq<string>,
                  k2: seq<seq<Handle>>, d2: seq<NodeKind>, c2: seq<string>)
    requires Shows(v, k1, d1, c1) && |k1| <= |k2| && KindsKept(d1, d2) && Kept(c1, c2)
    requires forall h :: 0 <= h < |k1| && h in Handles(v) ==> k2[h] == k1[h]
    ensures Shows(v, k2, d2, c2)
  {
    OutsideNothing(v, k1);
    ShowsFrame(v, k1, d1, c1, k2, d2, c2, {});
  }

  /** A tree made since the sink had `lo` nodes keeps showing when only the children of an older node `P` changed. */
  lemma ShowsOutside(v: VNode, P: Handle, lo: int, k1: seq<seq<Handle>>, k2: seq<seq<Handle>>, kind: seq<NodeKind>, content: seq<string>)
    requires Shows(v, k1, kind, content) && HandlesIn(v, lo, |k1|) && P < lo
    requires |k2| == |k1| && forall h :: 0 <= h < |k2| && h != P ==> k2[h] == k1[h]
    ensures Shows(v, k2, kind, content)
  {
    ShowsKept(v, k1, kind, content, k2, kind, content);
  }

  /**
   * Slots keep showing their text when only nodes in `X` changed their
   * children, kinds are kept, and no old text changed.
   */
  lemma AllShowKept(s: seq<Option<VNode>>, X: set<Handle>, k1: seq<seq<Handle>>, d1: seq<NodeKind>, c1: seq<string>,
                    k2: seq<seq<Handle>>, d2: seq<NodeKind>, c2: seq<string>)
    requires AllShow(s, k1, d1, c1) && |k1| <= |k2| && KindsKept(d1, d2) && Kept(c1, c2)
    requires forall h :: 0 <= h < |k1| && h !in X ==> k2[h] == k1[h]
    requires SlotHandles(s) !! X
    ensures AllShow(s, k2, d2, c2)
  {
    SlotHandlesMem(s);
    forall i | 0 <= i < |s| && s[i].Some?
      ensures Shows(s[i].value, k2, d2, c2)
    {
      ShowsKept(s[i].value, k1, d1, c1, k2, d2, c2);
    }
  }

  lemma AllShowSnoc(s: seq<Option<VNode>>, x: Option<VNode>, kids: seq<seq<Handle>>, kind: seq<NodeKind>, content: seq<string>)
    requires AllShow(s, kids, kind, content) && (x.Some? ==> Shows(x.value, kids, kind, content))
    ensures AllShow(s + [x], kids, kind, content)
  {
    assert forall i :: 0 <= i < |s| ==> (s + [x])[i] == s[i];
  }

  lemma AllShowJoin(a: seq<Option<VNode>>, b: seq<Option<VNode>>, kids: seq<seq<Handle>>, kind: seq<NodeKind>, content: seq<string>)
    requires AllShow(a, kids, kind, content) && AllShow(b, kids, kind, content)
    ensures AllShow(a + b, kids, kind, content)
  {
    assert forall i :: |a| <= i < |a + b| ==> (a + b)[i] == b[i - |a|];
  }

  /** Two runs of slots keep showing their text, side by side, when the children of a node outside them are replaced. */
  lemma AllShowReplaced(a: seq<Option<VNode>>, b: seq<Option<VNode>>, P: Handle, x: seq<Handle>,
                        k: seq<seq<Handle>>, d: seq<NodeKind>, c: seq<string>)
    requires AllShow(a, k, d, c) && AllShow(b, k, d, c) && P < |k|
    requires P !in SlotHandles(a) && P !in SlotHandles(b)
    ensures AllShow(a + b, k[P := x], d, c)
  {
    AllShowPair(a, b, {P}, k, d, c, k[P := x], d, c);
  }

  /** Two runs of results on show before a change to `X` alone are on show together after it. */
  lemma AllShowPair(a: seq<Option<VNode>>, b: seq<Option<VNode>>, X: set<Handle>,
                    k1: seq<seq<Handle>>, d1: seq<NodeKind>, c1: seq<string>, k2: seq<seq<Handle>>, d2: seq<NodeKind>, c2: seq<string>)
    requires AllShow(a, k1, d1, c1) && AllShow(b, k1, d1, c1)
    requires |k1| <= |k2| && KindsKept(d1, d2) && Kept(c1, c2)
    requires forall h :: 0 <= h < |k1| && h !in X ==> k2[h] == k1[h]
    requires SlotHandles(a) !! X && SlotHandles(b) !! X
    ensures AllShow(a + b, k2, d2, c2)
  {
    AllShowKept(a, X, k1, d1, c1, k2, d2, c2);
    AllShowKept(b, X, k1, d1, c1, k2, d2, c2);
    AllShowJoin(a, b, k2, d2, c2);
  }

  /** Results on show before a change to `X` alone, around results on show after it, are all on show after it. */
  lemma AllShowAround(a: seq<Option<VNode>>, m: seq<Option<VNode>>, b: seq<Option<VNode>>, X: set<Handle>,
                      k1: seq<seq<Handle>>, d1: seq<NodeKind>, c1: seq<string>, k2: seq<seq<Handle>>, d2: seq<NodeKind>, c2: seq<string>)
    requires AllShow(a, k1, d1, c1) && AllShow(b, k1, d1, c1) && AllShow(m, k2, d2, c2)
    requires |k1| <= |k2| && KindsKept(d1, d2) && Kept(c1, c2)
    requires forall h :: 0 <= h < |k1| && h !in X ==> k2[h] == k1[h]
    requires SlotHandles(a) !! X && SlotHandles(b) !! X
    ensures AllShow(a + m + b, k2, d2, c2)
  {
    AllShowKept(a, X, k1, d1, c1, k2, d2, c2);
    AllShowKept(b, X, k1, d1, c1, k2, d2, c2);
    AllShowJoin(a, m, k2, d2, c2);
    AllShowJoin(a + m, b, k2, d2, c2);
  }

  /** The children of a tree on show are on show. */
  lemma ShowsChildren(v: VNode, kids: seq<seq<Handle>>, kind: seq<NodeKind>, content: seq<string>)
    requires Shows(v, kids, kind, content) && v.children.Array?
    ensures AllShow(v.children.items, kids, kind, content)
  {
  }

  /** A node with no text and a handle in the sink, over children on show, is on show. */
  lemma ShowsParent(v: VNode, kids: seq<seq<Handle>>, kind: seq<NodeKind>, content: seq<string>)
    requires v.elm.Some? && v.elm.value < |kids| && v.elm.value < |content| && v.text.None?
    requires v.children.Array? && AllShow(v.children.items, kids, kind, content)
    ensures Shows(v, kids, kind, content)
  {
  }

  /**
   * A node that takes over the handle, the selector and any text and
   * children of a node on show is on show as well.
   */
  lemma ShowsRetold(prev: VNode, w: VNode, kids: seq<seq<Handle>>, kind: seq<NodeKind>, content: seq<string>)
    requires Shows(prev, kids, kind, content) && w.elm == prev.elm && w.sel == prev.sel
    requires w.text.Some? ==> w.text == prev.text
    requires w.children.Array? ==> w.children == prev.children
    ensures Shows(w, kids, kind, content)
  {
  }

  // ---------------------------------------------------------------- siblings

  /** Below its root, every node of a mounted tree has its parent in the tree. */
  lemma {:induction false} TreeParents(v: VNode, kids: seq<seq<Handle>>, kind: seq<NodeKind>, parent: seq<Option<Handle>>)
    requires Mounted(v, kids, kind) && Linked(kids, parent)
    ensures forall h :: h in Handles(v) && h != v.elm.value ==>
      h < |parent| && parent[h].Some? && parent[h].value in Handles(v)
    decreases v
  {
    if v.children.Array? {
      var items := v.children.items;
      HandlesOfParent(v);
      SlotHandlesMem(items);
      forall h | h in Handles(v) && h != v.elm.value
        ensures h < |parent| && parent[h].Some? && parent[h].value in Handles(v)
      {
        var i :| 0 <= i < |items| && items[i].Some? && h in Handles(items[i].value);
        TreeParents(items[i].value, kids, kind, parent);
        if h == items[i].value.elm.value {
          ElmIn(items, i);
          ParentOfChild(kids, parent, v.elm.value, h);
        }
      }
    } else {
      assert Handles(v) == {v.elm.value};
    }
  }

  /**
   * No text child of a tree `a` is a node of the mounted tree `b` when the
   * two share no handle and `b`'s root is a child of `P`, a node outside
   * `a`: that text child's parent lies in `a`, while every node of `b` has
   * its parent in `b` or is `b`'s root.
   */
  lemma {:induction false} TextKidsApart(a: VNode, b: VNode, P: Handle, kids: seq<seq<Handle>>, kind: seq<NodeKind>,
                                         content: seq<string>, parent: seq<Option<Handle>>)
    requires Shows(a, kids, kind, content) && Linked(kids, parent) && P < |kids|
    requires b.elm.Some? && b.elm.value in kids[P] && P !in Handles(a) && Handles(a) !! Handles(b)
    requires forall h :: h in Handles(b) && h != b.elm.value ==>
      h < |parent| && parent[h].Some? && parent[h].value in Handles(b)
    ensures TextKidsOutside(a, kids, Handles(b))
    decreases a
  {
    var x := a.elm.value;
    assert x in Handles(a);
    if IsElement(a) && a.text.Some? && |kids[x]| == 1 {
      var c := kids[x][0];
      ParentOfChild(kids, parent, x, c);
      if c == b.elm.value {
        ParentOfChild(kids, parent, P, c);
      }
    }
    if a.children.Array? {
      var items := a.children.items;
      HandlesOfParent(a);
      SlotHandlesMem(items);
      forall i | 0 <= i < |items| && items[i].Some?
        ensures TextKidsOutside(items[i].value, kids, Handles(b))
      {
        TextKidsApart(items[i].value, b, P, kids, kind, content, parent);
      }
    }
  }

  // ---------------------------------------------------------------- the diff loop

  /** The old slots in play, except slot `except`, show their text. */
  predicate InPlayShow(st: DiffState, except: int, kids: seq<seq<Handle>>, kind: seq<NodeKind>, content: seq<string>) {
    forall j :: st.os <= j <= st.oe && 0 <= j < |st.cur| && j != except && st.cur[j].Some? ==>
      Shows(st.cur[j].value, kids, kind, content)
  }

  /** After patching the old slot `i` in play into `r`: the results, the other slots in play and `r` show their text. */
  predicate SlotPatchedShows(st: DiffState, i: int, r: VNode, kids: seq<seq<Handle>>, kind: seq<NodeKind>, content: seq<string>) {
    AllShow(st.front, kids, kind, content) && AllShow(st.back, kids, kind, content)
    && InPlayShow(st, i, kids, kind, content) && Shows(r, kids, kind, content)
  }

  /** `P`, the parent whose list a move changed, holds no node of the old children or of the results after the move. */
  predicate MovedApart(P: Handle, oldCh: seq<Option<VNode>>, st: DiffState) {
    Cleared(oldCh, st.cur) && 0 <= st.os <= st.oe + 1 <= |st.cur| && P !in SlotHandles(oldCh)
    && P !in SlotHandles(st.front) && P !in SlotHandles(st.back)
  }

  /** The text side of the invariant of `updateChildren`: the results and the old slots in play show their text. */
  predicate DiffShows(st: DiffState, kids: seq<seq<Handle>>, kind: seq<NodeKind>, content: seq<string>) {
    AllShow(st.front, kids, kind, content) && AllShow(st.back, kids, kind, content) && InPlayShow(st, -1, kids, kind, content)
  }

  /**
   * Patching the old slot `i` in play, which changes only the children and
   * texts of its own nodes (from `k1`/`d1`/`c1` to `k2`/`d2`/`c2`), leaves
   * the text of every result and of every other slot in play on show.
   */
  lemma PatchedRest(P: Handle, oldCh: seq<Option<VNode>>, st: DiffState, i: int, K: seq<seq<Handle>>, D: seq<NodeKind>, nd: bool,
                    k1: seq<seq<Handle>>, d1: seq<NodeKind>, c1: seq<string>, p1: seq<Option<Handle>>,
                    k2: seq<seq<Handle>>, d2: seq<NodeKind>, c2: seq<string>)
    requires Cleared(oldCh, st.cur) && 0 <= st.os <= st.oe + 1 <= |st.cur| && OldOk(P, oldCh, K, D)
    requires DiffSink(P, oldCh, st, K, D, k1, d1, nd) && Linked(k1, p1) && DiffShows(st, k1, d1, c1)
    requires st.os <= i <= st.oe && st.cur[i].Some?
    requires |k1| <= |k2| && KindsKept(d1, d2) && TextsKept(c1, c2, Handles(st.cur[i].value))
    requires forall h :: 0 <= h < |k1| && h !in Handles(st.cur[i].value) ==> k2[h] == k1[h]
    ensures AllShow(st.front, k2, d2, c2) && AllShow(st.back, k2, d2, c2) && InPlayShow(st, i, k2, d2, c2)
  {
    var b := st.cur[i].value;
    var W := Handles(b);
    InPlay(P, oldCh, st, K, D, k1, d1, nd, i);
    TreeParents(b, k1, d1, p1);
    MidFacts(oldCh, st);
    SlotHandlesMem(st.front);
    SlotHandlesMem(st.back);
    forall j | 0 <= j < |st.front| && st.front[j].Some?
      ensures Shows(st.front[j].value, k2, d2, c2)
    {
      var a := st.front[j].value;
      TextKidsApart(a, b, P, k1, d1, c1, p1);
      ShowsFrame(a, k1, d1, c1, k2, d2, c2, W);
    }
    forall j | 0 <= j < |st.back| && st.back[j].Some?
      ensures Shows(st.back[j].value, k2, d2, c2)
    {
      var a := st.back[j].value;
      TextKidsApart(a, b, P, k1, d1, c1, p1);
      ShowsFrame(a, k1, d1, c1, k2, d2, c2, W);
    }
    forall j | st.os <= j <= st.oe && j != i && st.cur[j].Some?
      ensures Shows(st.cur[j].value, k2, d2, c2)
    {
      var a := st.cur[j].value;
      InPlay(P, oldCh, st, K, D, k1, d1, nd, j);
      assert Handles(oldCh[j].value) !! Handles(oldCh[i].value);
      TextKidsApart(a, b, P, k1, d1, c1, p1);
      ShowsFrame(a, k1, d1, c1, k2, d2, c2, W);
    }
  }

  /**
   * A step that takes the slot `except` (or none) out of play, narrows the
   * slots in play and adds `x` to the front or the back results keeps the
   * invariant, when `x` shows its text.
   */
  lemma ShowsStep(st: DiffState, st': DiffState, except: int, x: Option<VNode>,
                  kids: seq<seq<Handle>>, kind: seq<NodeKind>, content: seq<string>)
    requires AllShow(st.front, kids, kind, content) && AllShow(st.back, kids, kind, content)
    requires InPlayShow(st, except, kids, kind, content) && (x.Some? ==> Shows(x.value, kids, kind, content))
    requires (st'.front == st.front + [x] && st'.back == st.back) || (st'.front == st.front && st'.back == [x] + st.back)
    requires st.os <= st'.os && st'.oe <= st.oe && |st'.cur| == |st.cur|
    requires forall j :: st'.os <= j <= st'.oe && 0 <= j < |st'.cur| && st'.cur[j].Some? ==> j != except && st'.cur[j] == st.cur[j]
    ensures DiffShows(st', kids, kind, content)
  {
    if st'.front == st.front + [x] && st'.back == st.back {
      AllShowSnoc(st.front, x, kids, kind, content);
    } else {
      AllShowJoin([x], st.back, kids, kind, content);
    }
  }

  /** Before the first step every old slot is in play and there are no results. */
  lemma ShowsStarted(oldCh: seq<Option<VNode>>, newCh: seq<Option<VNode>>, kids: seq<seq<Handle>>, kind: seq<NodeKind>, content: seq<string>)
    requires AllShow(oldCh, kids, kind, content)
    ensures DiffShows(Start(oldCh, newCh), kids, kind, content)
  {
  }

  /**
   * A step as above, followed by changes to the children of `P` alone,
   * keeps the invariant.
   */
  lemma ShowsStepMoved(P: Handle, oldCh: seq<Option<VNode>>, st: DiffState, st': DiffState, except: int, x: Option<VNode>,
                       k1: seq<seq<Handle>>, d1: seq<NodeKind>, c1: seq<string>, k2: seq<seq<Handle>>, d2: seq<NodeKind>)
    requires AllShow(st.front, k1, d1, c1) && AllShow(st.back, k1, d1, c1)
    requires InPlayShow(st, except, k1, d1, c1) && (x.Some? ==> Shows(x.value, k1, d1, c1))
    requires (st'.front == st.front + [x] && st'.back == st.back) || (st'.front == st.front && st'.back == [x] + st.back)
    requires st.os <= st'.os && st'.oe <= st.oe && |st'.cur| == |st.cur|
    requires forall j :: st'.os <= j <= st'.oe && 0 <= j < |st'.cur| && st'.cur[j].Some? ==> j != except && st'.cur[j] == st.cur[j]
    requires Cleared(oldCh, st'.cur) && 0 <= st'.os <= st'.oe + 1 <= |st'.cur| && P !in SlotHandles(oldCh)
    requires P !in SlotHandles(st'.front) && P !in SlotHandles(st'.back) && Grown(k1, d1, k2, d2, P)
    ensures DiffShows(st', k2, d2, c1)
  {
    ShowsStep(st, st', except, x, k1, d1, c1);
    ShowsMoved(P, oldCh, st', k1, d1, c1, k2, d2, c1);
  }

  /** The step of `updateChildren` that moves the old start's node to the right keeps the invariant. */
  lemma ShowsRightMoved(P: Handle, oldCh: seq<Option<VNode>>, st: DiffState, st': DiffState, r: VNode,
                        k1: seq<seq<Handle>>, d1: seq<NodeKind>, c1: seq<string>, k2: seq<seq<Handle>>, d2: seq<NodeKind>)
    requires 0 <= st.os < st.oe < |st.cur|
    requires st' == st.(os := st.os + 1, ne := st.ne - 1, back := [Some(r)] + st.back)
    requires SlotPatchedShows(st, st.os, r, k1, d1, c1) && MovedApart(P, oldCh, st') && Grown(k1, d1, k2, d2, P)
    ensures DiffShows(st', k2, d2, c1)
  {
    ShowsStepMoved(P, oldCh, st, st', st.os, Some(r), k1, d1, c1, k2, d2);
  }

  /** The step of `updateChildren` that moves the old end's node to the left keeps the invariant. */
  lemma ShowsLeftMoved(P: Handle, oldCh: seq<Option<VNode>>, st: DiffState, st': DiffState, r: VNode,
                       k1: seq<seq<Handle>>, d1: seq<NodeKind>, c1: seq<string>, k2: seq<seq<Handle>>, d2: seq<NodeKind>)
    requires 0 <= st.os < st.oe < |st.cur|
    requires st' == st.(oe := st.oe - 1, ns := st.ns + 1, front := st.front + [Some(r)])
    requires SlotPatchedShows(st, st.oe, r, k1, d1, c1) && MovedApart(P, oldCh, st') && Grown(k1, d1, k2, d2, P)
    ensures DiffShows(st', k2, d2, c1)
  {
    ShowsStepMoved(P, oldCh, st, st', st.oe, Some(r), k1, d1, c1, k2, d2);
  }

  /** The step of `updateChildren` that takes an old node from the middle, by key, keeps the invariant. */
  lemma ShowsMiddleMoved(P: Handle, oldCh: seq<Option<VNode>>, st: DiffState, st': DiffState, idx: int, r: VNode,
                         k1: seq<seq<Handle>>, d1: seq<NodeKind>, c1: seq<string>, k2: seq<seq<Handle>>, d2: seq<NodeKind>)
    requires 0 <= st.os < idx < st.oe < |st.cur|
    requires st' == st.(cur := st.cur[idx := None], ns := st.ns + 1, front := st.front + [Some(r)])
    requires SlotPatchedShows(st, idx, r, k1, d1, c1) && MovedApart(P, oldCh, st') && Grown(k1, d1, k2, d2, P)
    ensures DiffShows(st', k2, d2, c1)
  {
    ShowsStepMoved(P, oldCh, st, st', idx, Some(r), k1, d1, c1, k2, d2);
  }

  /** Skipping a null old slot keeps the invariant. */
  lemma ShowsSkipped(st: DiffState, st': DiffState, kids: seq<seq<Handle>>, kind: seq<NodeKind>, content: seq<string>)
    requires DiffShows(st, kids, kind, content)
    requires st'.front == st.front && st'.back == st.back && st'.cur == st.cur
    requires st.os <= st'.os && st'.oe <= st.oe
    ensures DiffShows(st', kids, kind, content)
  {
  }

  /**
   * When only `P`, which holds no node of the results or of the slots in
   * play, changed its children and no old text changed, the invariant
   * still holds.
   */
  lemma ShowsMoved(P: Handle, oldCh: seq<Option<VNode>>, st: DiffState,
                   k1: seq<seq<Handle>>, d1: seq<NodeKind>, c1: seq<string>, k2: seq<seq<Handle>>, d2: seq<NodeKind>, c2: seq<string>)
    requires Cleared(oldCh, st.cur) && 0 <= st.os <= st.oe + 1 <= |st.cur| && P !in SlotHandles(oldCh)
    requires P !in SlotHandles(st.front) && P !in SlotHandles(st.back) && DiffShows(st, k1, d1, c1)
    requires Grown(k1, d1, k2, d2, P) && Kept(c1, c2)
    ensures DiffShows(st, k2, d2, c2)
  {
    AllShowKept(st.front, {P}, k1, d1, c1, k2, d2, c2);
    AllShowKept(st.back, {P}, k1, d1, c1, k2, d2, c2);
    SlotHandlesMem(oldCh);
    forall j | st.os <= j <= st.oe && st.cur[j].Some?
      ensures Shows(st.cur[j].value, k2, d2, c2)
    {
      assert st.cur[j] == oldCh[j];
      ShowsKept(st.cur[j].value, k1, d1, c1, k2, d2, c2);
    }
  }
}
