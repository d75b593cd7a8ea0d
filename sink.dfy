/**
 * The abstract sink that the engine drives in place of a DOM: a store of
 * nodes addressed by handle, each with its ordered child handles, its parent,
 * its kind (element with tag and namespace, text or comment), its text and
 * its attributes. It offers the operations the engine calls through its
 * DOM adapter.
 */
module Dom {
  import opened Wrappers
  import opened Seqs
  import opened VNodes

  datatype NodeKind = Element(tag: string, ns: Option<string>) | TextNode | CommentNode

  /**
   * Child lists and parent links agree: every listed child is a stored
   * node whose parent is the list's owner, every parent link is matched by
   * a listing, and no child list holds a handle twice.
   */
  ghost predicate Linked(kids: seq<seq<Handle>>, parent: seq<Option<Handle>>) {
    |parent| == |kids|
    && (forall p, i :: 0 <= p < |kids| && 0 <= i < |kids[p]| ==> kids[p][i] < |kids| && parent[kids[p][i]] == Some(p))
    && (forall c :: 0 <= c < |kids| && parent[c].Some? ==> parent[c].value < |kids| && c in kids[parent[c].value])
    && (forall p :: 0 <= p < |kids| ==> NoDup(kids[p]))
  }

  lemma LinkedAdd(kids: seq<seq<Handle>>, parent: seq<Option<Handle>>)
    requires Linked(kids, parent)
    ensures Linked(kids + [[]], parent + [None])
  {
    var k, q := kids + [[]], parent + [None];
    assert forall c :: 0 <= c < |kids| && q[c].Some? ==> k[q[c].value] == kids[parent[c].value];
  }

  lemma LinkedRemove(kids: seq<seq<Handle>>, parent: seq<Option<Handle>>, p: Handle, c: Handle)
    requires Linked(kids, parent) && p < |kids| && c in kids[p]
    ensures Linked(kids[p := Without(kids[p], {c})], parent[c := None])
  {
    WithoutNoDup(kids[p], {c});
    var k, q := kids[p := Without(kids[p], {c})], parent[c := None];
    assert forall x, i :: 0 <= x < |k| && 0 <= i < |k[x]| ==> k[x][i] in kids[x] && k[x][i] != c;
  }

  lemma LinkedAttach(kids: seq<seq<Handle>>, parent: seq<Option<Handle>>, p: Handle, c: Handle, ref: Option<Handle>)
    requires Linked(kids, parent) && p < |kids| && c < |kids| && parent[c].None?
    ensures Linked(kids[p := InsertAt(kids[p], c, ref)], parent[c := Some(p)])
  {
    assert forall i :: 0 <= i < |kids[p]| ==> kids[p][i] != c;
    InsertAtNoDup(kids[p], c, ref);
    var k := kids[p := InsertAt(kids[p], c, ref)];
    assert forall x, i :: 0 <= x < |k| && 0 <= i < |k[x]| ==> k[x][i] in kids[x] || k[x][i] == c;
  }

  lemma LinkedClear(kids: seq<seq<Handle>>, parent: seq<Option<Handle>>, h: Handle)
    requires Linked(kids, parent) && h < |kids|
    ensures Linked(kids[h := []], seq(|parent|, i requires 0 <= i < |parent| => if parent[i] == Some(h) then None else parent[i]))
  {
    var k := kids[h := []];
    assert forall p, i :: 0 <= p < |k| && 0 <= i < |k[p]| ==> k[p][i] == kids[p][i] && p != h;
  }

  /** A child of `p` has `p` as its parent. */
  lemma ParentOfChild(kids: seq<seq<Handle>>, parent: seq<Option<Handle>>, p: Handle, c: Handle)
    requires Linked(kids, parent) && p < |kids| && c in kids[p]
    ensures c < |kids| && parent[c] == Some(p)
  {
    var i :| 0 <= i < |kids[p]| && kids[p][i] == c;
  }

  /** The child lists after `c` moves from its parent `q`, if any, into `p` before `ref`. */
  function MoveKids(k: seq<seq<Handle>>, q: Option<Handle>, p: Handle, c: Handle, ref: Option<Handle>): seq<seq<Handle>>
    requires p < |k| && (q.Some? ==> q.value < |k|)
  {
    var k1 := if q.Some? then k[q.value := Without(k[q.value], {c})] else k;
    k1[p := InsertAt(k1[p], c, ref)]
  }

  lemma MoveKidsEffect(k: seq<seq<Handle>>, q: Option<Handle>, p: Handle, c: Handle, ref: Option<Handle>)
    requires p < |k| && (q.Some? ==> q.value < |k|)
    requires q != Some(p) ==> c !in k[p]
    ensures var r := MoveKids(k, q, p, c, ref);
      && |r| == |k|
      && r[p] == InsertAt(Without(k[p], {c}), c, ref)
      && forall h :: 0 <= h < |k| && h != p ==> r[h] == if q == Some(h) then Without(k[h], {c}) else k[h]
  {
    if q != Some(p) {
      WithoutDisjoint(k[p], {c});
    }
  }

  /** Moving a node keeps children and parents in agreement, and has the effect `MoveKidsEffect` states. */
  lemma MoveLinked(kids: seq<seq<Handle>>, parent: seq<Option<Handle>>, p: Handle, c: Handle, ref: Option<Handle>)
    requires Linked(kids, parent) && p < |kids| && c < |kids|
    ensures parent[c].Some? ==> parent[c].value < |kids|
    ensures Linked(MoveKids(kids, parent[c], p, c, ref), parent[c := Some(p)])
    ensures |MoveKids(kids, parent[c], p, c, ref)| == |kids|
    ensures MoveKids(kids, parent[c], p, c, ref)[p] == InsertAt(Without(kids[p], {c}), c, ref)
    ensures forall h :: 0 <= h < |kids| && h != p ==>
      MoveKids(kids, parent[c], p, c, ref)[h] == if parent[c] == Some(h) then Without(kids[h], {c}) else kids[h]
  {
    var q := parent[c];
    if c in kids[p] {
      ParentOfChild(kids, parent, p, c);
    }
    if q.Some? {
      LinkedRemove(kids, parent, q.value, c);
      var k1, p1 := kids[q.value := Without(kids[q.value], {c})], parent[c := None];
      LinkedAttach(k1, p1, p, c, ref);
      assert p1[c := Some(p)] == parent[c := Some(p)];
    } else {
      LinkedAttach(kids, parent, p, c, ref);
    }
    MoveKidsEffect(kids, q, p, c, ref);
  }

  class Sink {
    var kids: seq<seq<Handle>>
    var parent: seq<Option<Handle>>
    var kind: seq<NodeKind>
    var content: seq<string>
    var attrs: seq<map<string, string>>

    /** Every per-node record covers every handle, and children and parents agree. */
    ghost predicate Valid()
      reads this
    {
      |kind| == |kids| && |content| == |kids| && |attrs| == |kids| && Linked(kids, parent)
    }

    constructor ()
      ensures Valid() && kids == []
    {
      kids, parent, kind, content, attrs := [], [], [], [], [];
    }

    /** A child of `p` has `p` as its parent; a node listed nowhere else has no other parent. */
    lemma ChildOnlyOfParent(p: Handle, c: Handle)
      requires Valid() && p < |kids| && c < |kids|
      ensures c in kids[p] ==> parent[c] == Some(p)
      ensures parent[c] != Some(p) ==> c !in kids[p]
      ensures parent[c].Some? ==> parent[c].value < |kids| && c in kids[parent[c].value]
    {
      if c in kids[p] {
        ParentOfChild(kids, parent, p, c);
      }
    }

    /** A child list holds distinct stored nodes. */
    lemma ChildrenBelow(p: Handle)
      requires Valid() && p < |kids|
      ensures NoDup(kids[p]) && forall h :: h in kids[p] ==> h < |kids|
    {
    }

    /** `parentNode`. */
    function ParentNode(h: Handle): Option<Handle>
      reads this
      requires Valid() && h < |kids|
    {
      parent[h]
    }

    /** `nextSibling`: the node after `h` in its parent's child list, if any. */
    function NextSibling(h: Handle): (r: Option<Handle>)
      reads this
      requires Valid() && h < |kids|
      ensures r.Some? ==> parent[h].Some? && r.value in kids[parent[h].value]
    {
      if parent[h].Some? then NextOf(kids[parent[h].value], h) else None
    }

    method Add(k: NodeKind, text: string) returns (h: Handle)
      requires Valid()
      modifies this
      ensures Valid() && h == old(|kids|)
      ensures kids == old(kids) + [[]] && parent == old(parent) + [None]
      ensures kind == old(kind) + [k] && content == old(content) + [text] && attrs == old(attrs) + [map[]]
    {
      LinkedAdd(kids, parent);
      h := |kids|;
      kids, parent, kind := kids + [[]], parent + [None], kind + [k];
      content, attrs := content + [text], attrs + [map[]];
    }

    /** `createElement` / `createElementNS`: a fresh, detached element. */
    method CreateElement(tag: string, ns: Option<string>) returns (h: Handle)
      requires Valid()
      modifies this
      ensures Valid() && h == old(|kids|)
      ensures kids == old(kids) + [[]] && parent == old(parent) + [None]
      ensures kind == old(kind) + [Element(tag, ns)] && content == old(content) + [""] && attrs == old(attrs) + [map[]]
    {
      h := Add(Element(tag, ns), "");
    }

    /** `createTextNode`: a fresh, detached text node. */
    method CreateTextNode(text: string) returns (h: Handle)
      requires Valid()
      modifies this
      ensures Valid() && h == old(|kids|)
      ensures kids == old(kids) + [[]] && parent == old(parent) + [None]
      ensures kind == old(kind) + [TextNode] && content == old(content) + [text] && attrs == old(attrs) + [map[]]
    {
      h := Add(TextNode, text);
    }

    /** `createComment`: a fresh, detached comment. */
    method CreateComment(text: string) returns (h: Handle)
      requires Valid()
      modifies this
      ensures Valid() && h == old(|kids|)
      ensures kids == old(kids) + [[]] && parent == old(parent) + [None]
      ensures kind == old(kind) + [CommentNode] && content == old(content) + [text] && attrs == old(attrs) + [map[]]
    {
      h := Add(CommentNode, text);
    }

    /** `setAttribute`. */
    method SetAttribute(h: Handle, name: string, value: string)
      requires Valid() && h < |kids|
      modifies this`attrs
      ensures Valid() && attrs == old(attrs)[h := old(attrs[h])[name := value]]
    {
      attrs := attrs[h := attrs[h][name := value]];
    }

    /**
     * `insertBefore(p, c, ref)`: `c` leaves its current parent, if any, and
     * is placed in `p`'s child list right before `ref`, or last when `ref`
     * is absent.
     */
    method InsertBefore(p: Handle, c: Handle, ref: Option<Handle>)
      requires Valid() && p < |kids| && c < |kids|
      requires ref.Some? ==> ref.value in kids[p] && ref.value != c
      modifies this`kids, this`parent
      ensures Valid() && |kids| == old(|kids|)
      ensures kids[p] == InsertAt(Without(old(kids[p]), {c}), c, ref)
      ensures forall h :: 0 <= h < |kids| && h != p ==>
        kids[h] == if old(parent[c]) == Some(h) then Without(old(kids[h]), {c}) else old(kids[h])
      ensures parent == old(parent)[c := Some(p)]
    {
      MoveLinked(kids, parent, p, c, ref);
      kids := MoveKids(kids, parent[c], p, c, ref);
      parent := parent[c := Some(p)];
    }

    /** `appendChild(p, c)`: `insertBefore` with no reference node. */
    method AppendChild(p: Handle, c: Handle)
      requires Valid() && p < |kids| && c < |kids|
      modifies this`kids, this`parent
      ensures Valid() && |kids| == old(|kids|)
      ensures kids[p] == Without(old(kids[p]), {c}) + [c]
      ensures forall h :: 0 <= h < |kids| && h != p ==>
        kids[h] == if old(parent[c]) == Some(h) then Without(old(kids[h]), {c}) else old(kids[h])
      ensures parent == old(parent)[c := Some(p)]
    {
      InsertBefore(p, c, None);
    }

    /** `removeChild(p, c)`: `c` must be a child of `p`; it becomes detached. */
    method RemoveChild(p: Handle, c: Handle)
      requires Valid() && p < |kids| && c in kids[p]
      modifies this`kids, this`parent
      ensures Valid() && |kids| == old(|kids|)
      ensures kids == old(kids)[p := Without(old(kids[p]), {c})]
      ensures parent == old(parent)[c := None]
    {
      LinkedRemove(kids, parent, p, c);
      kids, parent := kids[p := Without(kids[p], {c})], parent[c := None];
    }

    /**
     * `setTextContent`: on an element, every child is detached and, unless
     * the text is empty, a fresh text node holding it becomes the only child;
     * on a text or comment node, its text is replaced.
     */
    method SetTextContent(h: Handle, text: string)
      requires Valid() && h < |kids|
      modifies this
      ensures Valid()
      ensures old(kind[h]).Element? ==>
        && kind == old(kind) + (if text == "" then [] else [TextNode])
        && |kids| == old(|kids|) + (if text == "" then 0 else 1)
        && kids[h] == (if text == "" then [] else [old(|kids|)])
        && (forall x :: 0 <= x < old(|kids|) && x != h ==> kids[x] == old(kids[x]))
        && content == old(content) + (if text == "" then [] else [text])
        && attrs == old(attrs) + (if text == "" then [] else [map[]])
        && (forall x :: 0 <= x < old(|kids|) ==> parent[x] == if old(parent[x]) == Some(h) then None else old(parent[x]))
        && (text != "" ==> kids[old(|kids|)] == [] && parent[old(|kids|)] == Some(h))
      ensures !old(kind[h]).Element? ==>
        kids == old(kids) && kind == old(kind) && content == old(content)[h := text]
        && attrs == old(attrs) && parent == old(parent)
    {
      if kind[h].Element? {
        LinkedClear(kids, parent, h);
        var par := parent;
        kids := kids[h := []];
        parent := seq(|par|, i requires 0 <= i < |par| => if par[i] == Some(h) then None else par[i]);
        if text != "" {
          var t := Add(TextNode, text);
          LinkedAttach(kids, parent, h, t, None);
          kids, parent := kids[h := InsertAt(kids[h], t, None)], parent[t := Some(h)];
        }
      } else {
        content := content[h := text];
      }
    }
  }
}
