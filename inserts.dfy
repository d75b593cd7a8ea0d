/**
 * Which nodes one `patch` call queues for their `insert` hook
 * (src/snabbdom.ts:165-168, 432-435). A node counts as made by the call when
 * its sink handle is at least the number of sink nodes there were when the
 * call began: the nodes of the old tree are older, and every node
 * `createElm` makes is newer. `Made(v, lo)` lists the nodes of `v` made from
 * `lo` on that `createElm` queues, in `createElm`'s order; a call that
 * patches in place queues exactly these, each once, though the diff may
 * queue them in another order.
 */
module Inserts {
  import opened Wrappers
  import opened VNodes
  import opened Dom
  import opened Trees
  import opened Diff

  /** The nodes of `q` whose handle is `lo` or above, in order. */
  function Since(q: seq<VNode>, lo: int): seq<VNode> {
    if q == [] then []
    else (if q[0].elm.Some? && lo <= q[0].elm.value then [q[0]] else []) + Since(q[1..], lo)
  }

  /** The nodes of `v` made from `lo` on that `createElm` queues, in its order. */
  function Made(v: VNode, lo: int): seq<VNode> {
    Since(InsertOrder(v), lo)
  }

  /** The same for a list of slots, slot by slot. */
  function MadeSlots(s: seq<Option<VNode>>, lo: int): seq<VNode> {
    Since(InsertOrderSlots(s), lo)
  }

  /** `q` is `q0` followed by exactly the nodes of `made`, each once, in some order. */
  predicate QueuedExactly(q0: seq<VNode>, q: seq<VNode>, made: seq<VNode>) {
    |q0| <= |q| && q[..|q0|] == q0 && multiset(q[|q0|..]) == multiset(made)
  }

  // ---------------------------------------------------------------- the filter

  lemma {:induction false} SinceAppend(a: seq<VNode>, b: seq<VNode>, lo: int)
    ensures Since(a + b, lo) == Since(a, lo) + Since(b, lo)
  {
    if a == [] {
      assert a + b == b;
    } else {
      assert (a + b)[0] == a[0] && (a + b)[1..] == a[1..] + b;
      SinceAppend(a[1..], b, lo);
    }
  }

  /** Nothing of `q` is kept when every handle in it is below `lo`. */
  lemma {:induction false} SinceNone(q: seq<VNode>, lo: int)
    requires forall x :: x in q && x.elm.Some? ==> x.elm.value < lo
    ensures Since(q, lo) == []
  {
    if q != [] {
      assert q[0] in q;
      assert forall x :: x in q[1..] ==> x in q;
      SinceNone(q[1..], lo);
    }
  }

  /** All of `q` is kept when every node in it has a handle from `lo` on. */
  lemma {:induction false} SinceAll(q: seq<VNode>, lo: int)
    requires forall x :: x in q ==> x.elm.Some? && lo <= x.elm.value
    ensures Since(q, lo) == q
  {
    if q != [] {
      assert q[0] in q;
      assert forall x :: x in q[1..] ==> x in q;
      SinceAll(q[1..], lo);
      assert q == [q[0]] + q[1..];
    }
  }

  /** Raising the bound from `lo` to `hi` drops nothing when no handle of `q` lies in between. */
  lemma {:induction false} SinceShift(q: seq<VNode>, lo: int, hi: int)
    requires lo <= hi
    requires forall x :: x in q && x.elm.Some? ==> x.elm.value < lo || hi <= x.elm.value
    ensures Since(q, lo) == Since(q, hi)
  {
    if q != [] {
      assert q[0] in q;
      assert forall x :: x in q[1..] ==> x in q;
      SinceShift(q[1..], lo, hi);
    }
  }

  /** `Since` keeps exactly the nodes of `q` with a handle from `lo` on. */
  lemma {:induction false} SinceMem(q: seq<VNode>, lo: int)
    ensures forall x :: x in Since(q, lo) <==> x in q && x.elm.Some? && lo <= x.elm.value
  {
    if q != [] {
      SinceMem(q[1..], lo);
      assert q == [q[0]] + q[1..];
    }
  }

  // ---------------------------------------------------------------- queued nodes of a tree

  /** Each node `createElm` would queue for `v` is a node of `v`: its handle, if any, is one of `v`'s. */
  lemma {:induction false} QueuedHandles(v: VNode)
    ensures forall x :: x in InsertOrder(v) && x.elm.Some? ==> x.elm.value in Handles(v)
    decreases v, 1
  {
    if IsElement(v) {
      QueuedHandlesUpTo(v.children, if v.children.Array? then |v.children.items| else 0);
    }
  }

  lemma {:induction false} QueuedHandlesUpTo(c: ChildList, n: nat)
    requires c.Array? ==> n <= |c.items|
    ensures forall x :: x in InsertOrderUpTo(c, n) && x.elm.Some? ==> x.elm.value in HandlesUpTo(c, n)
    decreases c, n
  {
    if c.Array? && n > 0 {
      QueuedHandlesUpTo(c, n - 1);
      if c.items[n - 1].Some? {
        QueuedHandles(c.items[n - 1].value);
      }
    }
  }

  /** In a mounted tree, every node `createElm` would queue has a handle. */
  lemma {:induction false} QueuedMounted(v: VNode, kids: seq<seq<Handle>>, kind: seq<NodeKind>)
    requires Mounted(v, kids, kind)
    ensures forall x :: x in InsertOrder(v) ==> x.elm.Some?
    decreases v, 1
  {
    if IsElement(v) && v.children.Array? {
      QueuedMountedUpTo(v.children, |v.children.items|, kids, kind);
    }
  }

  lemma {:induction false} QueuedMountedUpTo(c: ChildList, n: nat, kids: seq<seq<Handle>>, kind: seq<NodeKind>)
    requires c.Array? && n <= |c.items|
    requires forall i :: 0 <= i < n && c.items[i].Some? ==> Mounted(c.items[i].value, kids, kind)
    ensures forall x :: x in InsertOrderUpTo(c, n) ==> x.elm.Some?
    decreases c, n
  {
    if n > 0 {
      QueuedMountedUpTo(c, n - 1, kids, kind);
      if c.items[n - 1].Some? {
        QueuedMounted(c.items[n - 1].value, kids, kind);
      }
    }
  }

  /** The queue contribution of two slot lists side by side. */
  lemma {:induction false} InsertOrderSlotsAppend(a: seq<Option<VNode>>, b: seq<Option<VNode>>)
    ensures InsertOrderSlots(a + b) == InsertOrderSlots(a) + InsertOrderSlots(b)
    decreases |b|
  {
    if b == [] {
      assert a + b == a;
    } else {
      var b', x := b[..|b| - 1], b[|b| - 1];
      assert b == b' + [x] && a + b == (a + b') + [x];
      InsertOrderSnoc(a + b', x);
      InsertOrderSnoc(b', x);
      InsertOrderSlotsAppend(a, b');
    }
  }

  // ---------------------------------------------------------------- made nodes

  /** The nodes made from `lo` on are the queued nodes of `v` whose handle is `lo` or above. */
  lemma MadeMembers(v: VNode, lo: int)
    ensures forall x :: x in Made(v, lo) <==> x in InsertOrder(v) && x.elm.Some? && lo <= x.elm.value
  {
    SinceMem(InsertOrder(v), lo);
  }

  /** A tree whose handles are all below `lo` has no node made from `lo` on. */
  lemma MadeNone(v: VNode, lo: int)
    requires forall h :: h in Handles(v) ==> h < lo
    ensures Made(v, lo) == []
  {
    QueuedHandles(v);
    SinceNone(InsertOrder(v), lo);
  }

  /** Every queued node of a mounted tree whose handles are all from `lo` on is made from `lo` on. */
  lemma MadeAll(v: VNode, lo: int, kids: seq<seq<Handle>>, kind: seq<NodeKind>)
    requires Mounted(v, kids, kind) && forall h :: h in Handles(v) ==> lo <= h
    ensures Made(v, lo) == InsertOrder(v)
  {
    QueuedHandles(v);
    QueuedMounted(v, kids, kind);
    SinceAll(InsertOrder(v), lo);
  }

  /**
   * A result patched from a node `x` whose handles are below `lo`, in a
   * sink that then had `hi` nodes: it uses `x`'s handles and ones from `hi`
   * on, so what was made from `hi` on is what was made from `lo` on.
   */
  lemma MadeByPatch(x: VNode, r: VNode, lo: int, hi: int)
    requires lo <= hi && forall h :: h in Handles(x) ==> h < lo
    requires forall h :: h in Handles(r) ==> h in Handles(x) || hi <= h
    ensures Made(r, hi) == Made(r, lo)
  {
    QueuedHandles(r);
    SinceShift(InsertOrder(r), lo, hi);
  }

  /** The same for the result `r` of patching the old slot `i` of a list whose handles are below `lo`. */
  lemma MadeBySlotPatch(oldCh: seq<Option<VNode>>, i: int, r: VNode, lo: int, hi: int)
    requires 0 <= i < |oldCh| && oldCh[i].Some? && lo <= hi
    requires forall h :: h in SlotHandles(oldCh) ==> h < lo
    requires forall h :: h in Handles(r) ==> h in Handles(oldCh[i].value) || hi <= h
    ensures Made(r, hi) == Made(r, lo)
  {
    SlotHandlesMem(oldCh);
    MadeByPatch(oldCh[i].value, r, lo, hi);
  }

  /** Slots built from `hi` on, with `lo <= hi`: every node they queue is made from `lo` on. */
  lemma MadeSlotsAll(s: seq<Option<VNode>>, lo: int, hi: nat, kids: seq<seq<Handle>>, kind: seq<NodeKind>)
    requires Built(s, hi, kids, kind) && lo <= hi
    ensures MadeSlots(s, lo) == InsertOrderSlots(s)
  {
    QueuedHandlesUpTo(Array(s), |s|);
    QueuedMountedUpTo(Array(s), |s|, kids, kind);
    BuiltSlots(s, hi, kids, kind);
    assert Array(s).items == s;
    assert forall x :: x in InsertOrderSlots(s) ==> x.elm.Some? && x.elm.value in SlotHandles(s);
    SinceAll(InsertOrderSlots(s), lo);
  }

  lemma MadeSlotsAppend(a: seq<Option<VNode>>, b: seq<Option<VNode>>, lo: int)
    ensures MadeSlots(a + b, lo) == MadeSlots(a, lo) + MadeSlots(b, lo)
  {
    InsertOrderSlotsAppend(a, b);
    SinceAppend(InsertOrderSlots(a), InsertOrderSlots(b), lo);
  }

  /** A single slot contributes the made nodes of its node, or nothing when null. */
  lemma MadeSlotsOne(x: Option<VNode>, lo: int)
    ensures MadeSlots([x], lo) == if x.Some? then Made(x.value, lo) else []
  {
    InsertOrderSnoc([], x);
    assert [] + [x] == [x];
    assert InsertOrderSlots([]) == [];
    var own := if x.Some? then InsertOrder(x.value) else [];
    assert [] + own == own;
  }

  /** An element older than `lo` is not made from `lo` on itself; its made nodes are its children's. */
  lemma MadeParent(v: VNode, lo: int)
    requires IsElement(v) && v.children.Array? && v.elm.Some? && v.elm.value < lo
    ensures Made(v, lo) == MadeSlots(v.children.items, lo)
  {
    assert Array(v.children.items) == v.children;
    var own := if HasInsert(v) then [v] else [];
    SinceAppend(InsertOrderSlots(v.children.items), own, lo);
    assert Since(own, lo) == [];
  }

  /** A node older than `lo` without children has no node made from `lo` on. */
  lemma MadeLeaf(v: VNode, lo: int)
    requires v.children.Undefined? && v.elm.Some? && v.elm.value < lo
    ensures Made(v, lo) == []
  {
    assert InsertOrderUpTo(v.children, 0) == [];
    SinceNone(InsertOrder(v), lo);
  }

  // ---------------------------------------------------------------- the queue

  /** Appending `x` to a queue queues exactly `x`. */
  lemma QueuedExactlyAppend(q: seq<VNode>, x: seq<VNode>)
    ensures QueuedExactly(q, q + x, x)
  {
    assert (q + x)[..|q|] == q && (q + x)[|q|..] == x;
  }

  /** An untouched queue queues nothing. */
  lemma QueuedNothing(q: seq<VNode>)
    ensures QueuedExactly(q, q, [])
  {
    assert q[|q|..] == [];
  }

  /** Two rounds of queueing: first `a`, then `b`. */
  lemma QueuedExactlyTrans(q0: seq<VNode>, q1: seq<VNode>, q2: seq<VNode>, a: seq<VNode>, b: seq<VNode>)
    requires QueuedExactly(q0, q1, a) && QueuedExactly(q1, q2, b)
    ensures QueuedExactly(q0, q2, a + b)
  {
    assert q2[..|q0|] == q2[..|q1|][..|q0|];
    assert q2[|q0|..] == q1[|q0|..] + q2[|q1|..] by {
      assert q2 == q1 + q2[|q1|..];
    }
  }

  // ---------------------------------------------------------------- the diff

  /**
   * The queue side of the loop invariant of `updateChildren`: since `q0`,
   * exactly the nodes made from `lo` on in the front and back results were
   * queued.
   */
  predicate DiffMade(q0: seq<VNode>, q: seq<VNode>, st: DiffState, lo: int) {
    QueuedExactly(q0, q, MadeSlots(st.front, lo) + MadeSlots(st.back, lo))
  }

  /** Before the loop nothing is queued and there are no results. */
  lemma MadeStarted(q0: seq<VNode>, st: DiffState, lo: int)
    requires st.front == [] && st.back == []
    ensures DiffMade(q0, q0, st, lo)
  {
    QueuedNothing(q0);
    assert InsertOrderSlots([]) == [];
  }

  /** A step that adds the result `r` at the end of the front results and queues its made nodes. */
  lemma MadeFront(q0: seq<VNode>, q: seq<VNode>, q': seq<VNode>, st: DiffState, st': DiffState, r: Option<VNode>, lo: int)
    requires DiffMade(q0, q, st, lo) && QueuedExactly(q, q', MadeSlots([r], lo))
    requires st'.front == st.front + [r] && st'.back == st.back
    ensures DiffMade(q0, q', st', lo)
  {
    QueuedExactlyTrans(q0, q, q', MadeSlots(st.front, lo) + MadeSlots(st.back, lo), MadeSlots([r], lo));
    MadeSlotsAppend(st.front, [r], lo);
  }

  /** A step that adds the result `r` at the start of the back results and queues its made nodes. */
  lemma MadeBack(q0: seq<VNode>, q: seq<VNode>, q': seq<VNode>, st: DiffState, st': DiffState, r: Option<VNode>, lo: int)
    requires DiffMade(q0, q, st, lo) && QueuedExactly(q, q', MadeSlots([r], lo))
    requires st'.back == [r] + st.back && st'.front == st.front
    ensures DiffMade(q0, q', st', lo)
  {
    QueuedExactlyTrans(q0, q, q', MadeSlots(st.front, lo) + MadeSlots(st.back, lo), MadeSlots([r], lo));
    MadeSlotsAppend([r], st.back, lo);
  }

  /** A step that leaves the results and the queue alone. */
  lemma MadeKept(q0: seq<VNode>, q: seq<VNode>, st: DiffState, st': DiffState, lo: int)
    requires DiffMade(q0, q, st, lo) && st'.front == st.front && st'.back == st.back
    ensures DiffMade(q0, q, st', lo)
  {
  }

  /** After the loop, with `added` between the front and back results: every made node was queued. */
  lemma MadeFinished(q0: seq<VNode>, q: seq<VNode>, q': seq<VNode>, st: DiffState, added: seq<Option<VNode>>, lo: int)
    requires DiffMade(q0, q, st, lo) && QueuedExactly(q, q', MadeSlots(added, lo))
    ensures QueuedExactly(q0, q', MadeSlots(st.front + added + st.back, lo))
  {
    QueuedExactlyTrans(q0, q, q', MadeSlots(st.front, lo) + MadeSlots(st.back, lo), MadeSlots(added, lo));
    MadeSlotsAppend(st.front + added, st.back, lo);
    MadeSlotsAppend(st.front, added, lo);
  }
}
