/**
 * The loop of `updateChildren` (src/snabbdom.ts:250-354) described on
 * values: the variables it keeps, the facts that hold at every iteration,
 * and how each branch of the loop keeps them. The engine methods that run
 * the loop live in `Snabbdom`; here the sink is given by its child lists
 * and node kinds before and after each step.
 */
module Diff {
  import opened Wrappers
  import opened Seqs
  import opened VNodes
  import opened Dom
  import opened Trees
  import opened Identity
  import opened KeyMap

  /**
   * The variables of the loop: `cur` is the old child list as the loop has
   * changed it (the slot of a node moved by key is cleared), `os`/`oe` and
   * `ns`/`ne` are the four indices, `front` and `back` hold the patched or
   * created nodes for the new slots before `ns` and after `ne`, and
   * `keyIdx` is the key index once it has been built.
   */
  datatype DiffState = DiffState(cur: seq<Option<VNode>>, os: int, oe: int, ns: int, ne: int,
                                 front: seq<Option<VNode>>, back: seq<Option<VNode>>,
                                 keyIdx: Option<map<Key, int>>)

  /** The indices are in range and each result list has one slot per new slot done. */
  predicate Cursors(oldLen: int, newLen: int, st: DiffState) {
    |st.cur| == oldLen && 0 <= st.os <= st.oe + 1 <= oldLen && 0 <= st.ns <= st.ne + 1 <= newLen
    && |st.front| == st.ns && |st.back| == newLen - 1 - st.ne
  }

  /** The old slots still between the two old indices. */
  function Mid(st: DiffState): seq<Option<VNode>>
    requires 0 <= st.os <= st.oe + 1 <= |st.cur|
  {
    st.cur[st.os..st.oe + 1]
  }

  /** The work left: old slots plus new slots between the indices. */
  function Left(st: DiffState): int {
    st.oe - st.os + st.ne - st.ns
  }

  /** The loop only ever clears slots of the old list. */
  predicate Cleared(oldCh: seq<Option<VNode>>, cur: seq<Option<VNode>>) {
    |cur| == |oldCh| && forall i :: 0 <= i < |cur| && cur[i].Some? ==> cur[i] == oldCh[i]
  }

  /** No new slot from `lo` to `hi` carries the key `k`. */
  predicate KeyGone(newCh: seq<Option<VNode>>, lo: int, hi: int, k: Key) {
    forall j :: lo <= j <= hi ==> KeyAt(newCh, j) != Some(k)
  }

  /**
   * Every entry of the key index names a live old slot between the old
   * indices that carries the entry's key, or a key that no new slot still
   * to be placed carries.
   */
  predicate IndexSound(newCh: seq<Option<VNode>>, st: DiffState) {
    st.keyIdx.Some? ==>
      forall k :: k in st.keyIdx.value ==>
        (st.os <= st.keyIdx.value[k] <= st.oe && 0 <= st.keyIdx.value[k] < |st.cur|
         && st.cur[st.keyIdx.value[k]].Some? && st.cur[st.keyIdx.value[k]].value.key == Some(k))
        || KeyGone(newCh, st.ns, st.ne, k)
  }

  /** The value side of the loop invariant. */
  predicate DiffValues(oldCh: seq<Option<VNode>>, newCh: seq<Option<VNode>>, st: DiffState) {
    Cursors(|oldCh|, |newCh|, st) && Cleared(oldCh, st.cur)
    && SameShapes(st.front, newCh[..st.ns]) && SameShapes(st.back, newCh[st.ne + 1..])
    && Handled(st.front) && Handled(st.back)
    && IndexSound(newCh, st)
  }

  /**
   * What the loop may assume of the old children, children of `P` in the
   * sink `K`/`D`: mounted, pairwise disjoint, none of them holding `P`.
   */
  predicate OldOk(P: Handle, oldCh: seq<Option<VNode>>, K: seq<seq<Handle>>, D: seq<NodeKind>) {
    P < |K| && SlotsDisjoint(oldCh) && AllMounted(oldCh, K, D) && P !in SlotHandles(oldCh)
    && (forall h :: h in SlotHandles(oldCh) ==> h < |K|)
  }

  /** What the loop may assume of the new children: well formed, with unique keys at every level. */
  predicate NewOk(newCh: seq<Option<VNode>>) {
    UniqueKeys(newCh)
    && forall i :: 0 <= i < |newCh| && newCh[i].Some? ==> WF(newCh[i].value) && KeysUnique(newCh[i].value)
  }

  /**
   * The sink side of the loop invariant, apart from the child list of `P`:
   * the results are pairwise disjoint, disjoint from the old slots still in
   * play and free of `P`; they use old handles or handles made since the
   * loop began; the old slots in play are still mounted, and so are the
   * results when nothing delays a removal (`nd`); and no other node outside
   * the old children changed its children.
   */
  predicate DiffRest(P: Handle, oldCh: seq<Option<VNode>>, st: DiffState, K: seq<seq<Handle>>, D: seq<NodeKind>,
                     kids: seq<seq<Handle>>, kind: seq<NodeKind>, nd: bool)
    requires 0 <= st.os <= st.oe + 1 <= |st.cur|
  {
    P < |K| <= |kids| && |kind| == |kids| && KindsKept(D, kind)
    && SlotsDisjoint(st.front) && SlotsDisjoint(st.back)
    && SlotHandles(st.front) !! SlotHandles(st.back)
    && SlotHandles(st.front) !! SlotHandles(Mid(st)) && SlotHandles(st.back) !! SlotHandles(Mid(st))
    && (forall h :: h in SlotHandles(st.front) + SlotHandles(st.back) ==>
          h != P && h < |kids| && (h in SlotHandles(oldCh) || |K| <= h))
    && (forall i :: st.os <= i <= st.oe && st.cur[i].Some? ==> Mounted(st.cur[i].value, kids, kind))
    && (nd ==> AllMounted(st.front, kids, kind) && AllMounted(st.back, kids, kind))
    && (forall h :: 0 <= h < |K| && h != P && h !in SlotHandles(oldCh) ==> kids[h] == K[h])
  }

  /** The sink side of the loop invariant: the rest, and `P` lists the front results, the old slots in play and the back results. */
  predicate DiffSink(P: Handle, oldCh: seq<Option<VNode>>, st: DiffState, K: seq<seq<Handle>>, D: seq<NodeKind>,
                     kids: seq<seq<Handle>>, kind: seq<NodeKind>, nd: bool)
    requires 0 <= st.os <= st.oe + 1 <= |st.cur|
  {
    DiffRest(P, oldCh, st, K, D, kids, kind, nd)
    && kids[P] == Elms(st.front) + Elms(Mid(st)) + Elms(st.back)
  }

  /**
   * What `patchVnode(x, _)` leaves, from the sink `k1`/`d1` to `k2`/`d2`:
   * the result keeps `x`'s handle, only nodes of `x` changed their
   * children, the result uses `x`'s handles and new ones, and it is mounted
   * when `mounted` holds.
   */
  predicate Patched(x: VNode, r: VNode, k1: seq<seq<Handle>>, d1: seq<NodeKind>, k2: seq<seq<Handle>>, d2: seq<NodeKind>,
                    mounted: bool)
  {
    r.elm == x.elm && |k1| <= |k2| && KindsKept(d1, d2)
    && (forall h :: 0 <= h < |k1| && h !in Handles(x) ==> k2[h] == k1[h])
    && (forall h :: h in Handles(r) ==> h in Handles(x) || |k1| <= h < |k2|)
    && (mounted ==> Mounted(r, k2, d2))
  }

  // ------------------------------------------------------------ old slots in play

  /** The old slots in play are pairwise disjoint old handles, and each slot's handles are among them. */
  lemma MidFacts(oldCh: seq<Option<VNode>>, st: DiffState)
    requires Cleared(oldCh, st.cur) && 0 <= st.os <= st.oe + 1 <= |st.cur| && SlotsDisjoint(oldCh)
    ensures SlotsDisjoint(Mid(st)) && SlotHandles(Mid(st)) <= SlotHandles(oldCh)
    ensures forall i :: st.os <= i <= st.oe && st.cur[i].Some? ==> Handles(st.cur[i].value) <= SlotHandles(Mid(st))
  {
    var m := Mid(st);
    assert forall i :: 0 <= i < |m| ==> m[i] == st.cur[st.os + i];
    SlotHandlesMem(m);
    SlotHandlesMem(oldCh);
    forall i | st.os <= i <= st.oe && st.cur[i].Some?
      ensures Handles(st.cur[i].value) <= SlotHandles(m)
    {
      assert m[i - st.os] == st.cur[i];
    }
    forall h | h in SlotHandles(m)
      ensures h in SlotHandles(oldCh)
    {
      var i :| 0 <= i < |m| && m[i].Some? && h in Handles(m[i].value);
      assert oldCh[st.os + i] == m[i];
    }
  }

  /**
   * When the slots in play lose the slot `j` (cleared, or left behind by
   * an index) and keep the others, their handles shrink and no longer meet
   * those of slot `j`.
   */
  lemma MidShrink(oldCh: seq<Option<VNode>>, st: DiffState, st': DiffState, j: int)
    requires Cleared(oldCh, st.cur) && Cleared(oldCh, st'.cur) && SlotsDisjoint(oldCh)
    requires 0 <= st.os <= st.oe + 1 <= |st.cur| && 0 <= st'.os <= st'.oe + 1 <= |st'.cur|
    requires st.os <= j <= st.oe && st.cur[j].Some?
    requires forall i :: st'.os <= i <= st'.oe && st'.cur[i].Some? ==> st.os <= i <= st.oe && i != j && st'.cur[i] == st.cur[i]
    ensures SlotHandles(Mid(st')) <= SlotHandles(Mid(st))
    ensures SlotHandles(Mid(st')) !! Handles(st.cur[j].value)
    ensures Handles(st.cur[j].value) <= SlotHandles(Mid(st))
  {
    MidFacts(oldCh, st);
    var m' := Mid(st');
    assert forall i :: 0 <= i < |m'| ==> m'[i] == st'.cur[st'.os + i];
    SlotHandlesMem(m');
    forall h | h in SlotHandles(m')
      ensures h in SlotHandles(Mid(st)) && h !in Handles(st.cur[j].value)
    {
      var i :| 0 <= i < |m'| && m'[i].Some? && h in Handles(m'[i].value);
      var t := st'.os + i;
      assert st'.cur[t] == st.cur[t] == oldCh[t];
      assert oldCh[j] == st.cur[j];
      assert Handles(oldCh[t].value) !! Handles(oldCh[j].value);
    }
  }

  // ------------------------------------------------------------ branch steps

  /**
   * The old slot `j` in play was patched into `r` (the sink went from
   * `k1`/`d1` to `k2`/`d2`), `r` joins the front or the back results, and
   * the slots in play lose slot `j`: the rest of the invariant holds again,
   * and the child list of `P` did not change.
   */
  lemma RestPatched(P: Handle, oldCh: seq<Option<VNode>>, st: DiffState, st': DiffState, j: int, r: VNode,
                    K: seq<seq<Handle>>, D: seq<NodeKind>, k1: seq<seq<Handle>>, d1: seq<NodeKind>,
                    k2: seq<seq<Handle>>, d2: seq<NodeKind>, nd: bool, toFront: bool)
    requires OldOk(P, oldCh, K, D) && Cleared(oldCh, st.cur) && Cleared(oldCh, st'.cur)
    requires 0 <= st.os <= st.oe + 1 <= |st.cur| && 0 <= st'.os <= st'.oe + 1 <= |st'.cur|
    requires DiffRest(P, oldCh, st, K, D, k1, d1, nd)
    requires st.os <= j <= st.oe && st.cur[j].Some?
    requires forall i :: st'.os <= i <= st'.oe && st'.cur[i].Some? ==> st.os <= i <= st.oe && i != j && st'.cur[i] == st.cur[i]
    requires Patched(st.cur[j].value, r, k1, d1, k2, d2, nd) && |d2| == |k2|
    requires toFront ==> st'.front == st.front + [Some(r)] && st'.back == st.back
    requires !toFront ==> st'.back == [Some(r)] + st.back && st'.front == st.front
    ensures DiffRest(P, oldCh, st', K, D, k2, d2, nd)
    ensures k2[P] == k1[P]
  {
    var x := st.cur[j].value;
    MidShrink(oldCh, st, st', j);
    MidFacts(oldCh, st);
    SlotHandlesOne(Some(r));
    if toFront {
      SlotHandlesAppend(st.front, [Some(r)]);
      DisjointJoin(st.front, [Some(r)]);
    } else {
      SlotHandlesAppend([Some(r)], st.back);
      DisjointJoin([Some(r)], st.back);
    }
    forall i | st'.os <= i <= st'.oe && st'.cur[i].Some?
      ensures Mounted(st'.cur[i].value, k2, d2)
    {
      var y := st.cur[i].value;
      assert oldCh[i] == st.cur[i] && oldCh[j] == st.cur[j];
      MountedBound(y, k1, d1);
      MountedFrame(y, k1, d1, k2, d2);
    }
    if nd {
      AllMountedFrame(st.front, Handles(x), k1, d1, k2, d2);
      AllMountedFrame(st.back, Handles(x), k1, d1, k2, d2);
      if toFront {
        AllMountedJoin(st.front, [Some(r)], k2, d2);
      } else {
        AllMountedJoin([Some(r)], st.back, k2, d2);
      }
    }
  }

  // ------------------------------------------------------------ the value side of a step

  /**
   * The key index stays sound across a step that narrows both ranges and
   * keeps the old slots still in play, when every keyed old slot leaving
   * play carries the key of a new slot `j` that has left play too.
   */
  lemma IndexKept(newCh: seq<Option<VNode>>, st: DiffState, st': DiffState, j: int)
    requires IndexSound(newCh, st) && UniqueKeys(newCh) && st'.keyIdx == st.keyIdx && |st'.cur| == |st.cur|
    requires st.ns <= st'.ns && st'.ne <= st.ne && st.os <= st'.os && st'.oe <= st.oe
    requires 0 <= st'.os <= st'.oe + 1 <= |st'.cur|
    requires forall i :: st'.os <= i <= st'.oe && st'.cur[i].Some? ==> st'.cur[i] == st.cur[i]
    requires forall i :: st.os <= i <= st.oe && 0 <= i < |st.cur| && st.cur[i].Some? && st.cur[i].value.key.Some?
                         && !(st'.os <= i <= st'.oe && st'.cur[i].Some?) ==>
               KeyAt(newCh, j) == st.cur[i].value.key && !(st'.ns <= j <= st'.ne)
    ensures IndexSound(newCh, st')
  {
    if st.keyIdx.Some? {
      var m := st.keyIdx.value;
      forall k | k in m
        ensures (st'.os <= m[k] <= st'.oe && 0 <= m[k] < |st'.cur|
                 && st'.cur[m[k]].Some? && st'.cur[m[k]].value.key == Some(k))
                || KeyGone(newCh, st'.ns, st'.ne, k)
      {
        var i := m[k];
        if st.os <= i <= st.oe && 0 <= i < |st.cur| && st.cur[i].Some? && st.cur[i].value.key == Some(k) {
          if !(st'.os <= i <= st'.oe && st'.cur[i].Some?) {
            forall t | st'.ns <= t <= st'.ne
              ensures KeyAt(newCh, t) != Some(k)
            {
              assert t != j;
            }
          }
        }
      }
    }
  }

  /** Skipping a null old slot at either end. */
  lemma ValuesSkipOld(oldCh: seq<Option<VNode>>, newCh: seq<Option<VNode>>, st: DiffState, st': DiffState)
    requires DiffValues(oldCh, newCh, st) && UniqueKeys(newCh) && st.os <= st.oe
    requires (st.cur[st.os].None? && st' == st.(os := st.os + 1)) || (st.cur[st.oe].None? && st' == st.(oe := st.oe - 1))
    ensures DiffValues(oldCh, newCh, st')
  {
    IndexKept(newCh, st, st', 0);
  }

  /** Skipping a null new slot at either end: a null result slot takes its place. */
  lemma ValuesSkipNew(oldCh: seq<Option<VNode>>, newCh: seq<Option<VNode>>, st: DiffState, st': DiffState)
    requires DiffValues(oldCh, newCh, st) && UniqueKeys(newCh) && st.ns <= st.ne
    requires (newCh[st.ns].None? && st' == st.(ns := st.ns + 1, front := st.front + [None]))
          || (newCh[st.ne].None? && st' == st.(ne := st.ne - 1, back := [None] + st.back))
    ensures DiffValues(oldCh, newCh, st')
  {
    IndexKept(newCh, st, st', 0);
    if st'.ns == st.ns + 1 {
      SameShapesSnoc(st.front, newCh, st.ns, None);
    } else {
      SameShapesCons(st.back, newCh, st.ne, None);
    }
  }

  /**
   * Placing a result `r` for the first new slot in play, while the old
   * slots in play shrink to a subrange and lose at most the slot `j`
   * (`j < 0`: none), which carries that new slot's key.
   */
  lemma ValuesFrontStep(oldCh: seq<Option<VNode>>, newCh: seq<Option<VNode>>, st: DiffState, st': DiffState,
                        r: VNode, j: int)
    requires DiffValues(oldCh, newCh, st) && UniqueKeys(newCh) && st.ns <= st.ne && newCh[st.ns].Some?
    requires r.elm.Some? && Shape(r) == Shape(newCh[st.ns].value)
    requires st'.ns == st.ns + 1 && st'.ne == st.ne && st'.front == st.front + [Some(r)] && st'.back == st.back
    requires st'.keyIdx == st.keyIdx && Cleared(oldCh, st'.cur)
    requires st.os <= st'.os <= st'.oe + 1 && st'.oe <= st.oe
    requires forall i :: st'.os <= i <= st'.oe && st'.cur[i].Some? ==> st'.cur[i] == st.cur[i]
    requires forall i :: st.os <= i <= st.oe && st.cur[i].Some? && !(st'.os <= i <= st'.oe && st'.cur[i].Some?) ==> i == j
    requires j >= 0 ==> st.os <= j <= st.oe && st.cur[j].Some? && st.cur[j].value.key == newCh[st.ns].value.key
    ensures DiffValues(oldCh, newCh, st')
  {
    IndexKept(newCh, st, st', st.ns);
    SameShapesSnoc(st.front, newCh, st.ns, Some(r));
  }

  /** Placing a result `r` for the last new slot in play; otherwise as `ValuesFrontStep`. */
  lemma ValuesBackStep(oldCh: seq<Option<VNode>>, newCh: seq<Option<VNode>>, st: DiffState, st': DiffState,
                       r: VNode, j: int)
    requires DiffValues(oldCh, newCh, st) && UniqueKeys(newCh) && st.ns <= st.ne && newCh[st.ne].Some?
    requires r.elm.Some? && Shape(r) == Shape(newCh[st.ne].value)
    requires st'.ns == st.ns && st'.ne == st.ne - 1 && st'.back == [Some(r)] + st.back && st'.front == st.front
    requires st'.keyIdx == st.keyIdx && Cleared(oldCh, st'.cur)
    requires st.os <= st'.os <= st'.oe + 1 && st'.oe <= st.oe
    requires forall i :: st'.os <= i <= st'.oe && st'.cur[i].Some? ==> st'.cur[i] == st.cur[i]
    requires forall i :: st.os <= i <= st.oe && st.cur[i].Some? && !(st'.os <= i <= st'.oe && st'.cur[i].Some?) ==> i == j
    requires j >= 0 ==> st.os <= j <= st.oe && st.cur[j].Some? && st.cur[j].value.key == newCh[st.ne].value.key
    ensures DiffValues(oldCh, newCh, st')
  {
    IndexKept(newCh, st, st', st.ne);
    SameShapesCons(st.back, newCh, st.ne, Some(r));
  }

  /** Building the key index over the old slots in play makes it sound. */
  lemma IndexBuilt(oldCh: seq<Option<VNode>>, newCh: seq<Option<VNode>>, st: DiffState, m: map<Key, int>)
    requires DiffValues(oldCh, newCh, st) && st.keyIdx.None?
    requires forall k :: k in m ==> st.os <= m[k] <= st.oe && SlotKey(st.cur, m[k]) == Some(k)
    ensures DiffValues(oldCh, newCh, st.(keyIdx := Some(m)))
  {
  }

  // ------------------------------------------------------------ the sink side of a step

  /** The old slots in play shrink to some of them. */
  lemma MidSub(oldCh: seq<Option<VNode>>, st: DiffState, st': DiffState)
    requires Cleared(oldCh, st.cur) && Cleared(oldCh, st'.cur)
    requires 0 <= st.os <= st.oe + 1 <= |st.cur| && 0 <= st'.os <= st'.oe + 1 <= |st'.cur|
    requires forall i :: st'.os <= i <= st'.oe && st'.cur[i].Some? ==> st.os <= i <= st.oe && st'.cur[i] == st.cur[i]
    ensures SlotHandles(Mid(st')) <= SlotHandles(Mid(st))
  {
    var m, m' := Mid(st), Mid(st');
    SlotHandlesMem(m);
    forall i | 0 <= i < |m'| && m'[i].Some?
      ensures Handles(m'[i].value) <= SlotHandles(m)
    {
      assert m'[i] == st'.cur[st'.os + i] == m[st'.os + i - st.os];
    }
    SlotHandlesCover(m', m);
  }

  /**
   * A step that only drops old slots from play and adds null result slots
   * keeps the rest of the invariant.
   */
  lemma RestSkip(P: Handle, oldCh: seq<Option<VNode>>, st: DiffState, st': DiffState,
                 K: seq<seq<Handle>>, D: seq<NodeKind>, kids: seq<seq<Handle>>, kind: seq<NodeKind>, nd: bool)
    requires OldOk(P, oldCh, K, D) && Cleared(oldCh, st.cur) && Cleared(oldCh, st'.cur)
    requires 0 <= st.os <= st.oe + 1 <= |st.cur| && 0 <= st'.os <= st'.oe + 1 <= |st'.cur|
    requires DiffRest(P, oldCh, st, K, D, kids, kind, nd)
    requires forall i :: st'.os <= i <= st'.oe && st'.cur[i].Some? ==> st.os <= i <= st.oe && st'.cur[i] == st.cur[i]
    requires st'.front == st.front || st'.front == st.front + [None]
    requires st'.back == st.back || st'.back == [None] + st.back
    ensures DiffRest(P, oldCh, st', K, D, kids, kind, nd)
  {
    MidSub(oldCh, st, st');
    SlotHandlesOne(None);
    SlotHandlesAppend(st.front, [None]);
    SlotHandlesAppend([None], st.back);
    DisjointJoin(st.front, [None]);
    DisjointJoin([None], st.back);
    if nd {
      AllMountedJoin(st.front, [None], kids, kind);
      AllMountedJoin([None], st.back, kids, kind);
    }
  }

  /** The old slots in play stay mounted when only `P`'s child list changed. */
  lemma MidRegrown(P: Handle, oldCh: seq<Option<VNode>>, st: DiffState, K: seq<seq<Handle>>, D: seq<NodeKind>,
                   k1: seq<seq<Handle>>, d1: seq<NodeKind>, k2: seq<seq<Handle>>, d2: seq<NodeKind>)
    requires OldOk(P, oldCh, K, D) && Cleared(oldCh, st.cur) && 0 <= st.os <= st.oe + 1 <= |st.cur|
    requires forall i :: st.os <= i <= st.oe && st.cur[i].Some? ==> Mounted(st.cur[i].value, k1, d1)
    requires Grown(k1, d1, k2, d2, P)
    ensures forall i :: st.os <= i <= st.oe && st.cur[i].Some? ==> Mounted(st.cur[i].value, k2, d2)
  {
    SlotHandlesMem(oldCh);
    forall i | st.os <= i <= st.oe && st.cur[i].Some?
      ensures Mounted(st.cur[i].value, k2, d2)
    {
      assert oldCh[i] == st.cur[i];
      MountedFrame(st.cur[i].value, k1, d1, k2, d2);
    }
  }

  /** The results stay mounted when only `P`'s child list changed. */
  lemma ResultsRegrown(P: Handle, oldCh: seq<Option<VNode>>, st: DiffState, K: seq<seq<Handle>>, D: seq<NodeKind>,
                       k1: seq<seq<Handle>>, d1: seq<NodeKind>, k2: seq<seq<Handle>>, d2: seq<NodeKind>)
    requires 0 <= st.os <= st.oe + 1 <= |st.cur| && DiffRest(P, oldCh, st, K, D, k1, d1, true) && Grown(k1, d1, k2, d2, P)
    ensures AllMounted(st.front, k2, d2) && AllMounted(st.back, k2, d2)
  {
    forall h | h in SlotHandles(st.front)
      ensures h != P
    {
      assert h in SlotHandles(st.front) + SlotHandles(st.back);
    }
    forall h | h in SlotHandles(st.back)
      ensures h != P
    {
      assert h in SlotHandles(st.front) + SlotHandles(st.back);
    }
    AllMountedFrame(st.front, {P}, k1, d1, k2, d2);
    AllMountedFrame(st.back, {P}, k1, d1, k2, d2);
  }


  /** Changing only the child list of `P` keeps the rest of the invariant. */
  lemma RestMovedP(P: Handle, oldCh: seq<Option<VNode>>, st: DiffState, K: seq<seq<Handle>>, D: seq<NodeKind>,
                   k1: seq<seq<Handle>>, d1: seq<NodeKind>, k2: seq<seq<Handle>>, d2: seq<NodeKind>, nd: bool)
    requires OldOk(P, oldCh, K, D) && Cleared(oldCh, st.cur) && 0 <= st.os <= st.oe + 1 <= |st.cur|
    requires DiffRest(P, oldCh, st, K, D, k1, d1, nd)
    requires Grown(k1, d1, k2, d2, P) && |d2| == |k2|
    ensures DiffRest(P, oldCh, st, K, D, k2, d2, nd)
  {
    MidRegrown(P, oldCh, st, K, D, k1, d1, k2, d2);
    if nd {
      ResultsRegrown(P, oldCh, st, K, D, k1, d1, k2, d2);
    }
  }

  /** With a new mounted node after the front results, the results stay mounted. */
  lemma CreatedMounted(P: Handle, oldCh: seq<Option<VNode>>, st: DiffState, K: seq<seq<Handle>>, D: seq<NodeKind>,
                       k1: seq<seq<Handle>>, d1: seq<NodeKind>, k2: seq<seq<Handle>>, d2: seq<NodeKind>, r: VNode)
    requires 0 <= st.os <= st.oe + 1 <= |st.cur| && DiffRest(P, oldCh, st, K, D, k1, d1, true) && Grown(k1, d1, k2, d2, P)
    requires Mounted(r, k2, d2)
    ensures AllMounted(st.front + [Some(r)], k2, d2) && AllMounted(st.back, k2, d2)
  {
    ResultsRegrown(P, oldCh, st, K, D, k1, d1, k2, d2);
    AllMountedJoin(st.front, [Some(r)], k2, d2);
  }

  /**
   * A freshly created tree `r` joins the front results while the old slots
   * in play stay: the rest of the invariant holds in the grown sink.
   */
  lemma RestCreated(P: Handle, oldCh: seq<Option<VNode>>, st: DiffState, st': DiffState, r: VNode,
                    K: seq<seq<Handle>>, D: seq<NodeKind>, k1: seq<seq<Handle>>, d1: seq<NodeKind>,
                    k2: seq<seq<Handle>>, d2: seq<NodeKind>, nd: bool)
    requires OldOk(P, oldCh, K, D) && Cleared(oldCh, st.cur) && 0 <= st.os <= st.oe + 1 <= |st.cur|
    requires DiffRest(P, oldCh, st, K, D, k1, d1, nd)
    requires Grown(k1, d1, k2, d2, P) && |d2| == |k2| && Mounted(r, k2, d2) && HandlesIn(r, |k1|, |k2|)
    requires st'.cur == st.cur && st'.os == st.os && st'.oe == st.oe
    requires st'.front == st.front + [Some(r)] && st'.back == st.back
    ensures DiffRest(P, oldCh, st', K, D, k2, d2, nd)
  {
    CreatedHandles(P, oldCh, st, K, D, k1, d1, nd, r, |k2|);
    MidRegrown(P, oldCh, st, K, D, k1, d1, k2, d2);
    assert Mid(st') == Mid(st);
    assert KindsKept(D, d2);
    assert forall h :: 0 <= h < |K| && h != P && h !in SlotHandles(oldCh) ==> k2[h] == K[h];
    if nd {
      CreatedMounted(P, oldCh, st, K, D, k1, d1, k2, d2, r);
    }
  }

  /** A new node's handles, all made since `k1`, join the front results without a clash. */
  lemma CreatedHandles(P: Handle, oldCh: seq<Option<VNode>>, st: DiffState, K: seq<seq<Handle>>, D: seq<NodeKind>,
                       k1: seq<seq<Handle>>, d1: seq<NodeKind>, nd: bool, r: VNode, n: int)
    requires OldOk(P, oldCh, K, D) && Cleared(oldCh, st.cur) && 0 <= st.os <= st.oe + 1 <= |st.cur|
    requires DiffRest(P, oldCh, st, K, D, k1, d1, nd) && HandlesIn(r, |k1|, n) && |k1| <= n
    ensures SlotsDisjoint(st.front + [Some(r)])
    ensures SlotHandles(st.front + [Some(r)]) !! SlotHandles(st.back)
    ensures SlotHandles(st.front + [Some(r)]) !! SlotHandles(Mid(st))
    ensures forall h :: h in SlotHandles(st.front + [Some(r)]) + SlotHandles(st.back) ==>
              h != P && h < n && (h in SlotHandles(oldCh) || |K| <= h)
  {
    MidFacts(oldCh, st);
    SlotHandlesOne(Some(r));
    SlotHandlesAppend(st.front, [Some(r)]);
    DisjointJoin(st.front, [Some(r)]);
  }

  // ------------------------------------------------------------ the child list of the parent

  /** The handle of a slot, as a list: empty for a null slot or a node without one. */
  lemma ElmsOne(x: Option<VNode>)
    ensures Elms([x]) == if x.Some? && x.value.elm.Some? then [x.value.elm.value] else []
  {
    assert [x][1..] == [];
  }

  /** The handles of a slice whose first slot holds a node with a handle. */
  lemma {:induction false} SliceFirst(cur: seq<Option<VNode>>, lo: int, hi: int)
    requires 0 <= lo < hi <= |cur| && cur[lo].Some? && cur[lo].value.elm.Some?
    ensures Elms(cur[lo..hi]) == [cur[lo].value.elm.value] + Elms(cur[lo + 1..hi])
  {
    ElmsFront(cur, lo, hi);
  }

  /** The handles of a slice whose last slot holds a node with a handle. */
  lemma {:induction false} SliceLast(cur: seq<Option<VNode>>, lo: int, hi: int)
    requires 0 <= lo < hi <= |cur| && cur[hi - 1].Some? && cur[hi - 1].value.elm.Some?
    ensures Elms(cur[lo..hi]) == Elms(cur[lo..hi - 1]) + [cur[hi - 1].value.elm.value]
  {
    ElmsBack(cur, lo, hi);
  }

  /** Skipping a null old slot at either end of a slice leaves its handles as they are. */
  lemma {:induction false} KidsSkipOld(cur: seq<Option<VNode>>, lo: int, hi: int)
    requires 0 <= lo < hi <= |cur|
    ensures cur[lo].None? ==> Elms(cur[lo + 1..hi]) == Elms(cur[lo..hi])
    ensures cur[hi - 1].None? ==> Elms(cur[lo..hi - 1]) == Elms(cur[lo..hi])
  {
    ElmsFront(cur, lo, hi);
    ElmsBack(cur, lo, hi);
  }

  /** A null result slot adds nothing to the parent's list. */
  lemma {:induction false} KidsSkipNew(front: seq<Option<VNode>>, back: seq<Option<VNode>>)
    ensures Elms(front + [None]) == Elms(front) && Elms([None] + back) == Elms(back)
  {
    ElmsOne(None);
    ElmsAppend(front, [None]);
    ElmsAppend([None], back);
  }

  /** A result with handle `c` at the end of the front results, or at the start of the back results. */
  lemma {:induction false} KidsResult(front: seq<Option<VNode>>, r: VNode, back: seq<Option<VNode>>)
    requires r.elm.Some?
    ensures Elms(front + [Some(r)]) == Elms(front) + [r.elm.value]
    ensures Elms([Some(r)] + back) == [r.elm.value] + Elms(back)
  {
    ElmsOne(Some(r));
    ElmsAppend(front, [Some(r)]);
    ElmsAppend([Some(r)], back);
  }

  /** The handles of a slice with its slot `idx` cleared. */
  lemma {:induction false} SliceCleared(cur: seq<Option<VNode>>, lo: int, idx: int, hi: int)
    requires 0 <= lo <= idx < hi <= |cur|
    ensures Elms(cur[idx := None][lo..hi]) == Elms(cur[lo..idx]) + Elms(cur[idx + 1..hi])
    ensures Elms(cur[lo..hi]) == Elms(cur[lo..idx]) + Elms(cur[idx..hi])
  {
    var c := cur[idx := None];
    assert c[lo..hi] == cur[lo..idx] + [None] + cur[idx + 1..hi];
    ElmsAppend(cur[lo..idx] + [None], cur[idx + 1..hi]);
    ElmsAppend(cur[lo..idx], [None]);
    ElmsOne(None);
    assert cur[lo..hi] == cur[lo..idx] + cur[idx..hi];
    ElmsAppend(cur[lo..idx], cur[idx..hi]);
  }

  /** Skipping a null old slot at either end leaves the handles of the slots in play as they are. */
  lemma MidSkipped(st: DiffState, st': DiffState)
    requires 0 <= st.os <= st.oe < |st.cur|
    requires (st.cur[st.os].None? && st' == st.(os := st.os + 1)) || (st.cur[st.oe].None? && st' == st.(oe := st.oe - 1))
    ensures Elms(Mid(st')) == Elms(Mid(st))
  {
    KidsSkipOld(st.cur, st.os, st.oe + 1);
  }

  /** The old slots in play, before and after a step. */
  lemma MidIs(st: DiffState, st': DiffState)
    requires 0 <= st.os <= st.oe + 1 <= |st.cur| && 0 <= st'.os <= st'.oe + 1 <= |st'.cur|
    ensures Mid(st) == st.cur[st.os..st.oe + 1] && Mid(st') == st'.cur[st'.os..st'.oe + 1]
  {
  }

  /** Dropping the first old slot in play, which holds a node with a handle. */
  lemma MidFront(st: DiffState, st': DiffState)
    requires 0 <= st.os <= st.oe < |st.cur| && st.cur[st.os].Some? && st.cur[st.os].value.elm.Some?
    requires st'.cur == st.cur && st'.os == st.os + 1 && st'.oe == st.oe
    ensures Elms(Mid(st)) == [st.cur[st.os].value.elm.value] + Elms(Mid(st'))
  {
    MidIs(st, st');
    SliceFirst(st.cur, st.os, st.oe + 1);
  }

  /** Dropping the last old slot in play, which holds a node with a handle. */
  lemma MidBack(st: DiffState, st': DiffState)
    requires 0 <= st.os <= st.oe < |st.cur| && st.cur[st.oe].Some? && st.cur[st.oe].value.elm.Some?
    requires st'.cur == st.cur && st'.os == st.os && st'.oe == st.oe - 1
    ensures Elms(Mid(st)) == Elms(Mid(st')) + [st.cur[st.oe].value.elm.value]
  {
    MidIs(st, st');
    SliceLast(st.cur, st.os, st.oe + 1);
  }

  /** Clearing the old slot `idx`, strictly after the first slot in play, both holding nodes with handles. */
  lemma MidCleared(st: DiffState, st': DiffState, idx: int)
    requires 0 <= st.os < idx <= st.oe < |st.cur| && st.cur[st.os].Some? && st.cur[st.os].value.elm.Some?
    requires st.cur[idx].Some? && st.cur[idx].value.elm.Some?
    requires st'.cur == st.cur[idx := None] && st'.os == st.os && st'.oe == st.oe
    ensures Elms(Mid(st)) == Elms(st.cur[st.os..idx]) + ([st.cur[idx].value.elm.value] + Elms(st.cur[idx + 1..st.oe + 1]))
    ensures Elms(Mid(st')) == Elms(st.cur[st.os..idx]) + Elms(st.cur[idx + 1..st.oe + 1])
    ensures Elms(st.cur[st.os..idx]) == [st.cur[st.os].value.elm.value] + Elms(st.cur[st.os + 1..idx])
  {
    var c, lo, hi := st.cur, st.os, st.oe + 1;
    assert Mid(st) == c[lo..hi] && Mid(st') == c[idx := None][lo..hi];
    SliceCleared(c, lo, idx, hi);
    SliceFirst(c, lo, idx);
    SliceFirst(c, idx, hi);
  }

  /** The node after the last old slot's node in play is not the first old slot's node. */
  lemma RightRef(st: DiffState, k1: seq<Handle>)
    requires 0 <= st.os < st.oe < |st.cur| && st.cur[st.os].Some? && st.cur[st.oe].Some?
    requires st.cur[st.os].value.elm.Some? && st.cur[st.oe].value.elm.Some?
    requires k1 == Elms(st.front) + Elms(Mid(st)) + Elms(st.back) && NoDup(k1)
    ensures NextOf(k1, st.cur[st.oe].value.elm.value) != st.cur[st.os].value.elm
  {
    var st' := st.(os := st.os + 1);
    var st'' := st'.(oe := st'.oe - 1);
    MidFront(st, st');
    MidBack(st', st'');
    NextOfRun(Elms(st.front), Elms(Mid(st)), Elms(Mid(st')), Elms(Mid(st'')), Elms(st.back),
              st.cur[st.os].value.elm.value, st.cur[st.oe].value.elm.value, k1);
  }

  /** The parent's list after patching the first old slot in place, stated on the loop variables. */
  lemma ListFrontPatched(st: DiffState, st': DiffState, r: VNode, k: seq<Handle>)
    requires 0 <= st.os <= st.oe < |st.cur| && st.cur[st.os].Some? && st.cur[st.os].value.elm.Some?
    requires r.elm == st.cur[st.os].value.elm
    requires st'.cur == st.cur && st'.os == st.os + 1 && st'.oe == st.oe && st'.front == st.front + [Some(r)] && st'.back == st.back
    requires k == Elms(st.front) + Elms(Mid(st)) + Elms(st.back)
    ensures k == Elms(st'.front) + Elms(Mid(st')) + Elms(st'.back)
  {
    MidFront(st, st');
    KidsResult(st.front, r, st.back);
    Concat4'(Elms(st.front), [r.elm.value], Elms(Mid(st')), Elms(st.back), Elms(Mid(st)), k);
  }

  /** The parent's list after patching the last old slot in place. */
  lemma ListBackPatched(st: DiffState, st': DiffState, r: VNode, k: seq<Handle>)
    requires 0 <= st.os <= st.oe < |st.cur| && st.cur[st.oe].Some? && st.cur[st.oe].value.elm.Some?
    requires r.elm == st.cur[st.oe].value.elm
    requires st'.cur == st.cur && st'.os == st.os && st'.oe == st.oe - 1 && st'.front == st.front && st'.back == [Some(r)] + st.back
    requires k == Elms(st.front) + Elms(Mid(st)) + Elms(st.back)
    ensures k == Elms(st'.front) + Elms(Mid(st')) + Elms(st'.back)
  {
    MidBack(st, st');
    KidsResult(st.front, r, st.back);
    Concat4(Elms(st.front), Elms(Mid(st')), [r.elm.value], Elms(st.back), Elms(Mid(st)), k);
  }

  /** The parent's list after moving the first old slot's node right after the last one's. */
  lemma ListMovedRight(st: DiffState, st': DiffState, r: VNode, k1: seq<Handle>, k2: seq<Handle>)
    requires 0 <= st.os < st.oe < |st.cur| && st.cur[st.os].Some? && st.cur[st.oe].Some?
    requires st.cur[st.os].value.elm.Some? && st.cur[st.oe].value.elm.Some? && r.elm == st.cur[st.os].value.elm
    requires st'.cur == st.cur && st'.os == st.os + 1 && st'.oe == st.oe && st'.front == st.front && st'.back == [Some(r)] + st.back
    requires k1 == Elms(st.front) + Elms(Mid(st)) + Elms(st.back) && NoDup(k1)
    requires k2 == InsertAt(Without(k1, {r.elm.value}), r.elm.value, NextOf(k1, st.cur[st.oe].value.elm.value))
    ensures k2 == Elms(st'.front) + Elms(Mid(st')) + Elms(st'.back)
  {
    var st'' := st'.(oe := st'.oe - 1);
    MidFront(st, st');
    MidBack(st', st'');
    KidsResult(st.front, r, st.back);
    MoveRightParts(Elms(st.front), Elms(Mid(st)), Elms(Mid(st')), Elms(Mid(st'')), Elms(st.back),
                   r.elm.value, st.cur[st.oe].value.elm.value, k1, k2);
  }

  /** The parent's list after moving the last old slot's node before the first one's. */
  lemma ListMovedLeft(st: DiffState, st': DiffState, r: VNode, k1: seq<Handle>, k2: seq<Handle>)
    requires 0 <= st.os < st.oe < |st.cur| && st.cur[st.os].Some? && st.cur[st.oe].Some?
    requires st.cur[st.os].value.elm.Some? && st.cur[st.oe].value.elm.Some? && r.elm == st.cur[st.oe].value.elm
    requires st'.cur == st.cur && st'.os == st.os && st'.oe == st.oe - 1 && st'.front == st.front + [Some(r)] && st'.back == st.back
    requires k1 == Elms(st.front) + Elms(Mid(st)) + Elms(st.back) && NoDup(k1)
    requires k2 == InsertAt(Without(k1, {r.elm.value}), r.elm.value, st.cur[st.os].value.elm)
    ensures k2 == Elms(st'.front) + Elms(Mid(st')) + Elms(st'.back)
  {
    var st'' := st'.(os := st'.os + 1);
    MidBack(st, st');
    MidFront(st', st'');
    KidsResult(st.front, r, st.back);
    MoveLeftParts(Elms(st.front), Elms(Mid(st)), Elms(Mid(st')), Elms(Mid(st'')), Elms(st.back),
                  st.cur[st.os].value.elm.value, r.elm.value, k1, k2);
  }

  /** The parent's list after inserting a fresh node before the first old slot's node. */
  lemma ListInserted(st: DiffState, st': DiffState, r: VNode, k1: seq<Handle>, k2: seq<Handle>)
    requires 0 <= st.os <= st.oe < |st.cur| && st.cur[st.os].Some? && st.cur[st.os].value.elm.Some? && r.elm.Some?
    requires st'.cur == st.cur && st'.os == st.os && st'.oe == st.oe && st'.front == st.front + [Some(r)] && st'.back == st.back
    requires k1 == Elms(st.front) + Elms(Mid(st)) + Elms(st.back) && NoDup(k1) && r.elm.value !in k1
    requires k2 == InsertAt(k1, r.elm.value, st.cur[st.os].value.elm)
    ensures k2 == Elms(st'.front) + Elms(Mid(st')) + Elms(st'.back)
  {
    var st'' := st.(os := st.os + 1);
    MidIs(st, st');
    MidFront(st, st'');
    WithoutDisjoint(k1, {r.elm.value});
    KidsResult(st.front, r, st.back);
    InsertFreshParts(Elms(st.front), Elms(Mid(st)), Elms(Mid(st'')), Elms(st.back),
                     st.cur[st.os].value.elm.value, r.elm.value, k1, k2);
  }

  /** The parent's list after moving the node of the old slot `idx` before the first old slot's node. */
  lemma ListMovedFromMiddle(st: DiffState, st': DiffState, idx: int, r: VNode, k1: seq<Handle>, k2: seq<Handle>)
    requires 0 <= st.os < idx < st.oe < |st.cur| && st.cur[st.os].Some? && st.cur[st.os].value.elm.Some?
    requires st.cur[idx].Some? && st.cur[idx].value.elm.Some? && r.elm == st.cur[idx].value.elm
    requires st'.cur == st.cur[idx := None] && st'.os == st.os && st'.oe == st.oe
    requires st'.front == st.front + [Some(r)] && st'.back == st.back
    requires k1 == Elms(st.front) + Elms(Mid(st)) + Elms(st.back) && NoDup(k1)
    requires k2 == InsertAt(Without(k1, {r.elm.value}), r.elm.value, st.cur[st.os].value.elm)
    ensures k2 == Elms(st'.front) + Elms(Mid(st')) + Elms(st'.back)
  {
    MidCleared(st, st', idx);
    KidsResult(st.front, r, st.back);
    MoveFromMiddleParts(Elms(st.front), Elms(st.cur[st.os..idx]), Elms(st.cur[st.os + 1..idx]),
                        Elms(st.cur[idx + 1..st.oe + 1]), Elms(st.back),
                        st.cur[st.os].value.elm.value, r.elm.value, k1, k2);
  }

  /** Clearing the old slot `idx` in play drops exactly that slot from play. */
  lemma SlotCleared(oldCh: seq<Option<VNode>>, st: DiffState, st': DiffState, idx: int)
    requires Cleared(oldCh, st.cur) && 0 <= st.os <= idx <= st.oe < |st.cur|
    requires st'.cur == st.cur[idx := None] && st'.os == st.os && st'.oe == st.oe
    ensures Cleared(oldCh, st'.cur)
    ensures forall i :: st'.os <= i <= st'.oe && st'.cur[i].Some? ==> st.os <= i <= st.oe && i != idx && st'.cur[i] == st.cur[i]
    ensures forall i :: st.os <= i <= st.oe && st.cur[i].Some? && !(st'.os <= i <= st'.oe && st'.cur[i].Some?) ==> i == idx
  {
  }

  /** Moving the old index at either end past slot `j` drops exactly that slot from play. */
  lemma EndDropped(oldCh: seq<Option<VNode>>, st: DiffState, st': DiffState, j: int)
    requires Cleared(oldCh, st.cur) && 0 <= st.os <= st.oe < |st.cur| && st'.cur == st.cur
    requires (j == st.os && st'.os == st.os + 1 && st'.oe == st.oe) || (j == st.oe && st'.os == st.os && st'.oe == st.oe - 1)
    ensures Cleared(oldCh, st'.cur)
    ensures forall i :: st'.os <= i <= st'.oe && st'.cur[i].Some? ==> st.os <= i <= st.oe && i != j && st'.cur[i] == st.cur[i]
    ensures forall i :: st.os <= i <= st.oe && st.cur[i].Some? && !(st'.os <= i <= st'.oe && st'.cur[i].Some?) ==> i == j
  {
  }

  // ------------------------------------------------------------ whole steps

  /** Where the loop starts: no result yet, every old slot in play, no key index. */
  function Start(oldCh: seq<Option<VNode>>, newCh: seq<Option<VNode>>): DiffState {
    DiffState(oldCh, 0, |oldCh| - 1, 0, |newCh| - 1, [], [], None)
  }

  /** The invariant holds before the first iteration, when `P` lists the old children. */
  lemma Started(P: Handle, oldCh: seq<Option<VNode>>, newCh: seq<Option<VNode>>, K: seq<seq<Handle>>, D: seq<NodeKind>, nd: bool)
    requires OldOk(P, oldCh, K, D) && |D| == |K| && K[P] == Elms(oldCh)
    ensures DiffValues(oldCh, newCh, Start(oldCh, newCh))
    ensures DiffSink(P, oldCh, Start(oldCh, newCh), K, D, K, D, nd)
  {
    var st := Start(oldCh, newCh);
    assert Mid(st) == oldCh;
    assert newCh[st.ne + 1..] == [];
    assert SlotHandles([]) == {} by {
      SlotHandlesMem([]);
    }
    assert K[P] == Elms([]) + Elms(Mid(st)) + Elms([]);
  }

  /** Skipping a null old slot at either end keeps the invariant and the parent's list. */
  lemma SkippedOld(P: Handle, oldCh: seq<Option<VNode>>, newCh: seq<Option<VNode>>, st: DiffState, st': DiffState,
                   K: seq<seq<Handle>>, D: seq<NodeKind>, kids: seq<seq<Handle>>, kind: seq<NodeKind>, nd: bool)
    requires DiffValues(oldCh, newCh, st) && OldOk(P, oldCh, K, D) && UniqueKeys(newCh) && st.os <= st.oe
    requires DiffSink(P, oldCh, st, K, D, kids, kind, nd)
    requires (st.cur[st.os].None? && st' == st.(os := st.os + 1)) || (st.cur[st.oe].None? && st' == st.(oe := st.oe - 1))
    ensures DiffValues(oldCh, newCh, st') && DiffSink(P, oldCh, st', K, D, kids, kind, nd) && Left(st') < Left(st)
  {
    ValuesSkipOld(oldCh, newCh, st, st');
    RestSkip(P, oldCh, st, st', K, D, kids, kind, nd);
    MidSkipped(st, st');
  }

  /** Skipping a null new slot at either end keeps the invariant and the parent's list. */
  lemma SkippedNew(P: Handle, oldCh: seq<Option<VNode>>, newCh: seq<Option<VNode>>, st: DiffState, st': DiffState,
                   K: seq<seq<Handle>>, D: seq<NodeKind>, kids: seq<seq<Handle>>, kind: seq<NodeKind>, nd: bool)
    requires DiffValues(oldCh, newCh, st) && OldOk(P, oldCh, K, D) && UniqueKeys(newCh) && st.ns <= st.ne
    requires DiffSink(P, oldCh, st, K, D, kids, kind, nd)
    requires (newCh[st.ns].None? && st' == st.(ns := st.ns + 1, front := st.front + [None]))
          || (newCh[st.ne].None? && st' == st.(ne := st.ne - 1, back := [None] + st.back))
    ensures DiffValues(oldCh, newCh, st') && DiffSink(P, oldCh, st', K, D, kids, kind, nd) && Left(st') < Left(st)
  {
    ValuesSkipNew(oldCh, newCh, st, st');
    RestSkip(P, oldCh, st, st', K, D, kids, kind, nd);
    KidsSkipNew(st.front, st.back);
    assert Mid(st') == Mid(st);
  }

  /** Patching the first old slot against the first new slot keeps the invariant. */
  lemma PatchedFront(P: Handle, oldCh: seq<Option<VNode>>, newCh: seq<Option<VNode>>, st: DiffState, st': DiffState, r: VNode,
                     K: seq<seq<Handle>>, D: seq<NodeKind>, k1: seq<seq<Handle>>, d1: seq<NodeKind>,
                     k2: seq<seq<Handle>>, d2: seq<NodeKind>, nd: bool)
    requires DiffValues(oldCh, newCh, st) && OldOk(P, oldCh, K, D) && UniqueKeys(newCh)
    requires st.os <= st.oe && st.ns <= st.ne && st.cur[st.os].Some? && newCh[st.ns].Some?
    requires st.cur[st.os].value.key == newCh[st.ns].value.key
    requires DiffSink(P, oldCh, st, K, D, k1, d1, nd)
    requires Patched(st.cur[st.os].value, r, k1, d1, k2, d2, nd) && |d2| == |k2| && Shape(r) == Shape(newCh[st.ns].value)
    requires st' == st.(os := st.os + 1, ns := st.ns + 1, front := st.front + [Some(r)])
    ensures DiffValues(oldCh, newCh, st') && DiffSink(P, oldCh, st', K, D, k2, d2, nd) && Left(st') < Left(st)
  {
    assert oldCh[st.os] == st.cur[st.os];
    EndDropped(oldCh, st, st', st.os);
    RestPatched(P, oldCh, st, st', st.os, r, K, D, k1, d1, k2, d2, nd, true);
    ValuesFrontStep(oldCh, newCh, st, st', r, st.os);
    ListFrontPatched(st, st', r, k2[P]);
  }

  /** Patching the last old slot against the last new slot keeps the invariant. */
  lemma PatchedBack(P: Handle, oldCh: seq<Option<VNode>>, newCh: seq<Option<VNode>>, st: DiffState, st': DiffState, r: VNode,
                    K: seq<seq<Handle>>, D: seq<NodeKind>, k1: seq<seq<Handle>>, d1: seq<NodeKind>,
                    k2: seq<seq<Handle>>, d2: seq<NodeKind>, nd: bool)
    requires DiffValues(oldCh, newCh, st) && OldOk(P, oldCh, K, D) && UniqueKeys(newCh)
    requires st.os <= st.oe && st.ns <= st.ne && st.cur[st.oe].Some? && newCh[st.ne].Some?
    requires st.cur[st.oe].value.key == newCh[st.ne].value.key
    requires DiffSink(P, oldCh, st, K, D, k1, d1, nd)
    requires Patched(st.cur[st.oe].value, r, k1, d1, k2, d2, nd) && |d2| == |k2| && Shape(r) == Shape(newCh[st.ne].value)
    requires st' == st.(oe := st.oe - 1, ne := st.ne - 1, back := [Some(r)] + st.back)
    ensures DiffValues(oldCh, newCh, st') && DiffSink(P, oldCh, st', K, D, k2, d2, nd) && Left(st') < Left(st)
  {
    assert oldCh[st.oe] == st.cur[st.oe];
    EndDropped(oldCh, st, st', st.oe);
    RestPatched(P, oldCh, st, st', st.oe, r, K, D, k1, d1, k2, d2, nd, false);
    ValuesBackStep(oldCh, newCh, st, st', r, st.oe);
    ListBackPatched(st, st', r, k2[P]);
  }

  /**
   * Patching the first old slot against the last new slot and moving its
   * node right after the last old slot's node (sink `k2` to `k3`) keeps the
   * invariant.
   */
  lemma MovedRight(P: Handle, oldCh: seq<Option<VNode>>, newCh: seq<Option<VNode>>, st: DiffState, st': DiffState, r: VNode,
                   K: seq<seq<Handle>>, D: seq<NodeKind>, k1: seq<seq<Handle>>, d1: seq<NodeKind>,
                   k2: seq<seq<Handle>>, d2: seq<NodeKind>, k3: seq<seq<Handle>>, nd: bool)
    requires DiffValues(oldCh, newCh, st) && OldOk(P, oldCh, K, D) && UniqueKeys(newCh)
    requires st.os < st.oe && st.ns <= st.ne && st.cur[st.os].Some? && st.cur[st.oe].Some? && newCh[st.ne].Some?
    requires st.cur[st.os].value.key == newCh[st.ne].value.key
    requires DiffSink(P, oldCh, st, K, D, k1, d1, nd)
    requires Patched(st.cur[st.os].value, r, k1, d1, k2, d2, nd) && |d2| == |k2| && Shape(r) == Shape(newCh[st.ne].value)
    requires NoDup(k2[P]) && Grown(k2, d2, k3, d2, P) && |k3| == |k2|
    requires k3[P] == InsertAt(Without(k2[P], {r.elm.value}), r.elm.value, NextOf(k2[P], st.cur[st.oe].value.elm.value))
    requires st' == st.(os := st.os + 1, ne := st.ne - 1, back := [Some(r)] + st.back)
    ensures DiffValues(oldCh, newCh, st') && DiffSink(P, oldCh, st', K, D, k3, d2, nd) && Left(st') < Left(st)
  {
    assert oldCh[st.os] == st.cur[st.os];
    EndDropped(oldCh, st, st', st.os);
    RestPatched(P, oldCh, st, st', st.os, r, K, D, k1, d1, k2, d2, nd, false);
    RestMovedP(P, oldCh, st', K, D, k2, d2, k3, d2, nd);
    ValuesBackStep(oldCh, newCh, st, st', r, st.os);
    ListMovedRight(st, st', r, k2[P], k3[P]);
  }

  /**
   * Patching the last old slot against the first new slot and moving its
   * node right before the first old slot's node keeps the invariant.
   */
  lemma MovedLeft(P: Handle, oldCh: seq<Option<VNode>>, newCh: seq<Option<VNode>>, st: DiffState, st': DiffState, r: VNode,
                  K: seq<seq<Handle>>, D: seq<NodeKind>, k1: seq<seq<Handle>>, d1: seq<NodeKind>,
                  k2: seq<seq<Handle>>, d2: seq<NodeKind>, k3: seq<seq<Handle>>, nd: bool)
    requires DiffValues(oldCh, newCh, st) && OldOk(P, oldCh, K, D) && UniqueKeys(newCh)
    requires st.os < st.oe && st.ns <= st.ne && st.cur[st.os].Some? && st.cur[st.oe].Some? && newCh[st.ns].Some?
    requires st.cur[st.oe].value.key == newCh[st.ns].value.key
    requires DiffSink(P, oldCh, st, K, D, k1, d1, nd)
    requires Patched(st.cur[st.oe].value, r, k1, d1, k2, d2, nd) && |d2| == |k2| && Shape(r) == Shape(newCh[st.ns].value)
    requires NoDup(k2[P]) && Grown(k2, d2, k3, d2, P) && |k3| == |k2|
    requires k3[P] == InsertAt(Without(k2[P], {r.elm.value}), r.elm.value, st.cur[st.os].value.elm)
    requires st' == st.(oe := st.oe - 1, ns := st.ns + 1, front := st.front + [Some(r)])
    ensures DiffValues(oldCh, newCh, st') && DiffSink(P, oldCh, st', K, D, k3, d2, nd) && Left(st') < Left(st)
  {
    assert oldCh[st.oe] == st.cur[st.oe];
    EndDropped(oldCh, st, st', st.oe);
    RestPatched(P, oldCh, st, st', st.oe, r, K, D, k1, d1, k2, d2, nd, true);
    RestMovedP(P, oldCh, st', K, D, k2, d2, k3, d2, nd);
    ValuesFrontStep(oldCh, newCh, st, st', r, st.oe);
    ListMovedLeft(st, st', r, k2[P], k3[P]);
  }

  /**
   * A fresh tree `r`, created for the first new slot and inserted before
   * the first old slot's node (sink `k1` to `k2`), keeps the invariant.
   */
  lemma CreatedFront(P: Handle, oldCh: seq<Option<VNode>>, newCh: seq<Option<VNode>>, st: DiffState, st': DiffState, r: VNode,
                     K: seq<seq<Handle>>, D: seq<NodeKind>, k1: seq<seq<Handle>>, d1: seq<NodeKind>,
                     k2: seq<seq<Handle>>, d2: seq<NodeKind>, nd: bool)
    requires DiffValues(oldCh, newCh, st) && OldOk(P, oldCh, K, D) && UniqueKeys(newCh)
    requires st.os <= st.oe && st.ns <= st.ne && st.cur[st.os].Some? && newCh[st.ns].Some?
    requires DiffSink(P, oldCh, st, K, D, k1, d1, nd)
    requires r.elm.Some? && Shape(r) == Shape(newCh[st.ns].value) && Mounted(r, k2, d2) && HandlesIn(r, |k1|, |k2|)
    requires Grown(k1, d1, k2, d2, P) && |d2| == |k2| && NoDup(k1[P]) && r.elm.value !in k1[P]
    requires k2[P] == InsertAt(k1[P], r.elm.value, st.cur[st.os].value.elm)
    requires st' == st.(ns := st.ns + 1, front := st.front + [Some(r)])
    ensures DiffValues(oldCh, newCh, st') && DiffSink(P, oldCh, st', K, D, k2, d2, nd) && Left(st') < Left(st)
  {
    assert oldCh[st.os] == st.cur[st.os];
    RestCreated(P, oldCh, st, st', r, K, D, k1, d1, k2, d2, nd);
    ValuesFrontStep(oldCh, newCh, st, st', r, -1);
    ListInserted(st, st', r, k1[P], k2[P]);
  }

  /**
   * Patching the old slot `idx`, strictly inside the slots in play, against
   * the first new slot, clearing it and moving its node right before the
   * first old slot's node keeps the invariant.
   */
  lemma MovedFromMiddle(P: Handle, oldCh: seq<Option<VNode>>, newCh: seq<Option<VNode>>, st: DiffState, st': DiffState,
                        idx: int, r: VNode, K: seq<seq<Handle>>, D: seq<NodeKind>, k1: seq<seq<Handle>>, d1: seq<NodeKind>,
                        k2: seq<seq<Handle>>, d2: seq<NodeKind>, k3: seq<seq<Handle>>, nd: bool)
    requires DiffValues(oldCh, newCh, st) && OldOk(P, oldCh, K, D) && UniqueKeys(newCh)
    requires st.os < idx < st.oe && st.ns <= st.ne && st.cur[st.os].Some? && st.cur[idx].Some? && newCh[st.ns].Some?
    requires st.cur[idx].value.key == newCh[st.ns].value.key
    requires DiffSink(P, oldCh, st, K, D, k1, d1, nd)
    requires Patched(st.cur[idx].value, r, k1, d1, k2, d2, nd) && |d2| == |k2| && Shape(r) == Shape(newCh[st.ns].value)
    requires NoDup(k2[P]) && Grown(k2, d2, k3, d2, P) && |k3| == |k2|
    requires k3[P] == InsertAt(Without(k2[P], {r.elm.value}), r.elm.value, st.cur[st.os].value.elm)
    requires st' == st.(cur := st.cur[idx := None], ns := st.ns + 1, front := st.front + [Some(r)])
    ensures DiffValues(oldCh, newCh, st') && DiffSink(P, oldCh, st', K, D, k3, d2, nd) && Left(st') < Left(st)
  {
    assert oldCh[st.os] == st.cur[st.os] && oldCh[idx] == st.cur[idx];
    SlotCleared(oldCh, st, st', idx);
    RestPatched(P, oldCh, st, st', idx, r, K, D, k1, d1, k2, d2, nd, true);
    RestMovedP(P, oldCh, st', K, D, k2, d2, k3, d2, nd);
    ValuesFrontStep(oldCh, newCh, st, st', r, idx);
    ListMovedFromMiddle(st, st', idx, r, k2[P], k3[P]);
  }

  // ------------------------------------------------------------ reading the slots in play

  /** The handle of a node in a slot is listed by `Elms`. */
  lemma {:induction false} ElmIn(s: seq<Option<VNode>>, i: int)
    requires 0 <= i < |s| && s[i].Some? && s[i].value.elm.Some?
    ensures s[i].value.elm.value in Elms(s)
    decreases i
  {
    if i > 0 {
      assert s[1..][i - 1] == s[i];
      ElmIn(s[1..], i - 1);
    }
  }

  /**
   * A node in play is the old node of its slot and is mounted, with a
   * handle that `P` lists; it holds neither `P` nor any handle outside the
   * old children.
   */
  lemma InPlay(P: Handle, oldCh: seq<Option<VNode>>, st: DiffState, K: seq<seq<Handle>>, D: seq<NodeKind>,
               kids: seq<seq<Handle>>, kind: seq<NodeKind>, nd: bool, i: int)
    requires Cleared(oldCh, st.cur) && 0 <= st.os <= st.oe + 1 <= |st.cur|
    requires OldOk(P, oldCh, K, D) && DiffSink(P, oldCh, st, K, D, kids, kind, nd)
    requires st.os <= i <= st.oe && st.cur[i].Some?
    ensures st.cur[i] == oldCh[i] && Mounted(st.cur[i].value, kids, kind)
    ensures st.cur[i].value.elm.Some? && st.cur[i].value.elm.value in kids[P]
    ensures Handles(st.cur[i].value) <= SlotHandles(oldCh) && P !in Handles(st.cur[i].value)
  {
    assert Mid(st)[i - st.os] == st.cur[i];
    ElmIn(Mid(st), i - st.os);
    SlotHandlesMem(oldCh);
  }

  /** Two live slots hold nodes with different handles. */
  lemma InPlayDistinct(oldCh: seq<Option<VNode>>, cur: seq<Option<VNode>>, i: int, j: int)
    requires Cleared(oldCh, cur) && SlotsDisjoint(oldCh)
    requires 0 <= i < |cur| && 0 <= j < |cur| && i != j && cur[i].Some? && cur[j].Some? && cur[i].value.elm.Some?
    ensures cur[i].value.elm != cur[j].value.elm
  {
    assert cur[i].value.elm.value in Handles(oldCh[i].value);
    assert Handles(oldCh[i].value) !! Handles(oldCh[j].value);
  }

  // ------------------------------------------------------------ after the loop

  /**
   * What `updateChildren` leaves, from the sink `K`/`D` to `kids`/`kind`:
   * `out` has the shapes of the new children, its subtrees are pairwise
   * disjoint, every node has a handle, none of them is `P`, and each is an
   * old handle or a new one; nodes outside the old children kept their
   * children; `P` lists the results in order, with the handles `pending` of
   * old nodes whose removal is delayed left in place after the first `n`
   * results; with no delayed removal nothing is pending and every result is
   * mounted.
   */
  predicate DiffDone(P: Handle, oldCh: seq<Option<VNode>>, newCh: seq<Option<VNode>>, out: seq<Option<VNode>>,
                     K: seq<seq<Handle>>, D: seq<NodeKind>, kids: seq<seq<Handle>>, kind: seq<NodeKind>, nd: bool,
                     n: int, pending: seq<Handle>)
  {
    SameShapes(out, newCh) && SlotsDisjoint(out) && Handled(out)
    && P < |K| <= |kids| && |kind| == |kids| && KindsKept(D, kind)
    && (forall h :: h in SlotHandles(out) ==> h != P && h < |kids| && (h in SlotHandles(oldCh) || |K| <= h))
    && (forall h :: 0 <= h < |K| && h != P && h !in SlotHandles(oldCh) ==> kids[h] == K[h])
    && 0 <= n <= |out| && kids[P] == Elms(out[..n]) + pending + Elms(out[n..])
    && (forall h :: h in pending ==> h in SlotHandles(oldCh) && h !in SlotHandles(out))
    && (nd ==> pending == [] && AllMounted(out, kids, kind))
  }

  lemma HandledJoin(a: seq<Option<VNode>>, b: seq<Option<VNode>>)
    requires Handled(a) && Handled(b)
    ensures Handled(a + b)
  {
    assert forall i :: |a| <= i < |a + b| ==> (a + b)[i] == b[i - |a|];
  }

  lemma SameShapesJoin(a: seq<Option<VNode>>, b: seq<Option<VNode>>, x: seq<Option<VNode>>, y: seq<Option<VNode>>)
    requires SameShapes(a, x) && SameShapes(b, y)
    ensures SameShapes(a + b, x + y)
  {
    assert forall i :: |a| <= i < |a + b| ==> (a + b)[i] == b[i - |a|] && (x + y)[i] == y[i - |a|];
  }

  /** The handles `Elms` lists belong to the slots' subtrees. */
  lemma ElmsInHandles(s: seq<Option<VNode>>)
    ensures forall h :: h in Elms(s) ==> h in SlotHandles(s)
  {
    SlotHandlesMem(s);
    forall h | h in Elms(s)
      ensures h in SlotHandles(s)
    {
      var i := ElmsMem(s, h);
      assert h in Handles(s[i].value);
    }
  }

  /** The front and back results side by side: what `DiffDone` asks of them, apart from the child list of `P`. */
  lemma ResultsJoin(P: Handle, oldCh: seq<Option<VNode>>, newCh: seq<Option<VNode>>, st: DiffState,
                    K: seq<seq<Handle>>, D: seq<NodeKind>, kids: seq<seq<Handle>>, kind: seq<NodeKind>, nd: bool)
    requires DiffValues(oldCh, newCh, st) && st.ns == st.ne + 1
    requires DiffRest(P, oldCh, st, K, D, kids, kind, nd)
    ensures SameShapes(st.front + st.back, newCh) && SlotsDisjoint(st.front + st.back) && Handled(st.front + st.back)
    ensures SlotHandles(st.front + st.back) == SlotHandles(st.front) + SlotHandles(st.back)
    ensures nd ==> AllMounted(st.front + st.back, kids, kind)
  {
    assert newCh == newCh[..st.ns] + newCh[st.ne + 1..];
    SameShapesJoin(st.front, st.back, newCh[..st.ns], newCh[st.ne + 1..]);
    DisjointJoin(st.front, st.back);
    HandledJoin(st.front, st.back);
    SlotHandlesAppend(st.front, st.back);
    if nd {
      AllMountedJoin(st.front, st.back, kids, kind);
    }
  }

  /** Both ranges exhausted together: the results are the front and back results. */
  lemma FinishNone(P: Handle, oldCh: seq<Option<VNode>>, newCh: seq<Option<VNode>>, st: DiffState,
                   K: seq<seq<Handle>>, D: seq<NodeKind>, kids: seq<seq<Handle>>, kind: seq<NodeKind>, nd: bool)
    requires DiffValues(oldCh, newCh, st) && st.os > st.oe && st.ns > st.ne
    requires DiffSink(P, oldCh, st, K, D, kids, kind, nd)
    ensures DiffDone(P, oldCh, newCh, st.front + st.back, K, D, kids, kind, nd, |st.front|, [])
  {
    ResultsJoin(P, oldCh, newCh, st, K, D, kids, kind, nd);
    var out := st.front + st.back;
    Split2(st.front, st.back);
    assert Mid(st) == [];
  }

  /** Fresh slots `added` between the front and back results. */
  lemma AddedJoin(newCh: seq<Option<VNode>>, ns: int, ne: int, front: seq<Option<VNode>>, added: seq<Option<VNode>>,
                  back: seq<Option<VNode>>, lo: nat, kids: seq<seq<Handle>>, kind: seq<NodeKind>)
    requires 0 <= ns <= ne + 1 <= |newCh|
    requires SameShapes(front, newCh[..ns]) && SameShapes(added, newCh[ns..ne + 1]) && SameShapes(back, newCh[ne + 1..])
    requires SlotsDisjoint(front) && SlotsDisjoint(back) && SlotHandles(front) !! SlotHandles(back)
    requires Handled(front) && Handled(back)
    requires forall h :: h in SlotHandles(front) + SlotHandles(back) ==> h < lo
    requires SlotsDisjoint(added) && Built(added, lo, kids, kind)
    ensures SameShapes(front + added + back, newCh) && SlotsDisjoint(front + added + back) && Handled(front + added + back)
    ensures SlotHandles(front + added + back) == SlotHandles(front) + SlotHandles(added) + SlotHandles(back)
    ensures forall h :: h in SlotHandles(added) ==> lo <= h < |kids|
    ensures AllMounted(added, kids, kind)
  {
    SlotHandlesMem(added);
    forall h | h in SlotHandles(added)
      ensures lo <= h < |kids|
    {
      var i :| 0 <= i < |added| && added[i].Some? && h in Handles(added[i].value);
    }
    assert SlotHandles(front) !! SlotHandles(added) by {
      forall h | h in SlotHandles(front)
        ensures h !in SlotHandles(added)
      {
        assert h in SlotHandles(front) + SlotHandles(back);
      }
    }
    SlotHandlesAppend(front, added);
    SlotHandlesAppend(front + added, back);
    DisjointJoin(front, added);
    assert SlotHandles(front + added) !! SlotHandles(back) by {
      forall h | h in SlotHandles(back)
        ensures h !in SlotHandles(front + added)
      {
        assert h in SlotHandles(front) + SlotHandles(back);
      }
    }
    DisjointJoin(front + added, back);
    HandledJoin(front, added);
    HandledJoin(front + added, back);
    assert newCh == newCh[..ns] + newCh[ns..ne + 1] + newCh[ne + 1..];
    SameShapesJoin(front, added, newCh[..ns], newCh[ns..ne + 1]);
    SameShapesJoin(front + added, back, newCh[..ns] + newCh[ns..ne + 1], newCh[ne + 1..]);
  }

  /** `P` is no node of the front or back results. */
  lemma ResultsBelow(P: Handle, oldCh: seq<Option<VNode>>, st: DiffState, K: seq<seq<Handle>>, D: seq<NodeKind>,
                     kids: seq<seq<Handle>>, kind: seq<NodeKind>, nd: bool)
    requires 0 <= st.os <= st.oe + 1 <= |st.cur|
    requires DiffRest(P, oldCh, st, K, D, kids, kind, nd)
    ensures P !in SlotHandles(st.front) && P !in SlotHandles(st.back)
  {
    assert P !in SlotHandles(st.front) + SlotHandles(st.back);
  }

  /** The old range ran out: `P` lists the front results, then the back ones. */
  lemma AddReady(P: Handle, oldCh: seq<Option<VNode>>, st: DiffState, K: seq<seq<Handle>>, D: seq<NodeKind>,
                 kids: seq<seq<Handle>>, kind: seq<NodeKind>, nd: bool)
    requires 0 <= st.os <= st.oe + 1 <= |st.cur| && st.os > st.oe
    requires DiffSink(P, oldCh, st, K, D, kids, kind, nd)
    ensures P < |kids| && kids[P] == Elms(st.front) + Elms(st.back)
    ensures P !in SlotHandles(st.front) && P !in SlotHandles(st.back)
  {
    ResultsBelow(P, oldCh, st, K, D, kids, kind, nd);
    assert Mid(st) == [] && Elms(st.front) + Elms([]) + Elms(st.back) == Elms(st.front) + Elms(st.back);
  }

  /**
   * The old range exhausted first: `added`, built for the new slots left
   * and inserted between the front and back results (sink `k1`/`d1` to
   * `k2`/`d2`), completes the results.
   */
  lemma FinishAdd(P: Handle, oldCh: seq<Option<VNode>>, newCh: seq<Option<VNode>>, st: DiffState, added: seq<Option<VNode>>,
                  K: seq<seq<Handle>>, D: seq<NodeKind>, k1: seq<seq<Handle>>, d1: seq<NodeKind>,
                  k2: seq<seq<Handle>>, d2: seq<NodeKind>, nd: bool)
    requires DiffValues(oldCh, newCh, st) && st.os > st.oe && st.ns <= st.ne
    requires DiffSink(P, oldCh, st, K, D, k1, d1, nd)
    requires SameShapes(added, newCh[st.ns..st.ne + 1]) && SlotsDisjoint(added) && Built(added, |k1|, k2, d2)
    requires Grown(k1, d1, k2, d2, P) && |d2| == |k2|
    requires k2[P] == Elms(st.front) + Elms(added) + Elms(st.back)
    ensures DiffDone(P, oldCh, newCh, st.front + added + st.back, K, D, k2, d2, nd, |st.front|, [])
  {
    var out := st.front + added + st.back;
    AddedJoin(newCh, st.ns, st.ne, st.front, added, st.back, |k1|, k2, d2);
    AddedLayout(st.front, added, st.back, k2[P]);
    AddedHandles(P, oldCh, st.front, added, st.back, K, |k1|, |k2|);
    SinkKeptAcross(P, oldCh, K, D, k1, d1, k2, d2);
    if nd {
      AddedAllMounted(P, oldCh, st, added, K, D, k1, d1, k2, d2);
    }
  }

  /** Nodes outside the old children keep their children from `K` through `k1` to `k2`, and kinds are kept. */
  lemma SinkKeptAcross(P: Handle, oldCh: seq<Option<VNode>>, K: seq<seq<Handle>>, D: seq<NodeKind>,
                       k1: seq<seq<Handle>>, d1: seq<NodeKind>, k2: seq<seq<Handle>>, d2: seq<NodeKind>)
    requires P < |K| <= |k1| && KindsKept(D, d1) && Grown(k1, d1, k2, d2, P) && |d2| == |k2|
    requires forall h :: 0 <= h < |K| && h != P && h !in SlotHandles(oldCh) ==> k1[h] == K[h]
    ensures P < |K| <= |k2| && KindsKept(D, d2)
    ensures forall h :: 0 <= h < |K| && h != P && h !in SlotHandles(oldCh) ==> k2[h] == K[h]
  {
  }

  /** The parent's list after adding: the results in order, split after the front results with nothing pending. */
  lemma AddedLayout(front: seq<Option<VNode>>, added: seq<Option<VNode>>, back: seq<Option<VNode>>, kP: seq<Handle>)
    requires kP == Elms(front) + Elms(added) + Elms(back)
    ensures kP == Elms((front + added + back)[..|front|]) + [] + Elms((front + added + back)[|front|..])
  {
    Split3(front, added, back);
    ElmsAppend(added, back);
    Gap(Elms(front), Elms(added), Elms(back));
  }

  /** The handles of the front, added and back results: none is `P`, all are stored, old or new since `K`. */
  lemma AddedHandles(P: Handle, oldCh: seq<Option<VNode>>, front: seq<Option<VNode>>, added: seq<Option<VNode>>,
                     back: seq<Option<VNode>>, K: seq<seq<Handle>>, lo: nat, hi: nat)
    requires P < |K| <= lo <= hi
    requires forall h :: h in SlotHandles(front) + SlotHandles(back) ==> h != P && h < lo && (h in SlotHandles(oldCh) || |K| <= h)
    requires forall h :: h in SlotHandles(added) ==> lo <= h < hi
    requires SlotHandles(front + added + back) == SlotHandles(front) + SlotHandles(added) + SlotHandles(back)
    ensures forall h :: h in SlotHandles(front + added + back) ==> h != P && h < hi && (h in SlotHandles(oldCh) || |K| <= h)
  {
    forall h | h in SlotHandles(front + added + back)
      ensures h != P && h < hi && (h in SlotHandles(oldCh) || |K| <= h)
    {
      if h !in SlotHandles(added) {
        assert h in SlotHandles(front) + SlotHandles(back);
      }
    }
  }

  /** With no delay possible, the front, added and back results are all mounted in the grown sink. */
  lemma AddedAllMounted(P: Handle, oldCh: seq<Option<VNode>>, st: DiffState, added: seq<Option<VNode>>,
                        K: seq<seq<Handle>>, D: seq<NodeKind>, k1: seq<seq<Handle>>, d1: seq<NodeKind>,
                        k2: seq<seq<Handle>>, d2: seq<NodeKind>)
    requires 0 <= st.os <= st.oe + 1 <= |st.cur| && DiffRest(P, oldCh, st, K, D, k1, d1, true) && Grown(k1, d1, k2, d2, P)
    requires Built(added, |k1|, k2, d2)
    ensures AllMounted(st.front + added + st.back, k2, d2)
  {
    ResultsRegrown(P, oldCh, st, K, D, k1, d1, k2, d2);
    AllMountedJoin(st.front, added, k2, d2);
    AllMountedJoin(st.front + added, st.back, k2, d2);
  }

  /**
   * The new range exhausted first: the old slots left in play were removed
   * from `P`, the handles `gone` at once (sink `k1` to `kids`). Those whose
   * removal is delayed stay between the front and back results.
   */
  lemma FinishRemove(P: Handle, oldCh: seq<Option<VNode>>, newCh: seq<Option<VNode>>, st: DiffState, gone: set<Handle>,
                     K: seq<seq<Handle>>, D: seq<NodeKind>, k1: seq<seq<Handle>>, kids: seq<seq<Handle>>, kind: seq<NodeKind>,
                     nd: bool)
    requires DiffValues(oldCh, newCh, st) && OldOk(P, oldCh, K, D) && st.os <= st.oe && st.ns > st.ne
    requires DiffSink(P, oldCh, st, K, D, k1, kind, nd)
    requires forall h :: h in gone ==> h in Elms(Mid(st))
    requires nd ==> forall h :: h in Elms(Mid(st)) ==> h in gone
    requires kids == k1[P := Without(k1[P], gone)]
    ensures DiffDone(P, oldCh, newCh, st.front + st.back, K, D, kids, kind, nd, |st.front|, Without(Elms(Mid(st)), gone))
  {
    var F, M, B := Elms(st.front), Elms(Mid(st)), Elms(st.back);
    ResultsJoin(P, oldCh, newCh, st, K, D, k1, kind, nd);
    MidFacts(oldCh, st);
    ElmsInHandles(st.front);
    ElmsInHandles(Mid(st));
    ElmsInHandles(st.back);
    assert forall h :: h in gone ==> h !in F && h !in B;
    DropMiddle(F, M, B, gone);
    var out := st.front + st.back;
    Split2(st.front, st.back);
    forall h | h in Without(M, gone)
      ensures h in SlotHandles(oldCh) && h !in SlotHandles(out)
    {
    }
    if nd {
      WithoutAll(M, gone);
      assert P !in SlotHandles(out);
      DetachedMounted(P, out, gone, k1, kind, kids);
    }
  }

  /** Taking nodes out of `P`'s list keeps mounted what does not hold `P`. */
  lemma DetachedMounted(P: Handle, out: seq<Option<VNode>>, gone: set<Handle>, k1: seq<seq<Handle>>, kind: seq<NodeKind>,
                        kids: seq<seq<Handle>>)
    requires P < |k1| && AllMounted(out, k1, kind) && P !in SlotHandles(out) && kids == k1[P := Without(k1[P], gone)]
    ensures AllMounted(out, kids, kind)
  {
    AllMountedFrame(out, {P}, k1, kind, kids, kind);
  }

  // ------------------------------------------------------------ what patching one node leaves

  /** The children of a mounted node are what `updateChildren` may assume of old children. */
  lemma MountedOldOk(prev: VNode, kids: seq<seq<Handle>>, kind: seq<NodeKind>)
    requires Mounted(prev, kids, kind) && prev.children.Array?
    ensures OldOk(prev.elm.value, prev.children.items, kids, kind) && kids[prev.elm.value] == Elms(prev.children.items)
  {
    MountedBound(prev, kids, kind);
    HandlesOfParent(prev);
    SlotHandlesMem(prev.children.items);
  }

  /**
   * A node the sink already shows as `w` asks for: the same children, or
   * no children and either text or nothing at all on both sides.
   */
  lemma Untouched(prev: VNode, w: VNode, kids: seq<seq<Handle>>, kind: seq<NodeKind>, mounted: bool)
    requires Mounted(prev, kids, kind) && w.elm == prev.elm && w.sel == prev.sel
    requires (w.children.Array? && w.children == prev.children)
          || (w.children.Undefined? && (w.text.Some? || (prev.children.Undefined? && prev.text.None?)))
    ensures Patched(prev, w, kids, kind, kids, kind, mounted)
  {
    if w.children.Undefined? {
      assert Handles(w) == {w.elm.value};
    }
  }

  /** Once no removal is delayed, the diffed parent lists exactly the new slots' handles. */
  lemma DoneMounted(P: Handle, oldCh: seq<Option<VNode>>, newCh: seq<Option<VNode>>, out: seq<Option<VNode>>,
                    K: seq<seq<Handle>>, D: seq<NodeKind>, kids: seq<seq<Handle>>, kind: seq<NodeKind>, n: int, pending: seq<Handle>)
    requires DiffDone(P, oldCh, newCh, out, K, D, kids, kind, true, n, pending)
    ensures kids[P] == Elms(out) && AllMounted(out, kids, kind) && P !in SlotHandles(out)
  {
    ElmsAt(out, n);
  }

  /** The handles of a slot list, cut at `n`. */
  lemma ElmsAt(out: seq<Option<VNode>>, n: int)
    requires 0 <= n <= |out|
    ensures Elms(out) == Elms(out[..n]) + [] + Elms(out[n..])
  {
    assert out == out[..n] + out[n..];
    ElmsAppend(out[..n], out[n..]);
  }

  /**
   * `w` with the results `out` of `updateChildren` on the children of
   * `prev` (sink `K`/`D` to `kids`/`kind`) as its children is patched.
   */
  lemma ChildrenPatched(prev: VNode, w: VNode, res: VNode, K: seq<seq<Handle>>, D: seq<NodeKind>,
                        kids: seq<seq<Handle>>, kind: seq<NodeKind>, n: int, pending: seq<Handle>, nd: bool, mounted: bool)
    requires Mounted(prev, K, D) && prev.children.Array? && w.children.Array? && w.elm == prev.elm && w.sel == prev.sel
    requires res == w.(children := res.children) && res.children.Array?
    requires DiffDone(prev.elm.value, prev.children.items, w.children.items, res.children.items, K, D, kids, kind, nd, n, pending)
    requires mounted ==> nd
    ensures Shape(res) == Shape(w)
    ensures Patched(prev, res, K, D, kids, kind, mounted)
  {
    var P, out := prev.elm.value, res.children.items;
    HandlesOfParent(prev);
    HandlesOfParent(res);
    ShapeOfParent(res, w);
    if mounted {
      DoneMounted(P, prev.children.items, w.children.items, out, K, D, kids, kind, n, pending);
      assert IsElement(res) == IsElement(prev);
      MountedOver(res, kids, kind);
    }
  }

  /**
   * `w` with the slots `out` that `addVnodes` made into the emptied node of
   * `prev` (sink `K`/`D`, emptied into `k1`/`D`, grown into `kids`/`kind`)
   * as its children is patched and mounted.
   */
  lemma ChildrenAdded(prev: VNode, w: VNode, res: VNode, K: seq<seq<Handle>>, D: seq<NodeKind>, k1: seq<seq<Handle>>,
                      kids: seq<seq<Handle>>, kind: seq<NodeKind>, mounted: bool)
    requires Mounted(prev, K, D) && prev.children.Undefined? && w.children.Array? && w.elm == prev.elm && w.sel == prev.sel
    requires res == w.(children := res.children) && res.children.Array?
    requires |k1| == |K| && (forall x :: 0 <= x < |K| && x != prev.elm.value ==> k1[x] == K[x])
    requires SameShapes(res.children.items, w.children.items[0..|w.children.items|]) && SlotsDisjoint(res.children.items)
    requires Built(res.children.items, |k1|, kids, kind) && Grown(k1, D, kids, kind, prev.elm.value)
    requires kids[prev.elm.value] == [] + Elms(res.children.items) + []
    ensures Shape(res) == Shape(w)
    ensures Patched(prev, res, K, D, kids, kind, mounted)
  {
    var out, e := res.children.items, prev.elm.value;
    assert Shape(res) == Shape(w) by {
      assert w.children.items[0..|w.children.items|] == w.children.items;
      ShapeOfParent(res, w);
    }
    assert Handles(prev) == {e};
    assert forall h :: h in SlotHandles(out) ==> |k1| <= h < |kids| by {
      BuiltSlots(out, |k1|, kids, kind);
    }
    HandlesOfParent(res);
    AddedMounted(prev, res, D, k1, kids, kind);
    assert forall h :: h in Handles(res) ==> h in Handles(prev) || |K| <= h < |kids|;
  }

  /** The node of `prev` with the slots `addVnodes` built into it as children is mounted. */
  lemma AddedMounted(prev: VNode, res: VNode, D: seq<NodeKind>, k1: seq<seq<Handle>>,
                     kids: seq<seq<Handle>>, kind: seq<NodeKind>)
    requires prev.elm.Some? && prev.elm.value < |k1| && prev.elm.value < |D| && (IsElement(prev) <==> D[prev.elm.value].Element?)
    requires res.elm == prev.elm && res.sel == prev.sel && res.children.Array?
    requires SlotsDisjoint(res.children.items)
    requires Built(res.children.items, |k1|, kids, kind) && Grown(k1, D, kids, kind, prev.elm.value)
    requires kids[prev.elm.value] == [] + Elms(res.children.items) + []
    ensures Mounted(res, kids, kind)
  {
    var out, e := res.children.items, prev.elm.value;
    BuiltSlots(out, |k1|, kids, kind);
    assert kind[e] == D[e];
    assert e !in SlotHandles(out);
    MountedOver(res, kids, kind);
  }

  // ------------------------------------------------------------ the reference node for the nodes added last

  /**
   * The reference node `updateChildren` passes to `addVnodes` when the old
   * range runs out first, as written: the node of the new slot right after
   * the new range, or none when that slot is null or past the end.
   */
  function BeforeAsWritten(back: seq<Option<VNode>>): Option<Handle> {
    if back == [] || back[0].None? then None else back[0].value.elm
  }

  /**
   * The reference node the nodes added last need: the first node among the
   * back results, skipping null slots, or none when there is none.
   */
  function BeforeCorrected(back: seq<Option<VNode>>): (r: Option<Handle>)
    ensures r.None? ==> Elms(back) == []
    ensures r.Some? ==> Elms(back) != [] && Elms(back)[0] == r.value
  {
    if back == [] then None
    else if back[0].Some? && back[0].value.elm.Some? then back[0].value.elm
    else BeforeCorrected(back[1..])
  }

  /** The two agree unless the first back slot is null. */
  lemma BeforeAgrees(back: seq<Option<VNode>>)
    requires Handled(back) && (back == [] || back[0].Some?)
    ensures BeforeAsWritten(back) == BeforeCorrected(back)
  {
  }

  /**
   * Inserting a node `c` before `BeforeCorrected(back)` puts it between the
   * front and the back results, whatever the back results are.
   */
  lemma {:induction false} BeforeCorrectedPlaces(F: seq<Handle>, back: seq<Option<VNode>>, c: Handle)
    requires NoDup(F + Elms(back)) && c !in F + Elms(back)
    ensures InsertAt(F + Elms(back), c, BeforeCorrected(back)) == F + [c] + Elms(back)
  {
    InsertBeforeTail(F, Elms(back), c, BeforeCorrected(back), InsertAt(F + Elms(back), c, BeforeCorrected(back)));
  }

  /**
   * As written, a null slot right after the new range sends the node
   * added for the slot before it to the end of the parent, past the
   * back results: with front results holding handle 1 and back results
   * `[null, node 2]`, handle 3 lands after 2.
   */
  lemma BeforeAsWrittenMisplaces()
    ensures var b := VNode(Some("b"), None, Undefined, None, Some(2), Some(StrKey("b")));
      var back := [None, Some(b)];
      && InsertAt([1] + Elms(back), 3, BeforeAsWritten(back)) == [1, 2, 3]
      && InsertAt([1] + Elms(back), 3, BeforeCorrected(back)) == [1, 3, 2]
  {
    var b := VNode(Some("b"), None, Undefined, None, Some(2), Some(StrKey("b")));
    var back := [None, Some(b)];
    assert back[1..] == [Some(b)];
    assert [Some(b)][1..] == [];
    assert Elms([Some(b)]) == [2] + Elms([]);
    assert Elms(back) == [] + Elms([Some(b)]);
    assert BeforeCorrected(back) == Some(2);
    var k: seq<nat> := [1, 2];
    assert IndexOf(k, 2) == 1;
    assert k[..1] + [3] + k[1..] == [1, 3, 2];
  }
}
