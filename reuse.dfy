/**
 * Which old node's sink handle each result of `updateChildren`
 * (src/snabbdom.ts:250-354) carries. An old node that pairs up with a new
 * one by a defined key and `sameVnode` is patched into that new slot, so its
 * handle is kept; any handle that existed before the diff ends up on a new
 * slot only through an old node `sameVnode` with it.
 */
module Reuse {
  import opened Wrappers
  import opened VNodes
  import opened Trees
  import opened Identity
  import opened Dom
  import opened Seqs
  import opened KeyMap
  import opened Diff

  /** The old children have unique sibling keys at every level, as the new ones must. */
  predicate OldKeys(oldCh: seq<Option<VNode>>) {
    UniqueKeys(oldCh)
    && forall i :: 0 <= i < |oldCh| && oldCh[i].Some? ==> KeysUnique(oldCh[i].value)
  }

  /** The old slot `o` and the new slot `n` hold nodes that pair up by a defined key. */
  predicate KeyedMatch(o: Option<VNode>, n: Option<VNode>) {
    o.Some? && n.Some? && n.value.key.Some? && SameVnode(o.value, n.value)
  }

  /**
   * The result `r` for the new slot `n` carries the handle of every old
   * node that pairs with `n` by key, and a handle older than the diff
   * (below `made`) only when it is the handle of an old node `sameVnode`
   * with `n`.
   */
  predicate Reuses(oldCh: seq<Option<VNode>>, made: int, n: Option<VNode>, r: Option<VNode>) {
    n.Some? && r.Some? ==>
      (forall i :: 0 <= i < |oldCh| && KeyedMatch(oldCh[i], n) ==> r.value.elm == oldCh[i].value.elm)
      && (r.value.elm.Some? && r.value.elm.value < made ==>
            exists i :: 0 <= i < |oldCh| && oldCh[i].Some? && SameVnode(oldCh[i].value, n.value)
                        && r.value.elm == oldCh[i].value.elm)
  }

  /** Every result slot reuses handles as `Reuses` says. */
  predicate AllReuse(oldCh: seq<Option<VNode>>, newCh: seq<Option<VNode>>, out: seq<Option<VNode>>, made: int) {
    |out| == |newCh| && forall j :: 0 <= j < |newCh| ==> Reuses(oldCh, made, newCh[j], out[j])
  }

  /**
   * Every old node that pairs by key with a new slot still to be placed is
   * still in play, uncleared, and, once the key index exists, is what the
   * index gives for that key.
   */
  predicate Waiting(oldCh: seq<Option<VNode>>, newCh: seq<Option<VNode>>, st: DiffState) {
    forall i, j :: 0 <= i < |oldCh| && st.ns <= j <= st.ne && 0 <= j < |newCh| && KeyedMatch(oldCh[i], newCh[j]) ==>
      st.os <= i <= st.oe && i < |st.cur| && st.cur[i] == oldCh[i]
      && (st.keyIdx.Some? ==>
            newCh[j].value.key.value in st.keyIdx.value && st.keyIdx.value[newCh[j].value.key.value] == i)
  }

  /** The reuse side of the loop invariant: the results so far reuse handles rightly, and the matches left wait. */
  predicate DiffReuse(oldCh: seq<Option<VNode>>, newCh: seq<Option<VNode>>, st: DiffState, made: int)
    requires Cursors(|oldCh|, |newCh|, st)
  {
    (forall j :: 0 <= j < st.ns ==> Reuses(oldCh, made, newCh[j], st.front[j]))
    && (forall j :: 0 <= j < |st.back| ==> Reuses(oldCh, made, newCh[st.ne + 1 + j], st.back[j]))
    && Waiting(oldCh, newCh, st)
  }

  /** Every old slot in play other than `c` is still in play, unchanged, after the step. */
  predicate InPlayKept(st: DiffState, st': DiffState, c: int) {
    forall i :: st.os <= i <= st.oe && i != c && 0 <= i < |st.cur| && st.cur[i].Some? ==>
      st'.os <= i <= st'.oe && i < |st'.cur| && st'.cur[i] == st.cur[i]
  }

  /** The result of a key-less diff of `oldCh` against itself is `oldCh`, which reuses every handle. */
  lemma {:induction false} SelfReuse(oldCh: seq<Option<VNode>>, made: int)
    requires UniqueKeys(oldCh)
    ensures AllReuse(oldCh, oldCh, oldCh, made)
  {
    forall j | 0 <= j < |oldCh|
      ensures Reuses(oldCh, made, oldCh[j], oldCh[j])
    {
      if oldCh[j].Some? {
        forall i | 0 <= i < |oldCh| && KeyedMatch(oldCh[i], oldCh[j])
          ensures oldCh[j].value.elm == oldCh[i].value.elm
        {
          assert KeyAt(oldCh, i) == KeyAt(oldCh, j);
        }
        assert SameVnode(oldCh[j].value, oldCh[j].value);
      }
    }
  }

  /** At the start nothing is placed and every old node is in play. */
  lemma ReuseStarted(oldCh: seq<Option<VNode>>, newCh: seq<Option<VNode>>, made: int)
    ensures Cursors(|oldCh|, |newCh|, Start(oldCh, newCh))
    ensures DiffReuse(oldCh, newCh, Start(oldCh, newCh), made)
  {
  }

  /**
   * An old node `cur[c]` patched into the new slot `p` it is `sameVnode`
   * with: the result, holding `cur[c]`'s handle, reuses rightly, because no
   * other old node shares its key.
   */
  lemma {:induction false} ReusePatched(oldCh: seq<Option<VNode>>, newCh: seq<Option<VNode>>, st: DiffState,
                                        c: int, p: int, r: VNode, made: int)
    requires Cleared(oldCh, st.cur) && UniqueKeys(oldCh) && 0 <= c < |st.cur| && st.cur[c].Some?
    requires 0 <= p < |newCh| && newCh[p].Some? && SameVnode(st.cur[c].value, newCh[p].value)
    requires r.elm == st.cur[c].value.elm
    ensures Reuses(oldCh, made, newCh[p], Some(r))
  {
    forall i | 0 <= i < |oldCh| && KeyedMatch(oldCh[i], newCh[p])
      ensures r.elm == oldCh[i].value.elm
    {
      assert KeyAt(oldCh, i) == KeyAt(oldCh, c);
    }
  }

  /** A node created for the new slot `p`, which no old node pairs with by key, with handles made since the diff began. */
  lemma ReuseCreated(oldCh: seq<Option<VNode>>, newCh: seq<Option<VNode>>, p: int, r: VNode, made: int, lo: int, hi: int)
    requires 0 <= p < |newCh| && forall i :: 0 <= i < |oldCh| ==> !KeyedMatch(oldCh[i], newCh[p])
    requires HandlesIn(r, lo, hi) && made <= lo
    ensures Reuses(oldCh, made, newCh[p], Some(r))
  {
    if r.elm.Some? {
      assert r.elm.value in Handles(r);
    }
  }

  /**
   * The new node at `ns` found no usable entry in the key index (no key,
   * key not in the index, or the indexed old node has another selector):
   * then no old node pairs with it by key.
   */
  lemma {:induction false} NoneWaiting(oldCh: seq<Option<VNode>>, newCh: seq<Option<VNode>>, st: DiffState)
    requires Waiting(oldCh, newCh, st) && st.keyIdx.Some? && 0 <= st.ns <= st.ne < |newCh| && newCh[st.ns].Some?
    requires var v := newCh[st.ns].value;
             v.key.None? || v.key.value !in st.keyIdx.value
             || (0 <= st.keyIdx.value[v.key.value] < |st.cur| && st.cur[st.keyIdx.value[v.key.value]].Some?
                 && st.cur[st.keyIdx.value[v.key.value]].value.sel != v.sel)
    ensures forall i :: 0 <= i < |oldCh| ==> !KeyedMatch(oldCh[i], newCh[st.ns])
  {
  }

  /**
   * One step of the loop: the old slot `c` (or none, -1) leaves play, and
   * the new slot `p` (or none, -1) gets the result `x`, at the front when
   * `p` is `ns` and at the back when it is `ne`. Results that reuse rightly
   * keep the invariant, because the old node consumed pairs with no other
   * new slot left.
   */
  lemma {:induction false} ReuseStep(oldCh: seq<Option<VNode>>, newCh: seq<Option<VNode>>, st: DiffState, st': DiffState,
                                     c: int, p: int, x: Option<VNode>, made: int)
    requires Cursors(|oldCh|, |newCh|, st) && Cursors(|oldCh|, |newCh|, st') && Cleared(oldCh, st.cur)
    requires UniqueKeys(newCh) && DiffReuse(oldCh, newCh, st, made)
    requires st'.keyIdx == st.keyIdx && InPlayKept(st, st', c)
    requires p == -1 ==> st'.ns == st.ns && st'.ne == st.ne && st'.front == st.front && st'.back == st.back
    requires p != -1 ==> st.ns <= p <= st.ne && Reuses(oldCh, made, newCh[p], x)
    requires p != -1 ==>
      (p == st.ns && st'.ns == st.ns + 1 && st'.ne == st.ne && st'.front == st.front + [x] && st'.back == st.back)
      || (p == st.ne && st'.ne == st.ne - 1 && st'.ns == st.ns && st'.back == [x] + st.back && st'.front == st.front)
    requires c != -1 ==> p != -1 && 0 <= c < |st.cur| && st.cur[c].Some? && newCh[p].Some?
                         && SameVnode(st.cur[c].value, newCh[p].value)
    ensures DiffReuse(oldCh, newCh, st', made)
  {
    WaitingKept(oldCh, newCh, st, st', c, p);
    if p != -1 && p == st.ns && st'.ns == st.ns + 1 {
      FrontGrown(oldCh, newCh, st, st', x, made);
    }
    if p != -1 && p == st.ne && st'.ne == st.ne - 1 {
      BackGrown(oldCh, newCh, st, st', x, made);
    }
  }

  /** The matches still waiting after a step that consumed the old slot `c` for the new slot `p`. */
  lemma {:induction false} WaitingKept(oldCh: seq<Option<VNode>>, newCh: seq<Option<VNode>>, st: DiffState, st': DiffState,
                                       c: int, p: int)
    requires Cleared(oldCh, st.cur) && UniqueKeys(newCh) && Waiting(oldCh, newCh, st)
    requires st'.keyIdx == st.keyIdx && InPlayKept(st, st', c)
    requires st.ns <= st'.ns && st'.ne <= st.ne
    requires p != -1 ==> !(st'.ns <= p <= st'.ne)
    requires c != -1 ==> p != -1 && 0 <= c < |st.cur| && st.cur[c].Some? && 0 <= p < |newCh| && newCh[p].Some?
                         && SameVnode(st.cur[c].value, newCh[p].value)
    ensures Waiting(oldCh, newCh, st')
  {
    forall i, j | 0 <= i < |oldCh| && st'.ns <= j <= st'.ne && 0 <= j < |newCh| && KeyedMatch(oldCh[i], newCh[j])
      ensures st'.os <= i <= st'.oe && i < |st'.cur| && st'.cur[i] == oldCh[i]
      ensures st'.keyIdx.Some? ==>
        newCh[j].value.key.value in st'.keyIdx.value && st'.keyIdx.value[newCh[j].value.key.value] == i
    {
      assert st.ns <= j <= st.ne;
      if c != -1 {
        assert j != p && KeyAt(newCh, j) != KeyAt(newCh, p);
      }
    }
  }

  /** The result `x` for the new start joins the front results. */
  lemma {:induction false} FrontGrown(oldCh: seq<Option<VNode>>, newCh: seq<Option<VNode>>, st: DiffState, st': DiffState,
                                      x: Option<VNode>, made: int)
    requires Cursors(|oldCh|, |newCh|, st) && Cursors(|oldCh|, |newCh|, st') && DiffReuse(oldCh, newCh, st, made)
    requires st.ns <= st.ne && Reuses(oldCh, made, newCh[st.ns], x)
    requires st'.ns == st.ns + 1 && st'.front == st.front + [x]
    ensures forall j :: 0 <= j < st'.ns ==> Reuses(oldCh, made, newCh[j], st'.front[j])
  {
    forall j | 0 <= j < st'.ns
      ensures Reuses(oldCh, made, newCh[j], st'.front[j])
    {
      if j < st.ns {
        assert st'.front[j] == st.front[j];
      }
    }
  }

  /** The result `x` for the new end joins the back results. */
  lemma {:induction false} BackGrown(oldCh: seq<Option<VNode>>, newCh: seq<Option<VNode>>, st: DiffState, st': DiffState,
                                     x: Option<VNode>, made: int)
    requires Cursors(|oldCh|, |newCh|, st) && Cursors(|oldCh|, |newCh|, st') && DiffReuse(oldCh, newCh, st, made)
    requires st.ns <= st.ne && Reuses(oldCh, made, newCh[st.ne], x)
    requires st'.ne == st.ne - 1 && st'.back == [x] + st.back
    ensures forall j :: 0 <= j < |st'.back| ==> Reuses(oldCh, made, newCh[st'.ne + 1 + j], st'.back[j])
  {
    forall j | 0 <= j < |st'.back|
      ensures Reuses(oldCh, made, newCh[st'.ne + 1 + j], st'.back[j])
    {
      if 0 < j {
        assert st'.back[j] == st.back[j - 1];
      }
    }
  }

  /**
   * A step that patched the old node `cur[c]` (the old start, the old end
   * or the one found by key, whose slot is cleared) into the new slot `p`
   * (the new start or the new end) with the result `r`.
   */
  lemma ReuseMatched(oldCh: seq<Option<VNode>>, newCh: seq<Option<VNode>>, st: DiffState, st': DiffState,
                     c: int, p: int, r: VNode, made: int)
    requires Cursors(|oldCh|, |newCh|, st) && Cursors(|oldCh|, |newCh|, st') && Cleared(oldCh, st.cur)
    requires UniqueKeys(oldCh) && UniqueKeys(newCh) && DiffReuse(oldCh, newCh, st, made)
    requires st.os <= c <= st.oe && st.cur[c].Some? && st.ns <= p <= st.ne && newCh[p].Some?
    requires SameVnode(st.cur[c].value, newCh[p].value) && r.elm == st.cur[c].value.elm
    requires st'.keyIdx == st.keyIdx
    requires (c == st.os && st'.os == st.os + 1 && st'.oe == st.oe && st'.cur == st.cur)
             || (c == st.oe && st'.oe == st.oe - 1 && st'.os == st.os && st'.cur == st.cur)
             || (st'.cur == st.cur[c := None] && st'.os == st.os && st'.oe == st.oe)
    requires (p == st.ns && st'.ns == st.ns + 1 && st'.ne == st.ne && st'.front == st.front + [Some(r)] && st'.back == st.back)
             || (p == st.ne && st'.ne == st.ne - 1 && st'.ns == st.ns && st'.back == [Some(r)] + st.back && st'.front == st.front)
    ensures DiffReuse(oldCh, newCh, st', made)
  {
    ReusePatched(oldCh, newCh, st, c, p, r, made);
    assert InPlayKept(st, st', c);
    ReuseStep(oldCh, newCh, st, st', c, p, Some(r), made);
  }

  /** A null old start or old end leaves play: nothing placed, no match lost. */
  lemma ReuseSkippedOld(oldCh: seq<Option<VNode>>, newCh: seq<Option<VNode>>, st: DiffState, st': DiffState, made: int)
    requires Cursors(|oldCh|, |newCh|, st) && Cleared(oldCh, st.cur) && UniqueKeys(newCh)
    requires DiffReuse(oldCh, newCh, st, made) && st.os <= st.oe
    requires (st.cur[st.os].None? && st' == st.(os := st.os + 1)) || (st.cur[st.oe].None? && st' == st.(oe := st.oe - 1))
    ensures Cursors(|oldCh|, |newCh|, st') && DiffReuse(oldCh, newCh, st', made)
  {
    assert InPlayKept(st, st', -1);
    ReuseStep(oldCh, newCh, st, st', -1, -1, None, made);
  }

  /** Building the key index over the old slots in play: every waiting match is what the index gives. */
  lemma {:induction false} ReuseIndexed(oldCh: seq<Option<VNode>>, newCh: seq<Option<VNode>>, st: DiffState, m: map<Key, int>,
                                        made: int)
    requires Cursors(|oldCh|, |newCh|, st) && Cleared(oldCh, st.cur) && UniqueKeys(oldCh)
    requires DiffReuse(oldCh, newCh, st, made)
    requires forall k :: k in m ==> st.os <= m[k] <= st.oe && SlotKey(st.cur, m[k]) == Some(k)
    requires forall i :: st.os <= i <= st.oe && SlotKey(st.cur, i).Some? ==>
      SlotKey(st.cur, i).value in m && i <= m[SlotKey(st.cur, i).value]
    ensures Cursors(|oldCh|, |newCh|, st.(keyIdx := Some(m)))
    ensures DiffReuse(oldCh, newCh, st.(keyIdx := Some(m)), made)
  {
    var st' := st.(keyIdx := Some(m));
    forall i, j | 0 <= i < |oldCh| && st'.ns <= j <= st'.ne && 0 <= j < |newCh| && KeyedMatch(oldCh[i], newCh[j])
      ensures newCh[j].value.key.value in m && m[newCh[j].value.key.value] == i
    {
      var k := newCh[j].value.key.value;
      assert SlotKey(st.cur, i) == Some(k);
      var t := m[k];
      assert SlotKey(st.cur, t) == Some(k);
      assert KeyAt(oldCh, t) == KeyAt(oldCh, i);
    }
  }

  /**
   * The old range ran out and the new slots `ns..ne` were created as
   * `added`, all with handles made since the diff began: together with the
   * front and back results, every result reuses rightly.
   */
  lemma {:induction false} ReuseAdded(oldCh: seq<Option<VNode>>, newCh: seq<Option<VNode>>, st: DiffState,
                                      added: seq<Option<VNode>>, made: int, lo: nat, kids: seq<seq<Handle>>,
                                      kind: seq<NodeKind>)
    requires Cursors(|oldCh|, |newCh|, st) && DiffReuse(oldCh, newCh, st, made) && st.os > st.oe
    requires |added| == st.ne - st.ns + 1 && Built(added, lo, kids, kind) && made <= lo
    ensures AllReuse(oldCh, newCh, st.front + added + st.back, made)
  {
    forall t | 0 <= t < |added|
      ensures Reuses(oldCh, made, newCh[st.ns + t], added[t])
    {
      if added[t].Some? {
        ReuseCreated(oldCh, newCh, st.ns + t, added[t].value, made, lo, |kids|);
      }
    }
    ReuseJoined(oldCh, newCh, st, added, made);
  }

  /** The key index built over the old slots in play: the loop invariant holds with it in place. */
  lemma IndexReady(P: Handle, oldCh: seq<Option<VNode>>, newCh: seq<Option<VNode>>, st: DiffState, m: map<Key, int>,
                   K: seq<seq<Handle>>, D: seq<NodeKind>, kids: seq<seq<Handle>>, kind: seq<NodeKind>, nd: bool)
    requires DiffValues(oldCh, newCh, st) && st.keyIdx.None? && UniqueKeys(oldCh)
    requires DiffSink(P, oldCh, st, K, D, kids, kind, nd) && DiffReuse(oldCh, newCh, st, |K|)
    requires forall k :: k in m ==> st.os <= m[k] <= st.oe && SlotKey(st.cur, m[k]) == Some(k)
    requires forall i :: st.os <= i <= st.oe && SlotKey(st.cur, i).Some? ==>
      SlotKey(st.cur, i).value in m && i <= m[SlotKey(st.cur, i).value]
    ensures DiffValues(oldCh, newCh, st.(keyIdx := Some(m)))
    ensures DiffSink(P, oldCh, st.(keyIdx := Some(m)), K, D, kids, kind, nd)
    ensures DiffReuse(oldCh, newCh, st.(keyIdx := Some(m)), |K|)
  {
    IndexBuilt(oldCh, newCh, st, m);
    ReuseIndexed(oldCh, newCh, st, m, |K|);
    assert Mid(st.(keyIdx := Some(m))) == Mid(st);
  }

  /**
   * The end of the loop when the old range ran out first: the new slots
   * left were created as `added` (sink `k1`/`d1` to `k2`/`d2`), so the
   * loop is done and every result reuses rightly.
   */
  lemma AddedDone(P: Handle, oldCh: seq<Option<VNode>>, newCh: seq<Option<VNode>>, st: DiffState, added: seq<Option<VNode>>,
                  K: seq<seq<Handle>>, D: seq<NodeKind>, k1: seq<seq<Handle>>, d1: seq<NodeKind>,
                  k2: seq<seq<Handle>>, d2: seq<NodeKind>, nd: bool)
    requires DiffValues(oldCh, newCh, st) && st.os > st.oe && st.ns <= st.ne
    requires DiffSink(P, oldCh, st, K, D, k1, d1, nd) && DiffReuse(oldCh, newCh, st, |K|)
    requires SameShapes(added, newCh[st.ns..st.ne + 1]) && SlotsDisjoint(added) && Built(added, |k1|, k2, d2)
    requires Grown(k1, d1, k2, d2, P) && |d2| == |k2|
    requires k2[P] == Elms(st.front) + Elms(added) + Elms(st.back)
    ensures DiffDone(P, oldCh, newCh, st.front + added + st.back, K, D, k2, d2, nd, |st.front|, [])
    ensures AllReuse(oldCh, newCh, st.front + added + st.back, |K|)
  {
    FinishAdd(P, oldCh, newCh, st, added, K, D, k1, d1, k2, d2, nd);
    ReuseAdded(oldCh, newCh, st, added, |K|, |k1|, k2, d2);
  }

  /** The new range ran out: the front and back results are all the results, and all reuse rightly. */
  lemma ReuseNoneLeft(oldCh: seq<Option<VNode>>, newCh: seq<Option<VNode>>, st: DiffState, made: int)
    requires Cursors(|oldCh|, |newCh|, st) && DiffReuse(oldCh, newCh, st, made) && st.ns > st.ne
    ensures AllReuse(oldCh, newCh, st.front + st.back, made)
  {
    ReuseJoined(oldCh, newCh, st, [], made);
    assert st.front + [] + st.back == st.front + st.back;
  }

  /** The front results, the middle `mid` for the new slots `ns..ne`, and the back results: all reuse rightly. */
  lemma {:induction false} ReuseJoined(oldCh: seq<Option<VNode>>, newCh: seq<Option<VNode>>, st: DiffState,
                                       mid: seq<Option<VNode>>, made: int)
    requires Cursors(|oldCh|, |newCh|, st) && DiffReuse(oldCh, newCh, st, made)
    requires |mid| == st.ne - st.ns + 1
    requires forall t :: 0 <= t < |mid| ==> Reuses(oldCh, made, newCh[st.ns + t], mid[t])
    ensures AllReuse(oldCh, newCh, st.front + mid + st.back, made)
  {
    var out := st.front + mid + st.back;
    forall j | 0 <= j < |newCh|
      ensures Reuses(oldCh, made, newCh[j], out[j])
    {
      if j < st.ns {
        assert out[j] == st.front[j];
      } else if j <= st.ne {
        assert out[j] == mid[j - st.ns];
      } else {
        assert out[j] == st.back[j - st.ne - 1];
      }
    }
  }

  /**
   * What handle reuse means for one pair: the new slot `j` that pairs by
   * key with the old slot `i` gets `oldCh[i]`'s handle, and a result
   * holding a handle older than the diff holds that of an old node
   * `sameVnode` with its new node.
   */
  lemma ReuseAt(oldCh: seq<Option<VNode>>, newCh: seq<Option<VNode>>, out: seq<Option<VNode>>, made: int, i: int, j: int)
    requires AllReuse(oldCh, newCh, out, made) && 0 <= i < |oldCh| && 0 <= j < |newCh|
    requires SameShapes(out, newCh)
    ensures KeyedMatch(oldCh[i], newCh[j]) ==> out[j].Some? && out[j].value.elm == oldCh[i].value.elm
    ensures out[j].Some? && out[j].value.elm.Some? && out[j].value.elm.value < made ==>
      exists t :: 0 <= t < |oldCh| && oldCh[t].Some? && SameVnode(oldCh[t].value, newCh[j].value)
                  && out[j].value.elm == oldCh[t].value.elm
  {
    assert Reuses(oldCh, made, newCh[j], out[j]);
  }
}
