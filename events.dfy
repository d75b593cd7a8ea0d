/**
 * The observable calls the engine makes into module and node hooks, in the
 * order it makes them. Hook bodies are not modelled: a call is recorded as
 * an event naming the hook, the module (by its index in the module list)
 * and the virtual node as the engine received it.
 */
module Events {
  import opened Wrappers
  import opened VNodes
  import opened Trees

  datatype Event =
    | PreHook(m: nat)
    | PostHook(m: nat)
    | InitHook(v: VNode)
    | ModuleCreate(m: nat, v: VNode)
    | CreateHook(v: VNode)
    | InsertHook(v: VNode)
    | PrepatchHook(prev: VNode, v: VNode)
    | ModuleUpdate(m: nat, prev: VNode, v: VNode)
    | UpdateHook(prev: VNode, v: VNode)
    | PostpatchHook(prev: VNode, v: VNode)
    | DestroyHook(v: VNode)
    | ModuleDestroy(m: nat, v: VNode)
    | ModuleRemove(m: nat, v: VNode, rm: nat)
    | RemoveHook(v: VNode, rm: nat)

  /** Events that may happen while `patch` does its structural work. */
  predicate InStructure(e: Event) {
    !(e.PreHook? || e.PostHook? || e.InsertHook?)
  }

  predicate Structural(evs: seq<Event>) {
    forall i :: 0 <= i < |evs| ==> InStructure(evs[i])
  }

  // ------------------------------------------------------ one call per module

  function PreEvents(ms: seq<nat>): seq<Event> {
    seq(|ms|, i requires 0 <= i < |ms| => PreHook(ms[i]))
  }

  function PostEvents(ms: seq<nat>): seq<Event> {
    seq(|ms|, i requires 0 <= i < |ms| => PostHook(ms[i]))
  }

  function ModuleCreates(ms: seq<nat>, v: VNode): seq<Event> {
    seq(|ms|, i requires 0 <= i < |ms| => ModuleCreate(ms[i], v))
  }

  function ModuleUpdates(ms: seq<nat>, prev: VNode, v: VNode): seq<Event> {
    seq(|ms|, i requires 0 <= i < |ms| => ModuleUpdate(ms[i], prev, v))
  }

  function ModuleDestroys(ms: seq<nat>, v: VNode): seq<Event> {
    seq(|ms|, i requires 0 <= i < |ms| => ModuleDestroy(ms[i], v))
  }

  function ModuleRemoves(ms: seq<nat>, v: VNode, rm: nat): seq<Event> {
    seq(|ms|, i requires 0 <= i < |ms| => ModuleRemove(ms[i], v, rm))
  }

  /** The `insert` hook calls `patch` makes for its queue, first queued first. */
  function InsertEvents(q: seq<VNode>): seq<Event> {
    seq(|q|, i requires 0 <= i < |q| => InsertHook(q[i]))
  }

  // ----------------------------------------------------------------- creation

  /**
   * The hook calls of `createElm` on a tree: the node's `init` hook; for an
   * element, the module `create` hooks, then its children's calls in order,
   * then its own `create` hook.
   */
  function CreateEvents(ms: seq<nat>, v: VNode): seq<Event>
    decreases v
  {
    (if HasInit(v) then [InitHook(v)] else [])
    + if IsElement(v) then
        ModuleCreates(ms, v)
        + CreateEventsUpTo(ms, v.children, if v.children.Array? then |v.children.items| else 0)
        + (if HasCreate(v) then [CreateHook(v)] else [])
      else []
  }

  function CreateEventsUpTo(ms: seq<nat>, c: ChildList, n: nat): seq<Event>
    requires c.Array? ==> n <= |c.items|
    decreases c, n
  {
    if c.Undefined? || n == 0 then []
    else CreateEventsUpTo(ms, c, n - 1) + (if c.items[n - 1].Some? then CreateEvents(ms, c.items[n - 1].value) else [])
  }

  function CreateEventsSlots(ms: seq<nat>, s: seq<Option<VNode>>): seq<Event> {
    CreateEventsUpTo(ms, Array(s), |s|)
  }

  lemma {:induction false} CreateEventsUpToPrefix(ms: seq<nat>, s: seq<Option<VNode>>, t: seq<Option<VNode>>, n: nat)
    requires n <= |s| && n <= |t| && s[..n] == t[..n]
    ensures CreateEventsUpTo(ms, Array(s), n) == CreateEventsUpTo(ms, Array(t), n)
  {
    if n > 0 {
      assert s[..n - 1] == t[..n - 1];
      assert s[n - 1] == s[..n][n - 1] == t[..n][n - 1] == t[n - 1];
      CreateEventsUpToPrefix(ms, s, t, n - 1);
    }
  }

  lemma CreateEventsSnoc(ms: seq<nat>, s: seq<Option<VNode>>, x: Option<VNode>)
    ensures CreateEventsSlots(ms, s + [x]) == CreateEventsSlots(ms, s) + (if x.Some? then CreateEvents(ms, x.value) else [])
  {
    assert (s + [x])[..|s|] == s[..|s|];
    CreateEventsUpToPrefix(ms, s + [x], s, |s|);
  }

  /** Creation only calls `init`, module `create` and node `create` hooks. */
  lemma {:induction false} CreateEventsKinds(ms: seq<nat>, v: VNode)
    ensures forall e :: e in CreateEvents(ms, v) ==> e.InitHook? || e.ModuleCreate? || e.CreateHook?
    decreases v, 1
  {
    if IsElement(v) && v.children.Array? {
      CreateEventsUpToKinds(ms, v.children, |v.children.items|);
    }
  }

  lemma {:induction false} CreateEventsUpToKinds(ms: seq<nat>, c: ChildList, n: nat)
    requires c.Array? ==> n <= |c.items|
    ensures forall e :: e in CreateEventsUpTo(ms, c, n) ==> e.InitHook? || e.ModuleCreate? || e.CreateHook?
    decreases c, 0, n
  {
    if c.Array? && n > 0 {
      CreateEventsUpToKinds(ms, c, n - 1);
      if c.items[n - 1].Some? {
        CreateEventsKinds(ms, c.items[n - 1].value);
      }
    }
  }

  /** An element's own `create` hook is called after those of all its descendants. */
  lemma CreateHookLast(ms: seq<nat>, v: VNode)
    requires IsElement(v) && HasCreate(v)
    ensures CreateEvents(ms, v)[|CreateEvents(ms, v)| - 1] == CreateHook(v)
  {
  }

  // -------------------------------------------------------------- destruction

  /**
   * The hook calls of `invokeDestroyHook` on a tree: nothing for a node
   * without data; otherwise its own `destroy` hook, the module `destroy`
   * hooks, then its children's calls in order.
   */
  function DestroyEvents(ms: seq<nat>, v: VNode): seq<Event>
    decreases v
  {
    if v.data.None? then []
    else
      (if HasDestroy(v) then [DestroyHook(v)] else [])
      + ModuleDestroys(ms, v)
      + DestroyEventsUpTo(ms, v.children, if v.children.Array? then |v.children.items| else 0)
  }

  function DestroyEventsUpTo(ms: seq<nat>, c: ChildList, n: nat): seq<Event>
    requires c.Array? ==> n <= |c.items|
    decreases c, n
  {
    if c.Undefined? || n == 0 then []
    else DestroyEventsUpTo(ms, c, n - 1) + (if c.items[n - 1].Some? then DestroyEvents(ms, c.items[n - 1].value) else [])
  }

  lemma {:induction false} DestroyEventsUpToPrefix(ms: seq<nat>, s: seq<Option<VNode>>, t: seq<Option<VNode>>, n: nat)
    requires n <= |s| && n <= |t| && s[..n] == t[..n]
    ensures DestroyEventsUpTo(ms, Array(s), n) == DestroyEventsUpTo(ms, Array(t), n)
  {
    if n > 0 {
      assert s[..n - 1] == t[..n - 1];
      assert s[n - 1] == s[..n][n - 1] == t[..n][n - 1] == t[n - 1];
      DestroyEventsUpToPrefix(ms, s, t, n - 1);
    }
  }

  /** Destruction only calls `destroy` hooks, and each concerns a node with data. */
  lemma {:induction false} DestroyEventsKinds(ms: seq<nat>, v: VNode)
    ensures forall e :: e in DestroyEvents(ms, v) ==> (e.DestroyHook? || e.ModuleDestroy?) && e.v.data.Some?
    decreases v, 1
  {
    if v.data.Some? && v.children.Array? {
      DestroyEventsUpToKinds(ms, v.children, |v.children.items|);
    }
  }

  lemma {:induction false} DestroyEventsUpToKinds(ms: seq<nat>, c: ChildList, n: nat)
    requires c.Array? ==> n <= |c.items|
    ensures forall e :: e in DestroyEventsUpTo(ms, c, n) ==> (e.DestroyHook? || e.ModuleDestroy?) && e.v.data.Some?
    decreases c, 0, n
  {
    if c.Array? && n > 0 {
      DestroyEventsUpToKinds(ms, c, n - 1);
      if c.items[n - 1].Some? {
        DestroyEventsKinds(ms, c.items[n - 1].value);
      }
    }
  }

  // ------------------------------------------------------------------ removal

  /**
   * The hook calls `removeVnodes` makes for one slot, whose removal callback
   * (if it gets one) is number `rm`: nothing for a null slot or a text node;
   * otherwise the destroy calls of its tree, the module `remove` hooks and
   * its own `remove` hook.
   */
  function RemoveStep(msD: seq<nat>, msR: seq<nat>, x: Option<VNode>, rm: nat): seq<Event> {
    if x.None? || x.value.sel.None? then []
    else DestroyEvents(msD, x.value) + ModuleRemoves(msR, x.value, rm)
         + (if HasRemove(x.value) then [RemoveHook(x.value, rm)] else [])
  }

  /**
   * The hook calls of `removeVnodes` over the slots `lo` to `hi - 1`,
   * numbering removal callbacks from `rm`: each non-null slot with a
   * selector gets the next number.
   */
  function RemoveEvents(msD: seq<nat>, msR: seq<nat>, s: seq<Option<VNode>>, lo: nat, hi: nat, rm: nat): seq<Event>
    requires lo <= hi <= |s|
    decreases hi - lo
  {
    if lo == hi then []
    else RemoveStep(msD, msR, s[lo], rm)
         + RemoveEvents(msD, msR, s, lo + 1, hi, if s[lo].Some? && s[lo].value.sel.Some? then rm + 1 else rm)
  }

  lemma StructuralConcat(a: seq<Event>, b: seq<Event>)
    requires Structural(a) && Structural(b)
    ensures Structural(a + b)
  {
    assert forall i :: |a| <= i < |a + b| ==> (a + b)[i] == b[i - |a|];
  }

  lemma RemoveStepStructural(msD: seq<nat>, msR: seq<nat>, x: Option<VNode>, rm: nat)
    ensures Structural(RemoveStep(msD, msR, x, rm))
  {
    if x.Some? && x.value.sel.Some? {
      DestroyEventsKinds(msD, x.value);
      var d := DestroyEvents(msD, x.value);
      var r := ModuleRemoves(msR, x.value, rm);
      var o := if HasRemove(x.value) then [RemoveHook(x.value, rm)] else [];
      assert forall i :: 0 <= i < |d| ==> d[i] in d;
      assert Structural(d);
      assert Structural(r);
      assert Structural(o);
      StructuralConcat(d, r);
      StructuralConcat(d + r, o);
    }
  }

  /** Removal calls only `destroy` and `remove` hooks. */
  lemma {:induction false} RemoveEventsStructural(msD: seq<nat>, msR: seq<nat>, s: seq<Option<VNode>>, lo: nat, hi: nat, rm: nat)
    requires lo <= hi <= |s|
    ensures Structural(RemoveEvents(msD, msR, s, lo, hi, rm))
    decreases hi - lo
  {
    if lo < hi {
      var rm' := if s[lo].Some? && s[lo].value.sel.Some? then rm + 1 else rm;
      RemoveStepStructural(msD, msR, s[lo], rm);
      RemoveEventsStructural(msD, msR, s, lo + 1, hi, rm');
      StructuralConcat(RemoveStep(msD, msR, s[lo], rm), RemoveEvents(msD, msR, s, lo + 1, hi, rm'));
    }
  }

  // -------------------------------------------------------- growth of the trace

  /** `t` is `t0` followed by calls that may happen during the structural work. */
  predicate Extends(t0: seq<Event>, t: seq<Event>) {
    |t0| <= |t| && t[..|t0|] == t0 && Structural(t[|t0|..])
  }

  lemma ExtendsRefl(t: seq<Event>)
    ensures Extends(t, t)
  {
    assert t[|t|..] == [];
  }

  lemma ExtendsTrans(a: seq<Event>, b: seq<Event>, c: seq<Event>)
    requires Extends(a, b) && Extends(b, c)
    ensures Extends(a, c)
  {
    assert c[..|a|] == b[..|a|];
    assert c[|a|..] == b[|a|..] + c[|b|..];
    StructuralConcat(b[|a|..], c[|b|..]);
  }

  lemma ExtendsBy(t: seq<Event>, evs: seq<Event>)
    requires Structural(evs)
    ensures Extends(t, t + evs)
  {
    assert (t + evs)[..|t|] == t;
    assert (t + evs)[|t|..] == evs;
  }

  /** Creating a tree extends the trace. */
  lemma ExtendsByCreate(t: seq<Event>, ms: seq<nat>, v: VNode)
    ensures Extends(t, t + CreateEvents(ms, v))
  {
    var e := CreateEvents(ms, v);
    CreateEventsKinds(ms, v);
    assert forall i :: 0 <= i < |e| ==> e[i] in e;
    ExtendsBy(t, e);
  }

  /** Creating a list of trees extends the trace. */
  lemma ExtendsByCreateSlots(t: seq<Event>, ms: seq<nat>, s: seq<Option<VNode>>)
    ensures Extends(t, t + CreateEventsSlots(ms, s))
  {
    var e := CreateEventsSlots(ms, s);
    CreateEventsUpToKinds(ms, Array(s), |s|);
    assert forall i :: 0 <= i < |e| ==> e[i] in e;
    ExtendsBy(t, e);
  }

  /** Removing slots extends the trace. */
  lemma ExtendsByRemove(t: seq<Event>, msD: seq<nat>, msR: seq<nat>, s: seq<Option<VNode>>, lo: nat, hi: nat, rm: nat)
    requires lo <= hi <= |s|
    ensures Extends(t, t + RemoveEvents(msD, msR, s, lo, hi, rm))
  {
    RemoveEventsStructural(msD, msR, s, lo, hi, rm);
    ExtendsBy(t, RemoveEvents(msD, msR, s, lo, hi, rm));
  }

  // ----------------------------------------------------------------- patching

  /**
   * The hook calls `patchVnode(prev, v)` makes before it touches the sink:
   * `v`'s `prepatch` hook; then, unless `v` is `prev` itself, and when `v`
   * has data, the module `update` hooks and `v`'s `update` hook, which see
   * `v` holding `prev`'s handle.
   */
  function PatchOpen(msU: seq<nat>, prev: VNode, v: VNode): seq<Event> {
    (if HasPrepatch(v) then [PrepatchHook(prev, v)] else [])
    + (if prev == v || v.data.None? then []
       else ModuleUpdates(msU, prev, v.(elm := prev.elm))
            + (if HasUpdate(v) then [UpdateHook(prev, v.(elm := prev.elm))] else []))
  }

  /** The hook call `patchVnode(prev, v)` makes last, with the patched node `res`: `v`'s `postpatch` hook, unless `v` is `prev`. */
  function PatchClose(prev: VNode, v: VNode, res: VNode): seq<Event> {
    if prev != v && HasPostpatch(v) then [PostpatchHook(prev, res)] else []
  }

  /** `t` is `t0`, then `open`, then calls that may happen during the structural work, then `close`. */
  predicate Patching(t0: seq<Event>, t: seq<Event>, open: seq<Event>, close: seq<Event>) {
    |t0| + |open| + |close| <= |t| && t[..|t0|] == t0 && t[|t0|..|t0| + |open|] == open
    && t[|t| - |close|..] == close && Structural(t[|t0| + |open|..|t| - |close|])
  }

  /** The trace `t1`, `t0` with `open` added, extended to `t2` by structural work and then by `close`. */
  lemma PatchingBy(t0: seq<Event>, open: seq<Event>, t1: seq<Event>, t2: seq<Event>, close: seq<Event>)
    requires t1 == t0 + open && Extends(t1, t2)
    ensures Patching(t0, t2 + close, open, close)
  {
    var mid := t2[|t1|..];
    assert t2 == t1 + mid;
    var t := t2 + close;
    assert t[..|t0|] == t0;
    assert t[|t0|..|t0| + |open|] == open;
    assert t[|t| - |close|..] == close;
    assert t[|t0| + |open|..|t| - |close|] == mid;
  }

  /** The calls of `patchVnode` are all structural. */
  lemma PatchEventsStructural(msU: seq<nat>, prev: VNode, v: VNode, res: VNode)
    ensures Structural(PatchOpen(msU, prev, v)) && Structural(PatchClose(prev, v, res))
  {
    var a := if HasPrepatch(v) then [PrepatchHook(prev, v)] else [];
    var w := v.(elm := prev.elm);
    var b := ModuleUpdates(msU, prev, w);
    var c := if HasUpdate(v) then [UpdateHook(prev, w)] else [];
    assert Structural(a) && Structural(b) && Structural(c);
    StructuralConcat(b, c);
    if prev == v || v.data.None? {
      assert PatchOpen(msU, prev, v) == a + [];
    } else {
      StructuralConcat(a, b + c);
    }
  }

  /** A patch extends the trace. */
  lemma PatchingExtends(msU: seq<nat>, prev: VNode, v: VNode, res: VNode, t0: seq<Event>, t: seq<Event>)
    requires Patching(t0, t, PatchOpen(msU, prev, v), PatchClose(prev, v, res))
    ensures Extends(t0, t)
  {
    var open, close := PatchOpen(msU, prev, v), PatchClose(prev, v, res);
    PatchEventsStructural(msU, prev, v, res);
    var mid := t[|t0| + |open|..|t| - |close|];
    assert t[|t0|..] == open + mid + close;
    StructuralConcat(open, mid);
    StructuralConcat(open + mid, close);
  }
}
