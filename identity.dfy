/**
 * The identity test of the diff and the root test of `patch`
 * (`sameVnode` and `isVnode`, src/snabbdom.ts:20-27).
 */
module Identity {
  import opened Wrappers
  import opened VNodes

  /** `sameVnode`: the diff pairs two nodes when their keys and selectors agree. */
  predicate SameVnode(a: VNode, b: VNode) {
    a.key == b.key && a.sel == b.sel
  }

  /** Only the key and the selector take part: data, children, text and handle do not. */
  lemma SameVnodeIgnoresOtherFields(a: VNode, b: VNode, a2: VNode, b2: VNode)
    requires a2.key == a.key && a2.sel == a.sel
    requires b2.key == b.key && b2.sel == b.sel
    ensures SameVnode(a, b) <==> SameVnode(a2, b2)
  {
  }

  /** The pairing is an equivalence: reflexive, symmetric and transitive. */
  lemma SameVnodeIsEquivalence(a: VNode, b: VNode, c: VNode)
    ensures SameVnode(a, a)
    ensures SameVnode(a, b) ==> SameVnode(b, a)
    ensures SameVnode(a, b) && SameVnode(b, c) ==> SameVnode(a, c)
  {
  }

  /**
   * What `patch` may receive as its old root: a virtual node, or a sink
   * element of which the model knows the handle and the selector that
   * `emptyNodeAt` would read back from it.
   */
  datatype Root = VRoot(v: VNode) | ElmRoot(elm: Handle, sel: string)

  /** `isVnode`: a root counts as a virtual node when it has a defined `sel`. */
  predicate IsVnode(r: Root) {
    r.VRoot? && r.v.sel.Some?
  }

  /** A sink element is never taken for a virtual node; neither is a text node. */
  lemma IsVnodeCases(r: Root)
    ensures r.ElmRoot? ==> !IsVnode(r)
    ensures r.VRoot? ==> (IsVnode(r) <==> r.v.sel.Some?)
  {
  }
}
