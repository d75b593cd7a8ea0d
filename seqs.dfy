/** Helpers on sequences of handles, used to describe the child lists of the sink. */
module Seqs {
  import opened Wrappers

  /** No element occurs twice. */
  predicate NoDup(s: seq<nat>) {
    forall i, j :: 0 <= i < j < |s| ==> s[i] != s[j]
  }

  /** Position of the first occurrence of `x`. */
  function IndexOf(s: seq<nat>, x: nat): (i: nat)
    requires x in s
    ensures i < |s| && s[i] == x
    ensures forall j :: 0 <= j < i ==> s[j] != x
  {
    if s[0] == x then 0 else 1 + IndexOf(s[1..], x)
  }

  /** `s` with every element of `d` filtered out, order kept. */
  function Without(s: seq<nat>, d: set<nat>): (r: seq<nat>)
    ensures forall y :: y in r <==> y in s && y !in d
    ensures |r| <= |s|
  {
    if s == [] then [] else (if s[0] in d then [] else [s[0]]) + Without(s[1..], d)
  }

  /** `x` placed right before `ref` when `ref` occurs in `s`, otherwise appended. */
  function InsertAt(s: seq<nat>, x: nat, ref: Option<nat>): (r: seq<nat>)
    ensures forall y :: y in r <==> y in s || y == x
    ensures |r| == |s| + 1
  {
    if ref.Some? && ref.value in s then
      var k := IndexOf(s, ref.value);
      assert s == s[..k] + s[k..];
      s[..k] + [x] + s[k..]
    else s + [x]
  }

  /** The element right after `x`, if `x` occurs and is not last. */
  function NextOf(s: seq<nat>, x: nat): Option<nat>
  {
    if x in s && IndexOf(s, x) + 1 < |s| then Some(s[IndexOf(s, x) + 1]) else None
  }

  lemma NoDupIndexOf(s: seq<nat>, i: int)
    requires NoDup(s) && 0 <= i < |s|
    ensures IndexOf(s, s[i]) == i
  {
  }

  lemma NoDupConcat(a: seq<nat>, b: seq<nat>)
    ensures NoDup(a + b) <==> NoDup(a) && NoDup(b) && (forall x :: x in a ==> x !in b)
  {
    var s := a + b;
    assert forall i :: 0 <= i < |a| ==> s[i] == a[i];
    assert forall j :: 0 <= j < |b| ==> s[|a| + j] == b[j];
    if NoDup(a) && NoDup(b) && (forall x :: x in a ==> x !in b) {
      forall i, j | 0 <= i < j < |s| ensures s[i] != s[j] {
        if i < |a| && |a| <= j {
          assert s[i] in a && s[j] == b[j - |a|];
        } else if |a| <= i {
          assert s[i] == b[i - |a|] && s[j] == b[j - |a|];
        }
      }
    }
  }

  lemma {:induction false} WithoutAppend(a: seq<nat>, b: seq<nat>, d: set<nat>)
    ensures Without(a + b, d) == Without(a, d) + Without(b, d)
  {
    if a == [] {
      assert a + b == b;
    } else {
      assert (a + b)[1..] == a[1..] + b;
      WithoutAppend(a[1..], b, d);
    }
  }

  lemma {:induction false} WithoutDisjoint(s: seq<nat>, d: set<nat>)
    requires forall x :: x in s ==> x !in d
    ensures Without(s, d) == s
  {
    if s != [] {
      WithoutDisjoint(s[1..], d);
    }
  }

  /** Dropping handles that only the middle run holds. */
  lemma DropMiddle(f: seq<nat>, m: seq<nat>, b: seq<nat>, d: set<nat>)
    requires forall x :: x in d ==> x !in f && x !in b
    ensures Without(f + m + b, d) == f + Without(m, d) + b
  {
    WithoutAppend(f + m, b, d);
    WithoutAppend(f, m, d);
    WithoutDisjoint(f, d);
    WithoutDisjoint(b, d);
  }

  lemma {:induction false} WithoutNoDup(s: seq<nat>, d: set<nat>)
    requires NoDup(s)
    ensures NoDup(Without(s, d))
  {
    if s != [] {
      WithoutNoDup(s[1..], d);
      NoDupConcat(if s[0] in d then [] else [s[0]], Without(s[1..], d));
      assert s[0] !in s[1..];
    }
  }

  lemma InsertAtNoDup(s: seq<nat>, x: nat, ref: Option<nat>)
    requires NoDup(s) && x !in s
    ensures NoDup(InsertAt(s, x, ref))
  {
    if ref.Some? && ref.value in s {
      var k := IndexOf(s, ref.value);
      assert s == s[..k] + s[k..];
      NoDupConcat(s[..k], s[k..]);
      NoDupConcat([x], s[k..]);
      NoDupConcat(s[..k], [x] + s[k..]);
      assert s[..k] + [x] + s[k..] == s[..k] + ([x] + s[k..]);
    } else {
      NoDupConcat(s, [x]);
    }
  }

  /** Inserting before an element whose position is known. */
  lemma InsertAtMiddle(a: seq<nat>, r: nat, b: seq<nat>, x: nat)
    requires r !in a
    ensures InsertAt(a + [r] + b, x, Some(r)) == a + [x, r] + b
  {
    var s := a + [r] + b;
    assert s[|a|] == r;
    var k := IndexOf(s, r);
    assert k == |a|;
    assert s[..k] == a;
    assert s[k..] == [r] + b;
  }

  lemma InsertAtEnd(s: seq<nat>, x: nat)
    ensures InsertAt(s, x, None) == s + [x]
  {
  }

  lemma NextOfMiddle(a: seq<nat>, x: nat, b: seq<nat>)
    requires NoDup(a + [x] + b)
    ensures NextOf(a + [x] + b, x) == if b == [] then None else Some(b[0])
  {
    var s := a + [x] + b;
    assert s[|a|] == x;
    NoDupIndexOf(s, |a|);
  }

  /** Filtering twice is filtering once by the union. */
  lemma {:induction false} WithoutTwice(s: seq<nat>, d: set<nat>, x: nat)
    ensures Without(Without(s, d), {x}) == Without(s, d + {x})
  {
    if s != [] {
      WithoutTwice(s[1..], d, x);
      WithoutAppend(if s[0] in d then [] else [s[0]], Without(s[1..], d), {x});
    }
  }

  lemma {:induction false} WithoutNothing(s: seq<nat>)
    ensures Without(s, {}) == s
  {
    WithoutDisjoint(s, {});
  }

  /** Moving a step from the part still to come to the part done. */
  lemma Regroup<T>(total: seq<T>, t0: seq<T>, t1: seq<T>, rest: seq<T>, step: seq<T>, rest': seq<T>)
    requires t0 + rest == total && rest == step + rest' && t1 == t0 + step
    ensures t1 + rest' == total
  {
  }

  lemma Assoc4<T>(a: seq<T>, b: seq<T>, c: seq<T>, d: seq<T>)
    ensures a + b + c + d == a + (b + c + d)
  {
  }

  lemma Assoc3<T>(a: seq<T>, b: seq<T>, c: seq<T>)
    ensures a + b + c == a + (b + c)
  {
  }

  /** Filtering out an element that occurs once. */
  lemma WithoutOne(a: seq<nat>, c: nat, b: seq<nat>)
    requires NoDup(a + [c] + b)
    ensures Without(a + [c] + b, {c}) == a + b
  {
    assert c !in a && c !in b by {
      NoDupConcat(a + [c], b);
      NoDupConcat(a, [c]);
      assert c in a + [c];
    }
    WithoutDisjoint(a, {c});
    WithoutDisjoint(b, {c});
    assert Without([c], {c}) == [];
    WithoutAppend(a, [c], {c});
    assert Without(a + [c], {c}) == a;
    WithoutAppend(a + [c], b, {c});
  }

  /** Moving `c` to the end: `insertBefore(p, c, nextSibling(last))` when the last node has no next sibling. */
  lemma MoveToEnd(f: seq<nat>, c: nat, m: seq<nat>)
    requires NoDup(f + [c] + m)
    ensures InsertAt(Without(f + [c] + m, {c}), c, None) == f + m + [c]
  {
    WithoutOne(f, c, m);
    InsertAtEnd(f + m, c);
  }

  /** Moving `c` past `m`, right before the first element of `b`, which follows `m`. */
  lemma MoveAfter(f: seq<nat>, c: nat, m: seq<nat>, b: seq<nat>)
    requires b != [] && NoDup(f + [c] + m + b)
    ensures InsertAt(Without(f + [c] + m + b, {c}), c, Some(b[0])) == f + m + ([c] + b)
  {
    assert f + [c] + m + b == f + [c] + (m + b);
    WithoutOne(f, c, m + b);
    assert f + (m + b) == (f + m) + b;
    FirstOfTailFresh(f, c, m, b);
    InsertBeforeHead(f + m, b, c);
  }

  /** Inserting right before the head of `b`, which `a` does not hold. */
  lemma InsertBeforeHead(a: seq<nat>, b: seq<nat>, x: nat)
    requires b != [] && b[0] !in a
    ensures InsertAt(a + b, x, Some(b[0])) == a + ([x] + b)
  {
    assert a + b == a + [b[0]] + b[1..];
    InsertAtMiddle(a, b[0], b[1..], x);
    assert a + [x, b[0]] + b[1..] == a + ([x] + b);
  }

  /** With no repeats, the first element of the tail `b` is not in `f + m`. */
  lemma FirstOfTailFresh(f: seq<nat>, c: nat, m: seq<nat>, b: seq<nat>)
    requires b != [] && NoDup(f + [c] + m + b)
    ensures b[0] !in f + m
  {
    NoDupConcat(f + [c] + m, b);
    assert b[0] in b;
    forall x | x in f + m
      ensures x in f + [c] + m
    {
    }
  }

  /** Moving `c` from after `s` to right before it. */
  lemma MoveBefore(f: seq<nat>, s: nat, m: seq<nat>, c: nat, r: seq<nat>)
    requires NoDup(f + [s] + m + [c] + r)
    ensures InsertAt(Without(f + [s] + m + [c] + r, {c}), c, Some(s)) == f + [c, s] + m + r
  {
    WithoutOne(f + [s] + m, c, r);
    assert f + [s] + m + [c] + r == f + ([s] + (m + [c] + r));
    NoDupConcat(f, [s] + (m + [c] + r));
    assert s in [s] + (m + [c] + r);
    assert f + [s] + m + r == f + [s] + (m + r);
    InsertAtMiddle(f, s, m + r, c);
  }

  /** Inserting a node that is not in the list right before `s`. */
  lemma InsertFresh(f: seq<nat>, s: nat, r: seq<nat>, c: nat)
    requires NoDup(f + [s] + r) && c !in f + [s] + r
    ensures InsertAt(Without(f + [s] + r, {c}), c, Some(s)) == f + [c, s] + r
  {
    WithoutDisjoint(f + [s] + r, {c});
    assert f + [s] + r == f + ([s] + r);
    NoDupConcat(f, [s] + r);
    InsertAtMiddle(f, s, r, c);
  }

  /** `c` moves from the front of a run to right after its last element `e`. */
  lemma MoveRight(f: seq<nat>, c: nat, m: seq<nat>, e: nat, b: seq<nat>)
    requires NoDup(f + [c] + m + [e] + b)
    ensures InsertAt(Without(f + [c] + m + [e] + b, {c}), c, NextOf(f + [c] + m + [e] + b, e)) == f + (m + [e]) + ([c] + b)
  {
    var k, fcm, me := f + [c] + m + [e] + b, f + [c] + m, m + [e];
    assert k == fcm + [e] + b;
    NextOfMiddle(fcm, e, b);
    assert k == f + [c] + me + b;
    if b == [] {
      MoveRightEnd(f, c, me, k);
    } else {
      MoveAfter(f, c, me, b);
    }
  }

  lemma MoveRightEnd(f: seq<nat>, c: nat, me: seq<nat>, k: seq<nat>)
    requires k == f + [c] + me + [] && NoDup(k)
    ensures InsertAt(Without(k, {c}), c, None) == f + me + ([c] + [])
  {
    assert k == f + [c] + me;
    MoveToEnd(f, c, me);
  }

  /** `MoveRight` with the run given in parts. */
  lemma MoveRightParts(f: seq<nat>, x: seq<nat>, y: seq<nat>, m: seq<nat>, b: seq<nat>, c: nat, e: nat,
                       k1: seq<nat>, k2: seq<nat>)
    requires x == [c] + y && y == m + [e] && k1 == f + x + b && NoDup(k1)
    requires k2 == InsertAt(Without(k1, {c}), c, NextOf(k1, e))
    ensures k2 == f + y + ([c] + b)
  {
    Concat5(f, [c], m, [e], b, x, y, k1);
    MoveRight(f, c, m, e, b);
  }

  /** `MoveBefore` with the run given in parts. */
  lemma MoveLeftParts(f: seq<nat>, x: seq<nat>, y: seq<nat>, m: seq<nat>, b: seq<nat>, s: nat, c: nat,
                      k1: seq<nat>, k2: seq<nat>)
    requires x == y + [c] && y == [s] + m && k1 == f + x + b && NoDup(k1)
    requires k2 == InsertAt(Without(k1, {c}), c, Some(s))
    ensures k2 == (f + [c]) + y + b
  {
    Concat5'(f, [s], m, [c], b, x, y, k1);
    MoveBefore(f, s, m, c, b);
    PairFront(f, c, s, m, y, b);
  }

  lemma Concat5<T>(a: seq<T>, b: seq<T>, c: seq<T>, d: seq<T>, e: seq<T>, x: seq<T>, y: seq<T>, k: seq<T>)
    requires x == b + y && y == c + d && k == a + x + e
    ensures k == a + b + c + d + e
  {
  }

  lemma Concat5'<T>(a: seq<T>, b: seq<T>, c: seq<T>, d: seq<T>, e: seq<T>, x: seq<T>, y: seq<T>, k: seq<T>)
    requires x == y + d && y == b + c && k == a + x + e
    ensures k == a + b + c + d + e
  {
  }

  lemma PairFront<T>(f: seq<T>, c: T, s: T, m: seq<T>, y: seq<T>, b: seq<T>)
    requires y == [s] + m
    ensures f + [c, s] + m + b == (f + [c]) + y + b
  {
  }

  /** `InsertFresh` with the run given in parts. */
  lemma InsertFreshParts(f: seq<nat>, x: seq<nat>, y: seq<nat>, b: seq<nat>, s: nat, c: nat, k1: seq<nat>, k2: seq<nat>)
    requires x == [s] + y && k1 == f + x + b && NoDup(k1) && c !in k1
    requires k2 == InsertAt(Without(k1, {c}), c, Some(s))
    ensures k2 == (f + [c]) + x + b
  {
    Concat4(f, [s], y, b, x, k1);
    InsertFresh(f, s, y + b, c);
    PairFront(f, c, s, y, x, b);
  }

  /**
   * Inserting a fresh `c` before the first element of `post` (or last, when
   * `post` is empty and there is no reference) puts it between `a` and `post`.
   */
  lemma InsertBeforeTail(a: seq<nat>, post: seq<nat>, c: nat, ref: Option<nat>, k2: seq<nat>)
    requires NoDup(a + post) && c !in a + post
    requires ref.None? ==> post == []
    requires ref.Some? ==> post != [] && post[0] == ref.value
    requires k2 == InsertAt(a + post, c, ref)
    ensures k2 == a + [c] + post
  {
    if ref.None? {
      assert a + post == a;
      InsertAtEnd(a, c);
    } else {
      NoDupConcat(a, post);
      assert a + post == a + [post[0]] + post[1..];
      InsertAtMiddle(a, post[0], post[1..], c);
    }
  }

  /** The element after `e`, the last of the run `[c] + m + [e]`, is not `c`. */
  lemma NextOfRun(f: seq<nat>, x: seq<nat>, y: seq<nat>, m: seq<nat>, b: seq<nat>, c: nat, e: nat, k1: seq<nat>)
    requires x == [c] + y && y == m + [e] && k1 == f + x + b && NoDup(k1)
    ensures NextOf(k1, e) != Some(c)
  {
    Concat5(f, [c], m, [e], b, x, y, k1);
    assert k1 == (f + [c] + m) + [e] + b;
    NextOfMiddle(f + [c] + m, e, b);
    NoDupConcat(f + [c] + m + [e], b);
    assert c in f + [c] + m + [e];
  }

  /** Filtering out every element leaves nothing. */
  lemma WithoutAll(s: seq<nat>, d: set<nat>)
    requires forall x :: x in s ==> x in d
    ensures Without(s, d) == []
  {
  }

  /** Moving `c` from inside the run `p1 + [c] + m2` to right before its first element `s`. */
  lemma MoveFromMiddleParts(f: seq<nat>, p1: seq<nat>, m1: seq<nat>, m2: seq<nat>, b: seq<nat>, s: nat, c: nat,
                            k1: seq<nat>, k2: seq<nat>)
    requires p1 == [s] + m1 && k1 == f + (p1 + ([c] + m2)) + b && NoDup(k1)
    requires k2 == InsertAt(Without(k1, {c}), c, Some(s))
    ensures k2 == (f + [c]) + (p1 + m2) + b
  {
    Concat6(f, [s], m1, [c], m2, b, p1, k1);
    MoveBefore(f, s, m1, c, m2 + b);
    Concat6'(f, c, s, m1, m2, b, p1);
  }

  lemma Concat4<T>(a: seq<T>, b: seq<T>, c: seq<T>, d: seq<T>, x: seq<T>, k: seq<T>)
    requires x == b + c && k == a + x + d
    ensures k == a + b + (c + d)
  {
  }

  lemma Concat4'<T>(a: seq<T>, b: seq<T>, c: seq<T>, d: seq<T>, x: seq<T>, k: seq<T>)
    requires x == b + c && k == a + x + d
    ensures k == a + b + c + d
  {
  }

  lemma Concat6<T>(a: seq<T>, b: seq<T>, c: seq<T>, d: seq<T>, e: seq<T>, g: seq<T>, p: seq<T>, k: seq<T>)
    requires p == b + c && k == a + (p + (d + e)) + g
    ensures k == a + b + c + d + (e + g)
  {
  }

  lemma Concat6'<T>(f: seq<T>, c: T, s: T, m1: seq<T>, m2: seq<T>, b: seq<T>, p1: seq<T>)
    requires p1 == [s] + m1
    ensures f + [c, s] + m1 + (m2 + b) == (f + [c]) + (p1 + m2) + b
  {
  }

  lemma Gap<T>(a: seq<T>, b: seq<T>, c: seq<T>)
    ensures a + b + c == a + [] + (b + c)
  {
  }

  lemma Split2<T>(a: seq<T>, b: seq<T>)
    ensures (a + b)[..|a|] == a && (a + b)[|a|..] == b
  {
  }

  lemma Split3<T>(a: seq<T>, b: seq<T>, c: seq<T>)
    ensures (a + b + c)[..|a|] == a && (a + b + c)[|a|..] == b + c
  {
  }

  /** The siblings before and after `o` in a list without duplicates. */
  lemma SplitAround(s: seq<nat>, o: nat) returns (a: seq<nat>, b: seq<nat>)
    requires NoDup(s) && o in s
    ensures s == a + [o] + b && o !in a && o !in b && IndexOf(s, o) == |a|
    ensures a == s[..IndexOf(s, o)] && b == s[IndexOf(s, o) + 1..]
  {
    var i := IndexOf(s, o);
    a, b := s[..i], s[i + 1..];
    assert s == a + [o] + b;
    NoDupConcat(a, [o] + b);
    NoDupConcat([o], b);
  }

  /** `insertBefore(p, e, nextSibling(o))` puts `e` right after `o`. */
  /** `PlacedAfter` for a node `e` not yet in the list, as `insertBefore(parent, e, nextSibling(o))` sees it. */
  lemma PlacedAfterFresh(a: seq<nat>, o: nat, b: seq<nat>, e: nat, next: Option<nat>)
    requires NoDup(a + [o] + b) && e !in a + [o] + b && next == NextOf(a + [o] + b, o)
    ensures next.Some? ==> next.value in a + [o] + b && next.value != e
    ensures InsertAt(Without(a + [o] + b, {e}), e, next) == a + [o] + ([e] + b)
  {
    PlacedAfter(a, o, b, e);
    WithoutDisjoint(a + [o] + b, {e});
  }

  lemma PlacedAfter(a: seq<nat>, o: nat, b: seq<nat>, e: nat)
    requires NoDup(a + [o] + b)
    ensures InsertAt(a + [o] + b, e, NextOf(a + [o] + b, o)) == a + [o] + ([e] + b)
  {
    NextOfMiddle(a, o, b);
    if b == [] {
      InsertAtEnd(a + [o] + b, e);
    } else {
      NoDupConcat(a + [o], b);
      assert o in a + [o] && b[0] in b;
      assert a + [o] + b == (a + [o]) + [b[0]] + b[1..];
      InsertAtMiddle(a + [o], b[0], b[1..], e);
    }
  }
}
