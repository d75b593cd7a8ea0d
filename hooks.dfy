/** Assembly of the module hook lists done by `init` (src/snabbdom.ts:50, 66-93). */
module ModuleHooks {

  /** The six module hook phases, in the order `init` visits them. */
  datatype Phase = Create | Update | Remove | Destroy | Pre | Post

  const Phases: seq<Phase> := [Create, Update, Remove, Destroy, Pre, Post]

  /** Which hooks a module object defines (a module may define any subset). */
  datatype Module = Module(create: bool, update: bool, remove: bool, destroy: bool, pre: bool, post: bool)

  predicate Defines(m: Module, ph: Phase) {
    match ph
    case Create => m.create
    case Update => m.update
    case Remove => m.remove
    case Destroy => m.destroy
    case Pre => m.pre
    case Post => m.post
  }

  /** Strictly increasing, hence free of repetitions. */
  predicate Increasing(s: seq<nat>) {
    forall a, b :: 0 <= a < b < |s| ==> s[a] < s[b]
  }

  /**
   * The positions of the modules that define `ph`, in module order: the
   * list `cbs[ph]` holds these modules' hooks.
   */
  function Defining(modules: seq<Module>, ph: Phase): (r: seq<nat>)
    ensures forall x :: x in r ==> x < |modules| && Defines(modules[x], ph)
    ensures forall j :: 0 <= j < |modules| && Defines(modules[j], ph) ==> j in r
    ensures Increasing(r)
  {
    if modules == [] then []
    else
      var n := |modules| - 1;
      var p := Defining(modules[..n], ph);
      assert forall a :: 0 <= a < |p| ==> p[a] in p && p[a] < n;
      p + (if Defines(modules[n], ph) then [n] else [])
  }

  /** `init`'s nested loops: one list per phase, each filled by scanning the modules in order. */
  method InitHooks(modules: seq<Module>) returns (cbs: map<Phase, seq<nat>>)
    ensures forall ph: Phase :: ph in cbs && cbs[ph] == Defining(modules, ph)
  {
    cbs := map[];
    var i := 0;
    while i < |Phases|
      invariant 0 <= i <= |Phases|
      invariant forall k :: 0 <= k < i ==> Phases[k] in cbs && cbs[Phases[k]] == Defining(modules, Phases[k])
    {
      var ph := Phases[i];
      var list: seq<nat> := [];
      var j := 0;
      while j < |modules|
        invariant 0 <= j <= |modules|
        invariant list == Defining(modules[..j], ph)
      {
        assert modules[..j + 1][..j] == modules[..j];
        if Defines(modules[j], ph) {
          list := list + [j];
        }
        j := j + 1;
      }
      assert modules[..j] == modules;
      cbs := cbs[ph := list];
      i := i + 1;
    }
    forall ph: Phase ensures ph in cbs && cbs[ph] == Defining(modules, ph) {
      assert ph == Phases[PhaseIndex(ph)];
    }
  }

  function PhaseIndex(ph: Phase): (i: nat)
    ensures i < |Phases| && Phases[i] == ph
  {
    match ph
    case Create => 0
    case Update => 1
    case Remove => 2
    case Destroy => 3
    case Pre => 4
    case Post => 5
  }

  /** The first element of an increasing list is its least, and the rest holds every other element. */
  lemma IncreasingHead(s: seq<nat>)
    requires Increasing(s) && s != []
    ensures forall x :: x in s ==> s[0] <= x
    ensures forall x :: x in s[1..] <==> x in s && x != s[0]
  {
    assert s == [s[0]] + s[1..];
    forall x | x in s[1..] ensures x != s[0] {
      var k :| 0 <= k < |s[1..]| && s[1..][k] == x;
      assert s[k + 1] == x;
    }
  }

  /** The list of a phase is determined by the modules: same members, same order. */
  lemma {:induction false} IncreasingUnique(a: seq<nat>, b: seq<nat>)
    requires Increasing(a) && Increasing(b)
    requires forall x :: x in a <==> x in b
    ensures a == b
    decreases |a|
  {
    assert a != [] ==> a[0] in b;
    assert b != [] ==> b[0] in a;
    if a != [] && b != [] {
      IncreasingHead(a);
      IncreasingHead(b);
      assert a[0] == b[0];
      IncreasingUnique(a[1..], b[1..]);
      assert a == [a[0]] + a[1..] && b == [b[0]] + b[1..];
    }
  }
}
