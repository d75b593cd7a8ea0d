/**
 * Selector parsing done by `createElm` (src/snabbdom.ts:134-145): a selector
 * `tag#id.c1.c2` is split into the tag name, the `id` attribute and the
 * `class` attribute.
 */
module Selector {
  import opened Wrappers

  /** What `createElm` extracts from a selector. */
  datatype Parsed = Parsed(tag: string, id: Option<string>, classes: Option<string>)

  /** JavaScript's `s.indexOf(c, from)`: -1 when absent; a negative `from` counts as 0. */
  function IndexFrom(s: string, c: char, from: int): (r: int)
    ensures r == -1 || (0 <= r < |s| && from <= r && s[r] == c)
    ensures r != -1 ==> forall i :: (if from < 0 then 0 else from) <= i < r ==> s[i] != c
    ensures r == -1 ==> forall i :: (if from < 0 then 0 else from) <= i < |s| ==> s[i] != c
    decreases |s| - from
  {
    if from < 0 then IndexFrom(s, c, 0)
    else if from >= |s| then -1
    else if s[from] == c then from
    else IndexFrom(s, c, from + 1)
  }

  /** `s.replace(/\./g, ' ')`. */
  function ReplaceDots(s: string): (r: string)
    ensures |r| == |s|
    ensures forall i :: 0 <= i < |s| ==> r[i] == if s[i] == '.' then ' ' else s[i]
    ensures '.' !in r
  {
    if s == [] then [] else [if s[0] == '.' then ' ' else s[0]] + ReplaceDots(s[1..])
  }

  function Min(a: int, b: int): int { if a < b then a else b }

  /** The selector split exactly as `createElm` splits it. */
  function ParseSelector(sel: string): (p: Parsed)
    ensures '#' !in sel && '.' !in sel ==> p == Parsed(sel, None, None)
    ensures |p.tag| <= |sel| && p.tag == sel[..|p.tag|]
    ensures p.classes.Some? ==> '.' !in p.classes.value
  {
    var hashIdx := IndexFrom(sel, '#', 0);
    var dotIdx := IndexFrom(sel, '.', hashIdx);
    var hash := if hashIdx > 0 then hashIdx else |sel|;
    var dot := if dotIdx > 0 then dotIdx else |sel|;
    var tag := if hashIdx != -1 || dotIdx != -1 then sel[..Min(hash, dot)] else sel;
    Parsed(tag,
           if hash < dot then Some(sel[hash + 1..dot]) else None,
           if dotIdx > 0 then Some(ReplaceDots(sel[dot + 1..])) else None)
  }

  /** `"." + c` for every class, in order. */
  function JoinDots(classes: seq<string>): string {
    if classes == [] then "" else "." + classes[0] + JoinDots(classes[1..])
  }

  /** The classes separated by single spaces, as the `class` attribute holds them. */
  function JoinSpaces(classes: seq<string>): string
    requires classes != []
  {
    if |classes| == 1 then classes[0] else classes[0] + " " + JoinSpaces(classes[1..])
  }

  /** The selector that names a tag, an optional id and a list of classes. */
  function Render(tag: string, id: Option<string>, classes: seq<string>): string {
    tag + (if id.Some? then "#" + id.value else "") + JoinDots(classes)
  }

  lemma {:induction false} JoinDotsReplaced(classes: seq<string>)
    requires classes != []
    requires forall i :: 0 <= i < |classes| ==> '.' !in classes[i]
    ensures ReplaceDots(JoinDots(classes)[1..]) == JoinSpaces(classes)
  {
    var c := classes[0];
    var rest := JoinDots(classes[1..]);
    assert JoinDots(classes)[1..] == c + rest;
    ReplaceDotsAppend(c, rest);
    ReplaceDotsNoDot(c);
    if |classes| > 1 {
      JoinDotsReplaced(classes[1..]);
      assert rest == "." + rest[1..];
      ReplaceDotsAppend(".", rest[1..]);
    }
  }

  lemma {:induction false} ReplaceDotsAppend(a: string, b: string)
    ensures ReplaceDots(a + b) == ReplaceDots(a) + ReplaceDots(b)
  {
    if a == [] {
      assert a + b == b;
    } else {
      assert (a + b)[1..] == a[1..] + b;
      ReplaceDotsAppend(a[1..], b);
    }
  }

  lemma {:induction false} ReplaceDotsNoDot(s: string)
    requires '.' !in s
    ensures ReplaceDots(s) == s
  {
    if s != [] {
      ReplaceDotsNoDot(s[1..]);
    }
  }

  lemma {:induction false} JoinDotsShape(classes: seq<string>)
    requires forall i :: 0 <= i < |classes| ==> '.' !in classes[i]
    ensures classes != [] ==> |JoinDots(classes)| > 0 && JoinDots(classes)[0] == '.'
    ensures classes == [] ==> JoinDots(classes) == ""
  {
  }

  lemma {:induction false} JoinDotsNoHash(classes: seq<string>)
    requires forall i :: 0 <= i < |classes| ==> '#' !in classes[i]
    ensures '#' !in JoinDots(classes)
  {
    if classes != [] {
      JoinDotsNoHash(classes[1..]);
    }
  }

  /** `indexOf` finds the first occurrence at or after `from`. */
  lemma {:induction false} IndexFromAt(s: string, c: char, from: int, k: int)
    requires 0 <= from <= k < |s| && s[k] == c
    requires forall i :: from <= i < k ==> s[i] != c
    ensures IndexFrom(s, c, from) == k
    decreases k - from
  {
    if from < k {
      IndexFromAt(s, c, from + 1, k);
    }
  }

  /** `indexOf` answers -1 when nothing at or after `from` matches. */
  lemma {:induction false} IndexFromAbsent(s: string, c: char, from: int)
    requires 0 <= from
    requires forall i :: from <= i < |s| ==> s[i] != c
    ensures IndexFrom(s, c, from) == -1
    decreases |s| - from
  {
    if from < |s| {
      IndexFromAbsent(s, c, from + 1);
    }
  }

  /** Where the class part starts, and what `createElm` makes of it. */
  lemma ClassPart(sel: string, at: int, classes: seq<string>)
    requires 0 < at <= |sel| && sel[at..] == JoinDots(classes)
    requires forall i :: 0 <= i < |classes| ==> '.' !in classes[i]
    requires forall i :: 0 <= i < at ==> sel[i] != '.'
    ensures classes == [] ==> IndexFrom(sel, '.', 0) == -1 && at == |sel|
    ensures classes != [] ==> IndexFrom(sel, '.', 0) == at
    ensures classes != [] ==> ReplaceDots(sel[at + 1..]) == JoinSpaces(classes)
  {
    JoinDotsShape(classes);
    if classes == [] {
      assert |sel[at..]| == 0;
      IndexFromAbsent(sel, '.', 0);
    } else {
      assert sel[at] == sel[at..][0];
      IndexFromAt(sel, '.', 0, at);
      assert sel[at + 1..] == JoinDots(classes)[1..];
      JoinDotsReplaced(classes);
    }
  }

  /** Where `createElm` finds `#` and `.` in a selector laid out as `tag#id.c1.c2`. */
  lemma IndicesWithId(sel: string, t: nat, at: nat, classes: seq<string>)
    requires 0 < t < at <= |sel| && sel[t] == '#'
    requires forall i :: 0 <= i < t ==> sel[i] != '#' && sel[i] != '.'
    requires forall i :: t < i < at ==> sel[i] != '.'
    requires forall i :: 0 <= i < |classes| ==> '.' !in classes[i]
    requires sel[at..] == JoinDots(classes)
    ensures IndexFrom(sel, '#', 0) == t
    ensures classes == [] ==> IndexFrom(sel, '.', t) == -1 && |sel| == at
    ensures classes != [] ==> IndexFrom(sel, '.', t) == at
    ensures classes != [] ==> ReplaceDots(sel[at + 1..]) == JoinSpaces(classes)
  {
    IndexFromAt(sel, '#', 0, t);
    ClassPart(sel, at, classes);
    if classes != [] {
      IndexFromAt(sel, '.', t, at);
    } else {
      IndexFromAbsent(sel, '.', t);
    }
  }

  /** The split of a selector laid out as `tag#id.c1.c2`. */
  lemma ParseLaidOut(sel: string, t: nat, at: nat, classes: seq<string>)
    requires 0 < t < at <= |sel| && sel[t] == '#'
    requires forall i :: 0 <= i < t ==> sel[i] != '#' && sel[i] != '.'
    requires forall i :: t < i < at ==> sel[i] != '.'
    requires forall i :: 0 <= i < |classes| ==> '.' !in classes[i]
    requires sel[at..] == JoinDots(classes)
    ensures ParseSelector(sel)
         == Parsed(sel[..t], Some(sel[t + 1..at]), if classes == [] then None else Some(JoinSpaces(classes)))
  {
    IndicesWithId(sel, t, at, classes);
    if classes == [] {
      ParseWithHash(sel, t, -1);
      assert sel[t + 1..] == sel[t + 1..at];
    } else {
      ParseWithHash(sel, t, at);
    }
  }

  /** The split of a selector whose first `#` is at `h > 0` and whose first `.` after it is at `d`. */
  lemma ParseWithHash(sel: string, h: int, d: int)
    requires 0 < h && IndexFrom(sel, '#', 0) == h && IndexFrom(sel, '.', h) == d
    ensures d == -1 ==> ParseSelector(sel) == Parsed(sel[..h], Some(sel[h + 1..]), None)
    ensures d != -1 ==> ParseSelector(sel) == Parsed(sel[..h], Some(sel[h + 1..d]), Some(ReplaceDots(sel[d + 1..])))
  {
    if d == -1 {
      assert sel[h + 1..|sel|] == sel[h + 1..];
    } else {
      assert d != h;
    }
  }

  /** `tag#id.c1.c2` is laid out as `ParseLaidOut` expects. */
  lemma LayoutWithId(tag: string, id: string, classes: seq<string>)
    requires '#' !in tag && '.' !in tag && '.' !in id
    ensures var sel := Render(tag, Some(id), classes);
      && var at := |tag| + 1 + |id|;
      && at <= |sel| && sel[|tag|] == '#'
      && (forall i :: 0 <= i < |tag| ==> sel[i] != '#' && sel[i] != '.')
      && (forall i :: |tag| < i < at ==> sel[i] != '.')
      && sel[at..] == JoinDots(classes)
      && sel[..|tag|] == tag && sel[|tag| + 1..at] == id
  {
    var sel := Render(tag, Some(id), classes);
    var at := |tag| + 1 + |id|;
    assert sel == tag + ("#" + id) + JoinDots(classes);
    forall i | 0 <= i < |tag| ensures sel[i] != '#' && sel[i] != '.' {
      assert sel[i] == tag[i];
    }
    forall i | |tag| < i < at ensures sel[i] != '.' {
      assert sel[i] == id[i - |tag| - 1];
    }
    assert sel[at..] == JoinDots(classes);
    assert sel[..|tag|] == tag;
    assert sel[|tag| + 1..at] == id;
  }

  /** The split of a selector `tag#id.c1.c2` with an id. */
  lemma ParseWithId(tag: string, id: string, classes: seq<string>)
    requires |tag| > 0 && '#' !in tag && '.' !in tag && '.' !in id
    requires forall i :: 0 <= i < |classes| ==> '.' !in classes[i]
    ensures ParseSelector(Render(tag, Some(id), classes))
         == Parsed(tag, Some(id), if classes == [] then None else Some(JoinSpaces(classes)))
  {
    LayoutWithId(tag, id, classes);
    ParseLaidOut(Render(tag, Some(id), classes), |tag|, |tag| + 1 + |id|, classes);
  }

  /** `tag.c1.c2` holds no `#`. */
  lemma NoHashWithoutId(tag: string, classes: seq<string>)
    requires '#' !in tag
    requires forall i :: 0 <= i < |classes| ==> '#' !in classes[i]
    ensures IndexFrom(Render(tag, None, classes), '#', 0) == -1
  {
    var sel := Render(tag, None, classes);
    var cls := JoinDots(classes);
    assert sel == tag + cls;
    JoinDotsNoHash(classes);
    forall i | 0 <= i < |sel| ensures sel[i] != '#' {
      if i < |tag| { assert sel[i] == tag[i]; } else { assert sel[i] == cls[i - |tag|]; }
    }
    IndexFromAbsent(sel, '#', 0);
  }

  /** The split of a selector without `#` laid out as `tag.c1.c2`. */
  lemma ParseLaidOutNoId(sel: string, t: nat, classes: seq<string>)
    requires 0 < t <= |sel| && IndexFrom(sel, '#', 0) == -1
    requires forall i :: 0 <= i < t ==> sel[i] != '.'
    requires forall i :: 0 <= i < |classes| ==> '.' !in classes[i]
    requires sel[t..] == JoinDots(classes)
    ensures ParseSelector(sel)
         == Parsed(sel[..t], None, if classes == [] then None else Some(JoinSpaces(classes)))
  {
    ClassPart(sel, t, classes);
  }

  /** The split of a selector `tag.c1.c2` without an id. */
  lemma ParseWithoutId(tag: string, classes: seq<string>)
    requires |tag| > 0 && '#' !in tag && '.' !in tag
    requires forall i :: 0 <= i < |classes| ==> '.' !in classes[i] && '#' !in classes[i]
    ensures ParseSelector(Render(tag, None, classes))
         == Parsed(tag, None, if classes == [] then None else Some(JoinSpaces(classes)))
  {
    var sel := Render(tag, None, classes);
    NoHashWithoutId(tag, classes);
    assert sel == tag + JoinDots(classes);
    forall i | 0 <= i < |tag| ensures sel[i] != '.' {
      assert sel[i] == tag[i];
    }
    assert sel[|tag|..] == JoinDots(classes);
    assert sel[..|tag|] == tag;
    ParseLaidOutNoId(sel, |tag|, classes);
  }

  /**
   * Parsing inverts rendering: a tag without `#` and `.`, an id without `.`,
   * and classes without `.` come back out as the tag, the id and the
   * space-separated class list (classes may not hold `#` when there is no id).
   */
  lemma ParseRender(tag: string, id: Option<string>, classes: seq<string>)
    requires |tag| > 0 && '#' !in tag && '.' !in tag
    requires id.Some? ==> '.' !in id.value
    requires forall i :: 0 <= i < |classes| ==> '.' !in classes[i]
    requires id.None? ==> forall i :: 0 <= i < |classes| ==> '#' !in classes[i]
    ensures ParseSelector(Render(tag, id, classes))
         == Parsed(tag, id, if classes == [] then None else Some(JoinSpaces(classes)))
  {
    if id.Some? {
      ParseWithId(tag, id.value, classes);
    } else {
      ParseWithoutId(tag, classes);
    }
  }
}
