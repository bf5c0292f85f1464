/** Levenshtein distance for command suggestions (cmd/agt/help.go).

    The reference is not the recurrence but the edit scripts themselves: sequences of
    single-symbol insertions, deletions and substitutions at any position, run one after
    the other. The two-row loop is proved to return the length of a shortest script. */
module EditDistance {
  import opened Common

  datatype Edit<T> =
    | Insert(at: nat, sym: T)
    | Delete(at: nat)
    | Substitute(at: nat, sym: T)

  predicate Fits<T>(e: Edit<T>, s: seq<T>) {
    if e.Insert? then e.at <= |s| else e.at < |s|
  }

  function Apply<T>(e: Edit<T>, s: seq<T>): seq<T>
    requires Fits(e, s)
  {
    match e
    case Insert(at, sym) => s[..at] + [sym] + s[at..]
    case Delete(at) => s[..at] + s[at + 1..]
    case Substitute(at, sym) => s[at := sym]
  }

  /** Runs a script from its first edit on; `None` when an edit points outside the text. */
  function Run<T>(script: seq<Edit<T>>, s: seq<T>): Option<seq<T>> {
    if script == [] then Some(s)
    else if !Fits(script[0], s) then None
    else Run(script[1..], Apply(script[0], s))
  }

  /** `d` is the length of a shortest script that turns `a` into `b`. */
  ghost predicate IsDistance<T(!new)>(a: seq<T>, b: seq<T>, d: nat) {
    && (exists script: seq<Edit<T>> :: Run(script, a) == Some(b) && |script| == d)
    && (forall script: seq<Edit<T>> :: Run(script, a) == Some(b) ==> d <= |script|)
  }

  function Min(x: nat, y: nat): nat { if x < y then x else y }

  /** What row `|a|`, column `|b|` of the table holds. */
  function Table<T(==)>(a: seq<T>, b: seq<T>): nat
    decreases |a| + |b|
  {
    if a == [] then |b|
    else if b == [] then |a|
    else
      var a', b' := a[..|a| - 1], b[..|b| - 1];
      var cost := if a[|a| - 1] == b[|b| - 1] then 0 else 1;
      Min(Table(a', b) + 1, Min(Table(a, b') + 1, Table(a', b') + cost))
  }

  // ---------- the table never exceeds a script ----------

  /** Dropping the last symbol changes a table entry by at most one. */
  lemma {:induction false} TableDropLast<T>(p: seq<T>, x: T, b: seq<T>)
    ensures Table(p, b) <= Table(p + [x], b) + 1
    decreases |b|
  {
    assert (p + [x])[..|p|] == p;
    if b != [] {
      TableDropLast(p, x, b[..|b| - 1]);
      assert Table(p, b) <= Table(p, b[..|b| - 1]) + 1;
    }
  }

  lemma {:induction false} TableSwapLast<T>(p: seq<T>, x: T, y: T, b: seq<T>)
    ensures Table(p + [x], b) <= Table(p + [y], b) + 1
    decreases |b|
  {
    assert (p + [x])[..|p|] == p == (p + [y])[..|p|];
    if b != [] {
      TableSwapLast(p, x, y, b[..|b| - 1]);
    }
  }

  /** The table's recurrence, for a text and a pattern with a last symbol each. */
  lemma TableSnoc<T>(a: seq<T>, x: T, b: seq<T>, y: T)
    ensures Table(a + [x], b + [y])
         == Min(Table(a, b + [y]) + 1, Min(Table(a + [x], b) + 1, Table(a, b) + if x == y then 0 else 1))
  {
    assert (a + [x])[..|a|] == a && (b + [y])[..|b|] == b;
  }

  /** Against every prefix of `b`, `q` is at most one entry below `p`. */
  ghost predicate Near<T(!new)>(p: seq<T>, q: seq<T>, b: seq<T>) {
    forall c :: c <= b ==> Table(p, c) <= Table(q, c) + 1
  }

  lemma NearAt<T(!new)>(p: seq<T>, q: seq<T>, b: seq<T>, c: seq<T>)
    requires Near(p, q, b) && c <= b
    ensures Table(p, c) <= Table(q, c) + 1 && Near(p, q, c)
  {}

  lemma {:induction false} LastSymbolKeepsGap<T(!new)>(p: seq<T>, q: seq<T>, x: T, b: seq<T>)
    requires |p| <= |q| + 1 && Near(p, q, b)
    ensures Table(p + [x], b) <= Table(q + [x], b) + 1
    decreases |b|
  {
    if b != [] {
      var b', y := b[..|b| - 1], b[|b| - 1];
      assert b == b' + [y];
      NearAt(p, q, b, b);
      NearAt(p, q, b, b');
      LastSymbolKeepsGap(p, q, x, b');
      TableSnoc(p, x, b', y);
      TableSnoc(q, x, b', y);
    }
  }

  lemma EditInside<T>(e: Edit<T>, p: seq<T>, x: T)
    requires Fits(e, p)
    ensures Fits(e, p + [x]) && Apply(e, p + [x]) == Apply(e, p) + [x]
  {
    if e.Substitute? {
      assert (p + [x])[e.at := e.sym] == p[e.at := e.sym] + [x];
    } else {
      assert (p + [x])[..e.at] == p[..e.at];
      assert (p + [x])[e.at..] == p[e.at..] + [x];
      if e.Delete? {
        assert (p + [x])[e.at + 1..] == p[e.at + 1..] + [x];
      }
    }
  }

  /** One edit anywhere in the text lowers the table entry by at most one. */
  lemma {:induction false} OneEdit<T(!new)>(e: Edit<T>, a: seq<T>, b: seq<T>)
    requires Fits(e, a)
    ensures Table(a, b) <= Table(Apply(e, a), b) + 1
    decreases |a|
  {
    if e.at == |a| {
      assert Apply(e, a) == a + [e.sym];
      TableDropLast(a, e.sym, b);
    } else {
      var p, x := a[..|a| - 1], a[|a| - 1];
      assert a == p + [x];
      if e.at == |p| && e.Delete? {
        assert Apply(e, a) == p;
        TableAddLast(p, x, b);
      } else if e.at == |p| && e.Substitute? {
        assert Apply(e, a) == p + [e.sym];
        TableSwapLast(p, x, e.sym, b);
      } else {
        EditInside(e, p, x);
        forall c | c <= b ensures Table(p, c) <= Table(Apply(e, p), c) + 1 {
          OneEdit(e, p, c);
        }
        assert Near(p, Apply(e, p), b);
        LastSymbolKeepsGap(p, Apply(e, p), x, b);
      }
    }
  }

  lemma TableAddLast<T>(p: seq<T>, x: T, b: seq<T>)
    ensures Table(p + [x], b) <= Table(p, b) + 1
  {
    assert (p + [x])[..|p|] == p;
  }

  lemma {:induction false} TableIsLowerBound<T(!new)>(script: seq<Edit<T>>, a: seq<T>, b: seq<T>)
    requires Run(script, a) == Some(b)
    ensures Table(a, b) <= |script|
  {
    if script == [] {
      TableOfEqual(a);
    } else {
      OneEdit(script[0], a, b);
      TableIsLowerBound(script[1..], Apply(script[0], a), b);
    }
  }

  lemma {:induction false} TableOfEqual<T>(a: seq<T>)
    ensures Table(a, a) == 0
  {
    if a != [] { TableOfEqual(a[..|a| - 1]); }
  }

  // ---------- a script as short as the table entry ----------

  lemma {:induction false} RunConcat<T>(s1: seq<Edit<T>>, s2: seq<Edit<T>>, a: seq<T>)
    requires Run(s1, a).Some?
    ensures Run(s1 + s2, a) == Run(s2, Run(s1, a).value)
  {
    if s1 == [] {
      assert s1 + s2 == s2;
    } else {
      assert (s1 + s2)[0] == s1[0] && (s1 + s2)[1..] == s1[1..] + s2;
      RunConcat(s1[1..], s2, Apply(s1[0], a));
    }
  }

  /** A script leaves alone whatever follows the text it was written for. */
  lemma {:induction false} RunKeepsSuffix<T>(script: seq<Edit<T>>, a: seq<T>, x: T)
    requires Run(script, a).Some?
    ensures Run(script, a + [x]) == Some(Run(script, a).value + [x])
  {
    if script != [] {
      EditInside(script[0], a, x);
      RunKeepsSuffix(script[1..], Apply(script[0], a), x);
    }
  }

  function Cheapest<T(==)>(a: seq<T>, b: seq<T>): seq<Edit<T>>
    decreases |a| + |b|
  {
    if a == [] && b == [] then []
    else if a == [] then Cheapest(a, b[..|b| - 1]) + [Insert(|b| - 1, b[|b| - 1])]
    else if b == [] then [Delete(|a| - 1)] + Cheapest(a[..|a| - 1], b)
    else
      var a', b', x, y := a[..|a| - 1], b[..|b| - 1], a[|a| - 1], b[|b| - 1];
      if Table(a, b) == Table(a', b) + 1 then [Delete(|a'|)] + Cheapest(a', b)
      else if Table(a, b) == Table(a, b') + 1 then Cheapest(a, b') + [Insert(|b'|, y)]
      else (if x == y then [] else [Substitute(|a'|, y)]) + Cheapest(a', b')
  }

  lemma InsertLast<T>(script: seq<Edit<T>>, a: seq<T>, b': seq<T>, y: T)
    requires Run(script, a) == Some(b')
    ensures Run(script + [Insert(|b'|, y)], a) == Some(b' + [y])
  {
    RunConcat(script, [Insert(|b'|, y)], a);
    assert Apply(Insert(|b'|, y), b') == b' + [y];
  }

  lemma {:induction false} CheapestWorks<T>(a: seq<T>, b: seq<T>)
    ensures Run(Cheapest(a, b), a) == Some(b)
    ensures |Cheapest(a, b)| == Table(a, b)
    decreases |a| + |b|
  {
    if a == [] && b == [] {
    } else if a == [] {
      var b', y := b[..|b| - 1], b[|b| - 1];
      assert b == b' + [y];
      CheapestWorks(a, b');
      InsertLast(Cheapest(a, b'), a, b', y);
    } else {
      var a', x := a[..|a| - 1], a[|a| - 1];
      assert a == a' + [x];
      assert Apply(Delete(|a'|), a) == a';
      if b == [] || Table(a, b) == Table(a', b) + 1 {
        CheapestWorks(a', b);
        assert Cheapest(a, b) == [Delete(|a'|)] + Cheapest(a', b);
      } else {
        var b', y := b[..|b| - 1], b[|b| - 1];
        assert b == b' + [y];
        if Table(a, b) == Table(a, b') + 1 {
          CheapestWorks(a, b');
          InsertLast(Cheapest(a, b'), a, b', y);
        } else {
          CheapestWorks(a', b');
          RunKeepsSuffix(Cheapest(a', b'), a', y);
          if x != y {
            assert Apply(Substitute(|a'|, y), a) == a' + [y];
            assert Cheapest(a, b) == [Substitute(|a'|, y)] + Cheapest(a', b');
          } else {
            assert Cheapest(a, b) == Cheapest(a', b');
          }
        }
      }
    }
  }

  lemma TableIsDistance<T(!new)>(a: seq<T>, b: seq<T>)
    ensures IsDistance(a, b, Table(a, b))
  {
    CheapestWorks(a, b);
    forall script: seq<Edit<T>> | Run(script, a) == Some(b) ensures Table(a, b) <= |script| {
      TableIsLowerBound(script, a, b);
    }
  }

  // ---------- the program's loop ----------

  /** What the inner loop stores is the next table entry. */
  lemma NextEntry<T>(a: seq<T>, b: seq<T>, i: nat, j: nat)
    requires 1 <= i <= |a| && 1 <= j <= |b|
    ensures Table(a[..i], b[..j])
         == Min(Table(a[..i - 1], b[..j]) + 1, Min(Table(a[..i], b[..j - 1]) + 1,
              Table(a[..i - 1], b[..j - 1]) + if a[i - 1] == b[j - 1] then 0 else 1))
  {
    hide Table;
    assert a[..i] == a[..i - 1] + [a[i - 1]] && b[..j] == b[..j - 1] + [b[j - 1]];
    TableSnoc(a[..i - 1], a[i - 1], b[..j - 1], b[j - 1]);
  }

  /** The first row and the first column. */
  lemma TableEdges<T>(s: seq<T>)
    ensures Table([], s) == |s| && Table(s, []) == |s|
  {}

  /** Two rows, swapped after every symbol of `a`. */
  method EditDistance<T(==, !new)>(a: seq<T>, b: seq<T>) returns (d: nat)
    ensures IsDistance(a, b, d)
  {
    hide Table, IsDistance;
    var prev := new nat[|b| + 1](j => j);
    var cur := new nat[|b| + 1](_ => 0);
    forall j | 0 <= j <= |b| ensures prev[j] == Table(a[..0], b[..j]) {
      TableEdges(b[..j]);
    }
    var i := 1;
    while i <= |a|
      invariant 1 <= i <= |a| + 1
      invariant prev != cur && fresh(prev) && fresh(cur)
      invariant prev.Length == cur.Length == |b| + 1
      invariant forall j :: 0 <= j <= |b| ==> prev[j] == Table(a[..i - 1], b[..j])
    {
      cur[0] := i;
      TableEdges(a[..i]);
      var j := 1;
      while j <= |b|
        invariant 1 <= j <= |b| + 1
        invariant forall k :: 0 <= k <= |b| ==> prev[k] == Table(a[..i - 1], b[..k])
        invariant forall k :: 0 <= k < j ==> cur[k] == Table(a[..i], b[..k])
        modifies cur
      {
        var cost := if a[i - 1] == b[j - 1] then 0 else 1;
        cur[j] := Min(prev[j] + 1, Min(cur[j - 1] + 1, prev[j - 1] + cost));
        NextEntry(a, b, i, j);
        j := j + 1;
      }
      prev, cur := cur, prev;
      i := i + 1;
    }
    assert a[..|a|] == a && b[..|b|] == b;
    d := prev[|b|];
    TableIsDistance(a, b);
  }

  // ---------- the distance is a metric ----------

  /** An edit can be undone by one edit. */
  lemma EditHasInverse<T>(e: Edit<T>, s: seq<T>) returns (u: Edit<T>)
    requires Fits(e, s)
    ensures Fits(u, Apply(e, s)) && Apply(u, Apply(e, s)) == s
  {
    match e
    case Insert(at, sym) => u := Delete(at);
    case Delete(at) => u := Insert(at, s[at]);
    case Substitute(at, sym) => u := Substitute(at, s[at]);
  }

  lemma {:induction false} ScriptHasInverse<T>(script: seq<Edit<T>>, a: seq<T>, b: seq<T>) returns (back: seq<Edit<T>>)
    requires Run(script, a) == Some(b)
    ensures Run(back, b) == Some(a) && |back| == |script|
  {
    if script == [] {
      back := [];
    } else {
      var mid := Apply(script[0], a);
      var rest := ScriptHasInverse(script[1..], mid, b);
      var u := EditHasInverse(script[0], a);
      back := rest + [u];
      RunConcat(rest, [u], b);
      assert Run([u], mid) == Some(a);
    }
  }

  lemma DistanceIsUnique<T(!new)>(a: seq<T>, b: seq<T>, d: nat, d': nat)
    requires IsDistance(a, b, d) && IsDistance(a, b, d')
    ensures d == d'
  {
    var s1: seq<Edit<T>> :| Run(s1, a) == Some(b) && |s1| == d;
    var s2: seq<Edit<T>> :| Run(s2, a) == Some(b) && |s2| == d';
  }

  lemma DistanceZeroIffEqual<T(!new)>(a: seq<T>, b: seq<T>, d: nat)
    requires IsDistance(a, b, d)
    ensures d == 0 <==> a == b
  {
    var none: seq<Edit<T>> := [];
    assert Run(none, a) == Some(a);
  }

  lemma DistanceIsSymmetric<T(!new)>(a: seq<T>, b: seq<T>, d: nat)
    requires IsDistance(a, b, d)
    ensures IsDistance(b, a, d)
  {
    var s: seq<Edit<T>> :| Run(s, a) == Some(b) && |s| == d;
    var back := ScriptHasInverse(s, a, b);
    forall t: seq<Edit<T>> | Run(t, b) == Some(a) ensures d <= |t| {
      var forth := ScriptHasInverse(t, b, a);
    }
  }

  lemma DistanceTriangle<T(!new)>(a: seq<T>, b: seq<T>, c: seq<T>, ab: nat, bc: nat, ac: nat)
    requires IsDistance(a, b, ab) && IsDistance(b, c, bc) && IsDistance(a, c, ac)
    ensures ac <= ab + bc
  {
    hide Run;
    var s: seq<Edit<T>> :| Run(s, a) == Some(b) && |s| == ab;
    var t: seq<Edit<T>> :| Run(t, b) == Some(c) && |t| == bc;
    RunConcat(s, t, a);
  }

  lemma {:induction false} ScriptBoundsLengths<T>(script: seq<Edit<T>>, a: seq<T>, b: seq<T>)
    requires Run(script, a) == Some(b)
    ensures |a| - |script| <= |b| <= |a| + |script|
  {
    if script != [] { ScriptBoundsLengths(script[1..], Apply(script[0], a), b); }
  }

  lemma {:induction false} TableUpperBound<T>(a: seq<T>, b: seq<T>)
    ensures Table(a, b) <= |a| || Table(a, b) <= |b|
    decreases |a|
  {
    if a != [] && b != [] { TableUpperBound(a[..|a| - 1], b[..|b| - 1]); }
  }

  /** Between the difference of the lengths and the greater length. */
  lemma DistanceBounds<T(!new)>(a: seq<T>, b: seq<T>, d: nat)
    requires IsDistance(a, b, d)
    ensures |a| - |b| <= d && |b| - |a| <= d
    ensures d <= |a| || d <= |b|
  {
    var s: seq<Edit<T>> :| Run(s, a) == Some(b) && |s| == d;
    ScriptBoundsLengths(s, a, b);
    TableIsDistance(a, b);
    DistanceIsUnique(a, b, d, Table(a, b));
    TableUpperBound(a, b);
  }
}
