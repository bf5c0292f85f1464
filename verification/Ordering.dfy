/** Total orders and the sorted arrangement of a sequence. The library sorts the program
    calls are modelled by what they guarantee, a sorted rearrangement; `SortedIsUnique`
    shows that this pins the answer down, whatever algorithm the library runs. */
module Ordering {

  ghost predicate TotalOrder<T(!new)>(leq: (T, T) -> bool) {
    && (forall x :: leq(x, x))
    && (forall x, y :: leq(x, y) || leq(y, x))
    && (forall x, y :: leq(x, y) && leq(y, x) ==> x == y)
    && (forall x, y, z :: leq(x, y) && leq(y, z) ==> leq(x, z))
  }

  predicate Sorted<T>(s: seq<T>, leq: (T, T) -> bool) {
    forall i, j :: 0 <= i < j < |s| ==> leq(s[i], s[j])
  }

  function Insert<T>(x: T, s: seq<T>, leq: (T, T) -> bool): seq<T> {
    if s == [] || leq(x, s[0]) then [x] + s else [s[0]] + Insert(x, s[1..], leq)
  }

  function SortBy<T>(s: seq<T>, leq: (T, T) -> bool): seq<T> {
    if s == [] then [] else Insert(s[0], SortBy(s[1..], leq), leq)
  }

  lemma ConsSorted<T(!new)>(x: T, s: seq<T>, leq: (T, T) -> bool)
    requires Sorted(s, leq) && forall y :: y in s ==> leq(x, y)
    ensures Sorted([x] + s, leq)
  {}

  lemma {:induction false} InsertKeepsOrder<T(!new)>(x: T, s: seq<T>, leq: (T, T) -> bool)
    requires TotalOrder(leq) && Sorted(s, leq)
    ensures Sorted(Insert(x, s, leq), leq)
    ensures multiset(Insert(x, s, leq)) == multiset(s) + multiset{x}
  {
    if s == [] || leq(x, s[0]) {
      forall y | y in s ensures leq(x, y) {
        assert leq(x, s[0]) && (y == s[0] || leq(s[0], y));
      }
      ConsSorted(x, s, leq);
    } else {
      InsertKeepsOrder(x, s[1..], leq);
      var rest := Insert(x, s[1..], leq);
      assert s == [s[0]] + s[1..];
      forall y | y in rest ensures leq(s[0], y) {
        assert y in multiset(rest);
      }
      ConsSorted(s[0], rest, leq);
    }
  }

  /** A sort returns the input's elements, each as often as before, in order. */
  lemma {:induction false} SortIsSortedPermutation<T(!new)>(s: seq<T>, leq: (T, T) -> bool)
    requires TotalOrder(leq)
    ensures Sorted(SortBy(s, leq), leq)
    ensures multiset(SortBy(s, leq)) == multiset(s)
    ensures |SortBy(s, leq)| == |s|
  {
    if s != [] {
      SortIsSortedPermutation(s[1..], leq);
      InsertKeepsOrder(s[0], SortBy(s[1..], leq), leq);
      assert s == [s[0]] + s[1..];
    }
    SameElementsSameLength(SortBy(s, leq), s);
  }

  lemma SameElementsSameLength<T>(s: seq<T>, t: seq<T>)
    requires multiset(s) == multiset(t)
    ensures |s| == |t|
  {
    assert |multiset(s)| == |s| && |multiset(t)| == |t|;
  }

  /** Two sorted arrangements of the same elements are the same sequence. */
  lemma {:induction false} SortedIsUnique<T(!new)>(s: seq<T>, t: seq<T>, leq: (T, T) -> bool)
    requires TotalOrder(leq) && Sorted(s, leq) && Sorted(t, leq)
    requires multiset(s) == multiset(t)
    ensures s == t
  {
    hide TotalOrder;
    SameElementsSameLength(s, t);
    if s != [] {
      SameFirst(s, t, leq);
      RestsAgree(s, t);
      SortedIsUnique(s[1..], t[1..], leq);
      hide Sorted;
      assert s == [s[0]] + s[1..] && t == [t[0]] + t[1..];
    }
  }

  lemma SameFirst<T(!new)>(s: seq<T>, t: seq<T>, leq: (T, T) -> bool)
    requires TotalOrder(leq) && Sorted(s, leq) && Sorted(t, leq) && s != [] && t != []
    requires multiset(s) == multiset(t)
    ensures s[0] == t[0]
  {
    FirstIsLeast(s, t, leq);
    FirstIsLeast(t, s, leq);
    hide Sorted;
  }

  lemma RestsAgree<T>(s: seq<T>, t: seq<T>)
    requires s != [] && t != [] && s[0] == t[0] && multiset(s) == multiset(t)
    ensures multiset(s[1..]) == multiset(t[1..])
  {
    assert s == [s[0]] + s[1..] && t == [t[0]] + t[1..];
    assert multiset(s[1..]) == multiset(s) - multiset{s[0]};
    assert multiset(t[1..]) == multiset(t) - multiset{t[0]};
  }

  lemma FirstIsLeast<T(!new)>(s: seq<T>, t: seq<T>, leq: (T, T) -> bool)
    requires TotalOrder(leq) && Sorted(s, leq) && s != [] && t != []
    requires multiset(s) == multiset(t)
    ensures leq(s[0], t[0])
  {
    assert t[0] in multiset(s);
    var i :| 0 <= i < |s| && s[i] == t[0];
  }

  /** Whatever order the elements arrive in, the sorted result is the same. */
  lemma SortIgnoresArrivalOrder<T(!new)>(s: seq<T>, t: seq<T>, leq: (T, T) -> bool)
    requires TotalOrder(leq) && multiset(s) == multiset(t)
    ensures SortBy(s, leq) == SortBy(t, leq)
  {
    SortIsSortedPermutation(s, leq);
    SortIsSortedPermutation(t, leq);
    SortedIsUnique(SortBy(s, leq), SortBy(t, leq), leq);
  }

  predicate IntLeq(x: int, y: int) { x <= y }

  lemma IntLeqIsTotal()
    ensures TotalOrder(IntLeq)
  {}

  /** Go's string order: byte by byte, a proper prefix first. */
  predicate TextLeq(s: string, t: string) {
    if s == [] then true
    else if t == [] then false
    else if s[0] != t[0] then s[0] < t[0]
    else TextLeq(s[1..], t[1..])
  }

  lemma {:induction false} TextLeqReflexive(s: string)
    ensures TextLeq(s, s)
  {
    if s != [] { TextLeqReflexive(s[1..]); }
  }

  lemma {:induction false} TextLeqLinear(s: string, t: string)
    ensures TextLeq(s, t) || TextLeq(t, s)
    ensures TextLeq(s, t) && TextLeq(t, s) ==> s == t
  {
    if s != [] && t != [] {
      TextLeqLinear(s[1..], t[1..]);
      assert s == [s[0]] + s[1..] && t == [t[0]] + t[1..];
    }
  }

  lemma {:induction false} TextLeqTransitive(s: string, t: string, u: string)
    requires TextLeq(s, t) && TextLeq(t, u)
    ensures TextLeq(s, u)
  {
    if s != [] && s[0] == t[0] == u[0] { TextLeqTransitive(s[1..], t[1..], u[1..]); }
  }

  /** The texts agree up to the k-th character, and there the first is smaller. */
  predicate SmallerAt(s: string, t: string, k: nat) {
    k < |s| && k < |t| && s[..k] == t[..k] && s[k] < t[k]
  }

  lemma SmallerLater(s: string, t: string, k: nat)
    requires s != [] && t != []
    ensures SmallerAt(s, t, k + 1) <==> s[0] == t[0] && SmallerAt(s[1..], t[1..], k)
  {
    if k + 1 < |s| && k + 1 < |t| {
      assert s[..k + 1] == [s[0]] + s[1..][..k] && t[..k + 1] == [t[0]] + t[1..][..k];
      assert s[1..][k] == s[k + 1] && t[1..][k] == t[k + 1];
    }
  }

  /** The order is that of a dictionary. */
  lemma {:induction false} TextLeqIff(s: string, t: string)
    ensures TextLeq(s, t) <==> s <= t || exists k: nat :: SmallerAt(s, t, k)
  {
    if s != [] && t != [] {
      var s', t' := s[1..], t[1..];
      assert s == [s[0]] + s' && t == [t[0]] + t';
      TextLeqIff(s', t');
      assert SmallerAt(s, t, 0) <==> s[0] < t[0];
      if k: nat :| SmallerAt(s', t', k) {
        SmallerLater(s, t, k);
        hide SmallerAt;
        assert s[0] == t[0] ==> SmallerAt(s, t, k + 1);
      }
      if k: nat :| SmallerAt(s, t, k) {
        if k > 0 { SmallerLater(s, t, k - 1); }
      }
    }
  }

  lemma TextLeqIsTotal()
    ensures TotalOrder(TextLeq)
  {
    forall s ensures TextLeq(s, s) { TextLeqReflexive(s); }
    forall s, t ensures TextLeq(s, t) || TextLeq(t, s) { TextLeqLinear(s, t); }
    forall s, t | TextLeq(s, t) && TextLeq(t, s) ensures s == t { TextLeqLinear(s, t); }
    forall s, t, u | TextLeq(s, t) && TextLeq(t, u) ensures TextLeq(s, u) { TextLeqTransitive(s, t, u); }
  }
}
