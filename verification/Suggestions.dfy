/** "Did you mean": near misses for an unknown command (cmd/agt/help.go). */
module Suggestions {
  import opened Ordering
  import opened Text
  import opened Common
  import EditDistance

  /** A command name is offered for a typo that it contains, that extends it, or that two
      byte edits turn into it. */
  ghost predicate Offered(typo: string, name: string) {
    || Contains(name, typo)
    || name <= typo
    || exists d: nat :: d <= 2 && EditDistance.IsDistance(Utf8(typo), Utf8(name), d)
  }

  function Flatten(groups: seq<seq<string>>): seq<string> {
    if groups == [] then [] else Flatten(groups[..|groups| - 1]) + groups[|groups| - 1]
  }

  /** `found` is the offers among `names`, each as often as it is listed. */
  ghost predicate AllOffers(found: seq<string>, typo: string, names: seq<string>) {
    forall n :: multiset(found)[n] == if Offered(typo, n) then multiset(names)[n] else 0
  }

  lemma OneMoreName(found: seq<string>, typo: string, names: seq<string>, name: string)
    requires AllOffers(found, typo, names)
    ensures AllOffers(if Offered(typo, name) then found + [name] else found, typo, names + [name])
  {}

  /** `out` holds, in order, the four alphabetically first offers among `names`. */
  ghost predicate BestOffers(out: seq<string>, typo: string, names: seq<string>) {
    exists rest: seq<string> ::
      && Sorted(out + rest, TextLeq)
      && |out| <= 4 && (rest != [] ==> |out| == 4)
      && AllOffers(out + rest, typo, names)
  }

  lemma StepInGroup(before: seq<string>, g: seq<string>, j: nat)
    requires j < |g|
    ensures before + g[..j + 1] == before + g[..j] + [g[j]]
  {}

  lemma StepOverGroup(groups: seq<seq<string>>, i: nat)
    requires i < |groups|
    ensures Flatten(groups[..i + 1]) == Flatten(groups[..i]) + groups[i][..|groups[i]|]
  {
    assert groups[..i + 1][..i] == groups[..i];
  }

  lemma SortedAndCapped(found: seq<string>, typo: string, names: seq<string>, out: seq<string>)
    requires AllOffers(found, typo, names)
    requires |SortBy(found, TextLeq)| == |found|
    requires out == if |found| > 4 then SortBy(found, TextLeq)[..4] else SortBy(found, TextLeq)
    ensures BestOffers(out, typo, names)
  {
    hide Offered, SortBy, TextLeq;
    TextLeqIsTotal();
    SortIsSortedPermutation(found, TextLeq);
    var all := SortBy(found, TextLeq);
    assert out + all[|out|..] == all;
  }

  lemma PrefixIsContained(name: string, typo: string)
    requires typo <= name
    ensures Contains(name, typo)
  {
    assert name[0..] == name;
  }

  method IsOffered(typo: string, name: string) returns (hit: bool)
    ensures hit <==> Offered(typo, name)
  {
    if typo <= name {
      PrefixIsContained(name, typo);
      return true;
    }
    if Contains(name, typo) || name <= typo {
      return true;
    }
    var d := EditDistance.EditDistance(Utf8(typo), Utf8(name));
    hit := d <= 2;
    forall e: nat | EditDistance.IsDistance(Utf8(typo), Utf8(name), e) ensures e == d {
      EditDistance.DistanceIsUnique(Utf8(typo), Utf8(name), d, e);
    }
  }

  method SuggestCommands(groups: seq<seq<string>>, typed: string, lower: char -> char) returns (out: seq<string>)
    ensures Map(typed, lower) == "" ==> out == []
    ensures Map(typed, lower) != "" ==> BestOffers(out, Map(typed, lower), Flatten(groups))
  {
    var typo := Map(typed, lower);
    if typo == "" {
      return [];
    }
    var found: seq<string> := [];
    var i := 0;
    while i < |groups|
      invariant 0 <= i <= |groups|
      invariant AllOffers(found, typo, Flatten(groups[..i]))
    {
      var g := groups[i];
      ghost var before := Flatten(groups[..i]);
      var j := 0;
      while j < |g|
        invariant 0 <= j <= |g|
        invariant AllOffers(found, typo, before + g[..j])
      {
        var hit := IsOffered(typo, g[j]);
        OneMoreName(found, typo, before + g[..j], g[j]);
        if hit {
          found := found + [g[j]];
        }
        StepInGroup(before, g, j);
        j := j + 1;
      }
      StepOverGroup(groups, i);
      i := i + 1;
    }
    assert groups[..|groups|] == groups;
    out := SortBy(found, TextLeq);
    assert |out| == |found| by {
      TextLeqIsTotal();
      SortIsSortedPermutation(found, TextLeq);
    }
    if |out| > 4 {
      out := out[..4];
    }
    SortedAndCapped(found, typo, Flatten(groups), out);
  }

  predicate Within(name: string, a: string, typo: string, b: string) { name == a + typo + b }

  predicate Turns(script: seq<EditDistance.Edit<nat>>, s: string, t: string) {
    EditDistance.Run(script, Utf8(s)) == Some(Utf8(t))
  }

  /** A name is offered exactly if the typo stands in it, if the typo goes on where it ends, or if at most
      two insertions, deletions and replacements of bytes turn one into the other. */
  lemma OfferedIff(typo: string, name: string)
    ensures Offered(typo, name) <==>
      || (exists a, b :: Within(name, a, typo, b))
      || (exists c :: Within(typo, "", name, c))
      || (exists script: seq<EditDistance.Edit<nat>> :: |script| <= 2 && Turns(script, typo, name))
  {
    hide Utf8;
    ContainsIff(name, typo);
    if exists c :: Within(typo, "", name, c) { assert name <= typo; }
    if name <= typo { assert Within(typo, "", name, typo[|name|..]); }
    EditDistance.TableIsDistance(Utf8(typo), Utf8(name));
    if d: nat :| d <= 2 && EditDistance.IsDistance(Utf8(typo), Utf8(name), d) {
      var script: seq<EditDistance.Edit<nat>> :|
        EditDistance.Run(script, Utf8(typo)) == Some(Utf8(name)) && |script| == d;
      assert Turns(script, typo, name);
    }
  }

  lemma ContainsIff(name: string, typo: string)
    ensures Contains(name, typo) <==> exists a, b :: Within(name, a, typo, b)
  {
    if i :| 0 <= i <= |name| && typo <= name[i..] {
      assert Within(name, name[..i], typo, name[i..][|typo|..]);
    }
    if a, b :| Within(name, a, typo, b) { assert name[|a|..] == typo + b; }
  }

  /** The two-edit gate does not depend on which of the two strings was typed. */
  lemma TwoEditGateIsSymmetric(s: string, t: string, d: nat)
    requires d <= 2 && EditDistance.IsDistance(Utf8(s), Utf8(t), d)
    ensures Offered(t, s)
  {
    EditDistance.DistanceIsSymmetric(Utf8(s), Utf8(t), d);
  }
}
