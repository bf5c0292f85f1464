/** Do runtime deny rules survive a restart? (kernel/edict/edict_engine.go, edict_overlay.go;
    kernel/app/edict/writes.go; cmd/agezt/main.go boot replay)

    The engine names a runtime rule after a counter; the journal records the name. A boot
    replays the journaled rules into a fresh engine, which numbers them again from 1. The
    engine and the journal then may disagree about which rule a name means. */
module PolicyDurability {
  import opened Common
  import opened Decimal
  import opened PolicyOverlay

  const PREFIX := "runtime["

  function RuntimeName(n: nat): (name: string)
    ensures name != ""
  {
    PREFIX + Digits(n) + "]"
  }

  lemma RuntimeNameInjective(m: nat, n: nat)
    ensures RuntimeName(m) == RuntimeName(n) ==> m == n
  {
    var s, t := RuntimeName(m), RuntimeName(n);
    assert s[|PREFIX|..|s| - 1] == Digits(m) && t[|PREFIX|..|t| - 1] == Digits(n);
    if s == t { DigitsInjective(m, n); }
  }

  /** The runtime part of the engine. */
  datatype Rules = Rules(list: seq<DenyRule>, counter: nat)

  function Added(r: Rules, substring: string, appliesTo: seq<string>): Rules {
    if IsBlank(substring) then r
    else Rules(r.list + [DenyRule(RuntimeName(r.counter + 1), substring, appliesTo)], r.counter + 1)
  }

  /** The engine's rules after a boot that replays `overlay`. */
  function Replayed(overlay: seq<DenyRule>): Rules {
    if overlay == [] then Rules([], 0)
    else
      var last := overlay[|overlay| - 1];
      Added(Replayed(overlay[..|overlay| - 1]), last.substring, last.appliesTo)
  }

  class Engine {
    var list: seq<DenyRule>
    var counter: nat

    function State(): Rules
      reads this
    {
      Rules(list, counter)
    }

    constructor ()
      ensures State() == Rules([], 0)
    {
      list, counter := [], 0;
    }

    method AddHardDeny(substring: string, appliesTo: seq<string>) returns (added: Option<DenyRule>)
      modifies this
      ensures State() == Added(old(State()), substring, appliesTo)
      ensures added == if IsBlank(substring) then None else Some(list[|list| - 1])
    {
      if IsBlank(substring) {
        return None;
      }
      counter := counter + 1;
      var rule := DenyRule(RuntimeName(counter), substring, appliesTo);
      list := list + [rule];
      return Some(rule);
    }

    method RemoveHardDeny(name: string) returns (removed: bool)
      modifies this
      ensures State() == Rules(Without(old(list), name), old(counter))
      ensures removed <==> exists r :: r in old(list) && r.name == name
    {
      var i := 0;
      while i < |list|
        invariant 0 <= i <= |list| && list == old(list) && counter == old(counter)
        invariant forall j :: 0 <= j < i ==> list[j].name != name
      {
        if list[i].name == name {
          assert list[i] in old(list);
          assert Position(list, name) == i;
          list := list[..i] + list[i + 1..];
          return true;
        }
        i := i + 1;
      }
      assert Position(list, name) == |list|;
      removed := false;
    }

    method ApplyOverlay(overlay: seq<DenyRule>)
      requires State() == Rules([], 0)
      modifies this
      ensures State() == Replayed(overlay)
    {
      hide Added, IsBlank;
      var k := 0;
      while k < |overlay|
        invariant 0 <= k <= |overlay| && State() == Replayed(overlay[..k])
      {
        assert overlay[..k + 1][..k] == overlay[..k];
        var added := AddHardDeny(overlay[k].substring, overlay[k].appliesTo);
        k := k + 1;
      }
      assert overlay[..|overlay|] == overlay;
    }
  }

  // ---------- a session: the engine and what the journal says ----------

  datatype Op = Add(substring: string, appliesTo: seq<string>) | Remove(name: string)

  /** Engine rules, and the rules the journal folds to. */
  datatype Session = Session(engine: Rules, journaled: seq<DenyRule>)

  predicate HasRule(list: seq<DenyRule>, name: string) { Position(list, name) < |list| }

  /** One operator request: the engine changes, and what it did is journaled. */
  function Do(s: Session, op: Op): Session {
    match op
    case Add(sub, applies) =>
      var e := Added(s.engine, sub, applies);
      Session(e, if IsBlank(sub) then s.journaled else Upsert(s.journaled, e.list[|e.list| - 1]))
    case Remove(name) =>
      if HasRule(s.engine.list, name)
      then Session(Rules(Without(s.engine.list, name), s.engine.counter), Without(s.journaled, name))
      else s
  }

  function DoAll(s: Session, ops: seq<Op>): Session {
    if ops == [] then s else Do(DoAll(s, ops[..|ops| - 1]), ops[|ops| - 1])
  }

  function Boot(journaled: seq<DenyRule>): Session { Session(Replayed(journaled), journaled) }

  /** What a rule forbids, its name aside. */
  function Content(r: DenyRule): (string, seq<string>) { (r.substring, r.appliesTo) }

  predicate HasContent(rules: seq<DenyRule>, x: (string, seq<string>)) {
    exists i :: 0 <= i < |rules| && Content(rules[i]) == x
  }

  /** The same rules in force, names and order aside. */
  ghost predicate SameRules(s: seq<DenyRule>, t: seq<DenyRule>) {
    forall x :: HasContent(s, x) <==> HasContent(t, x)
  }

  /** An action is denied if any rule hits it; what a rule hits depends on its content. */
  predicate Denies(rules: seq<DenyRule>, hits: ((string, seq<string>)) -> bool) {
    exists i :: 0 <= i < |rules| && hits(Content(rules[i]))
  }

  /** The same rules are in force exactly if, whatever rules of a content hit, the same is denied. */
  lemma SameRulesIffSameDenials(s: seq<DenyRule>, t: seq<DenyRule>)
    ensures SameRules(s, t) <==> forall hits :: Denies(s, hits) <==> Denies(t, hits)
  {
    if SameRules(s, t) {
      forall hits ensures Denies(s, hits) <==> Denies(t, hits) {
        if Denies(s, hits) { DenialCarries(s, t, hits); }
        if Denies(t, hits) { DenialCarries(t, s, hits); }
      }
    }
    if forall hits :: Denies(s, hits) <==> Denies(t, hits) {
      forall x ensures HasContent(s, x) <==> HasContent(t, x) {
        ContentIsDenial(s, x);
        ContentIsDenial(t, x);
        assert Denies(s, Just(x)) <==> Denies(t, Just(x));
      }
    }
  }

  function Just(x: (string, seq<string>)): ((string, seq<string>)) -> bool { y => y == x }

  lemma ContentIsDenial(rules: seq<DenyRule>, x: (string, seq<string>))
    ensures Denies(rules, Just(x)) <==> HasContent(rules, x)
  {}

  lemma DenialCarries(s: seq<DenyRule>, t: seq<DenyRule>, hits: ((string, seq<string>)) -> bool)
    requires SameRules(s, t) && Denies(s, hits)
    ensures Denies(t, hits)
  {
    var i :| 0 <= i < |s| && hits(Content(s[i]));
    assert HasContent(s, Content(s[i]));
    var j :| 0 <= j < |t| && Content(t[j]) == Content(s[i]);
  }

  /** A restart now would put the same rules in force. */
  ghost predicate SurvivesRestart(s: Session) { SameRules(s.engine.list, Replayed(s.journaled).list) }

  predicate Lasting(rules: seq<DenyRule>) { forall i :: 0 <= i < |rules| ==> !IsBlank(rules[i].substring) }

  /** The same rules under the names runtime[1], runtime[2], ... */
  function Renumbered(rules: seq<DenyRule>): (r: seq<DenyRule>)
    ensures |r| == |rules|
  {
    seq(|rules|, i requires 0 <= i < |rules| => DenyRule(RuntimeName(i + 1), rules[i].substring, rules[i].appliesTo))
  }

  lemma {:induction false} ReplayedIs(rules: seq<DenyRule>)
    requires Lasting(rules)
    ensures Replayed(rules) == Rules(Renumbered(rules), |rules|)
  {
    hide RuntimeName, IsBlank;
    if rules == [] {
      assert Renumbered(rules) == [];
    } else {
      var s, last := rules[..|rules| - 1], rules[|rules| - 1];
      assert rules == s + [last];
      ReplayedIs(s);
      assert !IsBlank(last.substring);
      assert Renumbered(rules) == Renumbered(s) + [DenyRule(RuntimeName(|rules|), last.substring, last.appliesTo)];
    }
  }

  lemma RenumberedContents(rules: seq<DenyRule>)
    ensures SameRules(Renumbered(rules), rules)
  {
    hide RuntimeName;
    var r := Renumbered(rules);
    forall i | 0 <= i < |rules| ensures Content(r[i]) == Content(rules[i]) {}
    forall x ensures HasContent(r, x) <==> HasContent(rules, x) {
      if i :| 0 <= i < |r| && Content(r[i]) == x { assert Content(rules[i]) == x; }
      if i :| 0 <= i < |rules| && Content(rules[i]) == x { assert Content(r[i]) == x; }
    }
  }

  lemma SameMembersSameRules(s: seq<DenyRule>, t: seq<DenyRule>)
    requires forall r :: r in s <==> r in t
    ensures SameRules(s, t)
  {
    forall x ensures HasContent(s, x) <==> HasContent(t, x) {
      if i :| 0 <= i < |s| && Content(s[i]) == x { assert s[i] in t; }
      if i :| 0 <= i < |t| && Content(t[i]) == x { assert t[i] in s; }
    }
  }

  // ---------- when every session survives a restart ----------

  /** Every name the boot gives is in the journal, for a rule of the same content. */
  predicate NamesFit(rules: seq<DenyRule>) {
    forall k :: 0 <= k < |rules| ==> Renumbered(rules)[k] in rules
  }

  /** No rule bears a name the counter has yet to give. */
  ghost predicate NamesUsed(rules: seq<DenyRule>, counter: nat) {
    forall n: nat, i :: n > counter && 0 <= i < |rules| ==> rules[i].name != RuntimeName(n)
  }

  /** The engine holds the journaled rules under their journaled names. */
  ghost predicate Match(s: Session) {
    && (forall r :: r in s.engine.list <==> r in s.journaled) && Lasting(s.journaled)
    && DistinctNames(s.engine.list) && DistinctNames(s.journaled)
    && NamesUsed(s.engine.list, s.engine.counter)
  }

  lemma MatchSurvives(s: Session)
    requires Match(s)
    ensures SurvivesRestart(s)
  {
    hide NamesUsed, DistinctNames, RuntimeName, HasContent;
    ReplayedIs(s.journaled);
    RenumberedContents(s.journaled);
    SameMembersSameRules(s.engine.list, s.journaled);
  }

  lemma AddKeepsMatch(s: Session, sub: string, applies: seq<string>)
    requires Match(s) && !IsBlank(sub)
    ensures Match(Do(s, Add(sub, applies)))
  {
    hide RuntimeName, IsBlank, Position;
    var r := DenyRule(RuntimeName(s.engine.counter + 1), sub, applies);
    UnusedIsNew(s.engine.list, s.engine.counter);
    forall i | 0 <= i < |s.journaled| ensures s.journaled[i].name != r.name {
      assert s.journaled[i] in s.engine.list;
    }
    assert Position(s.journaled, r.name) == |s.journaled|;
    NamesUsedSnoc(s.engine.list, r, s.engine.counter);
    hide NamesUsed;
    assert Do(s, Add(sub, applies))
        == Session(Rules(s.engine.list + [r], s.engine.counter + 1), s.journaled + [r]);
  }

  lemma UnusedIsNew(rules: seq<DenyRule>, counter: nat)
    requires NamesUsed(rules, counter)
    ensures forall i :: 0 <= i < |rules| ==> rules[i].name != RuntimeName(counter + 1)
  {}

  lemma NamesUsedSnoc(rules: seq<DenyRule>, r: DenyRule, counter: nat)
    requires NamesUsed(rules, counter) && r.name == RuntimeName(counter + 1)
    ensures NamesUsed(rules + [r], counter + 1)
  {
    hide RuntimeName;
    forall n: nat, i | n > counter + 1 && 0 <= i < |rules + [r]| ensures (rules + [r])[i].name != RuntimeName(n) {
      RuntimeNameInjective(counter + 1, n);
    }
  }

  lemma NamesUsedWithout(rules: seq<DenyRule>, name: string, counter: nat)
    requires NamesUsed(rules, counter) && DistinctNames(rules)
    ensures NamesUsed(Without(rules, name), counter)
  {
    hide RuntimeName, Without;
    WithoutRules(rules, name);
    var c := Without(rules, name);
    forall n: nat, i | n > counter && 0 <= i < |c| ensures c[i].name != RuntimeName(n) {
      assert c[i] in rules;
    }
  }

  lemma RemoveKeepsMatch(s: Session, name: string)
    requires Match(s)
    ensures Match(Do(s, Remove(name)))
  {
    hide RuntimeName, IsBlank, Without, Position, DistinctNames;
    WithoutRules(s.engine.list, name);
    WithoutRules(s.journaled, name);
    WithoutIsLasting(s.journaled, name);
    NamesUsedWithout(s.engine.list, name, s.engine.counter);
    hide NamesUsed, Lasting;
  }

  lemma {:induction false} DoAllKeepsMatch(s: Session, ops: seq<Op>)
    requires Match(s)
    ensures Match(DoAll(s, ops))
  {
    if ops != [] {
      var before := DoAll(s, ops[..|ops| - 1]);
      DoAllKeepsMatch(s, ops[..|ops| - 1]);
      hide Match;
      match ops[|ops| - 1] {
        case Add(sub, applies) => if !IsBlank(sub) { AddKeepsMatch(before, sub, applies); }
        case Remove(name) => RemoveKeepsMatch(before, name);
      }
    }
  }

  // ---------- a boot matches exactly if the names fit ----------

  lemma RenumberedIsNamed(rules: seq<DenyRule>)
    ensures DistinctNames(Renumbered(rules)) && NamesUsed(Renumbered(rules), |rules|)
  {
    hide RuntimeName;
    var r := Renumbered(rules);
    forall i, j | 0 <= i < j < |r| ensures r[i].name != r[j].name { RuntimeNameInjective(i + 1, j + 1); }
    forall n: nat, i | n > |rules| && 0 <= i < |r| ensures r[i].name != RuntimeName(n) {
      RuntimeNameInjective(i + 1, n);
    }
  }

  function Elements(s: seq<DenyRule>): set<DenyRule> { set r | r in s }

  lemma {:induction false} ElementsSize(s: seq<DenyRule>)
    ensures |Elements(s)| <= |s|
    ensures DistinctNames(s) ==> |Elements(s)| == |s|
  {
    if s != [] {
      var t, r := s[..|s| - 1], s[|s| - 1];
      assert s == t + [r];
      ElementsSize(t);
      assert Elements(s) == Elements(t) + {r};
    } else {
      assert Elements(s) == {};
    }
  }

  lemma SmallerSet(a: set<DenyRule>, b: set<DenyRule>)
    requires a <= b
    ensures |a| <= |b|
  {
    assert b == a + (b - a);
  }

  /** As many differently named rules as there are rules in all are all of them. */
  lemma NoneLeft(s: seq<DenyRule>, t: seq<DenyRule>, r: DenyRule)
    requires DistinctNames(s) && |t| <= |s| && r in t && forall x :: x in s ==> x in t
    ensures r in s
  {
    ElementsSize(s);
    ElementsSize(t);
    SmallerSet(Elements(s) + {r}, Elements(t));
  }

  lemma BootMatches(rules: seq<DenyRule>)
    requires Lasting(rules) && DistinctNames(rules) && NamesFit(rules)
    ensures Match(Boot(rules))
  {
    hide RuntimeName, IsBlank, Replayed;
    ReplayedIs(rules);
    RenumberedIsNamed(rules);
    var e := Renumbered(rules);
    assert |e| == |rules|;
    hide Renumbered, NamesUsed, DistinctNames, Lasting;
    forall r | r in rules ensures r in e { NoneLeft(e, rules, r); }
  }

  lemma RenumberedAt(rules: seq<DenyRule>, k: nat)
    requires k < |rules|
    ensures Renumbered(rules)[k].name == RuntimeName(k + 1)
    ensures Content(Renumbered(rules)[k]) == Content(rules[k])
  {}

  lemma WithoutIsLasting(rules: seq<DenyRule>, name: string)
    requires Lasting(rules)
    ensures Lasting(Without(rules, name))
  {
    hide IsBlank;
    var m, r := Position(rules, name), Without(rules, name);
    if m < |rules| {
      forall i | 0 <= i < |r| ensures r[i] == rules[if i < m then i else i + 1] {}
    }
  }

  // ---------- names that do not fit ----------

  /** Removing runtime[1] to runtime[i], but not runtime[k + 1]. */
  function Removals(i: nat, k: nat): seq<Op> {
    if i == 0 then [] else Removals(i - 1, k) + if i == k + 1 then [] else [Remove(RuntimeName(i))]
  }

  /** A name those removals leave alone. */
  ghost predicate Spared(name: string, i: nat, k: nat) {
    forall j: nat :: 1 <= j <= i && j != k + 1 ==> name != RuntimeName(j)
  }

  /** The session after the removals: each list without the removed names. */
  ghost predicate Thinned(rules: seq<DenyRule>, s: Session, i: nat, k: nat) {
    Left(s.engine.list, Renumbered(rules), i, k) && Left(s.journaled, rules, i, k) && Lasting(s.journaled)
  }

  ghost predicate Left(list: seq<DenyRule>, from: seq<DenyRule>, i: nat, k: nat) {
    DistinctNames(list) && forall r :: r in list <==> r in from && Spared(r.name, i, k)
  }

  lemma DoAllSnoc(s: Session, ops: seq<Op>, op: Op)
    ensures DoAll(s, ops + [op]) == Do(DoAll(s, ops), op)
  {
    assert (ops + [op])[..|ops|] == ops;
  }

  lemma SparedStep(name: string, i: nat, k: nat)
    ensures Spared(name, i + 1, k) <==> Spared(name, i, k) && (i == k || name != RuntimeName(i + 1))
  {
    hide RuntimeName;
  }

  lemma HasRuleIff(rules: seq<DenyRule>, r: DenyRule)
    requires r in rules
    ensures HasRule(rules, r.name)
  {
    var i :| 0 <= i < |rules| && rules[i] == r;
  }

  lemma LeftStep(list: seq<DenyRule>, from: seq<DenyRule>, i: nat, k: nat)
    requires Left(list, from, i, k) && i != k
    ensures Left(Without(list, RuntimeName(i + 1)), from, i + 1, k)
  {
    hide RuntimeName, Without, Position, DistinctNames, Spared;
    WithoutRules(list, RuntimeName(i + 1));
    forall x: string ensures Spared(x, i + 1, k) <==> Spared(x, i, k) && x != RuntimeName(i + 1) {
      SparedStep(x, i, k);
    }
  }

  lemma LeftSkip(list: seq<DenyRule>, from: seq<DenyRule>, k: nat)
    requires Left(list, from, k, k)
    ensures Left(list, from, k + 1, k)
  {
    hide DistinctNames, Spared, RuntimeName;
    forall x: string ensures Spared(x, k + 1, k) <==> Spared(x, k, k) { SparedStep(x, k, k); }
  }

  /** The engine has the next rule to remove. */
  lemma NextIsLeft(rules: seq<DenyRule>, list: seq<DenyRule>, i: nat, k: nat)
    requires Left(list, Renumbered(rules), i, k) && i < |rules| && i != k
    ensures HasRule(list, RuntimeName(i + 1))
  {
    hide RuntimeName, DistinctNames, HasRule;
    var r := Renumbered(rules)[i];
    RenumberedAt(rules, i);
    forall j: nat | 1 <= j <= i && j != k + 1 ensures r.name != RuntimeName(j) { RuntimeNameInjective(i + 1, j); }
    assert Spared(r.name, i, k);
    assert r in Renumbered(rules);
    HasRuleIff(list, r);
  }

  lemma ThinnedStep(rules: seq<DenyRule>, s: Session, i: nat, k: nat)
    requires Thinned(rules, s, i, k) && i < |rules| && i != k
    ensures Thinned(rules, Do(s, Remove(RuntimeName(i + 1))), i + 1, k)
  {
    hide RuntimeName, Renumbered, Without, Lasting, Left, HasRule;
    NextIsLeft(rules, s.engine.list, i, k);
    LeftStep(s.engine.list, Renumbered(rules), i, k);
    LeftStep(s.journaled, rules, i, k);
    WithoutIsLasting(s.journaled, RuntimeName(i + 1));
  }

  lemma NothingRemoved(rules: seq<DenyRule>, k: nat)
    requires Lasting(rules) && DistinctNames(rules)
    ensures Thinned(rules, Boot(rules), 0, k)
  {
    hide RuntimeName, Renumbered, Lasting, DistinctNames, NamesUsed, Replayed;
    ReplayedIs(rules);
    RenumberedIsNamed(rules);
  }

  lemma {:induction false} RemovalsThin(rules: seq<DenyRule>, i: nat, k: nat)
    requires Lasting(rules) && DistinctNames(rules) && i <= |rules| && k < |rules|
    ensures Thinned(rules, DoAll(Boot(rules), Removals(i, k)), i, k)
  {
    hide RuntimeName, Renumbered, Lasting, Do, DoAll, Boot, Thinned, DistinctNames;
    if i == 0 {
      NothingRemoved(rules, k);
      DoNone(Boot(rules));
    } else {
      RemovalsThin(rules, i - 1, k);
      var before := DoAll(Boot(rules), Removals(i - 1, k));
      if i == k + 1 {
        ThinnedSkip(rules, before, k);
        assert Removals(i, k) == Removals(i - 1, k);
      } else {
        ThinnedStep(rules, before, i - 1, k);
        DoAllSnoc(Boot(rules), Removals(i - 1, k), Remove(RuntimeName(i)));
      }
    }
  }

  lemma ThinnedSkip(rules: seq<DenyRule>, s: Session, k: nat)
    requires Thinned(rules, s, k, k)
    ensures Thinned(rules, s, k + 1, k)
  {
    hide Left, Lasting, Renumbered;
    LeftSkip(s.engine.list, Renumbered(rules), k);
    LeftSkip(s.journaled, rules, k);
  }

  lemma DoNone(s: Session)
    ensures DoAll(s, []) == s
  {}

  /** In the end the engine holds one rule, and the journal whatever bears no other name it gave. */
  lemma OneRuleLeft(rules: seq<DenyRule>, s: Session, k: nat)
    requires Thinned(rules, s, |rules|, k) && k < |rules|
    ensures forall r :: r in s.engine.list <==> r == Renumbered(rules)[k]
  {
    hide RuntimeName, Spared, DistinctNames;
    var e := Renumbered(rules);
    RenumberedAt(rules, k);
    OnlySpared(k, |rules|, k);
    forall r ensures r in s.engine.list <==> r == e[k] {
      if r in e {
        var m :| 0 <= m < |e| && e[m] == r;
        RenumberedAt(rules, m);
        OnlySpared(m, |rules|, k);
      }
    }
  }

  lemma OnlySpared(m: nat, n: nat, k: nat)
    requires m < n
    ensures Spared(RuntimeName(m + 1), n, k) <==> m == k
  {
    hide RuntimeName;
    if m == k {
      forall j: nat | 1 <= j <= n && j != k + 1 ensures RuntimeName(m + 1) != RuntimeName(j) {
        RuntimeNameInjective(m + 1, j);
      }
    } else {
      assert 1 <= m + 1 <= n && m + 1 != k + 1;
    }
  }

  lemma OnlyContent(rules: seq<DenyRule>, one: DenyRule)
    requires forall r :: r in rules <==> r == one
    ensures forall x :: HasContent(rules, x) <==> x == Content(one)
  {
    assert one in rules;
    var i :| 0 <= i < |rules| && rules[i] == one;
    forall x ensures HasContent(rules, x) <==> x == Content(one) {
      if j :| 0 <= j < |rules| && Content(rules[j]) == x { assert rules[j] in rules; }
    }
  }

  /** If the name of the k-th rule does not fit, two sessions cannot both survive: the one that removes
      all the others, and the one that then removes it too. */
  lemma MisfitDoesNotSurvive(rules: seq<DenyRule>, k: nat)
    requires Lasting(rules) && DistinctNames(rules) && k < |rules| && Renumbered(rules)[k] !in rules
    ensures !SurvivesRestart(DoAll(Boot(rules), Removals(|rules|, k)))
         || !SurvivesRestart(DoAll(Boot(rules), Removals(|rules|, k) + [Remove(RuntimeName(k + 1))]))
  {
    hide RuntimeName, Do, DoAll, Replayed, IsBlank, Lasting, DistinctNames;
    var ops, name, one := Removals(|rules|, k), RuntimeName(k + 1), Renumbered(rules)[k];
    var s := DoAll(Boot(rules), ops);
    RemovalsThin(rules, |rules|, k);
    OneRuleLeft(rules, s, k);
    RenumberedAt(rules, k);
    OnlyContent(s.engine.list, one);
    LastRemoval(s, one);
    DoAllSnoc(Boot(rules), ops, Remove(name));
    ReplayedSame(s.journaled);
    hide Renumbered, Thinned, Removals;
    if SurvivesRestart(s) {
      assert HasContent(s.journaled, Content(one));
      forall r | r in s.journaled ensures r.name != name {
        ContentOf(s.journaled, r);
        SameRule(r, one);
      }
      KeepsUnnamed(s, one);
    }
  }

  lemma SameRule(r: DenyRule, one: DenyRule)
    ensures Content(r) == Content(one) && r.name == one.name <==> r == one
  {}

  lemma ContentOf(rules: seq<DenyRule>, r: DenyRule)
    requires r in rules
    ensures HasContent(rules, Content(r))
  {}

  lemma ReplayedSame(rules: seq<DenyRule>)
    requires Lasting(rules)
    ensures SameRules(Replayed(rules).list, rules)
  {
    hide RuntimeName, IsBlank, HasContent;
    ReplayedIs(rules);
    RenumberedContents(rules);
  }

  lemma LastRemoval(s: Session, one: DenyRule)
    requires DistinctNames(s.engine.list) && forall r :: r in s.engine.list <==> r == one
    ensures Do(s, Remove(one.name)).engine.list == []
    ensures Do(s, Remove(one.name)).journaled == Without(s.journaled, one.name)
  {
    assert one in s.engine.list;
    HasRuleIff(s.engine.list, one);
    WithoutRules(s.engine.list, one.name);
    hide Without, HasRule;
    EmptyIff(Without(s.engine.list, one.name));
  }

  lemma EmptyIff(rules: seq<DenyRule>)
    ensures rules == [] <==> forall r :: r !in rules
  {
    if rules != [] { assert rules[0] in rules; }
  }

  /** A journal that has a rule, but none of the name, is not emptied with the engine. */
  lemma KeepsUnnamed(s: Session, one: DenyRule)
    requires DistinctNames(s.engine.list) && forall r :: r in s.engine.list <==> r == one
    requires Lasting(s.journaled) && HasContent(s.journaled, Content(one))
    requires forall r :: r in s.journaled ==> r.name != one.name
    ensures !SurvivesRestart(Do(s, Remove(one.name)))
  {
    LastRemoval(s, one);
    NoneWithout(s.journaled, one.name);
    ReplayedSame(s.journaled);
    hide Do, Replayed, DistinctNames, Lasting;
    assert !HasContent([], Content(one));
  }

  lemma NoneWithout(rules: seq<DenyRule>, name: string)
    requires forall r :: r in rules ==> r.name != name
    ensures Without(rules, name) == rules
  {
    forall i | 0 <= i < |rules| ensures rules[i].name != name { assert rules[i] in rules; }
  }

  /** Whatever the operator does after a boot, the runtime deny rules survive the next restart, exactly
      if each name the boot gives is in the journal for a rule of the same content. The names can be read
      off the overlay before relying on it. */
  lemma DurableIffNamesFit(o: Overlay)
    requires WellFormed(o)
    ensures (forall ops :: SurvivesRestart(DoAll(Boot(o.denyRules), ops))) <==> NamesFit(o.denyRules)
  {
    hide RuntimeName, SurvivesRestart, Do, DoAll, Boot, IsBlank, Renumbered;
    var rules := o.denyRules;
    ProperIsLasting(rules);
    if NamesFit(rules) {
      BootMatches(rules);
      forall ops ensures SurvivesRestart(DoAll(Boot(rules), ops)) {
        DoAllKeepsMatch(Boot(rules), ops);
        MatchSurvives(DoAll(Boot(rules), ops));
      }
    } else {
      var k :| 0 <= k < |rules| && Renumbered(rules)[k] !in rules;
      MisfitDoesNotSurvive(rules, k);
      var ops := Removals(|rules|, k);
      var bad := if SurvivesRestart(DoAll(Boot(rules), ops)) then ops + [Remove(RuntimeName(k + 1))] else ops;
      assert !SurvivesRestart(DoAll(Boot(rules), bad));
    }
  }

  lemma ProperIsLasting(rules: seq<DenyRule>)
    requires forall r :: r in rules ==> ProperRule(r)
    ensures Lasting(rules)
  {
    hide IsBlank;
    forall i | 0 <= i < |rules| ensures !IsBlank(rules[i].substring) { assert rules[i] in rules; }
  }

  predicate DistinctContents(rules: seq<DenyRule>) {
    forall i, j :: 0 <= i < j < |rules| ==> Content(rules[i]) != Content(rules[j])
  }

  /** The rules a journal folds to bear the names the next boot will give them. */
  predicate BootNames(rules: seq<DenyRule>) {
    forall i :: 0 <= i < |rules| ==> rules[i].name == RuntimeName(i + 1)
  }

  /** Names as the boot gives them, in its order, always fit; for rules of different content nothing
      else does. */
  lemma BootNamesFit(rules: seq<DenyRule>)
    ensures BootNames(rules) ==> NamesFit(rules)
    ensures DistinctContents(rules) && NamesFit(rules) ==> BootNames(rules)
  {
    hide RuntimeName;
    if BootNames(rules) {
      forall k | 0 <= k < |rules| ensures Renumbered(rules)[k] in rules { assert Renumbered(rules)[k] == rules[k]; }
    }
    if DistinctContents(rules) && NamesFit(rules) {
      forall k | 0 <= k < |rules| ensures rules[k].name == RuntimeName(k + 1) {
        assert Renumbered(rules)[k] in rules;
        var m :| 0 <= m < |rules| && rules[m] == Renumbered(rules)[k];
        assert Content(rules[m]) == Content(rules[k]);
      }
    }
  }

  /** Rules named runtime[1], runtime[2], ... in their order at boot survive whatever the operator does. */
  lemma BootNamesSurvive(rules: seq<DenyRule>, ops: seq<Op>)
    requires Lasting(rules) && BootNames(rules)
    ensures SurvivesRestart(DoAll(Boot(rules), ops))
  {
    hide RuntimeName, SurvivesRestart, Lasting, DoAll, Boot;
    forall i, j | 0 <= i < j < |rules| ensures rules[i].name != rules[j].name { RuntimeNameInjective(i + 1, j + 1); }
    BootNamesFit(rules);
    BootMatches(rules);
    DoAllKeepsMatch(Boot(rules), ops);
    MatchSurvives(DoAll(Boot(rules), ops));
  }

  /** Of rules of different content no others do. */
  lemma DurableIffBootNames(o: Overlay)
    requires WellFormed(o)
    ensures DistinctContents(o.denyRules) ==>
              ((forall ops :: SurvivesRestart(DoAll(Boot(o.denyRules), ops))) <==> BootNames(o.denyRules))
  {
    BootNamesFit(o.denyRules);
    DurableIffNamesFit(o);
  }

  /** The journal side of a request is the fold of the change it publishes. */
  lemma DoMatchesFold(o: Overlay, s: Session, op: Op, lower: char -> char)
    requires o.denyRules == s.journaled && (op.Add? ==> "" !in op.appliesTo)
    requires op.Add? ==> !IsBlank(op.substring)
    requires op.Remove? ==> HasRule(s.engine.list, op.name)
    ensures var ch := if op.Remove? then Change("deny.rm", "", "", op.name, "", [])
                      else RuleChange(DenyRule(RuntimeName(s.engine.counter + 1), op.substring, op.appliesTo));
      Effect(o, Means(ch, lower)).denyRules == Do(s, op).journaled
  {
    hide RuntimeName, IsBlank, Position, Without;
    if op.Add? {
      RuleChangeMeans(DenyRule(RuntimeName(s.engine.counter + 1), op.substring, op.appliesTo), lower);
    }
  }

  /** A blank rule is refused and a name the engine does not know is not found; then nothing changes and
      nothing is journaled, though the journal may know the name. */
  lemma RefusedChangesNothing(s: Session, op: Op)
    requires op.Add? ==> IsBlank(op.substring)
    requires op.Remove? ==> forall r :: r in s.engine.list ==> r.name != op.name
    ensures Do(s, op) == s
  {
    hide IsBlank;
    if op.Remove? { NamedIffHasRule(s.engine.list, op.name); }
  }

  lemma NamedIffHasRule(rules: seq<DenyRule>, name: string)
    ensures HasRule(rules, name) <==> exists r :: r in rules && r.name == name
  {
    if HasRule(rules, name) { assert rules[Position(rules, name)] in rules; }
    if r :| r in rules && r.name == name { HasRuleIff(rules, r); }
  }

  // ---------- two sessions that do not survive ----------

  lemma AddOne(s: Session, sub: string)
    requires s.engine.list == s.journaled && !IsBlank(sub)
    requires Position(s.journaled, RuntimeName(s.engine.counter + 1)) == |s.journaled|
    ensures Do(s, Add(sub, [])) ==
      var list := s.engine.list + [DenyRule(RuntimeName(s.engine.counter + 1), sub, [])];
      Session(Rules(list, s.engine.counter + 1), list)
  {
    hide RuntimeName, IsBlank, Position;
  }

  lemma RemoveFirst(r1: DenyRule, r2: DenyRule, counter: nat)
    requires r1.name != r2.name
    ensures Do(Session(Rules([r1, r2], counter), [r1, r2]), Remove(r1.name)) == Session(Rules([r2], counter), [r2])
  {
    assert Position([r1, r2], r1.name) == 0;
    assert [r1, r2][..0] + [r1, r2][1..] == [r2];
  }

  lemma RemoveUnknown(r: DenyRule, engine: Rules)
    requires engine.list == [DenyRule(RuntimeName(1), r.substring, [])] && r.name != RuntimeName(1)
    ensures Do(Session(engine, [r]), Remove(RuntimeName(1))) == Session(Rules([], engine.counter), [r])
  {
    hide RuntimeName;
    assert Position(engine.list, RuntimeName(1)) == 0;
    assert Position([r], RuntimeName(1)) == 1;
  }

  lemma OnlyPosition(r: DenyRule)
    ensures Position([r], r.name) == 0
  {}

  lemma NoPosition(rules: seq<DenyRule>, name: string)
    requires |rules| <= 1 && forall i :: 0 <= i < |rules| ==> rules[i].name != name
    ensures Position(rules, name) == |rules|
  {}

  /** Three requests and one restart are enough: add two rules, remove the first, restart,
      remove the survivor by the name it now has, restart. The removed rule is back. */
  lemma RemovedRuleReturns(a: string, b: string)
    requires !IsBlank(a) && !IsBlank(b)
    ensures var s := Do(Do(Do(Boot([]), Add(a, [])), Add(b, [])), Remove(RuntimeName(1)));
      var t := Do(Boot(s.journaled), Remove(RuntimeName(1)));
      && SurvivesRestart(s) && t.engine.list == []
      && Replayed(t.journaled).list == [DenyRule(RuntimeName(1), b, [])]
  {
    hide *;
    var r1, r2 := DenyRule(RuntimeName(1), a, []), DenyRule(RuntimeName(2), b, []);
    RuntimeNameInjective(1, 2);
    EmptyBoot();
    var s0 := Boot([]);
    NoPosition([], RuntimeName(1));
    AddOne(s0, a);
    var s1 := Do(s0, Add(a, []));
    assert [] + [r1] == [r1];
    assert s1 == Session(Rules([r1], 1), [r1]);
    NoPosition([r1], RuntimeName(2));
    AddOne(s1, b);
    var s2 := Do(s1, Add(b, []));
    assert [r1] + [r2] == [r1, r2];
    assert s2 == Session(Rules([r1, r2], 2), [r1, r2]);
    RemoveFirst(r1, r2, 2);
    BootOne(r2);
    SurvivesAlone(r2, 2);
    RemoveUnknown(r2, Replayed([r2]));
  }

  lemma SurvivesAlone(r: DenyRule, counter: nat)
    requires !IsBlank(r.substring) && r.appliesTo == []
    ensures SurvivesRestart(Session(Rules([r], counter), [r]))
  {
    BootOne(r);
    hide Replayed, RuntimeName, IsBlank;
    assert [r][0] == r;
    assert Content(DenyRule(RuntimeName(1), r.substring, [])) == Content(r);
    OnlyContent([r], r);
    OnlyContent([DenyRule(RuntimeName(1), r.substring, [])], DenyRule(RuntimeName(1), r.substring, []));
  }

  /** One request and one restart can lose a rule: journaled as runtime[2], it is in force as runtime[1]
      after the boot; the next rule added takes the name runtime[2], and with it the journal's place. */
  lemma AddedRuleTakesAName(b: string, c: string)
    requires !IsBlank(b) && !IsBlank(c)
    ensures var r := DenyRule(RuntimeName(2), b, []);
      var s := Do(Boot([r]), Add(c, []));
      && s.engine.list == [DenyRule(RuntimeName(1), b, []), DenyRule(RuntimeName(2), c, [])]
      && s.journaled == [DenyRule(RuntimeName(2), c, [])]
      && Replayed(s.journaled).list == [DenyRule(RuntimeName(1), c, [])]
  {
    hide RuntimeName, IsBlank, Replayed, Position, Renumbered;
    var r, r' := DenyRule(RuntimeName(2), b, []), DenyRule(RuntimeName(2), c, []);
    BootOne(r);
    BootOne(r');
    ReplayedIs([r]);
    OnlyPosition(r);
    assert [r][0 := r'] == [r'];
    assert [DenyRule(RuntimeName(1), b, [])] + [r'] == [DenyRule(RuntimeName(1), b, []), r'];
  }

  lemma EmptyBoot()
    ensures Boot([]) == Session(Rules([], 0), [])
  {}

  lemma BootOne(r: DenyRule)
    requires !IsBlank(r.substring) && r.appliesTo == []
    ensures Replayed([r]).list == [DenyRule(RuntimeName(1), r.substring, [])]
    ensures Boot([r]) == Session(Replayed([r]), [r])
  {
    hide RuntimeName, IsBlank;
    ReplayedIs([r]);
    assert Renumbered([r]) == [DenyRule(RuntimeName(1), r.substring, [])];
  }
}
