/** Runtime policy changes, the overlay they add up to, and the compact list that stands
    for it (kernel/edict/edict_overlay.go, snapshot.go, edict_types.go). */
module PolicyOverlay {
  import opened Common
  import opened Ordering
  import opened Text

  datatype TrustLevel = LevelDeny | LevelAsk | LevelAskFirst | LevelAskScoped | LevelAllow
  datatype AskPolicy = AskAllow | AskDeny | AskPrompt

  datatype Change = Change(
    action: string, capability: string, to: string, name: string, substring: string, appliesTo: seq<string>)

  datatype DenyRule = DenyRule(name: string, substring: string, appliesTo: seq<string>)

  datatype Overlay = Overlay(levels: map<string, TrustLevel>, denyRules: seq<DenyRule>, mode: Option<AskPolicy>)

  const EMPTY := Overlay(map[], [], None)

  // ---------- vocabulary ----------

  function LevelText(l: TrustLevel): string {
    match l
    case LevelDeny => "L0"
    case LevelAsk => "L1"
    case LevelAskFirst => "L2"
    case LevelAskScoped => "L3"
    case LevelAllow => "L4"
  }

  function ParseLevel(s: string, lower: char -> char): Option<TrustLevel> {
    var w := Map(TrimSpace(s), lower);
    if w == "l0" || w == "deny" then Some(LevelDeny)
    else if w == "l1" || w == "ask" then Some(LevelAsk)
    else if w == "l2" || w == "askfirst" || w == "ask-first" then Some(LevelAskFirst)
    else if w == "l3" || w == "askscoped" || w == "ask-scoped" then Some(LevelAskScoped)
    else if w == "l4" || w == "allow" then Some(LevelAllow)
    else None
  }

  function ModeText(p: AskPolicy): string {
    match p
    case AskAllow => "allow"
    case AskDeny => "deny"
    case AskPrompt => "prompt"
  }

  function ParseMode(s: string, lower: char -> char): Option<AskPolicy> {
    var w := Map(TrimSpace(s), lower);
    if w == "allow" then Some(AskAllow)
    else if w == "deny" then Some(AskDeny)
    else if w == "prompt" then Some(AskPrompt)
    else None
  }

  lemma LevelTextParses(l: TrustLevel, lower: char -> char)
    requires LowersAscii(lower)
    ensures ParseLevel(LevelText(l), lower) == Some(l)
  {
    hide TrimSpace, Map, LowersAscii;
    LevelTextTrims(l);
    LevelTextLowers(l, lower);
  }

  const LEVEL_WORDS: map<string, TrustLevel> := map[
    "l0" := LevelDeny, "deny" := LevelDeny, "l1" := LevelAsk, "ask" := LevelAsk,
    "l2" := LevelAskFirst, "askfirst" := LevelAskFirst, "ask-first" := LevelAskFirst,
    "l3" := LevelAskScoped, "askscoped" := LevelAskScoped, "ask-scoped" := LevelAskScoped,
    "l4" := LevelAllow, "allow" := LevelAllow]

  const MODE_WORDS: map<string, AskPolicy> := map["allow" := AskAllow, "deny" := AskDeny, "prompt" := AskPrompt]

  /** The words that name a level or a mode, blanks around them and case aside; there are no others. */
  lemma WordsParse(s: string, lower: char -> char)
    ensures var w := Map(TrimSpace(s), lower);
      && ParseLevel(s, lower) == (if w in LEVEL_WORDS then Some(LEVEL_WORDS[w]) else None)
      && ParseMode(s, lower) == (if w in MODE_WORDS then Some(MODE_WORDS[w]) else None)
  {
    hide TrimSpace, Map;
  }

  lemma LevelTextTrims(l: TrustLevel)
    ensures |LevelText(l)| == 2 && TrimSpace(LevelText(l)) == LevelText(l)
  {
    hide IsSpace, Trim;
    var s := LevelText(l);
    GraphicIsNotSpace(s[0]);
    GraphicIsNotSpace(s[1]);
    TrimFixed(s, IsSpace);
  }

  lemma LevelTextLowers(l: TrustLevel, lower: char -> char)
    requires LowersAscii(lower)
    ensures |LevelText(l)| == 2 && Map(LevelText(l), lower) == ['l', LevelText(l)[1]]
  {
    assert lower(LevelText(l)[0]) == 'l' && lower(LevelText(l)[1]) == LevelText(l)[1];
  }

  lemma ModeTextParses(p: AskPolicy, lower: char -> char)
    requires LowersAscii(lower)
    ensures ParseMode(ModeText(p), lower) == Some(p)
  {
    var s := ModeText(p);
    TrimFixed(s, IsSpace);
    assert Map(s, lower) == s;
  }

  // ---------- the fold ----------

  predicate IsBlank(s: string) { TrimSpace(s) == "" }

  function NonEmpty(): string -> bool { s => s != "" }

  /** What one change says: nothing when malformed. */
  datatype Meaning =
    | Nothing
    | ModeIs(p: AskPolicy)
    | LevelIs(capability: string, l: TrustLevel)
    | Deny(rule: DenyRule)
    | Undeny(name: string)

  function Means(ch: Change, lower: char -> char): Meaning {
    if ch.action == "mode.set" then
      match ParseMode(ch.to, lower) case Some(p) => ModeIs(p) case None => Nothing
    else if ch.action == "level.set" then
      if ch.capability == "" then Nothing
      else match ParseLevel(ch.to, lower) case Some(l) => LevelIs(ch.capability, l) case None => Nothing
    else if ch.action == "deny.add" then
      if ch.name == "" || IsBlank(ch.substring) then Nothing
      else Deny(DenyRule(ch.name, ch.substring, Filter(ch.appliesTo, NonEmpty())))
    else if ch.action == "deny.rm" then Undeny(ch.name)
    else Nothing
  }

  /** Which changes count, and for what: nothing else does, be it an unknown action, a level or mode that
      does not parse, a level of no capability, or a rule without a name or with a blank text. */
  lemma MeansIff(ch: Change, lower: char -> char)
    ensures var m := Means(ch, lower);
      && (m.ModeIs? <==> ch.action == "mode.set" && ParseMode(ch.to, lower).Some?)
      && (m.ModeIs? ==> Some(m.p) == ParseMode(ch.to, lower))
      && (m.LevelIs? <==> ch.action == "level.set" && ch.capability != "" && ParseLevel(ch.to, lower).Some?)
      && (m.LevelIs? ==> m.capability == ch.capability && Some(m.l) == ParseLevel(ch.to, lower))
      && (m.Deny? <==> ch.action == "deny.add" && ch.name != "" && TrimSpace(ch.substring) != "")
      && (m.Deny? ==> m.rule.name == ch.name && m.rule.substring == ch.substring
                      && forall c :: c in m.rule.appliesTo <==> c in ch.appliesTo && c != "")
      && (m.Undeny? <==> ch.action == "deny.rm")
      && (m.Undeny? ==> m.name == ch.name)
  {
    hide ParseMode, ParseLevel, TrimSpace;
    FilterMembers(ch.appliesTo, NonEmpty());
  }

  /** Where a rule of that name stands; the length when there is none. */
  function Position(rules: seq<DenyRule>, name: string): (i: nat)
    ensures i <= |rules|
    ensures i < |rules| ==> rules[i].name == name
    ensures forall j :: 0 <= j < i ==> rules[j].name != name
  {
    if rules == [] || rules[0].name == name then 0 else 1 + Position(rules[1..], name)
  }

  function Upsert(rules: seq<DenyRule>, r: DenyRule): seq<DenyRule> {
    var i := Position(rules, r.name);
    if i < |rules| then rules[i := r] else rules + [r]
  }

  function Without(rules: seq<DenyRule>, name: string): seq<DenyRule> {
    var i := Position(rules, name);
    if i < |rules| then rules[..i] + rules[i + 1..] else rules
  }

  function Effect(o: Overlay, m: Meaning): Overlay {
    match m
    case Nothing => o
    case ModeIs(p) => o.(mode := Some(p))
    case LevelIs(c, l) => o.(levels := o.levels[c := l])
    case Deny(r) => o.(denyRules := Upsert(o.denyRules, r))
    case Undeny(n) => o.(denyRules := Without(o.denyRules, n))
  }

  function FoldFrom(o: Overlay, ms: seq<Meaning>): Overlay {
    if ms == [] then o else Effect(FoldFrom(o, ms[..|ms| - 1]), ms[|ms| - 1])
  }

  function Meanings(changes: seq<Change>, lower: char -> char): seq<Meaning> {
    seq(|changes|, i requires 0 <= i < |changes| => Means(changes[i], lower))
  }

  /** The overlay a history of changes adds up to. */
  function Fold(changes: seq<Change>, lower: char -> char): Overlay {
    FoldFrom(EMPTY, Meanings(changes, lower))
  }

  lemma FoldSnoc(o: Overlay, ms: seq<Meaning>, m: Meaning)
    ensures FoldFrom(o, ms + [m]) == Effect(FoldFrom(o, ms), m)
  {
    assert (ms + [m])[..|ms|] == ms;
  }

  lemma {:induction false} FoldConcat(o: Overlay, s: seq<Meaning>, t: seq<Meaning>)
    ensures FoldFrom(o, s + t) == FoldFrom(FoldFrom(o, s), t)
  {
    if t == [] {
      assert s + t == s;
    } else {
      var t', m := t[..|t| - 1], t[|t| - 1];
      assert t == t' + [m] && s + t == (s + t') + [m];
      FoldConcat(o, s, t');
      FoldSnoc(o, s + t', m);
      FoldSnoc(FoldFrom(o, s), t', m);
    }
  }

  lemma MeaningsConcat(s: seq<Change>, t: seq<Change>, lower: char -> char)
    ensures Meanings(s + t, lower) == Meanings(s, lower) + Meanings(t, lower)
  {}

  // ---------- the program's projection: two maps and an order list ----------

  predicate NoDuplicates(names: seq<string>) {
    forall i, j :: 0 <= i < j < |names| ==> names[i] != names[j]
  }

  /** The rules the two structures stand for. */
  function Listed(order: seq<string>, byName: map<string, DenyRule>): seq<DenyRule>
    requires forall i :: 0 <= i < |order| ==> order[i] in byName
  {
    seq(|order|, i requires 0 <= i < |order| => byName[order[i]])
  }

  ghost predicate Indexed(order: seq<string>, byName: map<string, DenyRule>) {
    && NoDuplicates(order)
    && (forall n :: n in order <==> n in byName)
    && (forall n :: n in byName ==> byName[n].name == n)
  }

  lemma AbsentHasNoPosition(order: seq<string>, byName: map<string, DenyRule>, name: string)
    requires Indexed(order, byName) && name !in byName
    ensures Position(Listed(order, byName), name) == |order|
    ensures Without(Listed(order, byName), name) == Listed(order, byName)
  {
    assert forall i :: 0 <= i < |order| ==> order[i] in order && Listed(order, byName)[i].name == order[i];
  }

  lemma ListedAdd(order: seq<string>, byName: map<string, DenyRule>, r: DenyRule)
    requires Indexed(order, byName)
    ensures var order' := if r.name in byName then order else order + [r.name];
      var byName' := byName[r.name := r];
      Indexed(order', byName') && Listed(order', byName') == Upsert(Listed(order, byName), r)
  {
    var i := Position(Listed(order, byName), r.name);
    if r.name in byName {
      var k :| 0 <= k < |order| && order[k] == r.name;
      assert Listed(order, byName)[k].name == r.name;
      assert i == k;
    } else {
      AbsentHasNoPosition(order, byName, r.name);
    }
  }

  lemma CutOrder(order: seq<string>, k: nat)
    requires NoDuplicates(order) && k < |order|
    ensures var order' := order[..k] + order[k + 1..];
      NoDuplicates(order') && forall m :: m in order' <==> m in order && m != order[k]
  {
    var order' := order[..k] + order[k + 1..];
    forall m | m in order && m != order[k] ensures m in order' {
      var i :| 0 <= i < |order| && order[i] == m;
      assert order'[if i < k then i else i - 1] == m;
    }
  }

  lemma ListedNames(order: seq<string>, byName: map<string, DenyRule>)
    requires Indexed(order, byName)
    ensures forall j :: 0 <= j < |order| ==> order[j] in byName && Listed(order, byName)[j].name == order[j]
  {
    assert forall j :: 0 <= j < |order| ==> order[j] in order;
  }

  lemma ListedRemove(order: seq<string>, byName: map<string, DenyRule>, k: nat)
    requires Indexed(order, byName) && k < |order|
    ensures Indexed(order[..k] + order[k + 1..], byName - {order[k]})
    ensures Listed(order[..k] + order[k + 1..], byName - {order[k]}) == Without(Listed(order, byName), order[k])
  {
    CutOrder(order, k);
    ListedNames(order, byName);
    assert Position(Listed(order, byName), order[k]) == k;
    CutListed(order, byName, k, order[..k] + order[k + 1..]);
  }

  lemma CutListed(order: seq<string>, byName: map<string, DenyRule>, k: nat, rest: seq<string>)
    requires k < |order| && NoDuplicates(order) && rest == order[..k] + order[k + 1..]
    requires forall i :: 0 <= i < |order| ==> order[i] in byName
    requires forall i :: 0 <= i < |rest| ==> rest[i] in byName - {order[k]}
    ensures Listed(rest, byName - {order[k]}) == Listed(order, byName)[..k] + Listed(order, byName)[k + 1..]
  {}

  /** One change against the two maps, the order list and the mode. */
  method ProjectOne(m: Meaning, levels: map<string, TrustLevel>, byName: map<string, DenyRule>, order: seq<string>,
      mode: Option<AskPolicy>)
    returns (levels': map<string, TrustLevel>, byName': map<string, DenyRule>, order': seq<string>,
          mode': Option<AskPolicy>)
    requires Indexed(order, byName)
    ensures Indexed(order', byName')
    ensures Overlay(levels', Listed(order', byName'), mode') == Effect(Overlay(levels, Listed(order, byName), mode), m)
  {
    levels', byName', order', mode' := levels, byName, order, mode;
    match m {
      case Nothing =>
      case ModeIs(p) =>
        mode' := Some(p);
      case LevelIs(c, l) =>
        levels' := levels[c := l];
      case Deny(r) =>
        ListedAdd(order, byName, r);
        if r.name !in byName {
          order' := order + [r.name];
        }
        byName' := byName[r.name := r];
      case Undeny(n) =>
        if n in byName {
          var i := 0;
          while order[i] != n
            invariant 0 <= i < |order| && n in order[i..]
            decreases |order| - i
          {
            i := i + 1;
          }
          ListedRemove(order, byName, i);
          byName' := byName - {n};
          order' := order[..i] + order[i + 1..];
        } else {
          AbsentHasNoPosition(order, byName, n);
        }
    }
  }

  method ProjectPolicyChanges(changes: seq<Change>, lower: char -> char) returns (overlay: Overlay)
    ensures overlay == Fold(changes, lower)
  {
    var levels: map<string, TrustLevel>, byName: map<string, DenyRule>, order: seq<string> := map[], map[], [];
    var mode: Option<AskPolicy> := None;
    var k := 0;
    while k < |changes|
      invariant 0 <= k <= |changes| && Indexed(order, byName)
      invariant Fold(changes[..k], lower) == Overlay(levels, Listed(order, byName), mode)
    {
      FoldOneMore(changes, k, lower);
      levels, byName, order, mode := ProjectOne(Means(changes[k], lower), levels, byName, order, mode);
      k := k + 1;
    }
    assert changes[..|changes|] == changes;
    overlay := Overlay(levels, Listed(order, byName), mode);
  }

  lemma FoldOneMore(changes: seq<Change>, k: nat, lower: char -> char)
    requires k < |changes|
    ensures Fold(changes[..k + 1], lower) == Effect(Fold(changes[..k], lower), Means(changes[k], lower))
  {
    assert Meanings(changes[..k + 1], lower) == Meanings(changes[..k], lower) + [Means(changes[k], lower)];
    FoldSnoc(EMPTY, Meanings(changes[..k], lower), Means(changes[k], lower));
  }

  // ---------- what the fold means: the last word counts ----------

  predicate SetsLevel(m: Meaning, c: string) { m.LevelIs? && m.capability == c }

  predicate AboutRule(m: Meaning, n: string) {
    (m.Deny? && m.rule.name == n) || (m.Undeny? && m.name == n)
  }

  /** A capability nobody set has no override; one that was set has the last level given. */
  lemma {:induction false} LevelIsLastWord(ms: seq<Meaning>, c: string, k: int)
    requires -1 <= k < |ms| && (k >= 0 ==> SetsLevel(ms[k], c))
    requires forall j :: k < j < |ms| ==> !SetsLevel(ms[j], c)
    ensures var levels := FoldFrom(EMPTY, ms).levels;
      if k < 0 then c !in levels else c in levels && levels[c] == ms[k].l
  {
    if 0 <= k < |ms| - 1 || (k < 0 && ms != []) {
      LevelIsLastWord(ms[..|ms| - 1], c, k);
    }
  }

  lemma {:induction false} ModeIsLastWord(ms: seq<Meaning>, k: int)
    requires -1 <= k < |ms| && (k >= 0 ==> ms[k].ModeIs?)
    requires forall j :: k < j < |ms| ==> !ms[j].ModeIs?
    ensures FoldFrom(EMPTY, ms).mode == if k < 0 then None else Some(ms[k].p)
  {
    if 0 <= k < |ms| - 1 || (k < 0 && ms != []) {
      ModeIsLastWord(ms[..|ms| - 1], k);
    }
  }

  predicate DistinctNames(rules: seq<DenyRule>) {
    forall i, j :: 0 <= i < j < |rules| ==> rules[i].name != rules[j].name
  }

  lemma UpsertRules(rules: seq<DenyRule>, r: DenyRule)
    requires DistinctNames(rules)
    ensures DistinctNames(Upsert(rules, r))
    ensures forall x :: x in Upsert(rules, r) <==> x == r || (x in rules && x.name != r.name)
  {
    var i := Position(rules, r.name);
    var out := Upsert(rules, r);
    assert out[i] == r;
    forall x | x in rules && x.name != r.name ensures x in out {
      var j :| 0 <= j < |rules| && rules[j] == x;
      assert out[j] == x;
    }
  }

  lemma WithoutRules(rules: seq<DenyRule>, n: string)
    requires DistinctNames(rules)
    ensures DistinctNames(Without(rules, n))
    ensures forall x :: x in Without(rules, n) <==> x in rules && x.name != n
  {
    var i := Position(rules, n);
    var out := Without(rules, n);
    hide Position;
    if i < |rules| {
      forall j | 0 <= j < |out| ensures out[j] in rules && out[j].name != n {
        assert out[j] == rules[if j < i then j else j + 1];
      }
      forall x | x in rules && x.name != n ensures x in out {
        var j :| 0 <= j < |rules| && rules[j] == x;
        assert out[if j < i then j else j - 1] == x;
      }
    }
  }

  lemma {:induction false} FoldHasDistinctNames(ms: seq<Meaning>)
    ensures DistinctNames(FoldFrom(EMPTY, ms).denyRules)
  {
    if ms != [] {
      FoldHasDistinctNames(ms[..|ms| - 1]);
      var before := FoldFrom(EMPTY, ms[..|ms| - 1]).denyRules;
      match ms[|ms| - 1] {
        case Deny(r) => UpsertRules(before, r);
        case Undeny(n) => WithoutRules(before, n);
        case _ =>
      }
    }
  }

  /** A deny rule survives exactly when the last change about its name adds it, and then
      it is what that change says. */
  lemma {:induction false} RuleIsLastWord(ms: seq<Meaning>, x: DenyRule, k: int)
    requires -1 <= k < |ms| && (k >= 0 ==> AboutRule(ms[k], x.name))
    requires forall j :: k < j < |ms| ==> !AboutRule(ms[j], x.name)
    ensures x in FoldFrom(EMPTY, ms).denyRules <==> k >= 0 && ms[k] == Deny(x)
  {
    if ms != [] {
      var s, last := ms[..|ms| - 1], ms[|ms| - 1];
      if k < |s| {
        RuleIsLastWord(s, x, k);
      }
      FoldHasDistinctNames(s);
      match last {
        case Deny(r) => UpsertRules(FoldFrom(EMPTY, s).denyRules, r);
        case Undeny(n) => WithoutRules(FoldFrom(EMPTY, s).denyRules, n);
        case _ =>
      }
    }
  }

  // ---------- surviving rules keep the order they were added in ----------

  /** Where the rule of that name was added that is there now; negative if none is. Adding it again while
      it is there is no new addition. */
  function AddedAt(ms: seq<Meaning>, name: string): int {
    if ms == [] then -1
    else
      var s, last := ms[..|ms| - 1], ms[|ms| - 1];
      if last == Undeny(name) then -1
      else if last.Deny? && last.rule.name == name && AddedAt(s, name) < 0 then |s|
      else AddedAt(s, name)
  }

  lemma AddedAtSnoc(s: seq<Meaning>, m: Meaning, name: string)
    ensures AddedAt(s + [m], name)
         == if m == Undeny(name) then -1
            else if m.Deny? && m.rule.name == name && AddedAt(s, name) < 0 then |s| else AddedAt(s, name)
  {
    assert (s + [m])[..|s|] == s;
  }

  predicate InAddOrder(rules: seq<DenyRule>, ms: seq<Meaning>) {
    && (forall i :: 0 <= i < |rules| ==> 0 <= AddedAt(ms, rules[i].name) < |ms|)
    && (forall i, j :: 0 <= i < j < |rules| ==> AddedAt(ms, rules[i].name) < AddedAt(ms, rules[j].name))
  }

  predicate Named(rules: seq<DenyRule>, name: string) { exists i :: 0 <= i < |rules| && rules[i].name == name }

  /** The names there are those added and not removed since, in the order of the additions. */
  lemma {:induction false} SurvivorsKeepAddOrder(ms: seq<Meaning>)
    ensures var rules := FoldFrom(EMPTY, ms).denyRules;
      InAddOrder(rules, ms) && forall name :: Named(rules, name) <==> AddedAt(ms, name) >= 0
  {
    if ms != [] {
      var s, m := ms[..|ms| - 1], ms[|ms| - 1];
      assert ms == s + [m];
      SurvivorsKeepAddOrder(s);
      FoldHasDistinctNames(s);
      hide AddedAt, Named, Position, InAddOrder;
      var before := FoldFrom(EMPTY, s).denyRules;
      forall name ensures AddedAt(ms, name)
                       == if m == Undeny(name) then -1
                          else if m.Deny? && m.rule.name == name && AddedAt(s, name) < 0 then |s| else AddedAt(s, name)
      {
        AddedAtSnoc(s, m, name);
      }
      match m {
        case Deny(r) => UpsertKeepsOrder(before, r, s);
        case Undeny(n) => WithoutKeepsOrder(before, n, s);
        case _ => OrderStays(before, s, m);
      }
    }
  }

  lemma OrderStays(rules: seq<DenyRule>, s: seq<Meaning>, m: Meaning)
    requires InAddOrder(rules, s)
    requires forall i :: 0 <= i < |rules| ==> AddedAt(s + [m], rules[i].name) == AddedAt(s, rules[i].name)
    ensures InAddOrder(rules, s + [m])
  {
    hide AddedAt;
  }

  lemma UpsertKeepsOrder(rules: seq<DenyRule>, r: DenyRule, s: seq<Meaning>)
    requires DistinctNames(rules)
    requires InAddOrder(rules, s) && forall name :: Named(rules, name) <==> AddedAt(s, name) >= 0
    ensures var out := Upsert(rules, r);
      InAddOrder(out, s + [Deny(r)]) && forall name :: Named(out, name) <==> Named(rules, name) || name == r.name
  {
    hide AddedAt;
    var k, out := Position(rules, r.name), Upsert(rules, r);
    hide Position;
    forall name ensures AddedAt(s + [Deny(r)], name)
                     == if r.name == name && AddedAt(s, name) < 0 then |s| else AddedAt(s, name)
    {
      AddedAtSnoc(s, Deny(r), name);
    }
    if k < |rules| {
      forall i | 0 <= i < |rules| ensures out[i].name == rules[i].name {}
      forall i | 0 <= i < |rules| ensures Named(rules, rules[i].name) {}
    } else {
      assert out == rules + [r];
      forall i | 0 <= i < |rules| ensures Named(rules, rules[i].name) {}
      assert !Named(rules, r.name);
    }
    UpsertNames(rules, r);
    hide Named;
  }

  lemma UpsertNames(rules: seq<DenyRule>, r: DenyRule)
    requires DistinctNames(rules)
    ensures forall name :: Named(Upsert(rules, r), name) <==> Named(rules, name) || name == r.name
  {
    UpsertRules(rules, r);
    forall name ensures Named(Upsert(rules, r), name) <==> Named(rules, name) || name == r.name {
      NamedIff(rules, name);
      NamedIff(Upsert(rules, r), name);
    }
    hide Upsert, Named;
  }

  lemma WithoutKeepsOrder(rules: seq<DenyRule>, n: string, s: seq<Meaning>)
    requires DistinctNames(rules)
    requires InAddOrder(rules, s) && forall name :: Named(rules, name) <==> AddedAt(s, name) >= 0
    ensures var out := Without(rules, n);
      InAddOrder(out, s + [Undeny(n)]) && forall name :: Named(out, name) <==> Named(rules, name) && name != n
  {
    hide AddedAt;
    var k, out := Position(rules, n), Without(rules, n);
    hide Position;
    forall name ensures AddedAt(s + [Undeny(n)], name) == if name == n then -1 else AddedAt(s, name) {
      AddedAtSnoc(s, Undeny(n), name);
    }
    if k < |rules| {
      forall i | 0 <= i < |out| ensures out[i] == rules[if i < k then i else i + 1] {}
      forall i | 0 <= i < |out| ensures out[i].name != n {}
    }
    WithoutNames(rules, n);
    hide Named, DistinctNames;
  }

  lemma WithoutNames(rules: seq<DenyRule>, n: string)
    requires DistinctNames(rules)
    ensures forall name :: Named(Without(rules, n), name) <==> Named(rules, name) && name != n
  {
    WithoutRules(rules, n);
    forall name ensures Named(Without(rules, n), name) <==> Named(rules, name) && name != n {
      NamedIff(rules, name);
      NamedIff(Without(rules, n), name);
    }
    hide Without, Named;
  }

  lemma NamedIff(rules: seq<DenyRule>, name: string)
    ensures Named(rules, name) <==> exists r :: r in rules && r.name == name
  {
    if i :| 0 <= i < |rules| && rules[i].name == name { assert rules[i] in rules; }
  }

  // ---------- the compact list ----------

  predicate ProperRule(r: DenyRule) {
    r.name != "" && !IsBlank(r.substring) && "" !in r.appliesTo
  }

  /** What every fold produces, and what survives being written out and read back. */
  predicate WellFormed(o: Overlay) {
    && "" !in o.levels
    && DistinctNames(o.denyRules)
    && forall r :: r in o.denyRules ==> ProperRule(r)
  }

  predicate Proper(m: Meaning) {
    match m
    case LevelIs(c, _) => c != ""
    case Deny(r) => ProperRule(r)
    case _ => true
  }

  lemma MeaningIsProper(ch: Change, lower: char -> char)
    ensures Proper(Means(ch, lower))
  {
    FilterMembers(ch.appliesTo, NonEmpty());
  }

  lemma {:induction false} ProperFoldIsWellFormed(ms: seq<Meaning>)
    requires forall i :: 0 <= i < |ms| ==> Proper(ms[i])
    ensures WellFormed(FoldFrom(EMPTY, ms))
  {
    if ms != [] {
      var s, last := ms[..|ms| - 1], ms[|ms| - 1];
      ProperFoldIsWellFormed(s);
      var before := FoldFrom(EMPTY, s).denyRules;
      match last {
        case Deny(r) => UpsertRules(before, r);
        case Undeny(m) => WithoutRules(before, m);
        case _ =>
      }
    }
  }

  lemma FoldIsWellFormed(changes: seq<Change>, lower: char -> char)
    ensures WellFormed(Fold(changes, lower))
  {
    forall i | 0 <= i < |changes| ensures Proper(Means(changes[i], lower)) {
      MeaningIsProper(changes[i], lower);
    }
    ProperFoldIsWellFormed(Meanings(changes, lower));
  }

  function ModeChanges(mode: Option<AskPolicy>): seq<Change> {
    match mode
    case None => []
    case Some(p) => [Change("mode.set", "", ModeText(p), "", "", [])]
  }

  predicate AllIn(caps: seq<string>, levels: map<string, TrustLevel>) {
    forall i :: 0 <= i < |caps| ==> caps[i] in levels
  }

  function LevelChange(c: string, l: TrustLevel): Change { Change("level.set", c, LevelText(l), "", "", []) }

  function LevelChanges(caps: seq<string>, levels: map<string, TrustLevel>): seq<Change>
    requires AllIn(caps, levels)
  {
    seq(|caps|, i requires 0 <= i < |caps| => LevelChange(caps[i], levels[caps[i]]))
  }

  function RuleChange(r: DenyRule): Change { Change("deny.add", "", "", r.name, r.substring, r.appliesTo) }

  function RuleChanges(rules: seq<DenyRule>): seq<Change> {
    seq(|rules|, i requires 0 <= i < |rules| => RuleChange(rules[i]))
  }

  /** `out` is the overlay written out: mode, levels in capability order, rules in theirs. */
  ghost predicate IsWrittenOut(o: Overlay, out: seq<Change>) {
    exists caps: seq<string> ::
      && Sorted(caps, TextLeq) && multiset(caps) == multiset(o.levels.Keys)
      && AllIn(caps, o.levels)
      && out == ModeChanges(o.mode) + LevelChanges(caps, o.levels) + RuleChanges(o.denyRules)
  }

  method ToChanges(o: Overlay) returns (out: seq<Change>)
    ensures IsWrittenOut(o, out)
  {
    var caps: seq<string>, rest := [], o.levels.Keys;
    while rest != {}
      invariant multiset(caps) + multiset(rest) == multiset(o.levels.Keys)
      decreases rest
    {
      var c :| c in rest;
      caps, rest := caps + [c], rest - {c};
    }
    TextLeqIsTotal();
    SortIsSortedPermutation(caps, TextLeq);
    caps := SortBy(caps, TextLeq);
    KeysOnly(caps, o.levels);
    out := ModeChanges(o.mode) + LevelChanges(caps, o.levels) + RuleChanges(o.denyRules);
  }

  lemma KeysOnly(caps: seq<string>, levels: map<string, TrustLevel>)
    requires multiset(caps) == multiset(levels.Keys)
    ensures AllIn(caps, levels) && forall c :: c in levels ==> c in caps
  {
    forall i | 0 <= i < |caps| ensures caps[i] in levels {
      assert caps[i] in multiset(caps);
    }
    forall c | c in levels ensures c in caps {
      assert c in multiset(levels.Keys);
    }
  }

  /** The list is determined by the overlay, so its content hash is too. */
  lemma WrittenOutIsUnique(o: Overlay, out: seq<Change>, out': seq<Change>)
    requires IsWrittenOut(o, out) && IsWrittenOut(o, out')
    ensures out == out'
  {
    TextLeqIsTotal();
    forall caps: seq<string>, caps': seq<string> |
      Sorted(caps, TextLeq) && multiset(caps) == multiset(o.levels.Keys) &&
      Sorted(caps', TextLeq) && multiset(caps') == multiset(o.levels.Keys)
      ensures caps == caps'
    {
      SortedIsUnique(caps, caps', TextLeq);
    }
  }

  function LevelMeanings(caps: seq<string>, levels: map<string, TrustLevel>): seq<Meaning>
    requires AllIn(caps, levels)
  {
    seq(|caps|, i requires 0 <= i < |caps| => LevelIs(caps[i], levels[caps[i]]))
  }

  function RuleMeanings(rules: seq<DenyRule>): seq<Meaning> {
    seq(|rules|, i requires 0 <= i < |rules| => Deny(rules[i]))
  }

  lemma LevelChangeMeans(c: string, l: TrustLevel, lower: char -> char)
    requires LowersAscii(lower) && c != ""
    ensures Means(LevelChange(c, l), lower) == LevelIs(c, l)
  {
    LevelTextParses(l, lower);
  }

  lemma RuleChangeMeans(r: DenyRule, lower: char -> char)
    requires ProperRule(r)
    ensures Means(RuleChange(r), lower) == Deny(r)
  {
    FilterAll(r.appliesTo, NonEmpty());
  }

  lemma LevelChangesMean(caps: seq<string>, levels: map<string, TrustLevel>, lower: char -> char)
    requires LowersAscii(lower) && "" !in levels && AllIn(caps, levels)
    ensures Meanings(LevelChanges(caps, levels), lower) == LevelMeanings(caps, levels)
  {
    forall i | 0 <= i < |caps| ensures Means(LevelChanges(caps, levels)[i], lower) == LevelMeanings(caps, levels)[i] {
      LevelChangeMeans(caps[i], levels[caps[i]], lower);
    }
  }

  lemma RuleChangesMean(rules: seq<DenyRule>, lower: char -> char)
    requires forall r :: r in rules ==> ProperRule(r)
    ensures Meanings(RuleChanges(rules), lower) == RuleMeanings(rules)
  {
    forall i | 0 <= i < |rules| ensures Means(RuleChanges(rules)[i], lower) == RuleMeanings(rules)[i] {
      assert rules[i] in rules;
      RuleChangeMeans(rules[i], lower);
    }
  }

  lemma FoldModeChanges(mode: Option<AskPolicy>, lower: char -> char)
    requires LowersAscii(lower)
    ensures Fold(ModeChanges(mode), lower) == EMPTY.(mode := mode)
  {
    if mode.Some? {
      ModeTextParses(mode.value, lower);
      assert Means(ModeChanges(mode)[0], lower) == ModeIs(mode.value);
      assert Meanings(ModeChanges(mode), lower) == [] + [ModeIs(mode.value)];
      FoldSnoc(EMPTY, [], ModeIs(mode.value));
    } else {
      assert Meanings(ModeChanges(mode), lower) == [];
    }
  }

  lemma {:induction false} FoldLevelMeanings(o: Overlay, caps: seq<string>, levels: map<string, TrustLevel>)
    requires AllIn(caps, levels) && o.levels == map[]
    ensures FoldFrom(o, LevelMeanings(caps, levels)) == o.(levels := map c | c in caps && c in levels :: levels[c])
  {
    if caps != [] {
      var s, c := caps[..|caps| - 1], caps[|caps| - 1];
      assert caps == s + [c];
      FoldLevelMeanings(o, s, levels);
      assert LevelMeanings(caps, levels) == LevelMeanings(s, levels) + [LevelIs(c, levels[c])];
      FoldSnoc(o, LevelMeanings(s, levels), LevelIs(c, levels[c]));
    }
  }

  lemma {:induction false} FoldRuleMeanings(o: Overlay, rules: seq<DenyRule>)
    requires o.denyRules == [] && DistinctNames(rules)
    ensures FoldFrom(o, RuleMeanings(rules)) == o.(denyRules := rules)
  {
    if rules != [] {
      var s, r := rules[..|rules| - 1], rules[|rules| - 1];
      assert rules == s + [r];
      FoldRuleMeanings(o, s);
      assert RuleMeanings(rules) == RuleMeanings(s) + [Deny(r)];
      FoldSnoc(o, RuleMeanings(s), Deny(r));
      assert Position(s, r.name) == |s|;
    }
  }

  /** Written out and folded again, an overlay is itself. */
  lemma WrittenOutFoldsBack(o: Overlay, out: seq<Change>, lower: char -> char)
    requires LowersAscii(lower) && WellFormed(o) && IsWrittenOut(o, out)
    ensures Fold(out, lower) == o
  {
    var caps: seq<string> :|
      && Sorted(caps, TextLeq) && multiset(caps) == multiset(o.levels.Keys)
      && AllIn(caps, o.levels)
      && out == ModeChanges(o.mode) + LevelChanges(caps, o.levels) + RuleChanges(o.denyRules);
    KeysOnly(caps, o.levels);
    hide *;
    hide Fold;
    var m, l, d := ModeChanges(o.mode), LevelChanges(caps, o.levels), RuleChanges(o.denyRules);
    FoldAppend(m + l, d, lower);
    FoldAppend(m, l, lower);
    FoldModeChanges(o.mode, lower);
    LevelsFoldBack(EMPTY.(mode := o.mode), caps, o.levels, lower);
    RulesFoldBack(EMPTY.(mode := o.mode, levels := o.levels), o.denyRules, lower);
  }

  lemma LevelsFoldBack(o: Overlay, caps: seq<string>, levels: map<string, TrustLevel>, lower: char -> char)
    requires LowersAscii(lower) && "" !in levels && o.levels == map[]
    requires AllIn(caps, levels) && forall c :: c in levels ==> c in caps
    ensures FoldFrom(o, Meanings(LevelChanges(caps, levels), lower)) == o.(levels := levels)
  {
    LevelChangesMean(caps, levels, lower);
    FoldLevelMeanings(o, caps, levels);
    assert (map c | c in caps && c in levels :: levels[c]) == levels;
  }

  lemma RulesFoldBack(o: Overlay, rules: seq<DenyRule>, lower: char -> char)
    requires o.denyRules == [] && DistinctNames(rules) && forall r :: r in rules ==> ProperRule(r)
    ensures FoldFrom(o, Meanings(RuleChanges(rules), lower)) == o.(denyRules := rules)
  {
    RuleChangesMean(rules, lower);
    FoldRuleMeanings(o, rules);
  }

  lemma FoldAppend(s: seq<Change>, t: seq<Change>, lower: char -> char)
    ensures Fold(s + t, lower) == FoldFrom(Fold(s, lower), Meanings(t, lower))
  {
    hide FoldFrom, Meanings;
    MeaningsConcat(s, t, lower);
    FoldConcat(EMPTY, Meanings(s, lower), Meanings(t, lower));
  }

  /** Resuming from the written-out list is replaying the whole history. */
  lemma ResumedFoldIsFullFold(history: seq<Change>, out: seq<Change>, later: seq<Change>, lower: char -> char)
    requires LowersAscii(lower) && IsWrittenOut(Fold(history, lower), out)
    ensures Fold(out + later, lower) == Fold(history + later, lower)
  {
    FoldIsWellFormed(history, lower);
    WrittenOutFoldsBack(Fold(history, lower), out, lower);
    FoldAppend(out, later, lower);
    FoldAppend(history, later, lower);
  }
}
