/** Subjects of board messages (cmd/agezt/main_pulse_artifacts.go, cmd/agezt/main.go). */
module BoardSubject {
  import opened Text

  predicate IsLetterOrDigit(c: char) { 'a' <= c <= 'z' || '0' <= c <= '9' }

  /** What a subject may spell as it is. */
  predicate IsPlain(c: char) { IsLetterOrDigit(c) || c == '_' || c == '-' }

  predicate IsDash(c: char) { c == '-' }

  /** Lower-case letters, digits, underscore and dash, of ASCII. */
  lemma PlainIff(c: char)
    ensures IsPlain(c) <==> var n := c as int; 97 <= n <= 122 || 48 <= n <= 57 || n == 95 || n == 45
  {}

  const UNTOPICED := "untopiced"

  // ---------- the slug ----------

  /** Runs of other characters become one dash each. */
  function Dashed(s: string): string {
    if s == [] then []
    else
      var before, c := Dashed(s[..|s| - 1]), s[|s| - 1];
      if IsPlain(c) then before + [c] else if AfterDash(s[..|s| - 1]) then before else before + "-"
  }

  /** The last character written stands for something that is not plain. A dash of the topic's
      own does not count. */
  predicate AfterDash(s: string) { s != [] && !IsPlain(s[|s| - 1]) }

  function Slug(topic: string, lower: char -> char): string {
    var s := Trim(Dashed(Map(TrimSpace(topic), lower)), IsDash);
    if s == "" then UNTOPICED else s
  }

  method BoardSubjectSlug(topic: string, lower: char -> char) returns (slug: string)
    ensures slug == Slug(topic, lower)
  {
    hide TrimSpace, Trim, Map, Dashed, AfterDash;
    var text, b, lastDash := Map(TrimSpace(topic), lower), "", false;
    NothingDashed();
    for i := 0 to |text|
      invariant b == Dashed(text[..i]) && lastDash == AfterDash(text[..i])
    {
      var r := text[i];
      DashedSnoc(text[..i], r);
      assert text[..i + 1] == text[..i] + [r];
      if ('a' <= r <= 'z') || ('0' <= r <= '9') || r == '_' || r == '-' {
        b, lastDash := b + [r], false;
      } else if !lastDash {
        b, lastDash := b + "-", true;
      }
    }
    assert text[..|text|] == text;
    slug := Trim(b, IsDash);
    if slug == "" { slug := UNTOPICED; }
  }

  lemma NothingDashed()
    ensures Dashed("") == "" && !AfterDash("")
  {}

  lemma DashedSnoc(s: string, c: char)
    ensures Dashed(s + [c])
         == if IsPlain(c) then Dashed(s) + [c] else if AfterDash(s) then Dashed(s) else Dashed(s) + "-"
    ensures AfterDash(s + [c]) == !IsPlain(c)
  {
    hide IsPlain;
    assert (s + [c])[..|s|] == s;
  }

  // ---------- what a slug looks like ----------

  predicate AllPlain(s: string) { forall i :: 0 <= i < |s| ==> IsPlain(s[i]) }

  /** A non-empty word over [a-z0-9_-] with no dash at either end. */
  predicate IsSlug(s: string) { s != "" && AllPlain(s) && s[0] != '-' && s[|s| - 1] != '-' }

  lemma {:induction false} DashedIsPlain(s: string)
    ensures AllPlain(Dashed(s))
  {
    if s != [] { DashedIsPlain(s[..|s| - 1]); }
  }

  lemma {:induction false} DashedKeepsPlain(s: string)
    requires AllPlain(s)
    ensures Dashed(s) == s
  {
    if s != [] {
      DashedKeepsPlain(s[..|s| - 1]);
      assert s == s[..|s| - 1] + [s[|s| - 1]];
    }
  }

  lemma {:induction false} TrimLeftKeeps(s: string, cut: char -> bool)
    requires AllPlain(s)
    ensures AllPlain(TrimLeft(s, cut))
  {
    if s != [] && cut(s[0]) { TrimLeftKeeps(s[1..], cut); }
  }

  lemma {:induction false} TrimRightKeeps(s: string, cut: char -> bool)
    requires AllPlain(s)
    ensures AllPlain(TrimRight(s, cut))
  {
    if s != [] && cut(s[|s| - 1]) { TrimRightKeeps(s[..|s| - 1], cut); }
  }

  /** Every topic has a proper slug. */
  lemma SlugIsSlug(topic: string, lower: char -> char)
    ensures IsSlug(Slug(topic, lower))
  {
    hide Dashed, Map, TrimLeft, TrimRight, TrimSpace, AllPlain;
    var d := Dashed(Map(TrimSpace(topic), lower));
    DashedIsPlain(Map(TrimSpace(topic), lower));
    TrimLeftKeeps(d, IsDash);
    TrimRightKeeps(TrimLeft(d, IsDash), IsDash);
    assert AllPlain(Trim(d, IsDash));
    UntopicedIsSlug();
  }

  lemma UntopicedIsSlug()
    ensures IsSlug(UNTOPICED)
  {}

  lemma LowerFixesPlain(s: string, lower: char -> char)
    requires LowersAscii(lower) && AllPlain(s)
    ensures Map(s, lower) == s
  {
    forall i | 0 <= i < |s| ensures lower(s[i]) == s[i] {
      assert IsPlain(s[i]);
    }
  }

  /** The slugs are exactly the words the function leaves alone. */
  lemma FixedIff(s: string, lower: char -> char)
    requires LowersAscii(lower)
    ensures Slug(s, lower) == s <==> IsSlug(s)
  {
    if IsSlug(s) {
      assert IsPlain(s[0]) && IsPlain(s[|s| - 1]);
      TrimFixed(s, IsSpace);
      LowerFixesPlain(s, lower);
      DashedKeepsPlain(s);
      TrimFixed(s, IsDash);
    } else {
      SlugIsSlug(s, lower);
    }
  }

  /** A slug's slug is itself. */
  lemma SlugIsIdempotent(topic: string, lower: char -> char)
    requires LowersAscii(lower)
    ensures Slug(Slug(topic, lower), lower) == Slug(topic, lower)
  {
    SlugIsSlug(topic, lower);
    FixedIff(Slug(topic, lower), lower);
  }

  predicate NonePlain(s: string) { forall i :: 0 <= i < |s| ==> !IsPlain(s[i]) }

  lemma {:induction false} DashedGap(s: string, gap: string)
    requires NonePlain(gap) && gap != "" && !AfterDash(s)
    ensures Dashed(s + gap) == Dashed(s) + "-" && AfterDash(s + gap)
  {
    hide IsPlain;
    var shorter, c := gap[..|gap| - 1], gap[|gap| - 1];
    assert s + gap == (s + shorter) + [c];
    DashedSnoc(s + shorter, c);
    if shorter != "" { DashedGap(s, shorter); } else { assert s + shorter == s; }
  }

  lemma {:induction false} DashedWord(s: string, word: string)
    requires AllPlain(word)
    ensures Dashed(s + word) == Dashed(s) + word
  {
    hide IsPlain;
    if word == "" {
      assert s + word == s;
    } else {
      var shorter, c := word[..|word| - 1], word[|word| - 1];
      assert s + word == (s + shorter) + [c] && word == shorter + [c];
      DashedWord(s, shorter);
      DashedSnoc(s + shorter, c);
    }
  }

  lemma MapConcat(s: string, t: string, f: char -> char)
    ensures Map(s + t, f) == Map(s, f) + Map(t, f)
  {}

  /** Nothing but the gaps is changed: whatever stands between two slugs becomes one dash. */
  lemma GapBecomesOneDash(v: string, gap: string, w: string, lower: char -> char)
    requires LowersAscii(lower) && IsSlug(v) && IsSlug(w)
    requires gap != "" && NonePlain(Map(gap, lower))
    ensures Slug(v + gap + w, lower) == v + "-" + w
  {
    var text := v + gap + w;
    assert text[0] == v[0] && text[|text| - 1] == w[|w| - 1] && IsPlain(v[0]) && IsPlain(w[|w| - 1]);
    TrimFixed(text, IsSpace);
    LowerFixesPlain(v, lower);
    LowerFixesPlain(w, lower);
    assert !AfterDash(v) by { assert IsPlain(v[|v| - 1]); }
    DashedKeepsPlain(v);
    hide IsSpace, Trim, Dashed, Map, AfterDash, IsPlain;
    MapConcat(v + gap, w, lower);
    MapConcat(v, gap, lower);
    DashedGap(v, Map(gap, lower));
    DashedWord(v + Map(gap, lower), w);
    var d := v + "-" + w;
    assert d[0] == v[0] && d[|d| - 1] == w[|w| - 1];
    TrimFixed(d, IsDash);
  }

  // ---------- routing ----------

  const EVERYONE := "*"

  datatype Message = Message(topic: string, to: string, help: bool)

  datatype Route = Topic(slug: string) | Help | HelpFor(slug: string) | Broadcast | Direct(slug: string)

  /** Help takes precedence; then everyone, then one recipient, then the topic. */
  function RouteOf(m: Message, lower: char -> char): Route {
    if m.help && m.to != "" && m.to != EVERYONE then HelpFor(Slug(m.to, lower))
    else if m.help then Help
    else if m.to == EVERYONE then Broadcast
    else if m.to != "" then Direct(Slug(m.to, lower))
    else Topic(Slug(m.topic, lower))
  }

  function Subject(r: Route): string {
    match r
    case Topic(slug) => "board." + slug
    case Help => "board.help"
    case HelpFor(slug) => "board.help." + slug
    case Broadcast => "board.broadcast"
    case Direct(slug) => "board.dm." + slug
  }

  method BoardNotify(m: Message, lower: char -> char) returns (subject: string)
    ensures subject == Subject(RouteOf(m, lower))
  {
    var slug := BoardSubjectSlug(m.topic, lower);
    subject := "board." + slug;
    if m.help && m.to != "" && m.to != EVERYONE {
      slug := BoardSubjectSlug(m.to, lower);
      subject := "board.help." + slug;
    } else if m.help {
      subject := "board.help";
    } else if m.to == EVERYONE {
      subject := "board.broadcast";
    } else if m.to != "" {
      slug := BoardSubjectSlug(m.to, lower);
      subject := "board.dm." + slug;
    }
  }

  /** A call for help goes to one recipient or to all who watch for help, anything else to everyone, to one
      recipient, or to those who follow the topic. */
  lemma RoutedTo(m: Message, lower: char -> char)
    ensures var subject, to := Subject(RouteOf(m, lower)), Slug(m.to, lower);
      if m.to == "" then subject == "board." + if m.help then "help" else Slug(m.topic, lower)
      else if m.to == "*" then subject == if m.help then "board.help" else "board.broadcast"
      else subject == (if m.help then "board.help." else "board.dm.") + to
  {
    hide Slug;
    assert "board." + "help" == "board.help";
  }

  /** Two messages share a subject only if they are routed alike, but for a plain topic whose slug
      is `help` or `broadcast`. */
  lemma SameSubjectIff(a: Message, b: Message, lower: char -> char)
    ensures Subject(RouteOf(a, lower)) == Subject(RouteOf(b, lower))
       <==> Unmistaken(RouteOf(a, lower)) == Unmistaken(RouteOf(b, lower))
  {
    RouteHasSlug(a, lower);
    RouteHasSlug(b, lower);
    SubjectsApart(RouteOf(a, lower), RouteOf(b, lower));
  }

  /** What a watcher takes the subject for. */
  function Unmistaken(r: Route): Route {
    if r == Topic("help") then Help else if r == Topic("broadcast") then Broadcast else r
  }

  predicate Slugged(r: Route) {
    match r
    case Topic(slug) => IsSlug(slug)
    case HelpFor(slug) => IsSlug(slug)
    case Direct(slug) => IsSlug(slug)
    case _ => true
  }

  lemma RouteHasSlug(m: Message, lower: char -> char)
    ensures Slugged(RouteOf(m, lower))
  {
    SlugIsSlug(m.topic, lower);
    SlugIsSlug(m.to, lower);
    hide Slug, IsSlug;
  }

  /** After "board.": one word, or two with a point between. */
  function Tail(r: Route): (string, string) {
    match r
    case Topic(slug) => (slug, "")
    case Help => ("help", "")
    case HelpFor(slug) => ("help", slug)
    case Broadcast => ("broadcast", "")
    case Direct(slug) => ("dm", slug)
  }

  function Dotted(t: (string, string)): string { if t.1 == "" then t.0 else t.0 + "." + t.1 }

  lemma SubjectIsDotted(r: Route)
    requires Slugged(r)
    ensures Subject(r) == "board." + Dotted(Tail(r))
    ensures AllPlain(Tail(r).0) && AllPlain(Tail(r).1)
  {}

  lemma DottedIsInjective(s: (string, string), t: (string, string))
    requires AllPlain(s.0) && AllPlain(s.1) && AllPlain(t.0) && AllPlain(t.1)
    requires Dotted(s) == Dotted(t)
    ensures s == t
  {
    if |s.0| < |t.0| {
      PointApart(s, t);
    } else if |t.0| < |s.0| {
      PointApart(t, s);
    } else {
      assert s.0 == Dotted(s)[..|s.0|] && t.0 == Dotted(t)[..|t.0|];
      assert s.1 != "" ==> s.1 == Dotted(s)[|s.0| + 1..];
      assert t.1 != "" ==> t.1 == Dotted(t)[|t.0| + 1..];
    }
  }

  lemma PointApart(s: (string, string), t: (string, string))
    requires AllPlain(s.0) && AllPlain(t.0) && |s.0| < |t.0|
    ensures Dotted(s) != Dotted(t)
  {
    assert Dotted(t)[|s.0|] == t.0[|s.0|] && IsPlain(t.0[|s.0|]);
    assert s.1 != "" ==> Dotted(s)[|s.0|] == '.';
  }

  lemma SubjectsApart(r: Route, q: Route)
    requires Slugged(r) && Slugged(q)
    ensures Subject(r) == Subject(q) <==> Unmistaken(r) == Unmistaken(q)
  {
    SubjectIsDotted(r);
    SubjectIsDotted(q);
    TailsApart(r, q);
    hide Subject, Tail, Slugged, AllPlain;
    if Subject(r) == Subject(q) {
      SamePrefix("board.", Dotted(Tail(r)), Dotted(Tail(q)));
      DottedIsInjective(Tail(r), Tail(q));
    }
  }

  lemma SamePrefix(p: string, s: string, t: string)
    requires p + s == p + t
    ensures s == t
  {
    assert s == (p + s)[|p|..] && t == (p + t)[|p|..];
  }

  lemma TailsApart(r: Route, q: Route)
    requires Slugged(r) && Slugged(q)
    ensures Tail(r) == Tail(q) <==> Unmistaken(r) == Unmistaken(q)
  {
    hide AllPlain;
  }

  /** No plain topic can pass for a message addressed to an agent or a call for its help. */
  lemma TopicIsNeverAddressed(m: Message, slug: string, lower: char -> char)
    requires m.to == "" && !m.help
    ensures Subject(RouteOf(m, lower)) != "board.dm." + slug && Subject(RouteOf(m, lower)) != "board.help." + slug
  {
    SlugIsSlug(m.topic, lower);
    hide Slug;
    var s := Slug(m.topic, lower);
    PlainHasNoPoint(s, "dm", slug);
    PlainHasNoPoint(s, "help", slug);
    assert "board.dm." + slug == "board." + ("dm" + "." + slug);
    assert "board.help." + slug == "board." + ("help" + "." + slug);
    if "board." + s == "board.dm." + slug { SamePrefix("board.", s, "dm" + "." + slug); }
    if "board." + s == "board.help." + slug { SamePrefix("board.", s, "help" + "." + slug); }
  }

  lemma PlainHasNoPoint(s: string, word: string, rest: string)
    requires AllPlain(s)
    ensures s != word + "." + rest
  {
    assert (word + "." + rest)[|word|] == '.';
  }

  /** A plain topic is taken for a call for help, or for a broadcast, exactly if its slug says so. */
  lemma TopicIsMistakenIff(m: Message, lower: char -> char)
    requires m.to == "" && !m.help
    ensures Subject(RouteOf(m, lower)) == Subject(Help) <==> Slug(m.topic, lower) == "help"
    ensures Subject(RouteOf(m, lower)) == Subject(Broadcast) <==> Slug(m.topic, lower) == "broadcast"
  {
    RouteHasSlug(m, lower);
    SubjectsApart(RouteOf(m, lower), Help);
    SubjectsApart(RouteOf(m, lower), Broadcast);
  }

  /** "help" is such a topic. */
  lemma HelpTopicIsMistaken(lower: char -> char)
    requires LowersAscii(lower)
    ensures Subject(RouteOf(Message("help", "", false), lower)) == Subject(RouteOf(Message("any", "", true), lower))
  {
    hide Slug, LowersAscii;
    assert IsSlug("help");
    FixedIff("help", lower);
  }
}
