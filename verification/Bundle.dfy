/** Export bundles: making them, verifying them offline, importing them
    (cmd/agt/journal_export.go, journal_verify.go, journal_import.go; kernel/app/journal). */
module Bundle {
  import opened Common
  import opened Text
  import opened EventChain
  import opened JournalStore

  datatype Manifest = Manifest(
    count: int, firstSeq: int, lastSeq: int, headSeq: int, headHash: string,
    truncated: bool, scope: string)

  // ---------- scopes ----------

  datatype Scope = Unsupported | Scope(correlation: string, scopeLabel: string)

  const RESERVED: seq<string> := ["agent:", "tenant:", "skill:", "memory:", "order:"]

  const TASK := "task:"

  predicate IsReserved(s: string) {
    exists i :: 0 <= i < |RESERVED| && RESERVED[i] <= s
  }

  function ScopeCorrelation(spec: string): Scope {
    var s := TrimSpace(spec);
    if s == "" then Unsupported
    else match CutPrefix(s, TASK)
      case Some(rest) =>
        var c := TrimSpace(rest);
        if c == "" then Unsupported else Scope(c, TASK + c)
      case None =>
        if IsReserved(s) then Unsupported else Scope(s, TASK + s)
  }

  lemma AcceptedScope(spec: string)
    ensures var r := ScopeCorrelation(spec); r.Scope? ==>
      r.correlation != "" && TrimSpace(r.correlation) == r.correlation && r.scopeLabel == TASK + r.correlation
  {
    hide IsSpace, Trim, TrimSpace, IsReserved;
    var s := TrimSpace(spec);
    TrimSpaceTwice(spec);
    if CutPrefix(s, TASK).Some? {
      TrimSpaceTwice(CutPrefix(s, TASK).value);
    }
  }

  /** The label an export writes reads back as the scope it was made for. */
  lemma ScopeLabelReadsBack(spec: string)
    ensures var r := ScopeCorrelation(spec); r.Scope? ==>
      r.correlation != "" && r.scopeLabel != "" && ScopeCorrelation(r.scopeLabel) == r
  {
    var r := ScopeCorrelation(spec);
    AcceptedScope(spec);
    if r.Scope? {
      TaskLabelReadsBack(r.correlation);
    }
  }

  lemma TaskLabelReadsBack(c: string)
    requires c != "" && TrimSpace(c) == c
    ensures ScopeCorrelation(TASK + c) == Scope(c, TASK + c)
  {
    var text := TASK + c;
    assert TrimSpace(text) == text by {
      assert text[|text| - 1] == c[|c| - 1] && text[0] == 't';
      TrimFixed(text, IsSpace);
    }
    CutPrefixOf(TASK, c);
  }

  /** Some other kind of scope, for which an export has no cut. */
  predicate OtherScope(s: string) {
    "agent:" <= s || "tenant:" <= s || "skill:" <= s || "memory:" <= s || "order:" <= s
  }

  /** Which specs are accepted, and as what. Surrounding blanks do not count. A correlation on its own is
      the same scope as the correlation behind "task:", blanks there not counting either. Refused are
      nothing at all, "task:" with nothing behind it, and the five other kinds of scope. */
  lemma ScopeAcceptedIff(spec: string)
    ensures ScopeCorrelation(spec) == ScopeCorrelation(TrimSpace(spec))
    ensures var s := TrimSpace(spec);
      && (s == "" || OtherScope(s) ==> ScopeCorrelation(spec) == Unsupported)
      && (s != "" && !OtherScope(s) && !("task:" <= s) ==>
            ScopeCorrelation(spec) == ScopeCorrelation("task:" + s) == Scope(s, "task:" + s))
      && ("task:" <= s ==>
            var c := TrimSpace(s[|"task:"|..]);
            if c == "" then ScopeCorrelation(spec) == Unsupported
            else ScopeCorrelation(spec) == ScopeCorrelation("task:" + c) == Scope(c, "task:" + c))
  {
    hide TrimSpace;
    var s := TrimSpace(spec);
    TrimSpaceTwice(spec);
    ReservedIff(s);
    hide OtherScope, IsReserved;
    if "task:" <= s {
      TrimSpaceTwice(s[|"task:"|..]);
      var c := TrimSpace(s[|"task:"|..]);
      if c != "" { TaskLabelReadsBack(c); }
    } else if s != "" {
      TaskLabelReadsBack(s);
    }
  }

  lemma ReservedIff(s: string)
    ensures IsReserved(s) <==> OtherScope(s)
    ensures OtherScope(s) ==> !("task:" <= s)
  {
    assert RESERVED[0] == "agent:" && RESERVED[1] == "tenant:" && RESERVED[2] == "skill:";
    assert RESERVED[3] == "memory:" && RESERVED[4] == "order:";
    assert "agent:"[0] == 'a' && "skill:"[0] == 's' && "memory:"[0] == 'm' && "order:"[0] == 'o';
    assert "tenant:"[1] == 'e' && "task:"[1] == 'a' && "task:"[0] == 't';
  }

  // ---------- verification ----------

  lemma LinkedStep(h: Digest, events: seq<Event>, n: nat)
    requires n < |events|
    ensures Linked(h, events[..n + 1]) <==>
      Linked(h, events[..n]) && VerifyHash(h, events[n]) && (n > 0 ==> events[n].prevHash == events[n - 1].hash)
    ensures Linked(h, events) ==> Linked(h, events[..n + 1])
  {
    hide VerifyHash;
    var more := events[..n + 1];
    assert forall i :: 0 <= i <= n ==> more[i] == events[i];
    assert forall i :: 0 <= i < n ==> events[..n][i] == events[i];
  }

  method VerifyBundleEvents(h: Digest, events: seq<Event>) returns (n: nat, ok: bool)
    ensures ok <==> Linked(h, events)
    ensures ok ==> n == |events|
    ensures !ok ==> n < |events| && Linked(h, events[..n]) && !Linked(h, events[..n + 1])
  {
    n := 0;
    while n < |events|
      invariant n <= |events| && Linked(h, events[..n])
    {
      LinkedStep(h, events, n);
      if !VerifyHash(h, events[n]) || (n > 0 && events[n].prevHash != events[n - 1].hash) {
        return n, false;
      }
      n := n + 1;
    }
    hide Linked;
    assert events[..n] == events;
    ok := true;
  }

  /** What a scoped cut must satisfy: each event intact and of the scope's correlation. */
  predicate CutIsSound(h: Digest, events: seq<Event>, correlation: string) {
    forall i :: 0 <= i < |events| ==> VerifyHash(h, events[i]) && events[i].correlation == correlation
  }

  method VerifyScopedBundleEvents(h: Digest, events: seq<Event>, correlation: string) returns (n: nat, ok: bool)
    ensures ok <==> CutIsSound(h, events, correlation)
    ensures ok ==> n == |events|
    ensures !ok ==> n < |events| && CutIsSound(h, events[..n], correlation)
    ensures !ok ==> !CutIsSound(h, events[..n + 1], correlation)
  {
    n := 0;
    while n < |events|
      invariant n <= |events| && CutIsSound(h, events[..n], correlation)
    {
      if !VerifyHash(h, events[n]) || events[n].correlation != correlation {
        assert events[..n + 1][n] == events[n];
        return n, false;
      }
      n := n + 1;
    }
    ok := true;
  }

  datatype Gap = EmptyButCounted | FirstSeqDiffers | LastSeqDiffers | HeadNotReached | HeadHashDiffers

  function CheckBundleCompleteness(events: seq<Event>, m: Manifest): Option<Gap> {
    if events == [] then
      if m.count != 0 then Some(EmptyButCounted) else None
    else
      var first, last := events[0], events[|events| - 1];
      if first.seqNo != m.firstSeq then Some(FirstSeqDiffers)
      else if last.seqNo != m.lastSeq then Some(LastSeqDiffers)
      else if last.seqNo != m.headSeq then Some(HeadNotReached)
      else if m.headHash != "" && last.hash != m.headHash then Some(HeadHashDiffers)
      else None
  }

  /** The manifest describes the events: none, or from its first seq to the head it names. */
  predicate Describes(m: Manifest, events: seq<Event>) {
    if events == [] then m.count == 0
    else
      && m.firstSeq == events[0].seqNo && m.lastSeq == m.headSeq == events[|events| - 1].seqNo
      && m.headHash in {"", events[|events| - 1].hash}
  }

  lemma CompleteIff(events: seq<Event>, m: Manifest)
    ensures CheckBundleCompleteness(events, m).None? <==> Describes(m, events)
    ensures CheckBundleCompleteness(events, m) == Some(EmptyButCounted) <==> events == [] && m.count != 0
  {}

  datatype Verdict = Accepted | ScopeMalformed | Invalid(at: nat) | CountDiffers | Incomplete(gap: Gap)

  /** What it takes for `journal verify --bundle` to say OK. */
  predicate Accepts(h: Digest, m: Manifest, events: seq<Event>) {
    && (m.count == 0 || m.count == |events|)
    && if m.scope != "" then
         var s := ScopeCorrelation(m.scope);
         s.Scope? && CutIsSound(h, events, s.correlation)
       else Linked(h, events) && CheckBundleCompleteness(events, m).None?
  }

  method VerifyBundle(h: Digest, m: Manifest, events: seq<Event>) returns (v: Verdict)
    ensures v.Accepted? <==> Accepts(h, m, events)
    ensures v.ScopeMalformed? <==> m.scope != "" && ScopeCorrelation(m.scope).Unsupported?
    ensures v.Invalid? <==>
      !v.ScopeMalformed? && !(if m.scope == "" then Linked(h, events)
                              else CutIsSound(h, events, ScopeCorrelation(m.scope).correlation))
    ensures v.Invalid? ==> v.at < |events|
    ensures v.Invalid? && m.scope == "" ==> Linked(h, events[..v.at]) && !Linked(h, events[..v.at + 1])
    ensures v.Invalid? && m.scope != "" ==>
              && CutIsSound(h, events[..v.at], ScopeCorrelation(m.scope).correlation)
              && !CutIsSound(h, events[..v.at + 1], ScopeCorrelation(m.scope).correlation)
    ensures v.CountDiffers? <==> !v.ScopeMalformed? && !v.Invalid? && m.count !in {0, |events|}
    ensures v.Incomplete? ==> Some(v.gap) == CheckBundleCompleteness(events, m)
  {
    hide Linked, CutIsSound, ScopeCorrelation, CheckBundleCompleteness;
    if m.scope != "" {
      var s := ScopeCorrelation(m.scope);
      if s.Unsupported? {
        return ScopeMalformed;
      }
      var k, sound := VerifyScopedBundleEvents(h, events, s.correlation);
      if !sound {
        return Invalid(k);
      }
      if m.count != 0 && m.count != |events| {
        return CountDiffers;
      }
      return Accepted;
    }
    var n, ok := VerifyBundleEvents(h, events);
    if !ok {
      return Invalid(n);
    }
    if m.count != 0 && m.count != |events| {
      return CountDiffers;
    }
    var gap := CheckBundleCompleteness(events, m);
    if gap.Some? {
      return Incomplete(gap.value);
    }
    return Accepted;
  }

  // ---------- what acceptance means ----------

  predicate IsTail(journal: seq<Event>, b: seq<Event>) {
    |b| <= |journal| && b == journal[|journal| - |b|..]
  }

  lemma TailIsAccepted(h: Digest, journal: seq<Event>, m: Manifest, b: seq<Event>)
    requires ValidChain(h, journal) && IsTail(journal, b) && b != []
    requires m.scope == "" && (m.headHash == HeadHash(journal) || m.headHash == "")
    ensures Accepts(h, m, b) <==>
      && (m.count == 0 || m.count == |b|)
      && m.firstSeq == |journal| - |b| && m.lastSeq == m.headSeq == |journal| - 1
  {
    hide ValidChain, VerifyHash, Linked;
    SuffixIsLinked(h, journal, |journal| - |b|);
    ChainLinks(h, journal, |journal| - |b|);
    ChainLinks(h, journal, |journal| - 1);
    assert b[0] == journal[|journal| - |b|] && b[|b| - 1] == journal[|journal| - 1];
  }

  lemma AcceptedIsTail(h: Digest, journal: seq<Event>, m: Manifest, b: seq<Event>)
    requires ValidChain(h, journal) && m.headHash == HeadHash(journal) && m.headHash != ""
    requires m.scope == "" && b != [] && Accepts(h, m, b)
    ensures Forged(h, b, journal) || IsTail(journal, b)
  {
    HeadHashFixesTail(h, journal, b);
  }

  lemma HeadHashIsNotEmpty(h: Digest, journal: seq<Event>)
    requires ValidChain(h, journal) && IsDigest(h)
    ensures HeadHash(journal) != ""
  {
    if journal != [] {
      ChainLinks(h, journal, |journal| - 1);
      assert |h(Canonical(journal[|journal| - 1]))| == 64;
    }
  }

  /** Against the true head of a journal, a full or windowed bundle is accepted exactly when
      it is that journal's tail, told truthfully. Any edited, dropped, reordered or inserted
      event is rejected. The one bundle accepted without reaching the head is the empty one. */
  lemma AcceptedIffJournalTail(h: Digest, journal: seq<Event>, m: Manifest, b: seq<Event>)
    requires ValidChain(h, journal) && IsDigest(h)
    requires m.scope == "" && m.headHash == HeadHash(journal)
    ensures Forged(h, b, journal) ||
      (Accepts(h, m, b) <==>
        if b == [] then m.count == 0
        else IsTail(journal, b) && (m.count == 0 || m.count == |b|)
             && m.firstSeq == |journal| - |b| && m.lastSeq == m.headSeq == |journal| - 1)
  {
    HeadHashIsNotEmpty(h, journal);
    if b != [] {
      if IsTail(journal, b) {
        TailIsAccepted(h, journal, m, b);
      } else if Accepts(h, m, b) {
        AcceptedIsTail(h, journal, m, b);
      }
    }
  }

  /** Without a head hash in the manifest the tail is unprotected: every prefix of a journal
      passes as a complete bundle if the manifest claims the prefix's last seq as the head. */
  lemma NoHeadHashNoTail(h: Digest, journal: seq<Event>, n: nat)
    requires ValidChain(h, journal) && 0 < n <= |journal|
    ensures Accepts(h, Manifest(n, 0, n - 1, n - 1, "", false, ""), journal[..n])
  {
    PrefixIsValid(h, journal, n);
    TailIsAccepted(h, journal[..n], Manifest(n, 0, n - 1, n - 1, "", false, ""), journal[..n]);
  }

  // ---------- export ----------

  predicate Wanted(e: Event, cutoff: int, correlation: string) {
    !((cutoff > 0 && e.tsMS < cutoff) || (correlation != "" && e.correlation != correlation))
  }

  function WantedBy(cutoff: int, correlation: string): Event -> bool {
    e => Wanted(e, cutoff, correlation)
  }

  /** The events an export is about, before the cap. */
  function Selected(journal: seq<Event>, cutoff: int, correlation: string): seq<Event> {
    Filter(journal, WantedBy(cutoff, correlation))
  }

  /** What an export is about, in the journal's order: stamped at the cutoff or later, if there is one, and
      of the correlation, if one is asked for. */
  lemma SelectedIff(journal: seq<Event>, cutoff: int, correlation: string, e: Event)
    ensures e in Selected(journal, cutoff, correlation) <==>
      && e in journal && (cutoff > 0 ==> e.tsMS >= cutoff) && (correlation != "" ==> e.correlation == correlation)
  {
    FilterMembers(journal, WantedBy(cutoff, correlation));
  }

  function Take(s: seq<Event>, n: nat): seq<Event> { if |s| <= n then s else s[..n] }

  /** What the export answers: `atHead` is the journal when the head is read, `atWalk` what
      the walk that follows sees while others may append. */
  predicate IsExport(m: Manifest, out: seq<Event>, atHead: seq<Event>, atWalk: seq<Event>,
                     cutoff: int, correlation: string, scopeLabel: string, cap: nat) {
    && out == Take(Selected(atWalk, cutoff, correlation), cap)
    && m.count == |out| && m.scope == scopeLabel
    && m.headSeq == (if atHead == [] then 0 else |atHead| - 1) && m.headHash == HeadHash(atHead)
    && m.firstSeq == (if out == [] then -1 else out[0].seqNo)
    && m.lastSeq == (if out == [] then -1 else out[|out| - 1].seqNo)
    && (m.truncated <==> |Selected(atWalk, cutoff, correlation)| > cap)
  }

  /** The walk: keeps what is wanted until the cap is full, then stops at the next wanted event. */
  method Walk(atWalk: seq<Event>, cutoff: int, correlation: string, cap: nat)
    returns (out: seq<Event>, first: int, last: int, truncated: bool)
    requires forall i :: 0 <= i < |atWalk| ==> atWalk[i].seqNo >= 0
    ensures out == Take(Selected(atWalk, cutoff, correlation), cap)
    ensures first == if out == [] then -1 else out[0].seqNo
    ensures last == if out == [] then -1 else out[|out| - 1].seqNo
    ensures truncated <==> |Selected(atWalk, cutoff, correlation)| > cap
  {
    hide Selected, Wanted, Take;
    out, first, last, truncated := [], -1, -1, false;
    var i := 0;
    NothingSelected(cutoff, correlation);
    while i < |atWalk|
      invariant 0 <= i <= |atWalk| && !truncated
      invariant out == Selected(atWalk[..i], cutoff, correlation) && |out| <= cap
      invariant if out == [] then first == last == -1 else first == out[0].seqNo >= 0 && last == out[|out| - 1].seqNo
    {
      var e := atWalk[i];
      assert atWalk[..i + 1] == atWalk[..i] + [e];
      SelectedSnoc(atWalk[..i], e, cutoff, correlation);
      if Wanted(e, cutoff, correlation) {
        if |out| >= cap {
          truncated := true;
          SelectedSoFar(atWalk, i + 1, cutoff, correlation);
          TakeMore(out, e, Selected(atWalk, cutoff, correlation), cap);
          return;
        }
        if first < 0 {
          first := e.seqNo;
        }
        last := e.seqNo;
        out := out + [e];
      }
      i := i + 1;
    }
    assert atWalk[..i] == atWalk;
    TakeAll(out, cap);
  }

  lemma NothingSelected(cutoff: int, correlation: string)
    ensures Selected([], cutoff, correlation) == []
  {}

  lemma SelectedSnoc(journal: seq<Event>, e: Event, cutoff: int, correlation: string)
    ensures Selected(journal + [e], cutoff, correlation)
         == if Wanted(e, cutoff, correlation) then Selected(journal, cutoff, correlation) + [e]
            else Selected(journal, cutoff, correlation)
  {
    FilterSnoc(journal, e, WantedBy(cutoff, correlation));
    hide Wanted, Filter;
  }

  lemma SelectedSoFar(journal: seq<Event>, n: nat, cutoff: int, correlation: string)
    requires n <= |journal|
    ensures Selected(journal[..n], cutoff, correlation) <= Selected(journal, cutoff, correlation)
  {
    hide Filter;
    assert journal == journal[..n] + journal[n..];
    FilterConcat(journal[..n], journal[n..], WantedBy(cutoff, correlation));
  }

  lemma TakeMore(out: seq<Event>, e: Event, all: seq<Event>, cap: nat)
    requires |out| == cap && out + [e] <= all
    ensures Take(all, cap) == out && |all| > cap
  {
    assert all[..cap] == (out + [e])[..cap] == out;
  }

  lemma TakeAll(out: seq<Event>, cap: nat)
    requires |out| <= cap
    ensures Take(out, cap) == out
  {}

  method Export(atHead: seq<Event>, atWalk: seq<Event>, cutoff: int, correlation: string, scopeLabel: string, cap: nat)
    returns (m: Manifest, out: seq<Event>)
    requires forall i :: 0 <= i < |atWalk| ==> atWalk[i].seqNo >= 0
    ensures IsExport(m, out, atHead, atWalk, cutoff, correlation, scopeLabel, cap)
  {
    var head := if |atHead| - 1 > 0 then |atHead| - 1 else 0;
    var first, last, truncated;
    out, first, last, truncated := Walk(atWalk, cutoff, correlation, cap);
    m := Manifest(|out|, first, last, head, HeadHash(atHead), truncated, scopeLabel);
  }

  /** An export is what it is about up to the cap, and says so exactly if that leaves something out. */
  lemma TruncatedIff(m: Manifest, out: seq<Event>, atHead: seq<Event>, atWalk: seq<Event>, cutoff: int,
                     correlation: string, scopeLabel: string, cap: nat)
    requires IsExport(m, out, atHead, atWalk, cutoff, correlation, scopeLabel, cap)
    ensures m.truncated <==> out != Selected(atWalk, cutoff, correlation)
    ensures out <= Selected(atWalk, cutoff, correlation) && (m.truncated ==> |out| == cap)
  {
    hide Selected;
  }

  /** What a full export holds: the first `n` events, their seqs, and the attested head. */
  lemma FullExportHolds(h: Digest, m: Manifest, out: seq<Event>, atHead: seq<Event>, atWalk: seq<Event>, cap: nat)
    returns (n: nat)
    requires ValidChain(h, atWalk) && IsExport(m, out, atHead, atWalk, 0, "", "", cap)
    ensures n == (if |atWalk| <= cap then |atWalk| else cap) && out == atWalk[..n]
    ensures m.count == n && m.scope == "" && m.headHash == HeadHash(atHead)
    ensures m.headSeq == if atHead == [] then 0 else |atHead| - 1
    ensures n > 0 ==> m.firstSeq == 0 && m.lastSeq == n - 1
  {
    n := if |atWalk| <= cap then |atWalk| else cap;
    FilterAll(atWalk, WantedBy(0, ""));
    assert out == atWalk[..n];
    if n > 0 {
      ChainLinks(h, atWalk, 0);
      ChainLinks(h, atWalk, n - 1);
    }
  }

  /** A full export verifies exactly when its walk ends at the head it attests: an event
      appended while it runs, or a cap that cuts the tail, makes the bundle unverifiable. */
  lemma FullExportVerifiesIff(h: Digest, m: Manifest, out: seq<Event>, atHead: seq<Event>, atWalk: seq<Event>, cap: nat)
    requires ValidChain(h, atWalk) && atHead <= atWalk && cap > 0 && IsDigest(h)
    requires IsExport(m, out, atHead, atWalk, 0, "", "", cap)
    ensures Forged(h, out, atHead) ||
      (Accepts(h, m, out) <==> |atHead| == if |atWalk| <= cap then |atWalk| else cap)
  {
    var n := FullExportHolds(h, m, out, atHead, atWalk, cap);
    PrefixIsValid(h, atWalk, |atHead|);
    assert atHead == atWalk[..|atHead|];
    FullExportAtHead(h, m, out, atHead);
    if |atHead| == n {
      assert IsTail(atHead, out);
    } else if IsTail(atHead, out) {
      assert n > 0 ==> m.lastSeq != |atHead| - 1;
    }
  }

  function Sealed(h: Digest, e: Event): Event { e.(hash := h(Canonical(e))) }

  /** A journal of two events. */
  function TwoEvents(h: Digest): seq<Event> {
    var e0 := Sealed(h, Event("0", 0, 0, GENESIS_HASH, "", "s", "a", "k", "c", "", "", map[]));
    [e0, Sealed(h, Event("1", 1, 0, e0.hash, "", "s", "a", "k", "c", "", "", map[]))]
  }

  lemma TwoEventsAreValid(h: Digest)
    requires IsDigest(h)
    ensures ValidChain(h, TwoEvents(h))
  {
    var j := TwoEvents(h);
    assert j[..1] == [j[0]] && j[..1][..0] == [];
    assert ValidChain(h, []);
    assert Extends(h, [], j[0]);
    assert ValidChain(h, j[..1]);
    assert Extends(h, j[..1], j[1]);
  }

  /** Its export, raced by the append of the second event, is rejected. */
  lemma RacedExportIsRejected(h: Digest, m: Manifest, out: seq<Event>)
    requires IsDigest(h) && IsExport(m, out, TwoEvents(h)[..1], TwoEvents(h), 0, "", "", 10)
    ensures ValidChain(h, TwoEvents(h)) && !Accepts(h, m, out)
  {
    TwoEventsAreValid(h);
    var n := FullExportHolds(h, m, out, TwoEvents(h)[..1], TwoEvents(h), 10);
    hide IsExport, Linked, VerifyHash;
    assert out == TwoEvents(h)[..2];
  }

  /** A bundle without events is complete whatever head it names. */
  lemma EmptyBundleIsAccepted(h: Digest, headSeq: int, headHash: string)
    ensures Accepts(h, Manifest(0, 0, 0, headSeq, headHash, false, ""), [])
  {
    hide ScopeCorrelation;
  }

  lemma FullExportAtHead(h: Digest, m: Manifest, out: seq<Event>, atHead: seq<Event>)
    requires ValidChain(h, atHead) && IsDigest(h)
    requires m.count == |out| && m.scope == "" && m.headHash == HeadHash(atHead)
    requires m.headSeq == if atHead == [] then 0 else |atHead| - 1
    requires out != [] ==> m.firstSeq == 0 && m.lastSeq == |out| - 1
    ensures Forged(h, out, atHead) || (Accepts(h, m, out) <==> out == [] || (out == atHead))
  {
    AcceptedIffJournalTail(h, atHead, m, out);
    if out == atHead {
      assert IsTail(atHead, out);
    }
  }

  predicate ClockOrdered(journal: seq<Event>) {
    forall i, j :: 0 <= i < j < |journal| ==> journal[i].tsMS <= journal[j].tsMS
  }

  /** Every event behind the first one wanted is wanted. */
  predicate StaysWanted(journal: seq<Event>, cutoff: int) {
    forall i, j :: 0 <= i < j < |journal| && Wanted(journal[i], cutoff, "") ==> Wanted(journal[j], cutoff, "")
  }

  lemma ClockKeepsWindow(journal: seq<Event>, cutoff: int)
    requires ClockOrdered(journal)
    ensures StaysWanted(journal, cutoff)
  {}

  lemma {:induction false} WindowIsTail(journal: seq<Event>, cutoff: int)
    requires StaysWanted(journal, cutoff)
    ensures IsTail(journal, Selected(journal, cutoff, ""))
  {
    var wanted := WantedBy(cutoff, "");
    if journal != [] {
      var rest, e := journal[..|journal| - 1], journal[|journal| - 1];
      assert journal == rest + [e];
      FilterSnoc(rest, e, wanted);
      if wanted(e) {
        assert StaysWanted(rest, cutoff) by { assert forall i :: 0 <= i < |rest| ==> rest[i] == journal[i]; }
        WindowIsTail(rest, cutoff);
        var kept := Filter(rest, wanted);
        hide Filter;
        assert journal[|rest| - |kept|..] == rest[|rest| - |kept|..] + [e];
      } else {
        NothingWanted(journal, cutoff);
        FilterNone(journal, wanted);
      }
    }
  }

  lemma NothingWanted(journal: seq<Event>, cutoff: int)
    requires StaysWanted(journal, cutoff) && journal != [] && !Wanted(journal[|journal| - 1], cutoff, "")
    ensures forall x :: x in journal ==> !Wanted(x, cutoff, "")
  {
    hide Wanted;
    forall x | x in journal ensures !Wanted(x, cutoff, "") {
      var i :| 0 <= i < |journal| && journal[i] == x;
    }
  }

  lemma TailStaysWanted(journal: seq<Event>, cutoff: int)
    requires IsTail(journal, Selected(journal, cutoff, ""))
    ensures StaysWanted(journal, cutoff)
  {
    hide Wanted, Filter;
    var wanted, kept := WantedBy(cutoff, ""), Selected(journal, cutoff, "");
    var n := |journal| - |kept|;
    assert journal == journal[..n] + kept;
    FilterMembers(journal, wanted);
    FilterAll(kept, wanted);
    FilterConcat(journal[..n], kept, wanted);
    assert |Filter(journal[..n], wanted)| == 0;
    FilterMembers(journal[..n], wanted);
    forall i | 0 <= i < n ensures !Wanted(journal[i], cutoff, "") {
      assert journal[..n][i] == journal[i] && journal[i] in journal[..n];
      assert journal[i] !in Filter(journal[..n], wanted);
    }
    forall j | n <= j < |journal| ensures Wanted(journal[j], cutoff, "") {
      assert kept[j - n] == journal[j] && kept[j - n] in kept;
    }
  }

  /** The selection is the journal's tail exactly if nothing unwanted follows a wanted event. */
  lemma WindowIsTailIff(journal: seq<Event>, cutoff: int)
    ensures IsTail(journal, Selected(journal, cutoff, "")) <==> StaysWanted(journal, cutoff)
  {
    hide IsTail, StaysWanted, Selected;
    if StaysWanted(journal, cutoff) { WindowIsTail(journal, cutoff); }
    if IsTail(journal, Selected(journal, cutoff, "")) { TailStaysWanted(journal, cutoff); }
  }

  ghost predicate Ascends(s: seq<Event>, bound: int) {
    && (forall i :: 0 <= i < |s| ==> s[i].seqNo < bound)
    && (forall i, j :: 0 <= i < j < |s| ==> s[i].seqNo < s[j].seqNo)
  }

  lemma AscendsSnoc(s: seq<Event>, e: Event)
    requires Ascends(s, e.seqNo)
    ensures Ascends(s + [e], e.seqNo + 1) && Ascends(s, e.seqNo + 1)
  {}

  /** Selected events stand in the order of their seqs. */
  lemma {:induction false} SelectionAscends(h: Digest, journal: seq<Event>, cutoff: int)
    requires ValidChain(h, journal)
    ensures Ascends(Selected(journal, cutoff, ""), |journal|)
  {
    hide Selected, Ascends, Wanted;
    if journal != [] {
      var rest, e := journal[..|journal| - 1], journal[|journal| - 1];
      assert journal == rest + [e] && e.seqNo == |rest|;
      SelectionAscends(h, rest, cutoff);
      SelectedSnoc(rest, e, cutoff, "");
      AscendsSnoc(Selected(rest, cutoff, ""), e);
    } else {
      NothingSelected(cutoff, "");
      NothingAscends();
    }
  }

  lemma NothingAscends()
    ensures Ascends([], 0)
  {}

  /** An export without a scope verifies exactly if it holds no event or ends the journal it attests. */
  lemma UnscopedExportVerifiesIff(h: Digest, m: Manifest, out: seq<Event>, atHead: seq<Event>, atWalk: seq<Event>,
                                  cutoff: int, cap: nat)
    requires ValidChain(h, atHead) && IsDigest(h) && IsExport(m, out, atHead, atWalk, cutoff, "", "", cap)
    ensures Forged(h, out, atHead) || (Accepts(h, m, out) <==> out == [] || IsTail(atHead, out))
  {
    hide Selected, VerifyHash, ValidChain, Accepts, Linked, Forged;
    AcceptedIffJournalTail(h, atHead, m, out);
    if out != [] && IsTail(atHead, out) {
      ChainLinks(h, atHead, |atHead| - |out|);
      ChainLinks(h, atHead, |atHead| - 1);
    }
  }

  /** A `--since` window of a quiet journal verifies exactly if the cap does not cut it and no event
      behind its first one is stamped before the cutoff. */
  lemma WindowedExportVerifies(h: Digest, m: Manifest, out: seq<Event>, journal: seq<Event>, cutoff: int, cap: nat)
    requires ValidChain(h, journal) && IsDigest(h) && cap > 0
    requires IsExport(m, out, journal, journal, cutoff, "", "", cap)
    ensures Forged(h, out, journal) ||
      (Accepts(h, m, out) <==> |Selected(journal, cutoff, "")| <= cap && StaysWanted(journal, cutoff))
  {
    UnscopedExportVerifiesIff(h, m, out, journal, journal, cutoff, cap);
    WindowIsTailIff(journal, cutoff);
    SelectionAscends(h, journal, cutoff);
    hide Selected, VerifyHash, ValidChain, Accepts, Forged, StaysWanted;
    var window := Selected(journal, cutoff, "");
    if |window| > cap {
      ChainLinksLast(h, journal);
      assert out[cap - 1] == window[cap - 1] && window[cap - 1].seqNo < window[cap].seqNo < |journal|;
      TailEndsAtHead(journal, out);
    }
  }

  lemma TailEndsAtHead(journal: seq<Event>, out: seq<Event>)
    requires out != []
    ensures IsTail(journal, out) ==> journal != [] && out[|out| - 1] == journal[|journal| - 1]
  {}

  lemma ChainLinksLast(h: Digest, journal: seq<Event>)
    requires ValidChain(h, journal)
    ensures journal != [] ==> journal[|journal| - 1].seqNo == |journal| - 1
  {
    if journal != [] { ChainLinks(h, journal, |journal| - 1); }
  }

  /** So under a clock that never went back only the cap matters. */
  lemma OrderedWindowVerifies(h: Digest, m: Manifest, out: seq<Event>, journal: seq<Event>, cutoff: int, cap: nat)
    requires ValidChain(h, journal) && ClockOrdered(journal) && IsDigest(h) && cap > 0
    requires IsExport(m, out, journal, journal, cutoff, "", "", cap)
    ensures Forged(h, out, journal) || (Accepts(h, m, out) <==> |Selected(journal, cutoff, "")| <= cap)
  {
    ClockKeepsWindow(journal, cutoff);
    WindowedExportVerifies(h, m, out, journal, cutoff, cap);
    hide *;
  }

  /** Three events whose clock stepped back and forth again. */
  function SteppedClock(h: Digest): seq<Event> {
    var e0 := Sealed(h, Event("0", 0, 10, GENESIS_HASH, "", "s", "a", "k", "c", "", "", map[]));
    var e1 := Sealed(h, Event("1", 1, 5, e0.hash, "", "s", "a", "k", "c", "", "", map[]));
    [e0, e1, Sealed(h, Event("2", 2, 12, e1.hash, "", "s", "a", "k", "c", "", "", map[]))]
  }

  lemma SteppedClockIsValid(h: Digest)
    requires IsDigest(h)
    ensures ValidChain(h, SteppedClock(h))
  {
    var j := SteppedClock(h);
    assert j[..2] == [j[0], j[1]] && j[..2][..1] == [j[0]] && [j[0]][..0] == [];
    assert ValidChain(h, []);
    ExtendedIsValid(h, [], j[0]);
    assert [] + [j[0]] == [j[0]];
    ExtendedIsValid(h, [j[0]], j[1]);
    assert [j[0]] + [j[1]] == j[..2];
    ExtendedIsValid(h, j[..2], j[2]);
    assert j[..2] + [j[2]] == j;
    hide ValidChain;
  }

  /** Its genuine window since time 8 is rejected: the middle event has dropped out. */
  lemma SteppedClockIsRejected(h: Digest, m: Manifest, out: seq<Event>)
    requires IsDigest(h) && IsExport(m, out, SteppedClock(h), SteppedClock(h), 8, "", "", 10)
    ensures ValidChain(h, SteppedClock(h)) && (Forged(h, out, SteppedClock(h)) || !Accepts(h, m, out))
  {
    SteppedClockIsValid(h);
    var j := SteppedClock(h);
    assert Wanted(j[0], 8, "") && !Wanted(j[1], 8, "");
    assert !StaysWanted(j, 8);
    hide SteppedClock;
    WindowedExportVerifies(h, m, out, j, 8, 10);
    hide IsExport, Accepts, Forged;
  }

  /** A scoped export of any hash-valid journal verifies; a foreign event never does. */
  lemma ScopedExportVerifies(h: Digest, m: Manifest, out: seq<Event>, atHead: seq<Event>, atWalk: seq<Event>,
                             cutoff: int, spec: string, cap: nat)
    requires forall i :: 0 <= i < |atWalk| ==> VerifyHash(h, atWalk[i])
    requires ScopeCorrelation(spec).Scope?
    requires var s := ScopeCorrelation(spec); IsExport(m, out, atHead, atWalk, cutoff, s.correlation, s.scopeLabel, cap)
    ensures Accepts(h, m, out)
    ensures forall b: seq<Event>, i ::
      0 <= i < |b| && b[i].correlation != ScopeCorrelation(spec).correlation ==> !Accepts(h, m, b)
  {
    hide Selected, Take, VerifyHash, ScopeCorrelation;
    var s := ScopeCorrelation(spec);
    ScopeLabelReadsBack(spec);
    SelectedCutIsSound(h, out, atWalk, cutoff, s.correlation, cap);
    forall b: seq<Event>, i | 0 <= i < |b| && b[i].correlation != s.correlation
      ensures !CutIsSound(h, b, s.correlation) {}
  }

  lemma SelectedCutIsSound(h: Digest, out: seq<Event>, atWalk: seq<Event>, cutoff: int, correlation: string, cap: nat)
    requires forall i :: 0 <= i < |atWalk| ==> VerifyHash(h, atWalk[i])
    requires correlation != "" && out == Take(Selected(atWalk, cutoff, correlation), cap)
    ensures CutIsSound(h, out, correlation)
  {
    var kept := Selected(atWalk, cutoff, correlation);
    FilterMembers(atWalk, WantedBy(cutoff, correlation));
    forall i | 0 <= i < |out| ensures VerifyHash(h, out[i]) && out[i].correlation == correlation {
      assert out[i] == kept[i] && kept[i] in kept;
    }
  }

  // ---------- import ----------

  datatype ImportResult = Imported | NotComplete(gap: Gap) | NotRestored(error: RestoreError) | HeadMismatch

  method ImportBundle(dest: Journal, m: Manifest, events: seq<Event>, writeOk: bool) returns (r: ImportResult)
    modifies dest
    ensures r.Imported? <==>
      && CheckBundleCompleteness(events, m).None?
      && events != [] && ValidChain(dest.h, events) && old(dest.Unused()) && writeOk
    ensures r.Imported? ==> dest.Valid() && dest.lines == Lines(events)
    ensures !r.Imported? ==> unchanged(dest)
    ensures r.NotComplete? <==> CheckBundleCompleteness(events, m).Some?
    ensures r.NotRestored? && events != [] && ValidChain(dest.h, events) ==>
              r.error == if old(dest.Unused()) then WriteFailed else NotEmpty
    ensures !r.HeadMismatch?
  {
    var gap := CheckBundleCompleteness(events, m);
    if gap.Some? {
      return NotComplete(gap.value);
    }
    var err := dest.Restore(events, writeOk);
    if err.Some? {
      return NotRestored(err.value);
    }
    var last := events[|events| - 1];
    ChainLinks(dest.h, events, |events| - 1);
    LinesRoundTrip(dest.h, events);
    var good, head := Scan(dest.h, dest.lines);
    assert dest.lines[..|dest.lines|] == dest.lines;
    if good != |dest.lines| || good - 1 != last.seqNo || head != last.hash {
      return HeadMismatch;
    }
    return Imported;
  }

  /** A bundle that imports and carries a journal's true head hash is that whole journal. */
  lemma ImportIsWholeJournal(h: Digest, journal: seq<Event>, m: Manifest, events: seq<Event>)
    requires ValidChain(h, journal) && journal != [] && IsDigest(h) && m.headHash == HeadHash(journal)
    requires CheckBundleCompleteness(events, m).None? && events != [] && ValidChain(h, events)
    ensures Forged(h, events, journal) || Forged(h, journal, events) || events == journal
  {
    ChainLinks(h, journal, |journal| - 1);
    SameHeadSameHistory(h, events, journal);
  }
}
