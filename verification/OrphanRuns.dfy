/** Orphaned runs: received in the journal, never ended; marked abandoned at boot
    (cmd/agezt/main_overlay_scan.go). */
module OrphanRuns {
  import opened Common
  import opened Ordering

  datatype Kind = Received | Completed | Failed | Abandoned | OtherKind

  datatype Event = Event(kind: Kind, corr: string, tsMS: int, intent: string)

  datatype Orphan = Orphan(corr: string, intent: string, startedMS: int)

  // ---------- what a journal says ----------

  predicate Has(journal: seq<Event>, k: Kind, c: string) {
    exists i :: 0 <= i < |journal| && journal[i].kind == k && journal[i].corr == c
  }

  /** A run that was received and has no end of any kind, wherever in the journal. */
  predicate IsOrphan(journal: seq<Event>, c: string) {
    Has(journal, Received, c) && !Has(journal, Completed, c) && !Has(journal, Failed, c) && !Has(journal, Abandoned, c)
  }

  /** What the last `received` of a run says. */
  function LastReceived(journal: seq<Event>, c: string): Option<Orphan> {
    if journal == [] then None
    else
      var e := journal[|journal| - 1];
      if e.kind == Received && e.corr == c then Some(Orphan(c, e.intent, e.tsMS))
      else LastReceived(journal[..|journal| - 1], c)
  }

  lemma {:induction false} LastReceivedIff(journal: seq<Event>, c: string)
    ensures LastReceived(journal, c).Some? <==> Has(journal, Received, c)
    ensures LastReceived(journal, c).Some? ==> LastReceived(journal, c).value.corr == c
  {
    if journal != [] {
      HasSnoc(journal[..|journal| - 1], journal[|journal| - 1], Received, c);
      assert journal == journal[..|journal| - 1] + [journal[|journal| - 1]];
      LastReceivedIff(journal[..|journal| - 1], c);
    }
  }

  lemma HasSnoc(s: seq<Event>, e: Event, k: Kind, c: string)
    ensures Has(s + [e], k, c) <==> Has(s, k, c) || (e.kind == k && e.corr == c)
  {
    var t := s + [e];
    assert t[|s|] == e && forall i :: 0 <= i < |s| ==> t[i] == s[i];
  }

  lemma HasConcat(s: seq<Event>, t: seq<Event>, k: Kind, c: string)
    ensures Has(s + t, k, c) <==> Has(s, k, c) || Has(t, k, c)
  {
    assert forall i :: 0 <= i < |s| ==> (s + t)[i] == s[i];
    assert forall i :: 0 <= i < |t| ==> (s + t)[|s| + i] == t[i];
  }

  /** Who is orphaned does not depend on the order of the events. */
  lemma OrphansIgnoreOrder(s: seq<Event>, t: seq<Event>, c: string)
    requires multiset(s) == multiset(t)
    ensures IsOrphan(s, c) <==> IsOrphan(t, c)
  {
    forall k: Kind ensures Has(s, k, c) <==> Has(t, k, c) {
      HasIsMembership(s, k, c);
      HasIsMembership(t, k, c);
      assert forall e :: e in s <==> e in multiset(s);
      assert forall e :: e in t <==> e in multiset(t);
    }
  }

  lemma HasIsMembership(s: seq<Event>, k: Kind, c: string)
    ensures Has(s, k, c) <==> exists e :: e in s && e.kind == k && e.corr == c
  {
    if e :| e in s && e.kind == k && e.corr == c {
      var i :| 0 <= i < |s| && s[i] == e;
    }
  }

  // ---------- the scan ----------

  /** By start, then by correlation. Two orphans of one scan never share a correlation; the
      intent only makes the order total on all values. */
  predicate OrphanLeq(x: Orphan, y: Orphan) {
    if x.startedMS != y.startedMS then x.startedMS < y.startedMS
    else if x.corr != y.corr then TextLeq(x.corr, y.corr)
    else TextLeq(x.intent, y.intent)
  }

  /** Oldest start first; of equal starts, the smaller correlation. */
  lemma OrphansAscend(journal: seq<Event>, out: seq<Orphan>, i: nat, j: nat)
    requires IsOrphanList(journal, out) && i < j < |out|
    ensures out[i].startedMS <= out[j].startedMS
    ensures out[i].startedMS == out[j].startedMS ==>
              out[i].corr <= out[j].corr || exists k: nat :: SmallerAt(out[i].corr, out[j].corr, k)
  {
    TextLeqIff(out[i].corr, out[j].corr);
    assert OrphanLeq(out[i], out[j]);
    hide TextLeq, IsOrphan, LastReceived;
  }

  lemma OrphanLeqIsTotal()
    ensures TotalOrder(OrphanLeq)
  {
    TextLeqIsTotal();
    hide TextLeq;
  }

  /** `out` lists exactly the journal's orphans, in order, as last received. */
  ghost predicate IsOrphanList(journal: seq<Event>, out: seq<Orphan>) {
    && Sorted(out, OrphanLeq)
    && (forall i, j :: 0 <= i < j < |out| ==> out[i].corr != out[j].corr)
    && (forall i :: 0 <= i < |out| ==>
          IsOrphan(journal, out[i].corr) && LastReceived(journal, out[i].corr) == Some(out[i]))
    && (forall c :: IsOrphan(journal, c) ==> exists i :: 0 <= i < |out| && out[i].corr == c)
  }

  class RunScan {
    var received: map<string, Orphan>
    var completed: set<string>
    var failed: set<string>
    var abandoned: set<string>

    /** The four maps say what the journal read so far says. */
    ghost predicate Reflects(journal: seq<Event>)
      reads this
    {
      && (forall c :: c in received <==> Has(journal, Received, c))
      && (forall c :: c in received ==> LastReceived(journal, c) == Some(received[c]))
      && (forall c :: c in completed <==> Has(journal, Completed, c))
      && (forall c :: c in failed <==> Has(journal, Failed, c))
      && (forall c :: c in abandoned <==> Has(journal, Abandoned, c))
    }

    constructor ()
      ensures Reflects([])
    {
      received, completed, failed, abandoned := map[], {}, {}, {};
    }

    method Observe(e: Event, ghost journal: seq<Event>)
      requires Reflects(journal)
      modifies this
      ensures Reflects(journal + [e])
    {
      assert (journal + [e])[..|journal|] == journal;
      forall k, c ensures Has(journal + [e], k, c) <==> Has(journal, k, c) || (e.kind == k && e.corr == c) {
        HasSnoc(journal, e, k, c);
      }
      hide Has;
      match e.kind {
        case Received => received := received[e.corr := Orphan(e.corr, e.intent, e.tsMS)];
        case Completed => completed := completed + {e.corr};
        case Failed => failed := failed + {e.corr};
        case Abandoned => abandoned := abandoned + {e.corr};
        case OtherKind =>
      }
    }

    /** Collects in whatever order the map yields its keys, then sorts. */
    method Orphans(ghost journal: seq<Event>) returns (out: seq<Orphan>)
      requires Reflects(journal)
      ensures IsOrphanList(journal, out)
    {
      out := [];
      var rest := received.Keys;
      ReflectsNames(journal);
      while rest != {}
        invariant rest <= received.Keys && FoundOutside(journal, received.Keys, out, rest)
        decreases rest
      {
        var c :| c in rest;
        FoundStep(journal, received.Keys, out, rest, c, received[c]);
        if c !in completed && c !in failed && c !in abandoned {
          out := out + [received[c]];
        }
        rest := rest - {c};
      }
      out := SortedOrphans(journal, out);
    }

    lemma ReflectsNames(journal: seq<Event>)
      requires Reflects(journal)
      ensures forall c :: c in received ==> received[c].corr == c && LastReceived(journal, c) == Some(received[c])
      ensures forall c :: c in received.Keys <==> Has(journal, Received, c)
      ensures forall c :: c in received ==>
                (IsOrphan(journal, c) <==> c !in completed && c !in failed && c !in abandoned)
    {
      forall c | c in received ensures received[c].corr == c { LastReceivedIff(journal, c); }
      hide Has, LastReceived;
    }
  }

  /** `out` has the orphans outside `rest`, each once. */
  ghost predicate FoundOutside(journal: seq<Event>, received: set<string>, out: seq<Orphan>, rest: set<string>) {
    && (forall i, j :: 0 <= i < j < |out| ==> out[i].corr != out[j].corr)
    && (forall i :: 0 <= i < |out| ==>
          out[i].corr !in rest && IsOrphan(journal, out[i].corr) && LastReceived(journal, out[i].corr) == Some(out[i]))
    && (forall c :: c in received && c !in rest && IsOrphan(journal, c) ==>
          exists i :: 0 <= i < |out| && out[i].corr == c)
  }

  lemma FoundStep(journal: seq<Event>, received: set<string>, out: seq<Orphan>, rest: set<string>, c: string, o: Orphan)
    requires FoundOutside(journal, received, out, rest) && c in rest
    requires o.corr == c && LastReceived(journal, c) == Some(o)
    ensures FoundOutside(journal, received, if IsOrphan(journal, c) then out + [o] else out, rest - {c})
  {
    hide IsOrphan, LastReceived;
    var more := out + [o];
    assert more[|out|].corr == c;
    forall i | 0 <= i < |out| ensures more[i] == out[i] {}
    forall k | k in received && k !in rest && IsOrphan(journal, k)
      ensures exists i :: 0 <= i < |more| && more[i].corr == k
    {
      var i :| 0 <= i < |out| && out[i].corr == k;
      assert more[i].corr == k;
    }
  }

  method SortedOrphans(ghost journal: seq<Event>, found: seq<Orphan>) returns (out: seq<Orphan>)
    requires forall i, j :: 0 <= i < j < |found| ==> found[i].corr != found[j].corr
    requires forall i :: 0 <= i < |found| ==>
               IsOrphan(journal, found[i].corr) && LastReceived(journal, found[i].corr) == Some(found[i])
    requires forall c :: IsOrphan(journal, c) ==> exists i :: 0 <= i < |found| && found[i].corr == c
    ensures IsOrphanList(journal, out)
  {
    hide IsOrphan, LastReceived;
    OrphanLeqIsTotal();
    SortIsSortedPermutation(found, OrphanLeq);
    out := SortBy(found, OrphanLeq);
    RearrangedMembers(found, out);
    RearrangedIsDistinct(found, out);
    forall i | 0 <= i < |out|
      ensures IsOrphan(journal, out[i].corr) && LastReceived(journal, out[i].corr) == Some(out[i])
    {
      assert out[i] in out;
      var k :| 0 <= k < |found| && found[k] == out[i];
    }
    forall c | IsOrphan(journal, c) ensures exists i :: 0 <= i < |out| && out[i].corr == c {
      var k :| 0 <= k < |found| && found[k].corr == c;
      assert found[k] in found;
      var i :| 0 <= i < |out| && out[i] == found[k];
    }
  }

  lemma RearrangedMembers<T>(s: seq<T>, t: seq<T>)
    requires multiset(s) == multiset(t)
    ensures forall x :: x in s <==> x in t
  {
    assert forall x :: x in s <==> x in multiset(s);
    assert forall x :: x in t <==> x in multiset(t);
  }

  /** Rearranging keeps correlations distinct. */
  lemma RearrangedIsDistinct(s: seq<Orphan>, t: seq<Orphan>)
    requires multiset(s) == multiset(t)
    requires forall i, j :: 0 <= i < j < |s| ==> s[i].corr != s[j].corr
    ensures forall i, j :: 0 <= i < j < |t| ==> t[i].corr != t[j].corr
  {
    RearrangedMembers(s, t);
    forall i, j | 0 <= i < j < |t| ensures t[i].corr != t[j].corr {
      assert t[i] in s && t[j] in s;
      if t[i].corr == t[j].corr {
        var a :| 0 <= a < |s| && s[a] == t[i];
        var b :| 0 <= b < |s| && s[b] == t[j];
        assert a == b;
        TwiceInMultiset(t, i, j);
        OnceInMultiset(s, a);
        assert false;
      }
    }
  }

  lemma TwiceInMultiset<T>(s: seq<T>, i: nat, j: nat)
    requires i < j < |s| && s[i] == s[j]
    ensures multiset(s)[s[i]] >= 2
  {
    assert s == s[..j] + [s[j]] + s[j + 1..];
    assert s[i] == s[..j][i];
    assert s[i] in multiset(s[..j]);
  }

  lemma OnceInMultiset(s: seq<Orphan>, a: nat)
    requires a < |s| && forall i, j :: 0 <= i < j < |s| ==> s[i].corr != s[j].corr
    ensures multiset(s)[s[a]] == 1
  {
    assert s == s[..a] + [s[a]] + s[a + 1..];
    assert s[a] !in s[..a] && s[a] !in s[a + 1..];
  }

  /** The list does not depend on the map's iteration order: there is only one. */
  lemma OrphanListIsUnique(journal: seq<Event>, s: seq<Orphan>, t: seq<Orphan>)
    requires IsOrphanList(journal, s) && IsOrphanList(journal, t)
    ensures s == t
  {
    SubList(journal, s, t);
    SubList(journal, t, s);
    DistinctMultiset(s);
    DistinctMultiset(t);
    assert multiset(s) == multiset(t);
    OrphanLeqIsTotal();
    SortedIsUnique(s, t, OrphanLeq);
  }

  lemma SubList(journal: seq<Event>, s: seq<Orphan>, t: seq<Orphan>)
    requires IsOrphanList(journal, s) && IsOrphanList(journal, t)
    ensures forall x :: x in s ==> x in t
  {
    hide IsOrphan, LastReceived;
    forall x | x in s ensures x in t {
      var i :| 0 <= i < |s| && s[i] == x;
      assert IsOrphan(journal, s[i].corr);
      var j :| 0 <= j < |t| && t[j].corr == x.corr;
      assert LastReceived(journal, t[j].corr) == Some(t[j]);
    }
  }

  lemma DistinctMultiset(s: seq<Orphan>)
    requires forall i, j :: 0 <= i < j < |s| ==> s[i].corr != s[j].corr
    ensures forall x :: multiset(s)[x] == if x in s then 1 else 0
  {
    forall x | x in s ensures multiset(s)[x] == 1 {
      var a :| 0 <= a < |s| && s[a] == x;
      OnceInMultiset(s, a);
    }
  }

  // ---------- reconciliation ----------

  function Abandonment(o: Orphan, now: int): Event { Event(Abandoned, o.corr, now, o.intent) }

  /** What the publishes that succeed append. */
  function Published(orphans: seq<Orphan>, ok: seq<bool>, now: int): seq<Event>
    requires |ok| == |orphans|
  {
    if orphans == [] then []
    else
      var n := |orphans| - 1;
      Published(orphans[..n], ok[..n], now) + if ok[n] then [Abandonment(orphans[n], now)] else []
  }

  /** When every publish succeeds, each orphan is marked once, under its correlation and intent, in the
      order of the list. */
  lemma {:induction false} AllPublished(orphans: seq<Orphan>, ok: seq<bool>, now: int)
    requires |ok| == |orphans| && forall i :: 0 <= i < |ok| ==> ok[i]
    ensures var out := Published(orphans, ok, now);
      && |out| == |orphans|
      && forall i :: 0 <= i < |out| ==>
           out[i].kind == Abandoned && out[i].corr == orphans[i].corr && out[i].intent == orphans[i].intent
  {
    if orphans != [] {
      var n := |orphans| - 1;
      AllPublished(orphans[..n], ok[..n], now);
    }
  }

  /** How the first `n` publishes go. */
  function Outcomes(ok: nat -> bool, n: nat): seq<bool> { seq(n, i requires 0 <= i < n => ok(i)) }

  /** The boot step. `ok` says of each publish whether it succeeds; errors are ignored. */
  method ReconcileOrphanRuns(journal: seq<Event>, ok: nat -> bool, now: int)
    returns (journal': seq<Event>, n: nat)
    ensures exists orphans :: IsOrphanList(journal, orphans) && n == |orphans|
              && journal' == journal + Published(orphans, Outcomes(ok, n), now)
  {
    hide IsOrphanList, Published, Outcomes;
    var scan := new RunScan();
    var k := 0;
    while k < |journal|
      invariant 0 <= k <= |journal| && fresh(scan) && scan.Reflects(journal[..k])
    {
      scan.Observe(journal[k], journal[..k]);
      assert journal[..k + 1] == journal[..k] + [journal[k]];
      k := k + 1;
    }
    assert journal[..k] == journal;
    var orphans := scan.Orphans(journal);
    n := |orphans|;
    journal' := PublishAll(journal, orphans, ok, now);
  }

  method PublishAll(journal: seq<Event>, orphans: seq<Orphan>, ok: nat -> bool, now: int) returns (journal': seq<Event>)
    ensures journal' == journal + Published(orphans, Outcomes(ok, |orphans|), now)
  {
    hide Published;
    journal' := journal;
    var i, n := 0, |orphans|;
    ghost var oks := Outcomes(ok, n);
    NothingPublished(now);
    while i < n
      invariant 0 <= i <= n
      invariant journal' == journal + Published(orphans[..i], oks[..i], now)
    {
      PublishedSnoc(orphans, oks, i, now);
      if ok(i) {
        journal' := journal' + [Abandonment(orphans[i], now)];
      }
      i := i + 1;
    }
    assert orphans[..n] == orphans && oks[..n] == oks;
  }

  lemma NothingPublished(now: int)
    ensures Published([], [], now) == []
  {}

  lemma PublishedSnoc(orphans: seq<Orphan>, ok: seq<bool>, i: nat, now: int)
    requires |ok| == |orphans| && i < |orphans|
    ensures Published(orphans[..i + 1], ok[..i + 1], now)
         == Published(orphans[..i], ok[..i], now) + if ok[i] then [Abandonment(orphans[i], now)] else []
  {
    assert orphans[..i + 1][..i] == orphans[..i] && ok[..i + 1][..i] == ok[..i];
  }

  /** `c` is the correlation of an orphan whose publish went as `went` says. */
  predicate Answered(orphans: seq<Orphan>, ok: seq<bool>, went: bool, c: string)
    requires |ok| == |orphans|
  {
    exists i :: 0 <= i < |orphans| && ok[i] == went && orphans[i].corr == c
  }

  lemma AnsweredSnoc(orphans: seq<Orphan>, ok: seq<bool>, went: bool, c: string)
    requires |ok| == |orphans| > 0
    ensures Answered(orphans, ok, went, c) <==>
              Answered(orphans[..|orphans| - 1], ok[..|orphans| - 1], went, c)
              || (ok[|orphans| - 1] == went && orphans[|orphans| - 1].corr == c)
  {
    var n := |orphans| - 1;
    var before, okBefore := orphans[..n], ok[..n];
    if i :| 0 <= i < |before| && okBefore[i] == went && before[i].corr == c {
      assert ok[i] == went && orphans[i].corr == c;
    }
    if i :| 0 <= i < |orphans| && ok[i] == went && orphans[i].corr == c {
      if i < n { assert okBefore[i] == went && before[i].corr == c; }
    }
  }

  lemma {:induction false} PublishedHas(orphans: seq<Orphan>, ok: seq<bool>, now: int, k: Kind, c: string)
    requires |ok| == |orphans|
    ensures Has(Published(orphans, ok, now), k, c) <==> k == Abandoned && Answered(orphans, ok, true, c)
  {
    if orphans != [] {
      var n := |orphans| - 1;
      PublishedHas(orphans[..n], ok[..n], now, k, c);
      AnsweredSnoc(orphans, ok, true, c);
      var p := Published(orphans[..n], ok[..n], now);
      if ok[n] { HasSnoc(p, Abandonment(orphans[n], now), k, c); }
      hide Has, Answered;
      assert p + [] == p;
    }
  }

  /** After a boot the orphans left are exactly those whose publish failed; with working
      publishes a rescan finds none. */
  lemma RescanFindsTheFailed(journal: seq<Event>, orphans: seq<Orphan>, ok: seq<bool>, now: int, c: string)
    requires IsOrphanList(journal, orphans) && |ok| == |orphans|
    ensures IsOrphan(journal + Published(orphans, ok, now), c) <==> Answered(orphans, ok, false, c)
  {
    var more := Published(orphans, ok, now);
    forall k ensures Has(journal + more, k, c) <==> Has(journal, k, c) || Has(more, k, c) {
      HasConcat(journal, more, k, c);
    }
    forall k ensures Has(more, k, c) <==> k == Abandoned && Answered(orphans, ok, true, c) {
      PublishedHas(orphans, ok, now, k, c);
    }
    hide Has, Published;
    assert IsOrphan(journal + more, c) <==> IsOrphan(journal, c) && !Answered(orphans, ok, true, c);
    AnsweredOnce(journal, orphans, ok, c);
  }

  /** Every orphan is answered, and only one way. */
  lemma AnsweredOnce(journal: seq<Event>, orphans: seq<Orphan>, ok: seq<bool>, c: string)
    requires IsOrphanList(journal, orphans) && |ok| == |orphans|
    ensures IsOrphan(journal, c) <==> Answered(orphans, ok, true, c) || Answered(orphans, ok, false, c)
    ensures !(Answered(orphans, ok, true, c) && Answered(orphans, ok, false, c))
  {
    hide IsOrphan, LastReceived, Sorted;
    if IsOrphan(journal, c) {
      var i :| 0 <= i < |orphans| && orphans[i].corr == c;
      assert ok[i] == true || ok[i] == false;
    }
    if i :| 0 <= i < |orphans| && orphans[i].corr == c {
      assert IsOrphan(journal, orphans[i].corr);
    }
  }

  // ---------- over any number of boots ----------

  function Abandonments(journal: seq<Event>, c: string): nat {
    if journal == [] then 0
    else
      var e := journal[|journal| - 1];
      Abandonments(journal[..|journal| - 1], c) + if e.kind == Abandoned && e.corr == c then 1 else 0
  }

  lemma {:induction false} AbandonmentsConcat(s: seq<Event>, t: seq<Event>, c: string)
    ensures Abandonments(s + t, c) == Abandonments(s, c) + Abandonments(t, c)
  {
    if t == [] {
      assert s + t == s;
    } else {
      var n := |t| - 1;
      AbandonmentsConcat(s, t[..n], c);
      assert (s + t)[..|s + t| - 1] == s + t[..n];
    }
  }

  lemma {:induction false} NoneAbandoned(s: seq<Event>, c: string)
    ensures Abandonments(s, c) == 0 <==> !Has(s, Abandoned, c)
  {
    if s != [] {
      var t, e := s[..|s| - 1], s[|s| - 1];
      assert s == t + [e];
      NoneAbandoned(t, c);
      HasSnoc(t, e, Abandoned, c);
    }
  }

  lemma {:induction false} PublishedOnce(orphans: seq<Orphan>, ok: seq<bool>, now: int, c: string)
    requires |ok| == |orphans| && forall i, j :: 0 <= i < j < |orphans| ==> orphans[i].corr != orphans[j].corr
    ensures Abandonments(Published(orphans, ok, now), c) <= 1
  {
    if orphans != [] {
      var n := |orphans| - 1;
      var p := Published(orphans[..n], ok[..n], now);
      PublishedOnce(orphans[..n], ok[..n], now, c);
      var last := Abandonment(orphans[n], now);
      AbandonmentsSnoc(p, last, c);
      if orphans[n].corr == c {
        PublishedHas(orphans[..n], ok[..n], now, Abandoned, c);
        NoneAbandoned(p, c);
        assert forall i :: 0 <= i < n ==> orphans[..n][i].corr != c;
      }
      assert Published(orphans, ok, now) == if ok[n] then p + [last] else p;
    }
  }

  lemma AbandonmentsSnoc(s: seq<Event>, e: Event, c: string)
    ensures Abandonments(s + [e], c) == Abandonments(s, c) + if e.kind == Abandoned && e.corr == c then 1 else 0
  {
    assert (s + [e])[..|s|] == s;
  }

  datatype Step = Append(e: Event) | Boot(orphans: seq<Orphan>, ok: seq<bool>, now: int)

  ghost predicate Enabled(journal: seq<Event>, s: Step) {
    match s
    case Append(e) => e.kind != Abandoned
    case Boot(orphans, ok, _) => IsOrphanList(journal, orphans) && |ok| == |orphans|
  }

  ghost function After(journal: seq<Event>, s: Step): seq<Event>
    requires Enabled(journal, s)
  {
    match s
    case Append(e) => journal + [e]
    case Boot(orphans, ok, now) => journal + Published(orphans, ok, now)
  }

  /** A boot abandons nothing that was abandoned before it. */
  lemma BootKeepsOnce(journal: seq<Event>, orphans: seq<Orphan>, ok: seq<bool>, now: int, c: string)
    requires IsOrphanList(journal, orphans) && |ok| == |orphans|
    requires Abandonments(journal, c) <= 1
    ensures Abandonments(journal + Published(orphans, ok, now), c) <= 1
  {
    var more := Published(orphans, ok, now);
    AbandonmentsConcat(journal, more, c);
    PublishedOnce(orphans, ok, now, c);
    PublishedHas(orphans, ok, now, Abandoned, c);
    NoneAbandoned(more, c);
    NoneAbandoned(journal, c);
    AnsweredOnce(journal, orphans, ok, c);
    hide Has, Published, Abandonments, Answered, IsOrphanList;
  }

  /** Over any run of appends and boots, whatever publishes fail, no correlation is abandoned
      twice; not even one that is received again after it was abandoned. */
  lemma {:induction false} AbandonedAtMostOnce(js: seq<seq<Event>>, steps: seq<Step>, n: nat, c: string)
    requires |js| == |steps| + 1 && js[0] == [] && n < |js|
    requires forall i :: 0 <= i < |steps| ==> Enabled(js[i], steps[i]) && js[i + 1] == After(js[i], steps[i])
    ensures Abandonments(js[n], c) <= 1
  {
    if n > 0 {
      AbandonedAtMostOnce(js, steps, n - 1, c);
      var before, step := js[n - 1], steps[n - 1];
      assert Enabled(before, step) && js[n] == After(before, step);
      hide IsOrphanList, Abandonments, Published;
      match step {
        case Append(e) => AbandonmentsSnoc(before, e, c);
        case Boot(orphans, ok, now) => BootKeepsOnce(before, orphans, ok, now, c);
      }
    }
  }
}
