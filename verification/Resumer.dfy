/** Resume on boot (cmd/agezt/main_standing_resume.go; kernel/modules/runs/resume).

    A run that did not finish leaves a ticket. Every boot goes through the tickets and
    re-dispatches the ones that may resume, counting the attempt on disk first, so that a
    run that kills the daemon is not resumed for ever. I/O outcomes and crashes are inputs. */
module Resumer {
  import opened Text

  datatype Ticket = Ticket(
    corr: string, agentSlug: string, kind: string, resumable: bool, suspended: bool,
    attempts: int, createdAt: int, snapshot: seq<string>)

  datatype Profile = Profile(enabled: bool, retired: bool)

  /** What the disk holds, and (history) how often each ticket has been dispatched since it
      was put there. */
  datatype World = World(live: map<string, Ticket>, quarantined: seq<Ticket>, sent: map<string, nat>, down: bool)

  function Sent(w: World, corr: string): nat { if corr in w.sent then w.sent[corr] else 0 }

  // ---------- one ticket ----------

  datatype Verdict = NotResumable | OverCap | AgentGone | Dispatch

  function Judge(t: Ticket, roster: map<string, Profile>, maxAttempts: int): Verdict {
    var slug := TrimSpace(t.agentSlug);
    if !t.resumable then NotResumable
    else if t.attempts >= maxAttempts then OverCap
    else if slug != "" && (slug !in roster || roster[slug].retired || !roster[slug].enabled) then AgentGone
    else Dispatch
  }

  /** A write succeeds, or fails with or without having reached the disk; the daemon may be
      killed just before or just after it. */
  datatype Write = Done | FailedClean | FailedDirty
  datatype Kill = Spared | BeforeWrite | AfterWrite
  datatype Fate = Fate(write: Write, kill: Kill)

  function Quarantined(w: World, corr: string): World {
    if corr in w.live then w.(live := w.live - {corr}, quarantined := w.quarantined + [w.live[corr]]) else w
  }

  function Incremented(w: World, corr: string): World
    requires corr in w.live
  {
    w.(live := w.live[corr := w.live[corr].(attempts := w.live[corr].attempts + 1)])
  }

  function Dispatched(w: World, corr: string): World { w.(sent := w.sent[corr := Sent(w, corr) + 1]) }

  /** What the loop does with ticket `t`, whose copy was listed at boot. */
  function Handle(w: World, t: Ticket, v: Verdict, f: Fate): World {
    if w.down then w
    else if f.kill == BeforeWrite then w.(down := true)
    else if v != Dispatch then
      var q := if f.write == FailedClean then w else Quarantined(w, t.corr);
      if f.kill == AfterWrite then q.(down := true) else q
    else if t.corr !in w.live || f.write == FailedClean then
      if f.kill == AfterWrite then w.(down := true) else w
    else
      var i := Incremented(w, t.corr);
      if f.kill == AfterWrite then i.(down := true)
      else if f.write == FailedDirty then i
      else Dispatched(i, t.corr)
  }

  function HandleAll(w: World, ts: seq<Ticket>, roster: map<string, Profile>, maxAttempts: int, fates: seq<Fate>): World
    requires |fates| == |ts|
  {
    if ts == [] then w
    else
      var n := |ts| - 1;
      Handle(HandleAll(w, ts[..n], roster, maxAttempts, fates[..n]), ts[n], Judge(ts[n], roster, maxAttempts), fates[n])
  }

  /** `ts` lists every live ticket once, oldest first. */
  ghost predicate IsListing(live: map<string, Ticket>, ts: seq<Ticket>) {
    && (forall i :: 0 <= i < |ts| ==> ts[i].corr in live && live[ts[i].corr] == ts[i])
    && (forall i, j :: 0 <= i < j < |ts| ==> ts[i].corr != ts[j].corr && ts[i].createdAt <= ts[j].createdAt)
    && (forall c :: c in live ==> exists i :: 0 <= i < |ts| && ts[i].corr == c)
  }

  ghost predicate KeyedByCorr(live: map<string, Ticket>) { forall c :: c in live ==> live[c].corr == c }

  // ---------- the store and the boot loop ----------

  lemma {:induction false} OldestExists(live: map<string, Ticket>, rest: set<string>)
    requires rest != {} && rest <= live.Keys
    ensures exists c :: c in rest && forall d :: d in rest ==> live[c].createdAt <= live[d].createdAt
    decreases rest
  {
    var x :| x in rest;
    if rest != {x} {
      OldestExists(live, rest - {x});
      var c :| c in rest - {x} && forall d :: d in rest - {x} ==> live[c].createdAt <= live[d].createdAt;
      var best := if live[x].createdAt <= live[c].createdAt then x else c;
      assert best in rest && forall d :: d in rest ==> live[best].createdAt <= live[d].createdAt;
    }
  }

  /** `ts` lists the tickets outside `rest`, none of them younger than those in it. */
  ghost predicate OldestListed(live: map<string, Ticket>, ts: seq<Ticket>, rest: set<string>)
    requires rest <= live.Keys
  {
    && OldestFirst(live, ts, rest)
    && (forall c :: c in live && c !in rest ==> exists i :: 0 <= i < |ts| && ts[i].corr == c)
  }

  ghost predicate OldestFirst(live: map<string, Ticket>, ts: seq<Ticket>, rest: set<string>)
    requires rest <= live.Keys
  {
    && (forall i :: 0 <= i < |ts| ==> ts[i].corr in live && ts[i].corr !in rest && live[ts[i].corr] == ts[i])
    && (forall i, j :: 0 <= i < j < |ts| ==> ts[i].corr != ts[j].corr && ts[i].createdAt <= ts[j].createdAt)
    && (forall i, d :: 0 <= i < |ts| && d in rest ==> ts[i].createdAt <= live[d].createdAt)
  }

  lemma ListStep(live: map<string, Ticket>, ts: seq<Ticket>, rest: set<string>, c: string)
    requires KeyedByCorr(live) && rest <= live.Keys && OldestListed(live, ts, rest)
    requires c in rest && forall d :: d in rest ==> live[c].createdAt <= live[d].createdAt
    ensures OldestListed(live, ts + [live[c]], rest - {c})
  {
    ListCovers(live, ts, rest, c, live[c]);
    ListGrows(live, ts, rest, c);
    hide OldestFirst;
  }

  lemma ListGrows(live: map<string, Ticket>, ts: seq<Ticket>, rest: set<string>, c: string)
    requires KeyedByCorr(live) && rest <= live.Keys && OldestFirst(live, ts, rest)
    requires c in rest && forall d :: d in rest ==> live[c].createdAt <= live[d].createdAt
    ensures OldestFirst(live, ts + [live[c]], rest - {c})
  {
    var more := ts + [live[c]];
    forall i | 0 <= i < |ts| ensures more[i] == ts[i] {}
    assert more[|ts|].corr == c;
  }

  lemma ListCovers(live: map<string, Ticket>, ts: seq<Ticket>, rest: set<string>, c: string, t: Ticket)
    requires t.corr == c && forall k :: k in live && k !in rest ==> exists i :: 0 <= i < |ts| && ts[i].corr == k
    ensures forall k :: k in live && k !in rest - {c} ==> exists i :: 0 <= i < |ts + [t]| && (ts + [t])[i].corr == k
  {
    var more := ts + [t];
    assert more[|ts|].corr == c;
    forall k | k in live && k !in rest - {c} ensures exists i :: 0 <= i < |more| && more[i].corr == k {
      if k != c {
        var i :| 0 <= i < |ts| && ts[i].corr == k;
        assert more[i].corr == k;
      }
    }
  }

  datatype Report = NonePending | Report(resumed: nat, reportedQuarantined: nat) | Killed

  class Store {
    var live: map<string, Ticket>
    var quarantined: seq<Ticket>
    var sent: map<string, nat>
    var down: bool

    function State(): World
      reads this
    {
      World(live, quarantined, sent, down)
    }

    constructor (live: map<string, Ticket>, quarantined: seq<Ticket>, sent: map<string, nat>)
      ensures State() == World(live, quarantined, sent, false)
    {
      this.live, this.quarantined, this.sent, this.down := live, quarantined, sent, false;
    }

    method List() returns (ts: seq<Ticket>)
      requires KeyedByCorr(live)
      ensures IsListing(live, ts)
    {
      ts := [];
      var rest := live.Keys;
      while rest != {}
        invariant rest <= live.Keys && OldestListed(live, ts, rest)
        decreases rest
      {
        OldestExists(live, rest);
        var c :| c in rest && forall d :: d in rest ==> live[c].createdAt <= live[d].createdAt;
        ListStep(live, ts, rest, c);
        ts := ts + [live[c]];
        rest := rest - {c};
      }
    }

    /** Bumps the counter on disk; an error may or may not have reached it. */
    method IncrementAttempt(corr: string, write: Write) returns (ok: bool)
      modifies this`live
      ensures ok <==> corr in old(live) && write == Done
      ensures State()
           == if corr in old(live) && write != FailedClean then Incremented(old(State()), corr) else old(State())
    {
      if corr !in live {
        return false;
      }
      if write != FailedClean {
        live := live[corr := live[corr].(attempts := live[corr].attempts + 1)];
      }
      ok := write == Done;
    }

    method Quarantine(corr: string, write: Write)
      modifies this`live, this`quarantined
      ensures State() == if write == FailedClean then old(State()) else Quarantined(old(State()), corr)
    {
      if write != FailedClean && corr in live {
        live, quarantined := live - {corr}, quarantined + [live[corr]];
      }
    }

    /** Quarantine, or count and dispatch. */
    method HandleTicket(t: Ticket, v: Verdict, f: Fate) returns (dispatched: bool)
      requires !down
      modifies this
      ensures State() == Handle(old(State()), t, v, f)
      ensures dispatched <==> Dispatches(old(State()), t, v, f)
    {
      dispatched := false;
      if f.kill == BeforeWrite {
        down := true;
      } else if v != Dispatch {
        Quarantine(t.corr, f.write);
        down := f.kill == AfterWrite;
      } else {
        var ok := IncrementAttempt(t.corr, f.write);
        if f.kill == AfterWrite {
          down := true;
        } else if ok {
          sent := sent[t.corr := (if t.corr in sent then sent[t.corr] else 0) + 1];
          dispatched := true;
        }
      }
    }

    /** The boot loop over the tickets listed at its start. */
    method BuildResumer(ts: seq<Ticket>, roster: map<string, Profile>, maxAttempts: int, fates: seq<Fate>)
      returns (r: Report)
      requires !down && |fates| == |ts|
      modifies this
      ensures State() == HandleAll(old(State()), ts, roster, maxAttempts, fates)
      ensures ts == [] <==> r == NonePending
      ensures ts != [] ==> (r == Killed <==> down)
      ensures r.Report? ==> r.resumed == |Resumed(old(State()), ts, roster, maxAttempts, fates)|
      ensures r.Report? ==> r.resumed + r.reportedQuarantined == |ts|
    {
      if ts == [] {
        return NonePending;
      }
      hide Judge, Handle, Dispatches, HandleAll, Resumed;
      NothingYet(State(), roster, maxAttempts);
      var resumed, k := 0, 0;
      ghost var start := State();
      while k < |ts|
        invariant 0 <= k <= |ts| && !down
        invariant State() == HandleAll(start, ts[..k], roster, maxAttempts, fates[..k])
        invariant resumed == |Resumed(start, ts[..k], roster, maxAttempts, fates[..k])| <= k
      {
        OneMoreTicket(start, ts, roster, maxAttempts, fates, k);
        var dispatched := HandleTicket(ts[k], Judge(ts[k], roster, maxAttempts), fates[k]);
        if dispatched {
          resumed := resumed + 1;
        }
        k := k + 1;
        if down {
          DownStaysDown(start, ts, roster, maxAttempts, fates, k);
          return Killed;
        }
      }
      assert ts[..k] == ts && fates[..k] == fates;
      r := Report(resumed, |ts| - resumed);
    }
  }

  lemma NothingYet(w: World, roster: map<string, Profile>, maxAttempts: int)
    ensures HandleAll(w, [], roster, maxAttempts, []) == w && Resumed(w, [], roster, maxAttempts, []) == []
  {}

  lemma OneMoreTicket(w: World, ts: seq<Ticket>, roster: map<string, Profile>, maxAttempts: int, fates: seq<Fate>,
      k: nat)
    requires |fates| == |ts| && k < |ts|
    ensures var before, v := HandleAll(w, ts[..k], roster, maxAttempts, fates[..k]), Judge(ts[k], roster, maxAttempts);
      && HandleAll(w, ts[..k + 1], roster, maxAttempts, fates[..k + 1]) == Handle(before, ts[k], v, fates[k])
      && Resumed(w, ts[..k + 1], roster, maxAttempts, fates[..k + 1])
         == Resumed(w, ts[..k], roster, maxAttempts, fates[..k])
            + if Dispatches(before, ts[k], v, fates[k]) then [ts[k]] else []
  {
    assert ts[..k + 1][..k] == ts[..k] && fates[..k + 1][..k] == fates[..k];
  }

  lemma {:induction false} DownStaysDown(w: World, ts: seq<Ticket>, roster: map<string, Profile>, maxAttempts: int,
      fates: seq<Fate>, k: nat)
    requires |fates| == |ts| && k <= |ts| && HandleAll(w, ts[..k], roster, maxAttempts, fates[..k]).down
    ensures HandleAll(w, ts, roster, maxAttempts, fates) == HandleAll(w, ts[..k], roster, maxAttempts, fates[..k])
    decreases |ts|
  {
    if k < |ts| {
      var n := |ts| - 1;
      assert ts[..n][..k] == ts[..k] && fates[..n][..k] == fates[..k];
      DownStaysDown(w, ts[..n], roster, maxAttempts, fates[..n], k);
    } else {
      assert ts[..k] == ts && fates[..k] == fates;
    }
  }

  /** The tickets a boot dispatches. */
  function Resumed(w: World, ts: seq<Ticket>, roster: map<string, Profile>, maxAttempts: int,
      fates: seq<Fate>): seq<Ticket>
    requires |fates| == |ts|
  {
    if ts == [] then []
    else
      var n := |ts| - 1;
      var before := HandleAll(w, ts[..n], roster, maxAttempts, fates[..n]);
      Resumed(w, ts[..n], roster, maxAttempts, fates[..n])
        + if Dispatches(before, ts[n], Judge(ts[n], roster, maxAttempts), fates[n]) then [ts[n]] else []
  }

  predicate Dispatches(w: World, t: Ticket, v: Verdict, f: Fate) {
    !w.down && v == Dispatch && t.corr in w.live && f == Fate(Done, Spared)
  }

  /** Only a resumable ticket below the cap whose agent is there is ever dispatched. */
  lemma {:induction false} OnlyFitTicketsResume(w: World, ts: seq<Ticket>, roster: map<string, Profile>,
      maxAttempts: int, fates: seq<Fate>, t: Ticket)
    requires |fates| == |ts| && t in Resumed(w, ts, roster, maxAttempts, fates)
    ensures t in ts && t.resumable && t.attempts < maxAttempts
    ensures var slug := TrimSpace(t.agentSlug);
      slug == "" || (slug in roster && roster[slug].enabled && !roster[slug].retired)
  {
    var n := |ts| - 1;
    if t in Resumed(w, ts[..n], roster, maxAttempts, fates[..n]) {
      OnlyFitTicketsResume(w, ts[..n], roster, maxAttempts, fates[..n], t);
    }
  }

  // ---------- who is resumed, and who is moved aside ----------

  /** Nobody forbade it, it was not tried too often, and the agent it ran as, if any, can run. */
  predicate MayResume(t: Ticket, roster: map<string, Profile>, maxAttempts: int) {
    var slug := TrimSpace(t.agentSlug);
    && t.resumable && t.attempts < maxAttempts
    && (slug == "" || (slug in roster && roster[slug].enabled && !roster[slug].retired))
  }

  lemma JudgedByItself(t: Ticket, roster: map<string, Profile>, maxAttempts: int)
    ensures Judge(t, roster, maxAttempts) == Dispatch <==> MayResume(t, roster, maxAttempts)
    ensures Judge(t, roster, maxAttempts) == NotResumable <==> !t.resumable
    ensures Judge(t, roster, maxAttempts) == OverCap <==> t.resumable && t.attempts >= maxAttempts
  {}

  /** The daemon was not killed in its first `k` turns. */
  predicate Survives(fates: seq<Fate>, k: nat)
    requires k <= |fates|
  {
    forall j :: 0 <= j < k ==> fates[j].kill == Spared
  }

  /** The i-th turn is taken, and its write reaches the disk. */
  predicate Reaches(fates: seq<Fate>, i: nat)
    requires i < |fates|
  {
    Survives(fates, i) && fates[i].kill != BeforeWrite && fates[i].write != FailedClean
  }

  /** The i-th turn is taken, its write succeeds, and the daemon lives to go on. */
  predicate Succeeds(fates: seq<Fate>, i: nat)
    requires i < |fates|
  {
    Survives(fates, i) && fates[i] == Fate(Done, Spared)
  }

  /** The ticket, with one attempt more if `counted`. */
  function CountedIf(t: Ticket, counted: bool): Ticket {
    t.(attempts := t.attempts + if counted then 1 else 0)
  }

  /** After `k` turns of a boot: who is gone, and where to; the others are still there. */
  ghost predicate BootGotTo(w: World, ts: seq<Ticket>, roster: map<string, Profile>, maxAttempts: int,
      fates: seq<Fate>, w': World, k: nat)
    requires k <= |ts| == |fates|
  {
    && (w'.down <==> !Survives(fates, k))
    && (forall i :: k <= i < |ts| ==> ts[i].corr in w'.live && w'.live[ts[i].corr] == ts[i])
    && (forall i :: 0 <= i < k ==>
          if !MayResume(ts[i], roster, maxAttempts) && Reaches(fates, i)
          then ts[i].corr !in w'.live && ts[i] in w'.quarantined
          else ts[i].corr in w'.live && w'.live[ts[i].corr] == CountedIf(ts[i], Reaches(fates, i)))
  }

  lemma BootGoesOn(w: World, ts: seq<Ticket>, roster: map<string, Profile>, maxAttempts: int, fates: seq<Fate>,
      w': World, k: nat)
    requires k < |ts| == |fates| && BootGotTo(w, ts, roster, maxAttempts, fates, w', k)
    requires forall i, j :: 0 <= i < j < |ts| ==> ts[i].corr != ts[j].corr
    ensures BootGotTo(w, ts, roster, maxAttempts, fates,
                      Handle(w', ts[k], Judge(ts[k], roster, maxAttempts), fates[k]), k + 1)
  {
    hide Judge, MayResume;
    JudgedByItself(ts[k], roster, maxAttempts);
    var v := Judge(ts[k], roster, maxAttempts);
    var w'' := Handle(w', ts[k], v, fates[k]);
    OthersStay(w', ts[k], v, fates[k]);
    assert w''.down <==> !Survives(fates, k + 1);
    forall i | 0 <= i < |ts| && i != k ensures ts[i].corr != ts[k].corr {}
    HandledGoes(w', ts[k], v, fates[k]);
    hide Handle, Survives;
  }

  /** A turn leaves the other tickets alone, and what is moved aside stays there. */
  lemma OthersStay(w: World, t: Ticket, v: Verdict, f: Fate)
    ensures var w' := Handle(w, t, v, f);
      && (forall c :: c != t.corr ==> (c in w'.live <==> c in w.live) && (c in w.live ==> w'.live[c] == w.live[c]))
      && w.quarantined <= w'.quarantined
  {}

  lemma HandledGoes(w: World, t: Ticket, v: Verdict, f: Fate)
    requires t.corr in w.live && w.live[t.corr] == t
    ensures var w' := Handle(w, t, v, f);
      if !w.down && v != Dispatch && f.kill != BeforeWrite && f.write != FailedClean
      then t.corr !in w'.live && t in w'.quarantined
      else t.corr in w'.live
           && w'.live[t.corr] == CountedIf(t, !w.down && f.kill != BeforeWrite && f.write != FailedClean)
  {}

  lemma {:induction false} BootTrace(w: World, ts: seq<Ticket>, roster: map<string, Profile>, maxAttempts: int,
      fates: seq<Fate>, k: nat)
    requires !w.down && IsListing(w.live, ts) && k <= |ts| == |fates|
    ensures BootGotTo(w, ts, roster, maxAttempts, fates, HandleAll(w, ts[..k], roster, maxAttempts, fates[..k]), k)
  {
    hide Handle, Judge, MayResume;
    if k > 0 {
      BootTrace(w, ts, roster, maxAttempts, fates, k - 1);
      OneMoreTicket(w, ts, roster, maxAttempts, fates, k - 1);
      hide BootGotTo;
      BootGoesOn(w, ts, roster, maxAttempts, fates,
                 HandleAll(w, ts[..k - 1], roster, maxAttempts, fates[..k - 1]), k - 1);
    }
  }

  lemma {:induction false} ResumedSoFar(w: World, ts: seq<Ticket>, roster: map<string, Profile>, maxAttempts: int,
      fates: seq<Fate>, k: nat)
    requires !w.down && IsListing(w.live, ts) && k <= |ts| == |fates|
    ensures forall t :: t in Resumed(w, ts[..k], roster, maxAttempts, fates[..k]) <==>
              exists i :: 0 <= i < k && ts[i] == t && MayResume(t, roster, maxAttempts) && Succeeds(fates, i)
  {
    hide Handle, Judge, MayResume, HandleAll, IsListing, Survives;
    if k > 0 {
      var n := k - 1;
      ResumedSoFar(w, ts, roster, maxAttempts, fates, n);
      OneMoreTicket(w, ts, roster, maxAttempts, fates, n);
      BootTrace(w, ts, roster, maxAttempts, fates, n);
      JudgedByItself(ts[n], roster, maxAttempts);
      hide Resumed;
    }
  }

  /** However the writes turn out and wherever the daemon dies: a listed ticket is dispatched exactly if it
      may resume, the boot gets to it, and its increment succeeds; and it is moved aside exactly if it may
      not, the boot gets to it, and the move reaches the disk. */
  lemma ResumesIff(w: World, ts: seq<Ticket>, roster: map<string, Profile>, maxAttempts: int, fates: seq<Fate>, i: nat)
    requires !w.down && IsListing(w.live, ts) && i < |ts| == |fates|
    ensures var t, w' := ts[i], HandleAll(w, ts, roster, maxAttempts, fates);
      && (t in Resumed(w, ts, roster, maxAttempts, fates) <==>
            MayResume(t, roster, maxAttempts) && Succeeds(fates, i))
      && (t.corr !in w'.live <==> !MayResume(t, roster, maxAttempts) && Reaches(fates, i))
      && (t.corr !in w'.live ==> t in w'.quarantined)
      && (t.corr in w'.live ==> w'.live[t.corr] == CountedIf(t, Reaches(fates, i)))
  {
    hide HandleAll, Resumed, MayResume, Survives;
    BootTrace(w, ts, roster, maxAttempts, fates, |ts|);
    ResumedSoFar(w, ts, roster, maxAttempts, fates, |ts|);
    assert ts[..|ts|] == ts && fates[..|fates|] == fates;
    forall j | 0 <= j < |ts| && ts[j] == ts[i] ensures j == i {}
  }

  function TimesIn(ts: seq<Ticket>, c: string): nat {
    if ts == [] then 0 else TimesIn(ts[..|ts| - 1], c) + if ts[|ts| - 1].corr == c then 1 else 0
  }

  /** A boot dispatches those tickets and no others. */
  lemma {:induction false} SentAreResumed(w: World, ts: seq<Ticket>, roster: map<string, Profile>, maxAttempts: int,
      fates: seq<Fate>, c: string)
    requires |ts| == |fates|
    ensures Sent(HandleAll(w, ts, roster, maxAttempts, fates), c)
         == Sent(w, c) + TimesIn(Resumed(w, ts, roster, maxAttempts, fates), c)
  {
    hide Judge, Handle, Dispatches, Sent;
    if ts != [] {
      var n := |ts| - 1;
      SentAreResumed(w, ts[..n], roster, maxAttempts, fates[..n], c);
      var before, v := HandleAll(w, ts[..n], roster, maxAttempts, fates[..n]), Judge(ts[n], roster, maxAttempts);
      var got := Resumed(w, ts[..n], roster, maxAttempts, fates[..n]);
      SentOne(before, ts[n], v, fates[n], c);
      assert (got + [ts[n]])[..|got|] == got && got + [] == got;
    }
  }

  lemma SentOne(w: World, t: Ticket, v: Verdict, f: Fate, c: string)
    ensures Sent(Handle(w, t, v, f), c) == Sent(w, c) + if Dispatches(w, t, v, f) && t.corr == c then 1 else 0
  {}

  /** When every write succeeds and nothing dies, the tickets that may resume are dispatched, and all the
      others of the listing are in the quarantine. */
  lemma CleanBootResumesIff(w: World, ts: seq<Ticket>, roster: map<string, Profile>, maxAttempts: int,
      fates: seq<Fate>, t: Ticket)
    requires !w.down && IsListing(w.live, ts) && |ts| == |fates|
    requires forall i :: 0 <= i < |fates| ==> fates[i] == Fate(Done, Spared)
    ensures t in Resumed(w, ts, roster, maxAttempts, fates) <==> t in ts && MayResume(t, roster, maxAttempts)
    ensures var w' := HandleAll(w, ts, roster, maxAttempts, fates);
      t in ts && !MayResume(t, roster, maxAttempts) ==> t.corr !in w'.live && t in w'.quarantined
  {
    hide HandleAll, Resumed, MayResume, IsListing;
    ResumedSoFar(w, ts, roster, maxAttempts, fates, |ts|);
    assert ts[..|ts|] == ts && fates[..|fates|] == fates;
    if i :| 0 <= i < |ts| && ts[i] == t { ResumesIff(w, ts, roster, maxAttempts, fates, i); }
  }

  // ---------- the banner ----------

  /** How many tickets a boot moves aside. */
  function MovedAside(w: World, ts: seq<Ticket>, roster: map<string, Profile>, maxAttempts: int,
      fates: seq<Fate>): int
    requires |fates| == |ts|
  {
    |HandleAll(w, ts, roster, maxAttempts, fates).quarantined| - |w.quarantined|
  }

  /** The ticket is there at its turn and its move reaches the disk. */
  predicate Moves(w: World, t: Ticket, f: Fate) {
    !w.down && f.kill != BeforeWrite && f.write != FailedClean && t.corr in w.live
  }

  /** At its turn a fit ticket is dispatched and an unfit one moved aside. */
  predicate Accounted(w: World, ts: seq<Ticket>, roster: map<string, Profile>, maxAttempts: int, fates: seq<Fate>,
      i: nat)
    requires |fates| == |ts| && i < |ts|
  {
    var before := HandleAll(w, ts[..i], roster, maxAttempts, fates[..i]);
    if Judge(ts[i], roster, maxAttempts) == Dispatch then Dispatches(before, ts[i], Dispatch, fates[i])
    else Moves(before, ts[i], fates[i])
  }

  ghost predicate AllAccounted(w: World, ts: seq<Ticket>, roster: map<string, Profile>, maxAttempts: int,
      fates: seq<Fate>)
    requires |fates| == |ts|
  {
    forall i :: 0 <= i < |ts| ==> Accounted(w, ts, roster, maxAttempts, fates, i)
  }

  lemma AllAccountedSnoc(w: World, ts: seq<Ticket>, roster: map<string, Profile>, maxAttempts: int, fates: seq<Fate>)
    requires |fates| == |ts| > 0
    ensures var n := |ts| - 1; AllAccounted(w, ts, roster, maxAttempts, fates) <==>
      AllAccounted(w, ts[..n], roster, maxAttempts, fates[..n]) && Accounted(w, ts, roster, maxAttempts, fates, n)
  {
    hide Judge, Dispatches, Moves, HandleAll;
    var n := |ts| - 1;
    forall i | 0 <= i < n
      ensures Accounted(w, ts[..n], roster, maxAttempts, fates[..n], i)
           == Accounted(w, ts, roster, maxAttempts, fates, i)
    {
      assert ts[..n][..i] == ts[..i] && fates[..n][..i] == fates[..i];
    }
    hide Accounted;
  }

  /** One ticket adds to the dispatched or to the moved, or to neither. */
  lemma HandleAccounts(w: World, t: Ticket, v: Verdict, f: Fate)
    ensures |Handle(w, t, v, f).quarantined| - |w.quarantined| == if v != Dispatch && Moves(w, t, f) then 1 else 0
  {}

  /** The banner calls every ticket it did not resume quarantined. The number is right, for what the
      quarantine holds, exactly when every fit ticket was dispatched and every unfit one was still there
      and its move reached the disk. Otherwise it is too high. */
  lemma {:induction false} BannerIsRightIff(w: World, ts: seq<Ticket>, roster: map<string, Profile>,
      maxAttempts: int, fates: seq<Fate>)
    requires |fates| == |ts|
    ensures |ts| - |Resumed(w, ts, roster, maxAttempts, fates)| == MovedAside(w, ts, roster, maxAttempts, fates)
       <==> AllAccounted(w, ts, roster, maxAttempts, fates)
    ensures |ts| - |Resumed(w, ts, roster, maxAttempts, fates)| >= MovedAside(w, ts, roster, maxAttempts, fates)
  {
    if ts != [] {
      var n := |ts| - 1;
      BannerIsRightIff(w, ts[..n], roster, maxAttempts, fates[..n]);
      AllAccountedSnoc(w, ts, roster, maxAttempts, fates);
      var before := HandleAll(w, ts[..n], roster, maxAttempts, fates[..n]);
      HandleAccounts(before, ts[n], Judge(ts[n], roster, maxAttempts), fates[n]);
      hide Judge, Handle, AllAccounted, Moves;
    }
  }

  /** One ticket, met by the boot loop. */
  lemma OneTicketBoot(w: World, t: Ticket, maxAttempts: int, f: Fate)
    ensures HandleAll(w, [t], map[], maxAttempts, [f]) == Handle(w, t, Judge(t, map[], maxAttempts), f)
    ensures Resumed(w, [t], map[], maxAttempts, [f])
         == if Dispatches(w, t, Judge(t, map[], maxAttempts), f) then [t] else []
  {
    hide Judge, Handle, Dispatches;
    OneMoreTicket(w, [t], map[], maxAttempts, [f], 0);
    NothingYet(w, map[], maxAttempts);
    assert [t][..1] == [t] && [f][..1] == [f];
  }

  /** A move that fails is reported as a quarantined ticket, and the ticket is still live. */
  lemma FailedMoveIsReported(w: World, t: Ticket, maxAttempts: int)
    requires !w.down && !t.resumable
    ensures var f := Fate(FailedClean, Spared);
      && |[t]| - |Resumed(w, [t], map[], maxAttempts, [f])| == 1
      && HandleAll(w, [t], map[], maxAttempts, [f]) == w
  {
    OneTicketBoot(w, t, maxAttempts, Fate(FailedClean, Spared));
  }

  /** So is a fit ticket whose increment fails. */
  lemma SkippedTicketIsReported(w: World, t: Ticket, maxAttempts: int)
    requires !w.down && t.resumable && t.agentSlug == "" && t.attempts < maxAttempts
    ensures var f := Fate(FailedClean, Spared);
      && |[t]| - |Resumed(w, [t], map[], maxAttempts, [f])| == 1
      && HandleAll(w, [t], map[], maxAttempts, [f]) == w
  {
    OneTicketBoot(w, t, maxAttempts, Fate(FailedClean, Spared));
  }
}
