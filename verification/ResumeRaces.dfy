/** What a shutdown that overlaps the boot loop can do to the attempt cap and to finished runs
    (kernel/modules/runs/resume/resume_ops.go, kernel/runtime/resume.go,
    cmd/agezt/main_standing_resume.go). A shutdown lists the tickets outside the store's lock and
    later writes its copies back as suspended. */
module ResumeRaces {
  import opened Resumer
  import opened ResumeProtocol
  import opened Text

  // ---------- continuations ----------

  /** From `d` the daemon may go through `run`, with no stale write-back on the way. */
  ghost predicate Leads(d: Daemon, run: seq<Daemon>, acts: seq<Action>, cap: nat) {
    && Path(run, acts) && run[0] == d && CapsWithin(acts, cap)
    && forall i :: 0 <= i < |acts| ==> NoStaleWrite(run[i], acts[i])
  }

  /** From `d` the daemon can come to have dispatched `c` `n` times. */
  ghost predicate CanReach(d: Daemon, c: string, cap: nat, n: nat) {
    exists run: seq<Daemon>, acts: seq<Action> :: Leads(d, run, acts, cap) && Sent(run[|acts|].w, c) == n
  }

  /** Nothing but boots, deaths and the boot loop. */
  predicate OnlyBoots(acts: seq<Action>) {
    forall i :: 0 <= i < |acts| ==> acts[i].Boot? || acts[i].HandleNext? || acts[i].Die?
  }

  lemma PathConcat(r1: seq<Daemon>, a1: seq<Action>, r2: seq<Daemon>, a2: seq<Action>)
    requires Path(r1, a1) && Path(r2, a2) && r1[|a1|] == r2[0]
    ensures Path(r1 + r2[1..], a1 + a2)
    ensures (r1 + r2[1..])[|a1| + |a2|] == r2[|a2|] && (r1 + r2[1..])[0] == r1[0]
    ensures forall i :: 0 <= i < |a1| ==> (r1 + r2[1..])[i] == r1[i]
  {
    hide Enabled, Step;
    var run, acts := r1 + r2[1..], a1 + a2;
    forall i | 0 <= i < |acts| ensures Enabled(run[i], acts[i]) && run[i + 1] == Step(run[i], acts[i]) {
      if i < |a1| {
        assert run[i] == r1[i] && run[i + 1] == r1[i + 1] && acts[i] == a1[i];
      } else {
        assert run[i] == r2[i - |a1|] && run[i + 1] == r2[i - |a1| + 1] && acts[i] == a2[i - |a1|];
      }
    }
  }

  lemma OneStep(d: Daemon, a: Action)
    requires Enabled(d, a)
    ensures Path([d, Step(d, a)], [a])
  {}

  lemma {:induction false} ListingFrom(live: map<string, Ticket>, ts: seq<Ticket>, rest: set<string>)
      returns (all: seq<Ticket>)
    requires KeyedByCorr(live) && rest <= live.Keys && OldestListed(live, ts, rest)
    ensures IsListing(live, all)
    decreases rest
  {
    if rest == {} {
      all := ts;
    } else {
      OldestExists(live, rest);
      var c :| c in rest && forall d :: d in rest ==> live[c].createdAt <= live[d].createdAt;
      ListStep(live, ts, rest, c);
      all := ListingFrom(live, ts + [live[c]], rest - {c});
    }
  }

  lemma SkipHandles(w: World, t: Ticket, v: Verdict)
    requires !w.down
    ensures Handle(w, t, v, Fate(FailedClean, Spared)) == w
  {}

  /** The boot loop can come to its k-th ticket without having done anything. */
  lemma {:induction false} SkipTo(d: Daemon, k: nat) returns (run: seq<Daemon>, acts: seq<Action>)
    requires !d.w.down && k < |d.pending|
    ensures Path(run, acts) && |run| == |acts| + 1 && run[0] == d && OnlyBoots(acts) && CapsWithin(acts, 0)
    ensures run[|acts|] == d.(pending := d.pending[k..])
    decreases k
  {
    if k == 0 {
      run, acts := [d], [];
      assert d.pending[0..] == d.pending;
    } else {
      var a := HandleNext(Fate(FailedClean, Spared));
      SkipHandles(d.w, d.pending[0], Judge(d.pending[0], d.roster, d.cap));
      var d1 := Step(d, a);
      hide Handle, Judge;
      assert d1 == d.(pending := d.pending[1..]);
      OneStep(d, a);
      var r, b := SkipTo(d1, k - 1);
      hide Enabled, Step, Path;
      PathConcat([d, d1], [a], r, b);
      run, acts := [d, d1] + r[1..], [a] + b;
      assert d.pending[1..][k - 1..] == d.pending[k..];
    }
  }

  function RosterFor(t: Ticket): map<string, Profile> { map[TrimSpace(t.agentSlug) := Profile(true, false)] }

  lemma FitSomewhere(t: Ticket, cap: int)
    requires t.resumable && t.attempts < cap
    ensures Judge(t, RosterFor(t), cap) == Dispatch
  {
    hide TrimSpace;
  }

  /** The daemon, up or down, can boot. */
  lemma BootFrom(d: Daemon, ts: seq<Ticket>, roster: map<string, Profile>, cap: nat)
      returns (run: seq<Daemon>, acts: seq<Action>)
    requires IsListing(d.w.live, ts)
    ensures Path(run, acts) && |run| == |acts| + 1 && run[0] == d && OnlyBoots(acts) && CapsWithin(acts, cap)
    ensures run[|acts|] == Daemon(d.w.(down := false), ts, roster, cap, map[])
  {
    hide IsListing;
    var boot := Boot(ts, roster, cap);
    if d.w.down {
      run, acts := [d, Step(d, boot)], [boot];
    } else {
      var down := Step(d, Die);
      run, acts := [d, down, Step(down, boot)], [Die, boot];
    }
  }

  lemma ActsConcat(a1: seq<Action>, a2: seq<Action>, cap: nat)
    requires OnlyBoots(a1) && OnlyBoots(a2) && CapsWithin(a1, cap) && CapsWithin(a2, cap)
    ensures OnlyBoots(a1 + a2) && CapsWithin(a1 + a2, cap)
  {}

  /** The daemon can boot and come to the ticket of `c`. */
  lemma BootTo(d: Daemon, c: string, roster: map<string, Profile>, cap: nat)
      returns (run: seq<Daemon>, acts: seq<Action>)
    requires KeyedByCorr(d.w.live) && c in d.w.live
    ensures Path(run, acts) && |run| == |acts| + 1 && run[0] == d && OnlyBoots(acts) && CapsWithin(acts, cap)
    ensures var d' := run[|acts|];
      && d'.w == d.w.(down := false) && d'.roster == roster && d'.cap == cap
      && d'.pending != [] && d'.pending[0] == d.w.live[c]
  {
    hide Enabled, Step, Path, IsListing, OnlyBoots, CapsWithin;
    NothingListed(d.w.live);
    var ts := ListingFrom(d.w.live, [], d.w.live.Keys);
    var k := PlaceOf(d.w.live, ts, c);
    var r1, a1 := BootFrom(d, ts, roster, cap);
    var r2, a2 := SkipTo(r1[|a1|], k);
    PathConcat(r1, a1, r2, a2);
    NoBootsNoCap(a2, cap);
    ActsConcat(a1, a2, cap);
    run, acts := r1 + r2[1..], a1 + a2;
  }

  lemma NothingListed(live: map<string, Ticket>)
    ensures OldestListed(live, [], live.Keys)
  {}

  lemma NoBootsNoCap(acts: seq<Action>, cap: nat)
    requires CapsWithin(acts, 0)
    ensures CapsWithin(acts, cap)
  {}

  lemma DispatchHere(d: Daemon, t: Ticket)
    requires !d.w.down && d.pending != [] && d.pending[0] == t && t.corr in d.w.live && d.w.live[t.corr] == t
    requires Judge(t, d.roster, d.cap) == Dispatch
    ensures var go := HandleNext(Fate(Done, Spared));
      && Enabled(d, go)
      && Step(d, go).w.live == d.w.live[t.corr := t.(attempts := t.attempts + 1)]
      && Sent(Step(d, go).w, t.corr) == Sent(d.w, t.corr) + 1
  {
    hide Judge, Handle;
    CleanHandleDoes(d.w, t, true, Dispatch);
  }

  lemma PathSnoc(run: seq<Daemon>, acts: seq<Action>, a: Action)
    requires Path(run, acts) && Enabled(run[|acts|], a)
    ensures Path(run + [Step(run[|acts|], a)], acts + [a])
  {
    OneStep(run[|acts|], a);
    hide Enabled, Step;
    PathConcat(run, acts, [run[|acts|], Step(run[|acts|], a)], [a]);
    assert run + [run[|acts|], Step(run[|acts|], a)][1..] == run + [Step(run[|acts|], a)];
  }

  /** A resumable ticket below the cap can be dispatched once more: the daemon dies, boots and
      comes to it. */
  lemma DispatchAgain(d: Daemon, c: string, cap: nat) returns (run: seq<Daemon>, acts: seq<Action>)
    requires KeyedByCorr(d.w.live) && c in d.w.live && d.w.live[c].resumable && d.w.live[c].attempts < cap
    ensures Path(run, acts) && |run| == |acts| + 1 && run[0] == d && OnlyBoots(acts) && CapsWithin(acts, cap)
    ensures var t, w := d.w.live[c], run[|acts|].w;
      w.live == d.w.live[c := t.(attempts := t.attempts + 1)] && Sent(w, c) == Sent(d.w, c) + 1
  {
    hide Judge, Handle, Enabled, Step, Path, OnlyBoots, CapsWithin;
    var t, go := d.w.live[c], HandleNext(Fate(Done, Spared));
    var r, a := BootTo(d, c, RosterFor(t), cap);
    FitSomewhere(t, cap);
    DispatchHere(r[|a|], t);
    PathSnoc(r, a, go);
    run, acts := r + [Step(r[|a|], go)], a + [go];
    JustGo(go, cap);
    ActsConcat(a, [go], cap);
  }

  lemma JustGo(go: Action, cap: nat)
    requires go.HandleNext?
    ensures OnlyBoots([go]) && CapsWithin([go], cap)
  {}

  lemma PlaceOf(live: map<string, Ticket>, ts: seq<Ticket>, c: string) returns (k: nat)
    requires IsListing(live, ts) && c in live
    ensures k < |ts| && ts[k] == live[c]
  {
    k :| 0 <= k < |ts| && ts[k].corr == c;
  }

  /** ... and again, as often as the counter leaves room. */
  lemma {:induction false} DispatchTimes(d: Daemon, c: string, n: nat, cap: nat)
    returns (run: seq<Daemon>, acts: seq<Action>)
    requires KeyedByCorr(d.w.live) && c in d.w.live && d.w.live[c].resumable && d.w.live[c].attempts + n <= cap
    ensures Path(run, acts) && |run| == |acts| + 1 && run[0] == d && OnlyBoots(acts) && CapsWithin(acts, cap)
    ensures Sent(run[|acts|].w, c) == Sent(d.w, c) + n
    decreases n
  {
    if n == 0 {
      run, acts := [d], [];
    } else {
      var r, a := DispatchAgain(d, c, cap);
      var r2, a2 := DispatchTimes(r[|a|], c, n - 1, cap);
      hide Enabled, Step, Path;
      PathConcat(r, a, r2, a2);
      run, acts := r + r2[1..], a + a2;
    }
  }

  /** After a write-back the daemon can go on to dispatch the ticket once beyond the cap exactly
      if the ticket had been dispatched oftener than the copy written back says. */
  lemma WriteBackIsSafeIff(run: seq<Daemon>, acts: seq<Action>, cap: nat, c: string)
    requires IsRun(run, acts) && CapsWithin(acts, cap)
    requires forall i :: 0 <= i < |acts| ==> NoStaleWrite(run[i], acts[i])
    requires var d := run[|acts|]; Enabled(d, SuspendWrite(c)) && d.copies[c].resumable
    ensures var d := run[|acts|];
      CanReach(Step(d, SuspendWrite(c)), c, cap, cap + 1) <==> d.copies[c].attempts < Sent(d.w, c)
  {
    var d := run[|acts|];
    var d' := Step(d, SuspendWrite(c));
    RunKeepsInv(run, acts, |acts|, cap, false);
    if d.copies[c].attempts < Sent(d.w, c) {
      WrittenBack(d, c, cap);
      assert Sent(d.w, c) <= cap;
      var more, acts' := DispatchTimes(d', c, cap + 1 - Sent(d.w, c), cap);
      assert Leads(d', more, acts', cap);
    } else {
      SuspendWriteKeepsInv(d, c, cap, false);
      forall more: seq<Daemon>, acts': seq<Action> | Leads(d', more, acts', cap)
        ensures Sent(more[|acts'|].w, c) <= cap
      {
        PathKeepsInv(more, acts', |acts'|, cap, false);
      }
    }
  }

  lemma WrittenBack(d: Daemon, c: string, cap: nat)
    requires Inv(d, cap, false) && Enabled(d, SuspendWrite(c))
    ensures var w := Step(d, SuspendWrite(c)).w;
      KeyedByCorr(w.live) && c in w.live && w.live[c] == d.copies[c].(suspended := true) && w.sent == d.w.sent
  {}

  /** No increment reached the disk without its run being dispatched. */
  predicate Whole(a: Action) { a.HandleNext? ==> a.f.write != FailedDirty && a.f.kill != AfterWrite }

  /** The counter of a ticket is the number of its dispatches, and no copy is ahead of it. */
  ghost predicate Exact(d: Daemon) {
    && (forall c :: c in d.w.live ==> d.w.live[c].corr == c && d.w.live[c].attempts == Sent(d.w, c))
    && (forall c :: c in d.copies ==> d.copies[c].corr == c && d.copies[c].attempts <= Sent(d.w, c))
  }

  /** What a whole turn with `c` can do to the tickets and the tally. */
  ghost predicate WholeChange(w: World, w': World, c: string) {
    || (w'.live == w.live && w'.sent == w.sent)
    || (w'.live == w.live - {c} && w'.sent == w.sent)
    || (c in w.live && w'.live == Incremented(w, c).live && w'.sent == w.sent[c := Sent(w, c) + 1])
  }

  lemma WholeHandle(w: World, t: Ticket, v: Verdict, f: Fate)
    requires f.write != FailedDirty && f.kill != AfterWrite
    ensures WholeChange(w, Handle(w, t, v, f), t.corr)
  {}

  lemma WholeChangeKeepsExact(d: Daemon, d': Daemon, c: string)
    requires Exact(d) && WholeChange(d.w, d'.w, c) && (d'.copies == d.copies || d'.copies == map[])
    ensures Exact(d')
  {
    forall k ensures Sent(d'.w, k) >= Sent(d.w, k) {}
  }

  lemma StepKeepsExact(d: Daemon, a: Action)
    requires Exact(d) && Enabled(d, a) && Whole(a) && Rechecked(d, a)
    ensures Exact(Step(d, a))
  {
    hide Exact, Enabled, Step, Rechecked;
    match a
    case HandleNext(f) => HandleKeepsExact(d, f);
    case SuspendWrite(c) => WriteKeepsExact(d, c);
    case _ => OtherKeepsExact(d, a);
  }

  lemma WriteKeepsExact(d: Daemon, c: string)
    requires Exact(d) && Enabled(d, SuspendWrite(c)) && Rechecked(d, SuspendWrite(c))
    ensures Exact(Step(d, SuspendWrite(c)))
  {
    assert d.copies[c].corr == c && d.w.live[c].attempts == d.copies[c].attempts;
  }

  lemma OtherKeepsExact(d: Daemon, a: Action)
    requires Exact(d) && Enabled(d, a) && !a.HandleNext? && !a.SuspendWrite?
    ensures Exact(Step(d, a))
  {
    hide IsListing, Handle, Judge, Listed;
  }

  lemma HandleKeepsExact(d: Daemon, f: Fate)
    requires Exact(d) && Enabled(d, HandleNext(f)) && Whole(HandleNext(f))
    ensures Exact(Step(d, HandleNext(f)))
  {
    hide Handle, Judge, Exact, WholeChange;
    WholeHandle(d.w, d.pending[0], Judge(d.pending[0], d.roster, d.cap), f);
    WholeChangeKeepsExact(d, Step(d, HandleNext(f)), d.pending[0].corr);
  }

  lemma {:induction false} RunIsExact(run: seq<Daemon>, acts: seq<Action>, n: nat)
    requires IsRun(run, acts) && n < |run| && forall c :: c in run[0].w.live ==> run[0].w.live[c].attempts == 0
    requires forall i :: 0 <= i < n ==> Whole(acts[i]) && Rechecked(run[i], acts[i])
    ensures Exact(run[n])
  {
    if n > 0 {
      RunIsExact(run, acts, n - 1);
      StepKeepsExact(run[n - 1], acts[n - 1]);
    }
  }

  /** For a ticket still there, and when increments are never half done, the check under the lock is
      exact: going on beyond the cap is possible after a write-back exactly if it fails. */
  lemma RecheckIsExact(run: seq<Daemon>, acts: seq<Action>, cap: nat, c: string)
    requires IsRun(run, acts) && CapsWithin(acts, cap)
    requires forall k :: k in run[0].w.live ==> run[0].w.live[k].attempts == 0
    requires forall i :: 0 <= i < |acts| ==> Whole(acts[i]) && Rechecked(run[i], acts[i])
    requires var d := run[|acts|]; Enabled(d, SuspendWrite(c)) && d.copies[c].resumable && c in d.w.live
    ensures var d := run[|acts|];
      CanReach(Step(d, SuspendWrite(c)), c, cap, cap + 1) <==> !Rechecked(d, SuspendWrite(c))
  {
    RunIsExact(run, acts, |acts|);
    forall i | 0 <= i < |acts| ensures NoStaleWrite(run[i], acts[i]) {
      RecheckedRunKeepsInv(run, acts, i, cap);
      RecheckedIsNotStale(run[i], acts[i], cap);
    }
    WriteBackIsSafeIff(run, acts, cap, c);
    hide CanReach, Step, IsRun;
  }

  // ---------- finished runs ----------

  predicate Restarts(a: Action, c: string) { a.NewRun? && a.t.corr == c }

  /** Once gone, a ticket stays gone and is not dispatched, if every write-back looks again whether
      its ticket is there. */
  lemma {:induction false} FinishedStaysFinished(run: seq<Daemon>, acts: seq<Action>, m: nat, n: nat, c: string)
    requires Path(run, acts) && m <= n < |run| && c !in run[m].w.live
    requires forall i :: m <= i < n ==> Rechecked(run[i], acts[i]) && !Restarts(acts[i], c)
    ensures c !in run[n].w.live && Sent(run[n].w, c) == Sent(run[m].w, c)
    decreases n
  {
    hide Enabled, Step, Restarts, Rechecked;
    if m < n {
      FinishedStaysFinished(run, acts, m, n - 1, c);
      GoneStep(run[n - 1], acts[n - 1], c);
    }
  }

  lemma GoneStep(d: Daemon, a: Action, c: string)
    requires Enabled(d, a) && c !in d.w.live && Rechecked(d, a) && !Restarts(a, c)
    ensures c !in Step(d, a).w.live && Sent(Step(d, a).w, c) == Sent(d.w, c)
  {
    if a.HandleNext? {
      HandleChanges(d.w, d.pending[0], Judge(d.pending[0], d.roster, d.cap), a.f);
      hide Handle, Judge;
    }
  }

  /** A ticket no boot will dispatch. */
  predicate Harmless(t: Ticket, cap: nat) { !t.resumable || t.attempts >= cap }

  /** A shutdown holds a copy it will write back, of a ticket that can still be dispatched. */
  ghost predicate HoldsFitCopy(d: Daemon, c: string, cap: nat) {
    !d.w.down && c in d.copies && !d.copies[c].suspended && !Harmless(d.copies[c], cap)
  }

  /** Wherever `c` is or may come back from, no boot will dispatch it. */
  ghost predicate Spent(d: Daemon, c: string, cap: nat) {
    var back := !d.w.down && c in d.copies && !d.copies[c].suspended;
    && (c in d.w.live ==> Harmless(d.w.live[c], cap))
    && (back ==> Harmless(d.copies[c], cap))
    && (c in d.w.live || back ==>
          forall i :: 0 <= i < |d.pending| && d.pending[i].corr == c ==> Harmless(d.pending[i], cap))
    && (d.w.down || d.cap <= cap)
  }

  lemma HarmlessIsNotDispatched(t: Ticket, roster: map<string, Profile>, cap: int, bound: nat)
    requires Harmless(t, bound) && cap <= bound
    ensures Judge(t, roster, cap) != Dispatch
  {}

  lemma HarmlessStays(w: World, w': World, handled: string, dispatched: bool, c: string, cap: nat)
    requires Changed(w, w', handled, dispatched) && (handled == c && c in w.live ==> !dispatched)
    ensures Sent(w', c) == Sent(w, c)
    ensures c in w'.live ==> c in w.live && (Harmless(w.live[c], cap) ==> Harmless(w'.live[c], cap))
  {}

  lemma SpentHandle(d: Daemon, f: Fate, c: string, cap: nat)
    requires Enabled(d, HandleNext(f)) && Spent(d, c, cap)
    ensures Spent(Step(d, HandleNext(f)), c, cap) && Sent(Step(d, HandleNext(f)).w, c) == Sent(d.w, c)
  {
    hide Handle, Judge, Changed, Harmless, Sent;
    var t, v := d.pending[0], Judge(d.pending[0], d.roster, d.cap);
    HandleChanges(d.w, t, v, f);
    if t.corr == c && c in d.w.live { HarmlessIsNotDispatched(t, d.roster, d.cap, cap); }
    HarmlessStays(d.w, Handle(d.w, t, v, f), t.corr, v == Dispatch, c, cap);
    var rest := d.pending[1..];
    forall i | 0 <= i < |rest| ensures rest[i] == d.pending[i + 1] {}
  }

  lemma SpentStep(d: Daemon, a: Action, c: string, cap: nat)
    requires Enabled(d, a) && Spent(d, c, cap) && !Restarts(a, c) && (a.Boot? ==> a.cap <= cap)
    requires forall k :: k in d.w.live ==> d.w.live[k].corr == k
    ensures Spent(Step(d, a), c, cap) && Sent(Step(d, a).w, c) == Sent(d.w, c)
  {
    match a
    case HandleNext(f) => SpentHandle(d, f, c, cap);
    case Boot(ts, _, _) =>
      assert forall i :: 0 <= i < |ts| ==> ts[i].corr in d.w.live && d.w.live[ts[i].corr] == ts[i];
    case _ =>
  }

  lemma {:induction false} SpentPath(run: seq<Daemon>, acts: seq<Action>, n: nat, c: string, cap: nat)
    requires Path(run, acts) && n < |run| && CapsWithin(acts, cap) && Inv(run[0], cap, true)
    requires Spent(run[0], c, cap) && forall i :: 0 <= i < |acts| ==> !Restarts(acts[i], c)
    ensures Spent(run[n], c, cap) && Sent(run[n].w, c) == Sent(run[0].w, c)
  {
    if n > 0 {
      SpentPath(run, acts, n - 1, c, cap);
      PathKeepsInv(run, acts, n - 1, cap, true);
      SpentStep(run[n - 1], acts[n - 1], c, cap);
    }
  }

  lemma GoneIsSpent(d: Daemon, c: string, cap: nat)
    requires Inv(d, cap, true) && c !in d.w.live && !HoldsFitCopy(d, c, cap)
    ensures Spent(d, c, cap)
  {
    forall i | 0 <= i < |d.pending| && d.pending[i].corr == c && c in d.copies
      ensures NotBeyond(d.copies[c], d.pending[i]) {}
  }

  /** From `d` the daemon may go through `run`, in which no new run takes the correlation `c`. */
  ghost predicate Resumes(d: Daemon, c: string, run: seq<Daemon>, acts: seq<Action>, cap: nat) {
    && Path(run, acts) && run[0] == d && CapsWithin(acts, cap)
    && forall i :: 0 <= i < |acts| ==> !Restarts(acts[i], c)
  }

  ghost predicate CanReturn(d: Daemon, c: string, cap: nat) {
    exists run: seq<Daemon>, acts: seq<Action> ::
      Resumes(d, c, run, acts, cap) && Sent(run[|acts|].w, c) > Sent(d.w, c)
  }

  /** A finished run, whose ticket is gone, can be dispatched again exactly if a shutdown holds a copy
      of the ticket that is not yet marked suspended, is resumable and is below the cap. */
  lemma FinishedRunReturnsIff(run: seq<Daemon>, acts: seq<Action>, cap: nat, c: string)
    requires IsRun(run, acts) && CapsWithin(acts, cap) && c !in run[|acts|].w.live
    ensures CanReturn(run[|acts|], c, cap) <==> HoldsFitCopy(run[|acts|], c, cap)
  {
    var d := run[|acts|];
    RunKeepsInv(run, acts, |acts|, cap, true);
    if HoldsFitCopy(d, c, cap) {
      var more, acts' := WriteBackAndDispatch(d, c, cap);
      assert Resumes(d, c, more, acts', cap);
    } else {
      GoneIsSpent(d, c, cap);
      forall more: seq<Daemon>, acts': seq<Action> | Resumes(d, c, more, acts', cap)
        ensures Sent(more[|acts'|].w, c) == Sent(d.w, c)
      {
        SpentPath(more, acts', |acts'|, c, cap);
      }
    }
  }

  lemma WriteBackAndDispatch(d: Daemon, c: string, cap: nat) returns (run: seq<Daemon>, acts: seq<Action>)
    requires Inv(d, cap, true) && HoldsFitCopy(d, c, cap)
    ensures Path(run, acts) && run[0] == d && CapsWithin(acts, cap)
    ensures Sent(run[|acts|].w, c) == Sent(d.w, c) + 1
    ensures forall i :: 0 <= i < |acts| ==> !Restarts(acts[i], c)
  {
    var write := SuspendWrite(c);
    var d1 := Step(d, write);
    OneStep(d, write);
    assert KeyedByCorr(d1.w.live) && d1.w.live[c] == d.copies[c].(suspended := true) && d1.w.sent == d.w.sent;
    var r, a := DispatchAgain(d1, c, cap);
    hide Enabled, Step, Path, Inv;
    PathConcat([d, d1], [write], r, a);
    run, acts := [d, d1] + r[1..], [write] + a;
  }

  // ---------- two runs ----------

  function OnDisk(live: map<string, Ticket>, sent: map<string, nat>, down: bool): World { World(live, [], sent, down) }

  ghost predicate Goes(d: Daemon, a: Action, d': Daemon) { Enabled(d, a) && d' == Step(d, a) }

  lemma PathGoes(run: seq<Daemon>, acts: seq<Action>, a: Action, d': Daemon)
    requires Path(run, acts) && Goes(run[|acts|], a, d')
    ensures Path(run + [d'], acts + [a])
  {
    hide Enabled, Step;
    PathSnoc(run, acts, a);
  }

  /** A run interrupted before the daemon went down, its ticket never counted. */
  const RUN := Ticket("run", "", "run", true, false, 0, 0, [])

  const COUNTED := RUN.(attempts := 1)

  const GO := HandleNext(Fate(Done, Spared))

  function AtBoot(): Daemon { Daemon(OnDisk(map["run" := RUN], map[], true), [], map[], 0, map[]) }

  lemma BootStep(cap: nat)
    ensures Start(AtBoot())
    ensures Goes(AtBoot(), Boot([RUN], map[], cap),
                 Daemon(OnDisk(map["run" := RUN], map[], false), [RUN], map[], cap, map[]))
  {
    assert [RUN][0].corr == "run";
    assert IsListing(map["run" := RUN], [RUN]);
  }

  lemma DispatchStep(copies: map<string, Ticket>, cap: nat)
    requires cap > 0
    ensures Goes(Daemon(OnDisk(map["run" := RUN], map[], false), [RUN], map[], cap, copies), GO,
                 Daemon(OnDisk(map["run" := COUNTED], map["run" := 1], false), [], map[], cap, copies))
  {
    hide Judge, Handle, TrimSpace;
    var d := Daemon(OnDisk(map["run" := RUN], map[], false), [RUN], map[], cap, copies);
    NamelessTicketResumes(RUN, cap);
    CleanHandleDoes(d.w, RUN, true, Dispatch);
    assert [RUN][1..] == [];
    assert map["run" := RUN]["run" := COUNTED] == map["run" := COUNTED];
  }

  lemma NamelessTicketResumes(t: Ticket, cap: int)
    requires t.resumable && t.agentSlug == "" && t.attempts < cap
    ensures Judge(t, map[], cap) == Dispatch
  {}

  /** The stale write-back happens: a cap of one, and two dispatches. The shutdown that an
      automatic update starts lists the tickets, the boot loop counts and dispatches, the
      shutdown writes its old copy back, and the next boot dispatches again. */
  lemma StaleWriteExceedsCap() returns (run: seq<Daemon>, acts: seq<Action>)
    ensures IsRun(run, acts) && CapsWithin(acts, 1)
    ensures Sent(run[|acts|].w, "run") == 2
  {
    var first, begun := StaleBeginning();
    var d, write := first[|begun|], SuspendWrite("run");
    WriteBackIsSafeIff(first, begun, 1, "run");
    var more: seq<Daemon>, acts': seq<Action> :|
      Leads(Step(d, write), more, acts', 1) && Sent(more[|acts'|].w, "run") == 2;
    hide Enabled, Step, Start;
    PathSnoc(first, begun, write);
    PathConcat(first + [Step(d, write)], begun + [write], more, acts');
    run, acts := first + [Step(d, write)] + more[1..], begun + [write] + acts';
  }

  lemma StaleBeginning() returns (run: seq<Daemon>, acts: seq<Action>)
    ensures IsRun(run, acts) && CapsWithin(acts, 1)
    ensures forall i :: 0 <= i < |acts| ==> NoStaleWrite(run[i], acts[i])
    ensures run[|acts|]
         == Daemon(OnDisk(map["run" := COUNTED], map["run" := 1], false), [], map[], 1, map["run" := RUN])
  {
    hide Start;
    var d1 := Daemon(OnDisk(map["run" := RUN], map[], false), [RUN], map[], 1, map[]);
    var d2 := d1.(copies := map["run" := RUN]);
    var d3 := Daemon(OnDisk(map["run" := COUNTED], map["run" := 1], false), [], map[], 1, map["run" := RUN]);
    BootStep(1);
    assert Goes(d1, SuspendList, d2);
    DispatchStep(map["run" := RUN], 1);
    hide Goes;
    PathGoes([AtBoot()], [], Boot([RUN], map[], 1), d1);
    PathGoes([AtBoot(), d1], [Boot([RUN], map[], 1)], SuspendList, d2);
    PathGoes([AtBoot(), d1, d2], [Boot([RUN], map[], 1), SuspendList], GO, d3);
    run, acts := [AtBoot(), d1, d2, d3], [Boot([RUN], map[], 1), SuspendList, GO];
  }

  /** A finished run does come back: the shutdown lists its ticket, the run finishes and its ticket is
      deleted, the shutdown writes its copy back, and the next boot dispatches it again. */
  lemma FinishedRunReturns() returns (run: seq<Daemon>, acts: seq<Action>, n: nat)
    ensures IsRun(run, acts) && CapsWithin(acts, 2) && n < |acts| && acts[n] == Finalize("run")
    ensures forall i :: n <= i < |acts| ==> !Restarts(acts[i], "run")
    ensures Sent(run[|acts|].w, "run") > Sent(run[n].w, "run")
  {
    var first, begun := FinishedBeginning();
    n := |begun| - 1;
    var d := first[|begun|];
    FinishedRunReturnsIff(first, begun, 2, "run");
    var more: seq<Daemon>, acts': seq<Action> :|
      Resumes(d, "run", more, acts', 2) && Sent(more[|acts'|].w, "run") > Sent(d.w, "run");
    hide Enabled, Step, Start;
    PathConcat(first, begun, more, acts');
    run, acts := first + more[1..], begun + acts';
    forall i | n <= i < |acts| ensures !Restarts(acts[i], "run") {
      if i > n { assert acts[i] == acts'[i - |begun|]; }
    }
  }

  lemma ListAndFinish()
    ensures var d2 := Daemon(OnDisk(map["run" := COUNTED], map["run" := 1], false), [], map[], 2, map[]);
      var d3 := d2.(copies := map["run" := COUNTED]);
      var d4 := d3.(w := OnDisk(map[], map["run" := 1], false));
      Goes(d2, SuspendList, d3) && Goes(d3, Finalize("run"), d4) && HoldsFitCopy(d4, "run", 2)
  {
    assert map["run" := COUNTED] - {"run"} == map[];
  }

  lemma FinishedBeginning() returns (run: seq<Daemon>, acts: seq<Action>)
    ensures IsRun(run, acts) && CapsWithin(acts, 2) && |acts| > 0 && acts[|acts| - 1] == Finalize("run")
    ensures "run" !in run[|acts|].w.live && HoldsFitCopy(run[|acts|], "run", 2)
    ensures Sent(run[|acts| - 1].w, "run") == Sent(run[|acts|].w, "run")
  {
    hide Start;
    var boot := Boot([RUN], map[], 2);
    var d1 := Daemon(OnDisk(map["run" := RUN], map[], false), [RUN], map[], 2, map[]);
    var d2 := Daemon(OnDisk(map["run" := COUNTED], map["run" := 1], false), [], map[], 2, map[]);
    var d3 := d2.(copies := map["run" := COUNTED]);
    var d4 := d3.(w := OnDisk(map[], map["run" := 1], false));
    BootStep(2);
    DispatchStep(map[], 2);
    ListAndFinish();
    hide Goes, HoldsFitCopy;
    PathGoes([AtBoot()], [], boot, d1);
    PathGoes([AtBoot(), d1], [boot], GO, d2);
    PathGoes([AtBoot(), d1, d2], [boot, GO], SuspendList, d3);
    PathGoes([AtBoot(), d1, d2, d3], [boot, GO, SuspendList], Finalize("run"), d4);
    run, acts := [AtBoot(), d1, d2, d3, d4], [boot, GO, SuspendList, Finalize("run")];
  }
}
