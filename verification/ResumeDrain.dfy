/** A ticket cannot wedge the daemon: it is resumed a bounded number of times and then is finished or
    moved aside (cmd/agezt/main_standing_resume.go, kernel/modules/runs/resume/resume_ops.go). */
module ResumeDrain {
  import opened Resumer
  import opened ResumeProtocol
  import opened ResumeRaces

  // ---------- one clean boot ----------

  /** Boots whose writes all succeed. */
  predicate AllDone(fates: seq<Fate>) { forall i :: 0 <= i < |fates| ==> fates[i] == Fate(Done, Spared) }

  predicate Fit(t: Ticket, roster: map<string, Profile>, cap: int) { Judge(t, roster, cap) == Dispatch }

  /** After a clean boot every ticket is either counted once more and running, or moved aside. */
  ghost predicate BootedFrom(w: World, w': World, ts: seq<Ticket>, done: nat, roster: map<string, Profile>, cap: int)
    requires done <= |ts|
  {
    && !w'.down
    && (forall i :: 0 <= i < |ts| ==> ts[i].corr in w.live && w.live[ts[i].corr] == ts[i])
    && (forall i :: 0 <= i < done ==>
          if Fit(ts[i], roster, cap)
          then ts[i].corr in w'.live && w'.live[ts[i].corr] == ts[i].(attempts := ts[i].attempts + 1)
               && Sent(w', ts[i].corr) == Sent(w, ts[i].corr) + 1
          else ts[i].corr !in w'.live && ts[i] in w'.quarantined)
    && (forall i :: done <= i < |ts| ==>
          ts[i].corr in w'.live && w'.live[ts[i].corr] == ts[i] && Sent(w', ts[i].corr) == Sent(w, ts[i].corr))
    && w'.live.Keys <= w.live.Keys
  }

  lemma CleanHandle(w: World, w': World, ts: seq<Ticket>, k: nat, roster: map<string, Profile>, cap: int)
    requires k < |ts| && BootedFrom(w, w', ts, k, roster, cap)
    requires forall i, j :: 0 <= i < j < |ts| ==> ts[i].corr != ts[j].corr
    ensures BootedFrom(w, Handle(w', ts[k], Judge(ts[k], roster, cap), Fate(Done, Spared)), ts, k + 1, roster, cap)
  {
    hide Judge, Handle, Fit;
    var t, v := ts[k], Judge(ts[k], roster, cap);
    FitMeans(t, roster, cap);
    CleanHandleDoes(w', t, Fit(t, roster, cap), v);
    var w'' := Handle(w', t, v, Fate(Done, Spared));
    forall i | 0 <= i < |ts| && i != k
      ensures ts[i].corr != t.corr && Untouched(w', w'', ts[i].corr)
      ensures ts[i] in w'.quarantined ==> ts[i] in w''.quarantined
    {}
    assert Sent(w'', t.corr) == Sent(w', t.corr) + if Fit(t, roster, cap) then 1 else 0;
  }

  lemma FitMeans(t: Ticket, roster: map<string, Profile>, cap: int)
    ensures Fit(t, roster, cap) <==> Judge(t, roster, cap) == Dispatch
  {}

  ghost predicate Untouched(w: World, w': World, c: string) {
    && Sent(w', c) == Sent(w, c)
    && (c in w'.live <==> c in w.live)
    && (c in w'.live ==> w'.live[c] == w.live[c])
  }

  lemma {:induction false} CleanBoot(w: World, ts: seq<Ticket>, k: nat, roster: map<string, Profile>, cap: int,
      fates: seq<Fate>)
    requires !w.down && IsListing(w.live, ts) && |fates| == |ts| && AllDone(fates) && k <= |ts|
    ensures BootedFrom(w, HandleAll(w, ts[..k], roster, cap, fates[..k]), ts, k, roster, cap)
  {
    if k > 0 {
      CleanBoot(w, ts, k - 1, roster, cap, fates);
      OneMoreTicket(w, ts, roster, cap, fates, k - 1);
      CleanHandle(w, HandleAll(w, ts[..k - 1], roster, cap, fates[..k - 1]), ts, k - 1, roster, cap);
    }
  }

  /** What may happen to the tickets of `w` between its boot and the next: runs finish, others start
      under new correlations, and checkpoints are taken. */
  ghost predicate Later(w: World, booted: World, later: World) {
    forall c :: c in w.live && c in later.live ==>
      c in booted.live && later.live[c].attempts == booted.live[c].attempts
  }

  /** A ticket still there was below the cap, and has been counted once. */
  ghost predicate Round(w: World, w': World, cap: int) {
    forall c :: c in w.live && c in w'.live ==>
      w.live[c].attempts < cap && w'.live[c].attempts == w.live[c].attempts + 1
  }

  /** A clean boot, and whatever follows it, is a round. */
  lemma CleanBootIsRound(w: World, ts: seq<Ticket>, roster: map<string, Profile>, cap: int, fates: seq<Fate>,
      later: World)
    requires !w.down && IsListing(w.live, ts) && |fates| == |ts| && AllDone(fates)
    requires Later(w, HandleAll(w, ts, roster, cap, fates), later)
    ensures Round(w, later, cap)
  {
    hide HandleAll, Judge, BootedFrom, IsListing, AllDone;
    CleanBoot(w, ts, |ts|, roster, cap, fates);
    assert ts[..|ts|] == ts && fates[..|fates|] == fates;
    var booted := HandleAll(w, ts, roster, cap, fates);
    forall c | c in w.live && c in later.live
      ensures w.live[c].attempts < cap && later.live[c].attempts == w.live[c].attempts + 1
    {
      LeftIsCounted(w, booted, ts, roster, cap, c);
    }
  }

  lemma LeftIsCounted(w: World, booted: World, ts: seq<Ticket>, roster: map<string, Profile>, cap: int, c: string)
    requires IsListing(w.live, ts) && BootedFrom(w, booted, ts, |ts|, roster, cap) && c in booted.live
    ensures c in w.live && w.live[c].attempts < cap && booted.live[c].attempts == w.live[c].attempts + 1
  {
    hide Judge, Fit;
    assert c in w.live;
    var i :| 0 <= i < |ts| && ts[i].corr == c;
    assert Fit(ts[i], roster, cap);
    FitIsBelowCap(ts[i], roster, cap);
  }

  lemma FitIsBelowCap(t: Ticket, roster: map<string, Profile>, cap: int)
    ensures Fit(t, roster, cap) ==> t.attempts < cap
  {}

  // ---------- turns of a ticket, over any run ----------

  /** The boot loop takes its turn with `c`, and the write succeeds. */
  ghost predicate IsTurn(d: Daemon, a: Action, c: string) {
    a == HandleNext(Fate(Done, Spared)) && !d.w.down && d.pending != [] && d.pending[0].corr == c
  }

  ghost function Turns(run: seq<Daemon>, acts: seq<Action>, n: nat, c: string): nat
    requires n <= |acts| < |run|
  {
    if n == 0 then 0 else Turns(run, acts, n - 1, c) + if IsTurn(run[n - 1], acts[n - 1], c) then 1 else 0
  }

  /** No new run takes the correlation; unless shutdowns may race, every write-back looks again. */
  ghost predicate Orderly(run: seq<Daemon>, acts: seq<Action>, c: string, racy: bool)
    requires |acts| <= |run|
  {
    forall i :: 0 <= i < |acts| ==> !Restarts(acts[i], c) && (racy || Rechecked(run[i], acts[i]))
  }

  lemma OrderlyKeepsInv(run: seq<Daemon>, acts: seq<Action>, n: nat, cap: nat, c: string, racy: bool)
    requires IsRun(run, acts) && CapsWithin(acts, cap) && Orderly(run, acts, c, racy) && n <= |acts|
    ensures Inv(run[n], cap, racy)
  {
    if racy { RunKeepsInv(run, acts, n, cap, true); } else { RecheckedRunKeepsInv(run, acts, n, cap); }
  }

  /** The run of `c` ended, or its ticket was moved aside. */
  ghost predicate Settled(run: seq<Daemon>, acts: seq<Action>, n: nat, c: string)
    requires n <= |acts| < |run|
  {
    || (exists i :: 0 <= i < n && acts[i] == Finalize(c))
    || (exists i :: 0 <= i < |run[n].w.quarantined| && run[n].w.quarantined[i].corr == c)
  }

  /** What `turns` turns mean for the ticket, and for the copy of it that a shutdown may still write
      back: only such a copy can be a turn behind, and it is written back once. */
  ghost predicate TurnsShow(d: Daemon, c: string, cap: nat, turns: nat, racy: bool) {
    && (c in d.w.live ==>
          var slack := if d.w.live[c].suspended then Slack(racy) else 0;
          turns <= d.w.live[c].attempts + slack && turns <= cap + slack)
    && (c in d.copies && !d.copies[c].suspended ==>
          var slack := if Listed(d.pending, c) then 0 else 1;
          && turns <= d.copies[c].attempts + slack && turns <= cap + slack
          && (c in d.w.live ==> !d.w.live[c].suspended))
  }

  lemma TurnCounts(d: Daemon, a: Action, c: string, cap: nat, turns: nat, racy: bool)
    requires Inv(d, cap, racy) && Enabled(d, a) && !Restarts(a, c) && (racy || Rechecked(d, a))
    requires TurnsShow(d, c, cap, turns, racy)
    ensures TurnsShow(Step(d, a), c, cap, turns + if IsTurn(d, a, c) then 1 else 0, racy)
  {
    hide Handle, Judge, Counted, Capped;
    if a.HandleNext? {
      HandleFollows(d, a.f, c, cap, racy);
      hide Enabled, Inv, IsTurn, Step;
      FollowedShows(d, Step(d, a), c, cap, turns, racy, IsTurn(d, a, c));
    } else {
      hide ListIsAhead, IsListing;
    }
  }

  /** What handling one ticket means for `c`; `turn`: it was the turn of `c`, and the write succeeded. */
  ghost predicate Follows(d: Daemon, d': Daemon, c: string, cap: nat, turn: bool) {
    && (c in d'.w.live ==>
          && c in d.w.live && d'.w.live[c].suspended == d.w.live[c].suspended
          && d'.w.live[c].attempts >= d.w.live[c].attempts
          && (turn ==> d'.w.live[c].attempts > d.w.live[c].attempts && d.w.live[c].attempts < cap))
    && (c in d'.copies ==>
          && c in d.copies && d'.copies[c] == d.copies[c]
          && (Listed(d'.pending, c) ==> Listed(d.pending, c) && !turn)
          && (turn ==> Listed(d.pending, c)))
  }

  lemma FollowedShows(d: Daemon, d': Daemon, c: string, cap: nat, turns: nat, racy: bool, turn: bool)
    requires TurnsShow(d, c, cap, turns, racy) && Follows(d, d', c, cap, turn)
    ensures TurnsShow(d', c, cap, turns + if turn then 1 else 0, racy)
  {
    hide Listed;
  }

  lemma HandleFollows(d: Daemon, f: Fate, c: string, cap: nat, racy: bool)
    requires Inv(d, cap, racy) && Enabled(d, HandleNext(f))
    ensures Follows(d, Step(d, HandleNext(f)), c, cap, IsTurn(d, HandleNext(f), c))
  {
    hide Handle, Judge, Counted, Capped, CopiesCounted, Listed;
    var t, v := d.pending[0], Judge(d.pending[0], d.roster, d.cap);
    HandleKeepsSuspended(d.w, t, v, f, c);
    PoppedList(d.pending, c);
    HeadIsNotBeyond(d);
    hide ListIsAhead;
    if IsTurn(d, HandleNext(f), c) && c in d.w.live {
      DispatchIsBelowCap(t, d.roster, d.cap);
      DoneMovesOrCounts(d.w, t, v);
    }
  }

  lemma PoppedList(pending: seq<Ticket>, c: string)
    requires pending != [] && forall i, j :: 0 <= i < j < |pending| ==> pending[i].corr != pending[j].corr
    ensures Listed(pending[1..], c) ==> Listed(pending, c) && pending[0].corr != c
    ensures pending[0].corr == c ==> Listed(pending, c)
  {
    if i :| 0 <= i < |pending[1..]| && pending[1..][i].corr == c {
      assert pending[i + 1].corr == c;
    }
  }

  lemma HandleKeepsSuspended(w: World, t: Ticket, v: Verdict, f: Fate, c: string)
    ensures var w' := Handle(w, t, v, f);
      c in w'.live ==> c in w.live && w'.live[c].suspended == w.live[c].suspended
                       && w'.live[c].attempts >= w.live[c].attempts
  {}

  lemma DoneMovesOrCounts(w: World, t: Ticket, v: Verdict)
    requires !w.down && t.corr in w.live
    ensures var w' := Handle(w, t, v, Fate(Done, Spared));
      if v == Dispatch then t.corr in w'.live && w'.live[t.corr].attempts == w.live[t.corr].attempts + 1
      else t.corr !in w'.live
  {}

  lemma {:induction false} TurnsAreCounted(run: seq<Daemon>, acts: seq<Action>, n: nat, cap: nat, c: string, racy: bool)
    requires IsRun(run, acts) && CapsWithin(acts, cap) && Orderly(run, acts, c, racy) && n <= |acts|
    ensures TurnsShow(run[n], c, cap, Turns(run, acts, n, c), racy)
  {
    hide Inv, IsTurn, Enabled, Step;
    if n > 0 {
      TurnsAreCounted(run, acts, n - 1, cap, c, racy);
      OrderlyKeepsInv(run, acts, n - 1, cap, c, racy);
      TurnCounts(run[n - 1], acts[n - 1], c, cap, Turns(run, acts, n - 1, c), racy);
      hide TurnsShow;
    }
  }

  lemma LeavesSettled(d: Daemon, a: Action, c: string)
    requires Enabled(d, a) && c in d.w.live && d.w.live[c].corr == c && c !in Step(d, a).w.live
    ensures a == Finalize(c) || (|Step(d, a).w.quarantined| > 0
              && Step(d, a).w.quarantined[|Step(d, a).w.quarantined| - 1].corr == c)
  {
    hide Judge;
  }

  lemma InvIsKeyed(d: Daemon, cap: nat)
    requires Inv(d, cap, true)
    ensures KeyedByCorr(d.w.live)
  {}

  lemma QuarantineGrows(d: Daemon, a: Action)
    requires Enabled(d, a)
    ensures d.w.quarantined <= Step(d, a).w.quarantined
  {
    hide Judge;
  }

  /** An original ticket that is gone was finished or moved aside: none is lost. */
  lemma {:induction false} GoneIsSettled(run: seq<Daemon>, acts: seq<Action>, n: nat, cap: nat, c: string)
    requires IsRun(run, acts) && CapsWithin(acts, cap) && n <= |acts| && c in run[0].w.live
    ensures c !in run[n].w.live ==> Settled(run, acts, n, c)
  {
    hide Inv, Enabled, Step;
    if n > 0 && c !in run[n].w.live {
      var d, a := run[n - 1], acts[n - 1];
      RunKeepsInv(run, acts, n - 1, cap, true);
      QuarantineGrows(d, a);
      if c in d.w.live {
        InvIsKeyed(d, cap);
        LeavesSettled(d, a, c);
      } else {
        GoneIsSettled(run, acts, n - 1, cap, c);
      }
    }
  }

  /** cap + 1 turns with working writes settle a ticket, whatever else goes on: crashes, failed writes
      in other turns, finished and new runs, checkpoints. If shutdowns may race, one turn more does. */
  lemma TurnsSettle(run: seq<Daemon>, acts: seq<Action>, n: nat, cap: nat, c: string, racy: bool)
    requires IsRun(run, acts) && CapsWithin(acts, cap) && Orderly(run, acts, c, racy) && n <= |acts|
    requires c in run[0].w.live && Turns(run, acts, n, c) > cap + Slack(racy)
    ensures c !in run[n].w.live && Settled(run, acts, n, c)
  {
    TurnsAreCounted(run, acts, n, cap, c, racy);
    GoneIsSettled(run, acts, n, cap, c);
  }

  // ---------- boots ----------

  /** A boot at `b` whose loop ends at `e`, with every write succeeding and no death in between; other
      actions may come in between as they like. */
  ghost predicate CleanPass(run: seq<Daemon>, acts: seq<Action>, b: nat, e: nat) {
    && b < e <= |acts| < |run| && acts[b].Boot? && run[e].pending == []
    && forall i :: b < i < e ==>
         !acts[i].Boot? && !acts[i].Die? && (acts[i].HandleNext? ==> acts[i].f == Fate(Done, Spared))
  }

  lemma {:induction false} TurnsGrow(run: seq<Daemon>, acts: seq<Action>, m: nat, n: nat, c: string)
    requires m <= n <= |acts| < |run|
    ensures Turns(run, acts, m, c) <= Turns(run, acts, n, c)
    decreases n
  {
    if m < n { TurnsGrow(run, acts, m, n - 1, c); }
  }

  lemma CleanStepKeepsListed(d: Daemon, a: Action, c: string)
    requires Enabled(d, a) && !d.w.down && Listed(d.pending, c) && !a.Boot? && !a.Die?
    requires a.HandleNext? ==> a.f == Fate(Done, Spared)
    ensures IsTurn(d, a, c) || (Listed(Step(d, a).pending, c) && !Step(d, a).w.down)
  {
    hide Judge;
    if a.HandleNext? && d.pending[0].corr != c {
      var i :| 0 <= i < |d.pending| && d.pending[i].corr == c;
      assert d.pending[1..][i - 1].corr == c;
    }
  }

  lemma {:induction false} ListedGetsTurn(run: seq<Daemon>, acts: seq<Action>, b: nat, m: nat, e: nat, c: string)
    requires Path(run, acts) && CleanPass(run, acts, b, e) && b < m <= e
    requires !run[m].w.down && Listed(run[m].pending, c)
    ensures Turns(run, acts, e, c) > Turns(run, acts, m, c)
    decreases e - m
  {
    hide IsTurn, Enabled, Step;
    assert m < e;
    CleanStepKeepsListed(run[m], acts[m], c);
    hide Listed;
    if IsTurn(run[m], acts[m], c) {
      TurnsGrow(run, acts, m + 1, e, c);
    } else {
      ListedGetsTurn(run, acts, b, m + 1, e, c);
    }
  }

  lemma BootLists(d: Daemon, a: Action, c: string)
    requires Enabled(d, a) && a.Boot? && c in d.w.live
    ensures !Step(d, a).w.down && Listed(Step(d, a).pending, c)
  {
    var i :| 0 <= i < |a.ts| && a.ts[i].corr == c;
    assert Step(d, a).pending == a.ts;
  }

  /** A clean pass takes a turn with every ticket there when it boots. */
  lemma PassTakesTurn(run: seq<Daemon>, acts: seq<Action>, b: nat, e: nat, c: string)
    requires Path(run, acts) && CleanPass(run, acts, b, e) && c in run[b].w.live
    ensures Turns(run, acts, e, c) > Turns(run, acts, b, c)
  {
    hide *;
    PassIsForward(run, acts, b, e);
    StepAt(run, acts, b);
    BootLists(run[b], acts[b], c);
    ListedGetsTurn(run, acts, b, b + 1, e, c);
    TurnsGrow(run, acts, b, b + 1, c);
  }

  ghost predicate PassesInOrder(run: seq<Daemon>, acts: seq<Action>, passes: seq<(nat, nat)>) {
    && (forall k :: 0 <= k < |passes| ==> CleanPass(run, acts, passes[k].0, passes[k].1))
    && (forall k :: 0 < k < |passes| ==> passes[k - 1].1 <= passes[k].0)
  }

  lemma {:induction false} PassesGiveTurns(run: seq<Daemon>, acts: seq<Action>, passes: seq<(nat, nat)>, k: nat,
      c: string)
    requires Path(run, acts) && PassesInOrder(run, acts, passes) && k < |passes|
    requires forall j :: 0 <= j < |passes| ==> c in run[passes[j].0].w.live
    ensures Turns(run, acts, passes[k].1, c) > k
    decreases k
  {
    hide Turns, Path, CleanPass;
    assert CleanPass(run, acts, passes[k].0, passes[k].1);
    PassIsForward(run, acts, passes[k].0, passes[k].1);
    PassTakesTurn(run, acts, passes[k].0, passes[k].1, c);
    if k > 0 {
      assert CleanPass(run, acts, passes[k - 1].0, passes[k - 1].1);
      PassIsForward(run, acts, passes[k - 1].0, passes[k - 1].1);
      PassesGiveTurns(run, acts, passes, k - 1, c);
      TurnsGrow(run, acts, passes[k - 1].1, passes[k].0, c);
    }
  }

  lemma PassIsForward(run: seq<Daemon>, acts: seq<Action>, b: nat, e: nat)
    requires CleanPass(run, acts, b, e)
    ensures b < e <= |acts| < |run| && acts[b].Boot?
  {}

  lemma StepAt(run: seq<Daemon>, acts: seq<Action>, i: nat)
    requires Path(run, acts) && i < |acts|
    ensures Enabled(run[i], acts[i]) && run[i + 1] == Step(run[i], acts[i])
  {
    hide Enabled, Step;
  }

  /** A ticket that a boot does not find is gone for good: no shutdown holds a copy of it. */
  lemma {:induction false} MissedIsGone(run: seq<Daemon>, acts: seq<Action>, b: nat, n: nat, c: string)
    requires Path(run, acts) && b < n <= |acts| && acts[b].Boot? && c !in run[b].w.live
    requires forall i :: 0 <= i < |acts| ==> !Restarts(acts[i], c)
    ensures c !in run[n].w.live && c !in run[n].copies
    decreases n
  {
    hide Enabled, Step;
    if b + 1 < n {
      MissedIsGone(run, acts, b, n - 1, c);
      MissedStep(run[n - 1], acts[n - 1], c);
    } else {
      BootMisses(run[b], acts[b], c);
    }
  }

  lemma BootMisses(d: Daemon, a: Action, c: string)
    requires Enabled(d, a) && a.Boot? && c !in d.w.live
    ensures c !in Step(d, a).w.live && c !in Step(d, a).copies
  {}

  lemma MissedStep(d: Daemon, a: Action, c: string)
    requires Enabled(d, a) && !Restarts(a, c) && c !in d.w.live && c !in d.copies
    ensures c !in Step(d, a).w.live && c !in Step(d, a).copies
  {
    if a.HandleNext? {
      HandleKeepsSuspended(d.w, d.pending[0], Judge(d.pending[0], d.roster, d.cap), a.f, c);
      hide Handle, Judge;
    }
  }

  /** A poison ticket cannot wedge the daemon: once cap + 1 boots have gone through their tickets with
      working writes, every ticket that was there at first has been finished or moved aside, whatever
      runs started meanwhile. If shutdowns may race with boots, one boot more does. */
  lemma StoreDrains(run: seq<Daemon>, acts: seq<Action>, passes: seq<(nat, nat)>, cap: nat, c: string, racy: bool)
    requires IsRun(run, acts) && CapsWithin(acts, cap) && Orderly(run, acts, c, racy) && c in run[0].w.live
    requires PassesInOrder(run, acts, passes) && |passes| == cap + 1 + Slack(racy)
    ensures c !in run[|acts|].w.live && Settled(run, acts, |acts|, c)
  {
    var last := |passes| - 1;
    assert CleanPass(run, acts, passes[last].0, passes[last].1);
    if c in run[|acts|].w.live {
      forall j | 0 <= j < |passes| ensures c in run[passes[j].0].w.live {
        assert CleanPass(run, acts, passes[j].0, passes[j].1);
        if c !in run[passes[j].0].w.live { MissedIsGone(run, acts, passes[j].0, |acts|, c); }
      }
      PassesGiveTurns(run, acts, passes, last, c);
      TurnsGrow(run, acts, passes[last].1, |acts|, c);
      TurnsSettle(run, acts, |acts|, cap, c, racy);
    } else {
      GoneIsSettled(run, acts, |acts|, cap, c);
    }
  }
}
