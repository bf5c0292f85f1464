/** Self-update: draining, halting and resuming the daemon around an installed binary
    (cmd/agezt/boot_ops.go, kernel/modules/runs/lifecycle/manager.go, kernel/modules/runs/state/state.go,
    kernel/modules/runs/registry/registry.go, kernel/update/update_apply.go). */
module UpdateDrain {
  import opened Common

  datatype Event =
    | KernelHalt(cancelled: nat)
    | KernelResume
    | RunSuspending
    | UpdateAvailable(version: string)
    | UpdateFailed(version: string)
    | UpdateApplied(version: string)

  /** `entries` are the registered runs; `unsettled` counts the runs that have not finished
      unwinding (the wait group); `tickets` says whether the daemon keeps a resume store. `unmarked` is
      history: the runs cancelled while nothing marked them as interrupted, whose tickets may go. */
  datatype State = State(
    entries: set<string>, unsettled: nat, halted: bool, suspending: bool, tickets: bool, published: seq<Event>,
    unmarked: set<string>)

  function Begin(tickets: bool): State { State({}, 0, false, false, tickets, [], {}) }

  datatype RunEnd = Finished | RunFailed | Cancelled | DeadlineExceeded

  /** Whether a run's ticket outlives it. */
  predicate KeepsTicket(end: RunEnd, suspending: bool) {
    suspending && (end == Cancelled || end == DeadlineExceeded)
  }

  // ---------- one critical section each ----------

  function Publish(s: State, e: Event): State { s.(published := s.published + [e]) }

  function Start(s: State, c: string): State {
    if s.halted || c in s.entries then s else s.(entries := s.entries + {c}, unsettled := s.unsettled + 1)
  }

  function Cleanup(s: State, c: string): State {
    s.(entries := s.entries - {c}, unsettled := if s.unsettled > 0 then s.unsettled - 1 else 0)
  }

  /** The runs of `cs` that are registered leave the registry, cancelled. */
  function Cancel(s: State, cs: set<string>): State {
    s.(entries := s.entries - cs,
       unmarked := if KeepsTicket(Cancelled, s.suspending) then s.unmarked else s.unmarked + s.entries * cs)
  }

  function Halt(s: State): State {
    if s.halted then s else Publish(Cancel(s, s.entries).(halted := true), KernelHalt(|s.entries|))
  }

  function Resume(s: State): State {
    if s.halted then Publish(s.(halted := false), KernelResume) else s
  }

  function Suspend(s: State): State {
    if !s.tickets || s.suspending then s else Publish(s.(suspending := true), RunSuspending)
  }

  // ---------- what goes on beside the update ----------

  datatype Act = StartRun(c: string) | CleanupRun(c: string) | CancelRun(c: string) | OperatorHalt | OperatorResume

  function Do(s: State, a: Act): State {
    match a
    case StartRun(c) => Start(s, c)
    case CleanupRun(c) => Cleanup(s, c)
    case CancelRun(c) => Cancel(s, {c})
    case OperatorHalt => Halt(s)
    case OperatorResume => Resume(s)
  }

  function DoAll(s: State, acts: seq<Act>): State {
    if acts == [] then s else Do(DoAll(s, acts[..|acts| - 1]), acts[|acts| - 1])
  }

  lemma DoAllSnoc(s: State, acts: seq<Act>, a: Act)
    ensures DoAll(s, acts + [a]) == Do(DoAll(s, acts), a)
  {
    assert (acts + [a])[..|acts|] == acts;
  }

  /** The three critical sections of a drain, with `mid` and `late` running in between: mark the
      runs resumable, halt, count. */
  function Drained(s: State, mid: seq<Act>, late: seq<Act>): State {
    DoAll(Halt(DoAll(Suspend(s), mid)), late)
  }

  /** How many runs the drain reports still active. `settles` says whether the wait group empties
      before the timer fires. */
  function ActiveRuns(s: State, timeout: int, mid: seq<Act>, late: seq<Act>, settles: bool): nat {
    if timeout > 0 && settles then 0 else |Drained(s, mid, late).entries|
  }

  // ---------- an apply step ----------

  datatype Move = Other(a: Act) | Drain(timeout: int, mid: seq<Act>, late: seq<Act>, settles: bool)

  /** Any apply step: it may drain any number of times, then fails or not. `mid` and `late` run
      during the checker's own drain, if it comes to that. */
  datatype Script = Script(moves: seq<Move>, failed: bool, mid: seq<Act>, late: seq<Act>)

  function Play(s: State, m: Move): State {
    match m
    case Other(a) => Do(s, a)
    case Drain(_, mid, late, _) => Drained(s, mid, late)
  }

  function PlayAll(s: State, moves: seq<Move>): State {
    if moves == [] then s else Play(PlayAll(s, moves[..|moves| - 1]), moves[|moves| - 1])
  }

  predicate Drains(moves: seq<Move>) {
    exists i :: 0 <= i < |moves| && moves[i].Drain?
  }

  lemma DrainsSnoc(moves: seq<Move>, m: Move)
    ensures Drains(moves + [m]) <==> Drains(moves) || m.Drain?
  {
    var all := moves + [m];
    assert all[|moves|] == m && forall i :: 0 <= i < |moves| ==> all[i] == moves[i];
  }

  lemma PlayAllSnoc(s: State, moves: seq<Move>, m: Move)
    ensures PlayAll(s, moves + [m]) == Play(PlayAll(s, moves), m)
  {
    assert (moves + [m])[..|moves|] == moves;
  }

  /** The state before the verdict is published. */
  function Settled(s: State, script: Script): State {
    var p := PlayAll(s, script.moves);
    if script.failed then if Drains(script.moves) then Resume(p) else p
    else if Drains(script.moves) then p else Drained(p, script.mid, script.late)
  }

  function Verdict(script: Script, version: string): Event {
    if script.failed then UpdateFailed(version) else UpdateApplied(version)
  }

  // ---------- the checker's loop ----------

  datatype Check = Between(a: Act) | NothingNew | Attempt(script: Script, version: string)

  predicate Restarts(c: Check) { c.Attempt? && !c.script.failed }

  function Checked(s: State, c: Check): State {
    match c
    case Between(a) => Do(s, a)
    case NothingNew => s
    case Attempt(script, v) => Publish(Settled(Publish(s, UpdateAvailable(v)), script), Verdict(script, v))
  }

  function CheckAll(s: State, checks: seq<Check>): State {
    if checks == [] then s else Checked(CheckAll(s, checks[..|checks| - 1]), checks[|checks| - 1])
  }

  /** The kernel's run lifecycle, as the update checker uses it. */
  class Lifecycle {
    var entries: set<string>
    var unsettled: nat
    var halted: bool
    var suspending: bool
    const tickets: bool
    var published: seq<Event>
    ghost var unmarked: set<string>

    ghost function Abs(): State
      reads this
    {
      State(entries, unsettled, halted, suspending, tickets, published, unmarked)
    }

    constructor (tickets: bool)
      ensures Abs() == Begin(tickets)
    {
      this.tickets := tickets;
      entries, unsettled, halted, suspending, published, unmarked := {}, 0, false, false, [], {};
    }

    /** Cancels the registered runs among `cs`. */
    method Remove(cs: set<string>)
      modifies this
      ensures Abs() == Cancel(old(Abs()), cs)
    {
      unmarked := if KeepsTicket(Cancelled, suspending) then unmarked else unmarked + entries * cs;
      entries := entries - cs;
    }

    /** What every run start asks first, under the registry's lock. */
    method SetupRun(c: string) returns (started: bool)
      modifies this
      ensures Abs() == Start(old(Abs()), c)
      ensures started <==> !old(halted) && c !in old(entries)
    {
      if halted || c in entries { return false; }
      entries, unsettled := entries + {c}, unsettled + 1;
      return true;
    }

    method HaltWith()
      modifies this
      ensures Abs() == Halt(old(Abs()))
    {
      if halted { return; }
      var cancels := |entries|;
      Remove(entries);
      halted := true;
      published := published + [KernelHalt(cancels)];
    }

    method ResumeWith()
      modifies this
      ensures Abs() == Resume(old(Abs()))
    {
      if !halted { return; }
      halted := false;
      published := published + [KernelResume];
    }

    method SuspendRuns()
      modifies this
      ensures Abs() == Suspend(old(Abs()))
    {
      if !tickets || suspending { return; }
      suspending := true;
      published := published + [RunSuspending];
    }

    method Perform(a: Act)
      modifies this
      ensures Abs() == Do(old(Abs()), a)
    {
      match a {
        case StartRun(c) => var _ := SetupRun(c);
        case CleanupRun(c) =>
          entries := entries - {c};
          if unsettled > 0 { unsettled := unsettled - 1; }
        case CancelRun(c) => Remove({c});
        case OperatorHalt => HaltWith();
        case OperatorResume => ResumeWith();
      }
    }

    method PerformAll(acts: seq<Act>)
      modifies this
      ensures Abs() == DoAll(old(Abs()), acts)
    {
      var i := 0;
      while i < |acts|
        invariant 0 <= i <= |acts|
        invariant Abs() == DoAll(old(Abs()), acts[..i])
      {
        Perform(acts[i]);
        DoAllSnoc(old(Abs()), acts[..i], acts[i]);
        assert acts[..i + 1] == acts[..i] + [acts[i]];
        i := i + 1;
      }
      assert acts[..i] == acts;
    }

    /** The runs in flight are marked as interrupted before any is cancelled. */
    method DrainAndHalt(timeout: int, mid: seq<Act>, late: seq<Act>, settles: bool)
      returns (timedOut: bool, activeRuns: nat)
      modifies this
      ensures Abs() == Drained(old(Abs()), mid, late)
      ensures tickets && !old(suspending) ==> old(published) + [RunSuspending] <= published
      ensures tickets ==> unmarked == old(unmarked)
      ensures activeRuns == ActiveRuns(old(Abs()), timeout, mid, late, settles)
      ensures timedOut <==> timeout > 0 && !settles
    {
      DrainMarksFirst(Abs(), mid, late);
      hide Suspend, Halt, DoAll;
      SuspendRuns();
      PerformAll(mid);
      HaltWith();
      PerformAll(late);
      activeRuns := |entries|;
      if timeout <= 0 { return false, activeRuns; }
      if settles { return false, 0; }
      return true, activeRuns;
    }

    method ApplyAvailableUpdate(script: Script, version: string) returns (restart: bool)
      modifies this
      ensures Abs() == Publish(Settled(old(Abs()), script), Verdict(script, version))
      ensures restart <==> !script.failed
    {
      var drained, i := false, 0;
      while i < |script.moves|
        invariant 0 <= i <= |script.moves|
        invariant drained <==> Drains(script.moves[..i])
        invariant Abs() == PlayAll(old(Abs()), script.moves[..i])
      {
        var m := script.moves[i];
        match m {
          case Other(a) => Perform(a);
          case Drain(timeout, mid, late, settles) =>
            drained := true;
            var _, _ := DrainAndHalt(timeout, mid, late, settles);
        }
        DrainsSnoc(script.moves[..i], m);
        PlayAllSnoc(old(Abs()), script.moves[..i], m);
        assert script.moves[..i + 1] == script.moves[..i] + [m];
        i := i + 1;
      }
      assert script.moves[..i] == script.moves;
      if script.failed {
        if drained { ResumeWith(); }
        published := published + [UpdateFailed(version)];
        return false;
      }
      if !drained { var _, _ := DrainAndHalt(0, script.mid, script.late, true); }
      published := published + [UpdateApplied(version)];
      return true;
    }

    /** Checks until an update is applied; `done` checks were made. */
    method UpdateChecker(checks: seq<Check>) returns (done: nat, restart: bool)
      modifies this
      ensures done <= |checks| && Abs() == CheckAll(old(Abs()), checks[..done])
      ensures restart <==> done > 0 && Restarts(checks[done - 1])
      ensures forall i :: 0 <= i < done - 1 ==> !Restarts(checks[i])
      ensures !restart ==> done == |checks|
    {
      hide Settled, Verdict, Do;
      done, restart := 0, false;
      while done < |checks| && !restart
        invariant 0 <= done <= |checks| && Abs() == CheckAll(old(Abs()), checks[..done])
        invariant restart <==> done > 0 && Restarts(checks[done - 1])
        invariant forall i :: 0 <= i < done - 1 ==> !Restarts(checks[i])
        decreases |checks| - done, !restart
      {
        match checks[done] {
          case Between(a) => Perform(a);
          case NothingNew =>
          case Attempt(script, version) =>
            published := published + [UpdateAvailable(version)];
            restart := ApplyAvailableUpdate(script, version);
        }
        assert checks[..done + 1][..done] == checks[..done];
        done := done + 1;
      }
    }
  }

  // ---------- a halted kernel has no registered run ----------

  predicate Quiet(s: State) { s.halted ==> s.entries == {} }

  lemma {:induction false} DoAllKeepsQuiet(s: State, acts: seq<Act>)
    requires Quiet(s)
    ensures Quiet(DoAll(s, acts))
    ensures s.halted && OperatorResume !in acts ==> DoAll(s, acts).halted
    ensures !s.halted && OperatorHalt !in acts ==> !DoAll(s, acts).halted
  {
    hide Do, Quiet;
    if acts != [] {
      var rest, a := acts[..|acts| - 1], acts[|acts| - 1];
      assert acts == rest + [a];
      DoAllKeepsQuiet(s, rest);
      ActKeepsQuiet(DoAll(s, rest), a);
    }
  }

  lemma ActKeepsQuiet(s: State, a: Act)
    requires Quiet(s)
    ensures Quiet(Do(s, a))
    ensures s.halted && a != OperatorResume ==> Do(s, a).halted
    ensures !s.halted && a != OperatorHalt ==> !Do(s, a).halted
  {}

  lemma {:induction false} PlayAllKeepsQuiet(s: State, moves: seq<Move>)
    requires Quiet(s)
    ensures Quiet(PlayAll(s, moves))
  {
    if moves != [] {
      PlayAllKeepsQuiet(s, moves[..|moves| - 1]);
      var p, m := PlayAll(s, moves[..|moves| - 1]), moves[|moves| - 1];
      match m {
        case Other(a) =>
        case Drain(_, mid, late, _) => DrainKeepsQuiet(p, mid, late);
      }
    }
  }

  lemma DrainKeepsQuiet(s: State, mid: seq<Act>, late: seq<Act>)
    requires Quiet(s)
    ensures Quiet(Drained(s, mid, late))
    ensures OperatorResume !in late ==> Drained(s, mid, late).halted
  {
    DoAllKeepsQuiet(Suspend(s), mid);
    DoAllKeepsQuiet(Halt(DoAll(Suspend(s), mid)), late);
  }

  /** A halt announces how many runs it cancelled; a second one announces nothing. */
  lemma HaltCounts(s: State)
    ensures var h := Halt(s);
      if s.halted then h == s
      else h.halted && h.entries == {} && h.published == s.published + [KernelHalt(|s.entries - h.entries|)]
  {
    assert s.entries - {} == s.entries;
  }

  /** A run is registered and counted once, not at all while halted, and cleaning it up takes that back,
      cancelled or not; the count never goes below zero. */
  lemma StartAndCleanup(s: State, c: string)
    ensures var s1 := Do(s, StartRun(c));
      && (s.halted ==> s1 == s)
      && (!s.halted && c !in s.entries ==>
            && c in s1.entries && s1.unsettled == s.unsettled + 1
            && Do(s1, StartRun(c)) == s1 && Do(s1, CleanupRun(c)) == s
            && Do(Do(s1, CancelRun(c)), CleanupRun(c)) == s.(unmarked := Do(s1, CancelRun(c)).unmarked))
    ensures s.unsettled == 0 ==> Do(s, CleanupRun(c)).unsettled == 0
  {}

  /** Over any run of checks and anything beside them, no run is registered while halted. */
  lemma {:induction false} HaltedMeansNoRuns(tickets: bool, checks: seq<Check>)
    ensures Quiet(CheckAll(Begin(tickets), checks))
  {
    var s := Begin(tickets);
    if checks != [] {
      HaltedMeansNoRuns(tickets, checks[..|checks| - 1]);
      var p := CheckAll(s, checks[..|checks| - 1]);
      match checks[|checks| - 1] {
        case Between(a) =>
        case NothingNew =>
        case Attempt(script, v) =>
          var q := Publish(p, UpdateAvailable(v));
          PlayAllKeepsQuiet(q, script.moves);
          DrainKeepsQuiet(PlayAll(q, script.moves), script.mid, script.late);
      }
    }
  }

  /** The drain counts after halting, and halting empties the registry: it reports active runs only
      if someone resumes the kernel in between, however many runs are still unwinding. */
  lemma DrainReportsNobody(s: State, timeout: int, mid: seq<Act>, late: seq<Act>, settles: bool)
    requires Quiet(s) && ActiveRuns(s, timeout, mid, late, settles) > 0
    ensures OperatorResume in late
  {
    DrainKeepsQuiet(s, mid, late);
  }

  /** Resuming in between is enough: one run registered then is reported, unless the drain waits and the
      wait group empties in time. */
  lemma DrainReportsALateRun(s: State, timeout: int, c: string, settles: bool)
    requires Quiet(s)
    ensures ActiveRuns(s, timeout, [], [OperatorResume, StartRun(c)], settles)
         == if timeout >= 1 && settles then 0 else 1
  {
    var h := Halt(Suspend(s));
    assert [OperatorResume, StartRun(c)][..1] == [OperatorResume];
    assert DoAll(h, [OperatorResume]) == Resume(h) by { assert [OperatorResume][..0] == []; }
    assert DoAll(h, [OperatorResume, StartRun(c)]) == Start(Resume(h), c);
    assert Start(Resume(h), c).entries == {c};
  }

  // ---------- what a check leaves behind ----------

  predicate NoOperator(acts: seq<Act>) { OperatorHalt !in acts && OperatorResume !in acts }

  /** Nobody halts or resumes the kernel by hand during the attempt. */
  predicate Undisturbed(script: Script) {
    && NoOperator(script.mid) && NoOperator(script.late)
    && forall i :: 0 <= i < |script.moves| ==> UndisturbedMove(script.moves[i])
  }

  predicate UndisturbedMove(m: Move) {
    match m
    case Other(a) => a != OperatorHalt && a != OperatorResume
    case Drain(_, mid, late, _) => NoOperator(mid) && NoOperator(late)
  }

  lemma {:induction false} PlayAllHalts(s: State, moves: seq<Move>)
    requires Quiet(s) && forall i :: 0 <= i < |moves| ==> UndisturbedMove(moves[i])
    ensures PlayAll(s, moves).halted <==> s.halted || Drains(moves)
  {
    if moves != [] {
      var rest, m := moves[..|moves| - 1], moves[|moves| - 1];
      PlayAllHalts(s, rest);
      PlayAllKeepsQuiet(s, rest);
      DrainsSnoc(rest, m);
      assert moves == rest + [m] && UndisturbedMove(m);
      if m.Drain? { DrainKeepsQuiet(PlayAll(s, rest), m.mid, m.late); }
    }
  }

  /** An undisturbed attempt leaves the kernel halted exactly if it succeeds, or if it fails
      without draining on a kernel that was halted already. */
  lemma HaltedAfterIff(s: State, script: Script)
    requires Quiet(s) && Undisturbed(script)
    ensures Settled(s, script).halted <==> !script.failed || (s.halted && !Drains(script.moves))
  {
    PlayAllHalts(s, script.moves);
    PlayAllKeepsQuiet(s, script.moves);
    DrainKeepsQuiet(PlayAll(s, script.moves), script.mid, script.late);
  }

  /** The checker drains on its own exactly if the update was applied and the step did not drain. */
  lemma CheckerDrainsIff(s: State, script: Script)
    ensures var p := PlayAll(s, script.moves);
      && (!script.failed && Drains(script.moves) ==> Settled(s, script) == p)
      && (!script.failed && !Drains(script.moves) ==> Settled(s, script) == Drained(p, script.mid, script.late))
      && (script.failed && !Drains(script.moves) ==> Settled(s, script) == p)
  {}

  /** Whoever halted it and whenever, a failed attempt that drained leaves the kernel running. */
  lemma AbortAlwaysResumes(s: State, script: Script)
    requires script.failed && Drains(script.moves)
    ensures !Settled(s, script).halted
  {
  }

  predicate UndisturbedCheck(c: Check) {
    match c
    case Between(a) => a != OperatorHalt && a != OperatorResume
    case NothingNew => true
    case Attempt(script, _) => Undisturbed(script)
  }

  /** Over any number of checks, a running kernel is halted exactly when the last check applied
      an update. */
  lemma {:induction false} HaltedOnlyToRestart(s: State, checks: seq<Check>)
    requires !s.halted && (forall i :: 0 <= i < |checks| ==> UndisturbedCheck(checks[i]))
    requires forall i :: 0 <= i < |checks| - 1 ==> !Restarts(checks[i])
    ensures Quiet(CheckAll(s, checks))
    ensures CheckAll(s, checks).halted <==> checks != [] && Restarts(checks[|checks| - 1])
  {
    if checks != [] {
      var n := |checks| - 1;
      HaltedOnlyToRestart(s, checks[..n]);
      var p := CheckAll(s, checks[..n]);
      assert UndisturbedCheck(checks[n]);
      match checks[n] {
        case Between(a) =>
        case NothingNew =>
        case Attempt(script, v) =>
          var q := Publish(p, UpdateAvailable(v));
          HaltedAfterIff(q, script);
          PlayAllKeepsQuiet(q, script.moves);
          DrainKeepsQuiet(PlayAll(q, script.moves), script.mid, script.late);
      }
    }
  }

  // ---------- one verdict per attempt ----------

  predicate IsVerdict(e: Event) { e.UpdateFailed? || e.UpdateApplied? }

  function Verdicts(s: State): seq<Event> { Filter(s.published, IsVerdict) }

  function Attempts(checks: seq<Check>): seq<Event> {
    if checks == [] then []
    else
      var c := checks[|checks| - 1];
      Attempts(checks[..|checks| - 1])
        + if !c.Attempt? then []
          else if c.script.failed then [UpdateFailed(c.version)] else [UpdateApplied(c.version)]
  }

  lemma PublishVerdict(s: State, e: Event)
    ensures Verdicts(Publish(s, e)) == Verdicts(s) + if IsVerdict(e) then [e] else []
  {
    FilterSnoc(s.published, e, IsVerdict);
  }

  lemma SectionsGiveNoVerdict(s: State)
    ensures Verdicts(Halt(s)) == Verdicts(Resume(s)) == Verdicts(Suspend(s)) == Verdicts(s)
  {
    PublishVerdict(Cancel(s, s.entries).(halted := true), KernelHalt(|s.entries|));
    PublishVerdict(s.(halted := false), KernelResume);
    PublishVerdict(s.(suspending := true), RunSuspending);
  }

  lemma ActGivesNoVerdict(s: State, a: Act)
    ensures Verdicts(Do(s, a)) == Verdicts(s)
  {
    SectionsGiveNoVerdict(s);
    hide Filter, Halt, Resume;
  }

  lemma {:induction false} DoAllGivesNoVerdict(s: State, acts: seq<Act>)
    ensures Verdicts(DoAll(s, acts)) == Verdicts(s)
  {
    if acts != [] {
      DoAllGivesNoVerdict(s, acts[..|acts| - 1]);
      ActGivesNoVerdict(DoAll(s, acts[..|acts| - 1]), acts[|acts| - 1]);
      hide Verdicts, Do;
    }
  }

  lemma DrainGivesNoVerdict(s: State, mid: seq<Act>, late: seq<Act>)
    ensures Verdicts(Drained(s, mid, late)) == Verdicts(s)
  {
    SectionsGiveNoVerdict(s);
    DoAllGivesNoVerdict(Suspend(s), mid);
    SectionsGiveNoVerdict(DoAll(Suspend(s), mid));
    DoAllGivesNoVerdict(Halt(DoAll(Suspend(s), mid)), late);
  }

  lemma {:induction false} PlayAllGivesNoVerdict(s: State, moves: seq<Move>)
    ensures Verdicts(PlayAll(s, moves)) == Verdicts(s)
  {
    if moves != [] {
      PlayAllGivesNoVerdict(s, moves[..|moves| - 1]);
      var p := PlayAll(s, moves[..|moves| - 1]);
      hide Verdicts, Do, Drained;
      match moves[|moves| - 1] {
        case Other(a) => ActGivesNoVerdict(p, a);
        case Drain(_, mid, late, _) => DrainGivesNoVerdict(p, mid, late);
      }
    }
  }

  /** The verdicts published are those of the attempts made, one each and in order. */
  lemma {:induction false} OneVerdictEach(s: State, checks: seq<Check>)
    ensures Verdicts(CheckAll(s, checks)) == Verdicts(s) + Attempts(checks)
  {
    if checks != [] {
      var n := |checks| - 1;
      OneVerdictEach(s, checks[..n]);
      var p := CheckAll(s, checks[..n]);
      hide Verdicts, Do, Publish, Settled;
      match checks[n] {
        case Between(a) => ActGivesNoVerdict(p, a);
        case NothingNew =>
        case Attempt(script, v) => AttemptGivesOneVerdict(p, script, v);
      }
    }
  }

  lemma AttemptGivesOneVerdict(s: State, script: Script, v: string)
    ensures Verdicts(Checked(s, Attempt(script, v))) == Verdicts(s) + [Verdict(script, v)]
  {
    hide Verdicts, Publish, PlayAll, Drained, Resume;
    var q := Publish(s, UpdateAvailable(v));
    PublishVerdict(s, UpdateAvailable(v));
    PlayAllGivesNoVerdict(q, script.moves);
    var p := PlayAll(q, script.moves);
    SectionsGiveNoVerdict(p);
    DrainGivesNoVerdict(p, script.mid, script.late);
    PublishVerdict(Settled(q, script), Verdict(script, v));
  }

  /** An attempt publishes first what is available, and last its verdict. */
  lemma VerdictComesLast(s: State, script: Script, v: string)
    ensures var after := Checked(s, Attempt(script, v)).published;
      && s.published + [UpdateAvailable(v)] <= after && |after| >= |s.published| + 2
      && after[|after| - 1] == if script.failed then UpdateFailed(v) else UpdateApplied(v)
  {
    var q := Publish(s, UpdateAvailable(v));
    PlayAllOnlyAdds(q, script.moves);
    var p := PlayAll(q, script.moves);
    DrainOnlyAdds(p, script.mid, script.late);
    assert p.published <= Resume(p).published;
    hide PlayAll, Drained;
  }

  lemma DrainOnlyAdds(s: State, mid: seq<Act>, late: seq<Act>)
    ensures s.published <= Drained(s, mid, late).published
  {
    DrainMarksFirst(s, mid, late);
  }

  lemma {:induction false} PlayAllOnlyAdds(s: State, moves: seq<Move>)
    ensures s.published <= PlayAll(s, moves).published
  {
    if moves != [] {
      var rest, m := moves[..|moves| - 1], moves[|moves| - 1];
      PlayAllOnlyAdds(s, rest);
      match m {
        case Other(a) => ActOnlyAdds(PlayAll(s, rest), a);
        case Drain(_, mid, late, _) => DrainOnlyAdds(PlayAll(s, rest), mid, late);
      }
      hide Do, Drained;
    }
  }

  // ---------- the suspend latch ----------

  lemma {:induction false} ActsKeepLatch(s: State, acts: seq<Act>)
    ensures DoAll(s, acts).suspending == s.suspending && DoAll(s, acts).tickets == s.tickets
  {
    hide Do;
    if acts != [] {
      ActsKeepLatch(s, acts[..|acts| - 1]);
      ActKeepsLatch(DoAll(s, acts[..|acts| - 1]), acts[|acts| - 1]);
    }
  }

  lemma ActKeepsLatch(s: State, a: Act)
    ensures Do(s, a).suspending == s.suspending && Do(s, a).tickets == s.tickets
  {}

  lemma DrainSetsLatch(s: State, mid: seq<Act>, late: seq<Act>)
    ensures Drained(s, mid, late).tickets == s.tickets
    ensures Drained(s, mid, late).suspending == (s.suspending || s.tickets)
  {
    ActsKeepLatch(Suspend(s), mid);
    ActsKeepLatch(Halt(DoAll(Suspend(s), mid)), late);
  }

  lemma {:induction false} PlayAllLatch(s: State, moves: seq<Move>)
    ensures PlayAll(s, moves).tickets == s.tickets
    ensures PlayAll(s, moves).suspending == (s.suspending || (s.tickets && Drains(moves)))
  {
    if moves != [] {
      var rest, m := moves[..|moves| - 1], moves[|moves| - 1];
      PlayAllLatch(s, rest);
      DrainsSnoc(rest, m);
      assert moves == rest + [m];
      if m.Drain? { DrainSetsLatch(PlayAll(s, rest), m.mid, m.late); }
    }
  }

  predicate HasDrained(c: Check) { c.Attempt? && (Drains(c.script.moves) || !c.script.failed) }

  predicate AnyDrained(checks: seq<Check>) { exists i :: 0 <= i < |checks| && HasDrained(checks[i]) }

  lemma AnyDrainedSnoc(checks: seq<Check>, c: Check)
    ensures AnyDrained(checks + [c]) <==> AnyDrained(checks) || HasDrained(c)
  {
    var all := checks + [c];
    assert all[|checks|] == c && forall i :: 0 <= i < |checks| ==> all[i] == checks[i];
  }

  /** Nothing clears the latch: after any run of checks it is set exactly if some check drained,
      whether or not the update happened. */
  lemma {:induction false} LatchedIff(s: State, checks: seq<Check>)
    ensures CheckAll(s, checks).tickets == s.tickets
    ensures CheckAll(s, checks).suspending <==> s.suspending || (s.tickets && AnyDrained(checks))
  {
    if checks != [] {
      var rest, c := checks[..|checks| - 1], checks[|checks| - 1];
      LatchedIff(s, rest);
      AnyDrainedSnoc(rest, c);
      assert checks == rest + [c];
      if c.Attempt? {
        var q := Publish(CheckAll(s, rest), UpdateAvailable(c.version));
        PlayAllLatch(q, c.script.moves);
        DrainSetsLatch(PlayAll(q, c.script.moves), c.script.mid, c.script.late);
      }
    }
  }

  /** A run cancelled by hand, or timed out, after some checks is resumed at the next boot exactly
      if one of those checks drained; an aborted update is enough. */
  lemma CancelledRunComesBackIff(checks: seq<Check>, end: RunEnd)
    requires end == Cancelled || end == DeadlineExceeded
    ensures KeepsTicket(end, CheckAll(Begin(true), checks).suspending) <==> AnyDrained(checks)
  {
    LatchedIff(Begin(true), checks);
  }

  predicate IsSuspending(e: Event) { e.RunSuspending? }

  function Announcements(s: State): nat { |Filter(s.published, IsSuspending)| }

  /** Live runs are told of a restart, and their tickets marked, at the first drain only. */
  predicate AnnouncedOnce(s: State) { Announcements(s) == if s.suspending then 1 else 0 }

  lemma PublishKeepsAnnounced(s: State, e: Event)
    ensures Announcements(Publish(s, e)) == Announcements(s) + if IsSuspending(e) then 1 else 0
  {
    FilterSnoc(s.published, e, IsSuspending);
  }

  lemma SectionsKeepAnnounced(s: State)
    requires AnnouncedOnce(s)
    ensures AnnouncedOnce(Halt(s)) && AnnouncedOnce(Resume(s)) && AnnouncedOnce(Suspend(s))
  {
    PublishKeepsAnnounced(Cancel(s, s.entries).(halted := true), KernelHalt(|s.entries|));
    PublishKeepsAnnounced(s.(halted := false), KernelResume);
    PublishKeepsAnnounced(s.(suspending := true), RunSuspending);
  }

  lemma ActKeepsAnnounced(s: State, a: Act)
    requires AnnouncedOnce(s)
    ensures AnnouncedOnce(Do(s, a))
  {
    hide Filter, Halt, Resume;
    SectionsKeepAnnounced(s);
  }

  lemma {:induction false} DoAllKeepsAnnounced(s: State, acts: seq<Act>)
    requires AnnouncedOnce(s)
    ensures AnnouncedOnce(DoAll(s, acts))
  {
    if acts != [] {
      DoAllKeepsAnnounced(s, acts[..|acts| - 1]);
      ActKeepsAnnounced(DoAll(s, acts[..|acts| - 1]), acts[|acts| - 1]);
      hide AnnouncedOnce, Do;
    }
  }

  lemma DrainKeepsAnnounced(s: State, mid: seq<Act>, late: seq<Act>)
    requires AnnouncedOnce(s)
    ensures AnnouncedOnce(Drained(s, mid, late))
  {
    SectionsKeepAnnounced(s);
    DoAllKeepsAnnounced(Suspend(s), mid);
    SectionsKeepAnnounced(DoAll(Suspend(s), mid));
    DoAllKeepsAnnounced(Halt(DoAll(Suspend(s), mid)), late);
  }

  lemma {:induction false} PlayAllKeepsAnnounced(s: State, moves: seq<Move>)
    requires AnnouncedOnce(s)
    ensures AnnouncedOnce(PlayAll(s, moves))
  {
    if moves != [] {
      PlayAllKeepsAnnounced(s, moves[..|moves| - 1]);
      var p := PlayAll(s, moves[..|moves| - 1]);
      hide AnnouncedOnce, Do, Drained;
      match moves[|moves| - 1] {
        case Other(a) => ActKeepsAnnounced(p, a);
        case Drain(_, mid, late, _) => DrainKeepsAnnounced(p, mid, late);
      }
    }
  }

  /** However many updates are aborted, the runs are told at most once. */
  lemma {:induction false} SuspensionAnnouncedOnce(tickets: bool, checks: seq<Check>)
    ensures AnnouncedOnce(CheckAll(Begin(tickets), checks))
  {
    var s := Begin(tickets);
    if checks != [] {
      SuspensionAnnouncedOnce(tickets, checks[..|checks| - 1]);
      var p := CheckAll(s, checks[..|checks| - 1]);
      hide AnnouncedOnce, Do, Publish, Settled;
      match checks[|checks| - 1] {
        case Between(a) => ActKeepsAnnounced(p, a);
        case NothingNew =>
        case Attempt(script, v) => AttemptKeepsAnnounced(p, script, v);
      }
    }
  }

  lemma AttemptKeepsAnnounced(s: State, script: Script, v: string)
    requires AnnouncedOnce(s)
    ensures AnnouncedOnce(Checked(s, Attempt(script, v)))
  {
    hide Announcements;
    var q := Publish(s, UpdateAvailable(v));
    PublishKeepsAnnounced(s, UpdateAvailable(v));
    PlayAllKeepsAnnounced(q, script.moves);
    var p := PlayAll(q, script.moves);
    SectionsKeepAnnounced(p);
    DrainKeepsAnnounced(p, script.mid, script.late);
    PublishKeepsAnnounced(Settled(q, script), Verdict(script, v));
  }

  // ---------- marked before cancelled ----------

  /** A run leaves the registry when it is cleaned up, cancelled or halted; cancelled or halted, it is
      unmarked exactly if the latch was clear. */
  lemma LeavesUnmarkedIff(s: State, a: Act, c: string)
    requires c in s.entries && c !in Do(s, a).entries
    ensures a == CleanupRun(c) || ((a == CancelRun(c) || (a == OperatorHalt && !s.halted))
              && (c in Do(s, a).unmarked <==> c in s.unmarked || !s.suspending))
  {}

  lemma ActOnlyAdds(s: State, a: Act)
    ensures s.published <= Do(s, a).published
    ensures s.suspending ==> Do(s, a).unmarked == s.unmarked
  {}

  lemma {:induction false} ActsOnlyAdd(s: State, acts: seq<Act>)
    ensures s.published <= DoAll(s, acts).published
    ensures s.suspending ==> DoAll(s, acts).unmarked == s.unmarked
  {
    hide Do;
    if acts != [] {
      var before := DoAll(s, acts[..|acts| - 1]);
      ActsOnlyAdd(s, acts[..|acts| - 1]);
      ActsKeepLatch(s, acts[..|acts| - 1]);
      ActOnlyAdds(before, acts[|acts| - 1]);
    }
  }

  lemma HaltOnlyAdds(s: State)
    ensures s.published <= Halt(s).published && Halt(s).suspending == s.suspending
    ensures s.suspending ==> Halt(s).unmarked == s.unmarked
  {}

  /** A drain marks the runs in flight as interrupted before it cancels any: where it announces the
      suspension, that comes before all else it does, and no run is cancelled unmarked while it lasts,
      by the drain or by hand. */
  lemma DrainMarksFirst(s: State, mid: seq<Act>, late: seq<Act>)
    ensures var d := Drained(s, mid, late);
      && s.published <= d.published
      && (s.tickets && !s.suspending ==> s.published + [RunSuspending] <= d.published)
      && (s.tickets ==> d.unmarked == s.unmarked && d.suspending)
  {
    var s1 := Suspend(s);
    var s2 := DoAll(s1, mid);
    ActsOnlyAdd(s1, mid);
    ActsKeepLatch(s1, mid);
    HaltOnlyAdds(s2);
    ActsOnlyAdd(Halt(s2), late);
    ActsKeepLatch(Halt(s2), late);
    hide DoAll, Halt;
  }

  lemma {:induction false} PlayAllMarks(s: State, moves: seq<Move>)
    requires s.suspending && s.tickets
    ensures PlayAll(s, moves).unmarked == s.unmarked && PlayAll(s, moves).suspending && PlayAll(s, moves).tickets
  {
    if moves != [] {
      var rest, m := moves[..|moves| - 1], moves[|moves| - 1];
      PlayAllMarks(s, rest);
      var p := PlayAll(s, rest);
      match m {
        case Other(a) =>
          ActOnlyAdds(p, a);
          ActKeepsLatch(p, a);
        case Drain(_, mid, late, _) =>
          DrainMarksFirst(p, mid, late);
          DrainSetsLatch(p, mid, late);
      }
      hide Do, Drained;
    }
  }

  /** From a first drain on, no run is ever cancelled unmarked, whatever updates follow and whoever
      cancels. */
  lemma {:induction false} DrainLosesNoRun(s: State, mid: seq<Act>, late: seq<Act>, checks: seq<Check>)
    requires s.tickets
    ensures CheckAll(Drained(s, mid, late), checks).unmarked == s.unmarked
  {
    var d := Drained(s, mid, late);
    DrainMarksFirst(s, mid, late);
    DrainSetsLatch(s, mid, late);
    hide Drained, Do, Settled;
    if checks != [] {
      var rest, c := checks[..|checks| - 1], checks[|checks| - 1];
      DrainLosesNoRun(s, mid, late, rest);
      LatchedIff(d, rest);
      CheckMarks(CheckAll(d, rest), c);
    }
  }

  lemma CheckMarks(s: State, c: Check)
    requires s.suspending && s.tickets
    ensures Checked(s, c).unmarked == s.unmarked
  {
    match c
    case Between(a) => ActOnlyAdds(s, a);
    case NothingNew =>
    case Attempt(script, v) =>
      hide Drained, PlayAll;
      var q := Publish(s, UpdateAvailable(v));
      PlayAllMarks(q, script.moves);
      DrainMarksFirst(PlayAll(q, script.moves), script.mid, script.late);
  }

  /** Over every run of checks: where a drain begins, what it publishes comes behind a suspension notice,
      an earlier one or its own. */
  lemma HaltsAreAnnounced(checks: seq<Check>, v: string, moves: seq<Move>, mid: seq<Act>, late: seq<Act>)
    ensures var s := PlayAll(Publish(CheckAll(Begin(true), checks), UpdateAvailable(v)), moves);
      var d := Drained(s, mid, late);
      && s.published <= d.published
      && exists i :: 0 <= i <= |s.published| && i < |d.published| && d.published[i] == RunSuspending
  {
    hide Drained, CheckAll, PlayAll;
    var before := CheckAll(Begin(true), checks);
    var s := PlayAll(Publish(before, UpdateAvailable(v)), moves);
    SuspensionAnnouncedOnce(true, checks);
    PublishKeepsAnnounced(before, UpdateAvailable(v));
    PlayAllKeepsAnnounced(Publish(before, UpdateAvailable(v)), moves);
    LatchedIff(Begin(true), checks);
    PlayAllLatch(Publish(before, UpdateAvailable(v)), moves);
    DrainMarksFirst(s, mid, late);
    var d := Drained(s, mid, late);
    if s.suspending {
      AnnouncedSomewhere(s);
      var i :| 0 <= i < |s.published| && s.published[i] == RunSuspending;
      assert d.published[i] == RunSuspending;
    } else {
      assert (s.published + [RunSuspending])[|s.published|] == RunSuspending == d.published[|s.published|];
    }
  }

  lemma AnnouncedSomewhere(s: State)
    requires Announcements(s) > 0
    ensures exists i :: 0 <= i < |s.published| && s.published[i] == RunSuspending
  {
    FilterMembers(s.published, IsSuspending);
    var e := Filter(s.published, IsSuspending)[0];
    assert e in Filter(s.published, IsSuspending);
    assert e in s.published && IsSuspending(e);
  }

  // ---------- the update service's own apply step ----------

  /** How each step of the service's Apply turns out, and what runs beside its drain. */
  datatype Outcomes = Outcomes(
    locked: bool, binDir: bool, downloaded: bool, checksum: bool, signature: bool,
    drainTimeout: int, mid: seq<Act>, late: seq<Act>, settles: bool, renamed: bool, madeExecutable: bool)

  predicate Trusted(o: Outcomes) { o.locked && o.binDir && o.downloaded && o.checksum && o.signature }

  /** Locks, downloads, verifies; then drains if configured to, and swaps the binary unless the
      drain reports active runs. */
  function ServiceApply(s: State, o: Outcomes): Script {
    if !Trusted(o) then Script([], true, [], [])
    else if o.drainTimeout > 0 then
      var drain := [Drain(o.drainTimeout, o.mid, o.late, o.settles)];
      if ActiveRuns(s, o.drainTimeout, o.mid, o.late, o.settles) > 0 then Script(drain, true, [], [])
      else Script(drain, !(o.renamed && o.madeExecutable), [], [])
    else Script([], !(o.renamed && o.madeExecutable), o.mid, o.late)
  }

  /** An update that cannot be downloaded, checked or trusted changes nothing but the journal. */
  lemma RefusedUpdateTouchesNothing(s: State, o: Outcomes, v: string)
    requires !o.locked || !o.binDir || !o.downloaded || !o.checksum || !o.signature
    ensures Checked(s, Attempt(ServiceApply(s, o), v))
         == s.(published := s.published + [UpdateAvailable(v), UpdateFailed(v)])
  {
    var e, f := UpdateAvailable(v), UpdateFailed(v);
    assert s.published + [e] + [f] == s.published + [e, f];
  }

  /** It fails exactly on what precedes the drain, on runs the drain reports, or on the swap; and it drains
      itself exactly if it gets that far and is given time. */
  lemma ServiceFailsIff(s: State, o: Outcomes)
    ensures ServiceApply(s, o).failed <==>
      || !(o.locked && o.binDir && o.downloaded && o.checksum && o.signature)
      || (o.drainTimeout >= 1 && ActiveRuns(s, o.drainTimeout, o.mid, o.late, o.settles) != 0)
      || !(o.renamed && o.madeExecutable)
    ensures Drains(ServiceApply(s, o).moves) <==> Trusted(o) && o.drainTimeout >= 1
  {
    var moves := ServiceApply(s, o).moves;
    if Trusted(o) && o.drainTimeout >= 1 { assert moves[0].Drain?; }
  }

  /** Unless someone resumes the kernel during the drain, runs that do not unwind in time never
      stop an update: it fails only on what precedes the drain or on the swap. */
  lemma LateRunsNeverStopAnUpdate(s: State, o: Outcomes)
    requires Quiet(s) && OperatorResume !in o.late
    ensures ServiceApply(s, o).failed <==> !(Trusted(o) && o.renamed && o.madeExecutable)
  {
    if Trusted(o) && o.drainTimeout > 0 { DrainKeepsQuiet(s, o.mid, o.late); }
  }

  predicate NobodyUnwinds(acts: seq<Act>) { forall i :: 0 <= i < |acts| ==> !acts[i].CleanupRun? }

  lemma {:induction false} UnsettledStay(s: State, acts: seq<Act>)
    requires NobodyUnwinds(acts)
    ensures DoAll(s, acts).unsettled >= s.unsettled
  {
    if acts != [] { UnsettledStay(s, acts[..|acts| - 1]); }
  }

  /** The update is applied over runs that have not unwound: the drain times out, nobody has finished,
      and the binary is swapped all the same. */
  lemma UpdateSwapsUnderLiveRuns(s: State, o: Outcomes, v: string)
    requires Quiet(s) && Trusted(o) && o.drainTimeout > 0 && !o.settles && o.renamed && o.madeExecutable
    requires OperatorResume !in o.late && NobodyUnwinds(o.mid) && NobodyUnwinds(o.late)
    ensures !ServiceApply(s, o).failed
    ensures Settled(s, ServiceApply(s, o)).unsettled >= s.unsettled && Settled(s, ServiceApply(s, o)).halted
  {
    LateRunsNeverStopAnUpdate(s, o);
    DrainKeepsQuiet(s, o.mid, o.late);
    UnsettledStay(Suspend(s), o.mid);
    UnsettledStay(Halt(DoAll(Suspend(s), o.mid)), o.late);
    var script := ServiceApply(s, o);
    assert script.moves == [Drain(o.drainTimeout, o.mid, o.late, o.settles)];
    assert script.moves[0].Drain? && script.moves[..0] == [];
    hide DoAll, Halt, Suspend, Quiet;
    assert PlayAll(s, script.moves) == Play(PlayAll(s, script.moves[..0]), script.moves[0]);
  }

  // ---------- three runs ----------

  /** A daemon with one run in flight. */
  const BUSY := State({"run"}, 1, false, false, true, [], {})

  /** An update whose drain times out on that run. */
  const TIMES_OUT := Outcomes(true, true, true, true, true, 1, [], [], false, true, true)

  lemma TimedOutDrainStillApplies()
    ensures ActiveRuns(BUSY, 1, [], [], false) == 0 && !ServiceApply(BUSY, TIMES_OUT).failed
    ensures Settled(BUSY, ServiceApply(BUSY, TIMES_OUT)).unsettled == 1
  {
    UpdateSwapsUnderLiveRuns(BUSY, TIMES_OUT, "v");
    assert Drained(BUSY, [], []) == Halt(Suspend(BUSY));
    var script := ServiceApply(BUSY, TIMES_OUT);
    assert script.moves == [Drain(1, [], [], false)] && script.moves[..0] == [];
    assert script.moves[0].Drain?;
    assert PlayAll(BUSY, script.moves) == Play(PlayAll(BUSY, script.moves[..0]), script.moves[0]);
  }

  /** An update that drains and then fails. */
  const ABORTS := Script([Drain(1, [], [], true)], true, [], [])

  /** After it a run cancelled by hand is kept for the next boot. */
  lemma AbortedUpdateKeepsTickets(v: string)
    ensures KeepsTicket(Cancelled, CheckAll(Begin(true), [Attempt(ABORTS, v)]).suspending)
  {
    assert ABORTS.moves[0].Drain?;
    assert HasDrained([Attempt(ABORTS, v)][0]);
    CancelledRunComesBackIff([Attempt(ABORTS, v)], Cancelled);
  }

  /** It also undoes the halt of an operator. */
  lemma AbortedUpdateUndoesHalt()
    ensures Halt(BUSY).halted && !Settled(Halt(BUSY), ABORTS).halted
  {
    assert ABORTS.moves[0].Drain?;
    AbortAlwaysResumes(Halt(BUSY), ABORTS);
  }
}
