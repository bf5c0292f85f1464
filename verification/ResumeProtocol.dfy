/** The resume protocol over any number of boots, with crashes anywhere and the daemon's
    other ticket writers interleaved (kernel/modules/runs/resume/resume_ops.go,
    kernel/runtime/resume.go, cmd/agezt/main_standing_resume.go). */
module ResumeProtocol {
  import opened Resumer

  /** The disk, the tickets the boot loop still has to handle, and the copies a shutdown took
      when it listed the tickets and has yet to write back as suspended. */
  datatype Daemon = Daemon(
    w: World, pending: seq<Ticket>, roster: map<string, Profile>, cap: int, copies: map<string, Ticket>)

  datatype Action =
    | Boot(ts: seq<Ticket>, roster: map<string, Profile>, cap: int)
    | HandleNext(f: Fate)
    | Die
    | Finalize(corr: string)                     // a run ended: its ticket is deleted
    | NewRun(t: Ticket)
    | Snapshot(corr: string, snapshot: seq<string>)
    | SuspendList                                // MarkSuspendedAll: the listing, outside the lock
    | SuspendWrite(corr: string)                 // MarkSuspendedAll: one ticket written back

  predicate Listed(ts: seq<Ticket>, corr: string) { exists i :: 0 <= i < |ts| && ts[i].corr == corr }

  ghost predicate Enabled(d: Daemon, a: Action) {
    match a
    case Boot(ts, _, _) => d.w.down && IsListing(d.w.live, ts)
    case HandleNext(_) => !d.w.down && d.pending != []
    case Die => !d.w.down
    case Finalize(_) => !d.w.down
    case NewRun(t) =>
      && !d.w.down && t.attempts == 0
      && t.corr !in d.w.live && t.corr !in d.w.sent && t.corr !in d.copies && !Listed(d.pending, t.corr)
    case Snapshot(_, _) => !d.w.down
    case SuspendList => !d.w.down
    case SuspendWrite(c) => !d.w.down && c in d.copies && !d.copies[c].suspended
  }

  ghost function Step(d: Daemon, a: Action): Daemon
    requires Enabled(d, a)
  {
    match a
    case Boot(ts, roster, cap) => Daemon(d.w.(down := false), ts, roster, cap, map[])
    case HandleNext(f) =>
      var w := Handle(d.w, d.pending[0], Judge(d.pending[0], d.roster, d.cap), f);
      if w.down then Daemon(w, [], d.roster, d.cap, map[]) else d.(w := w, pending := d.pending[1..])
    case Die => Daemon(d.w.(down := true), [], d.roster, d.cap, map[])
    case Finalize(c) => d.(w := d.w.(live := d.w.live - {c}))
    case NewRun(t) => d.(w := d.w.(live := d.w.live[t.corr := t]))
    case Snapshot(c, s) =>
      if c in d.w.live then d.(w := d.w.(live := d.w.live[c := d.w.live[c].(snapshot := s)])) else d
    case SuspendList => d.(copies := d.w.live)
    case SuspendWrite(c) =>
      d.(w := d.w.(live := d.w.live[c := d.copies[c].(suspended := true)]), copies := d.copies - {c})
  }

  ghost predicate Start(d: Daemon) {
    && d.w.down && d.w.sent == map[] && d.pending == [] && d.copies == map[]
    && KeyedByCorr(d.w.live) && forall c :: c in d.w.live ==> d.w.live[c].attempts >= 0
  }

  /** The daemon goes through `run`, one action at a time. */
  ghost predicate Path(run: seq<Daemon>, acts: seq<Action>) {
    && |run| == |acts| + 1
    && forall i :: 0 <= i < |acts| ==> Enabled(run[i], acts[i]) && run[i + 1] == Step(run[i], acts[i])
  }

  ghost predicate IsRun(run: seq<Daemon>, acts: seq<Action>) { Path(run, acts) && Start(run[0]) }

  ghost predicate CapsWithin(acts: seq<Action>, bound: nat) {
    forall i :: 0 <= i < |acts| && acts[i].Boot? ==> acts[i].cap <= bound
  }

  /** A shutdown writes back no ticket that was dispatched after it listed it. */
  ghost predicate NoStaleWrite(d: Daemon, a: Action) {
    a.SuspendWrite? && a.corr in d.copies ==> d.copies[a.corr].attempts >= Sent(d.w, a.corr)
  }

  /** What a shutdown can check before each write, holding the store's lock: the ticket is still
      there and has not been counted further than the copy. */
  ghost predicate Rechecked(d: Daemon, a: Action) {
    a.SuspendWrite? && a.corr in d.copies ==>
      a.corr in d.w.live && d.w.live[a.corr].attempts <= d.copies[a.corr].attempts
  }

  /** What runs do beside the boot loop: a new one leaves a fresh ticket, one under way stores where it is
      and nothing else of its ticket changes, one that ends takes its ticket away. */
  lemma RunSteps(d: Daemon, t: Ticket, c: string, at: seq<string>)
    requires !d.w.down
    ensures Enabled(d, NewRun(t)) ==> Step(d, NewRun(t)).w.live == d.w.live[t.corr := t] && t.attempts == 0
    ensures var w := Step(d, Snapshot(c, at)).w;
      && w.live.Keys == d.w.live.Keys
      && forall k :: k in d.w.live ==> w.live[k] == if k == c then d.w.live[k].(snapshot := at) else d.w.live[k]
    ensures forall k :: k in Step(d, Finalize(c)).w.live <==> k in d.w.live && k != c
  {}

  // ---------- the invariant ----------

  function Slack(racy: bool): nat { if racy then 1 else 0 }

  /** Every dispatch is on disk, except at most one for a ticket a racing shutdown rewound:
      such a ticket is marked suspended, and a suspended ticket is never rewound again. */
  ghost predicate Counted(w: World, racy: bool) {
    forall c :: c in w.live ==>
      w.live[c].corr == c && 0 <= w.live[c].attempts
      && Sent(w, c) <= w.live[c].attempts + if w.live[c].suspended then Slack(racy) else 0
  }

  ghost predicate Capped(w: World, bound: nat, racy: bool) {
    forall c :: c in w.sent ==> w.sent[c] <= bound + Slack(racy)
  }

  /** What was listed at boot is not behind the disk, nor behind a shutdown's copies. */
  ghost predicate ListIsAhead(d: Daemon) {
    && (forall i, j :: 0 <= i < j < |d.pending| ==> d.pending[i].corr != d.pending[j].corr)
    && (forall i :: 0 <= i < |d.pending| && d.pending[i].corr in d.w.live ==>
          NotBeyond(d.w.live[d.pending[i].corr], d.pending[i]))
    && (forall i :: 0 <= i < |d.pending| && d.pending[i].corr in d.copies ==>
          NotBeyond(d.copies[d.pending[i].corr], d.pending[i]))
  }

  predicate NotBeyond(t: Ticket, listed: Ticket) { t.attempts <= listed.attempts && t.resumable == listed.resumable }

  ghost predicate CopiesCounted(d: Daemon, racy: bool) {
    && (forall c :: c in d.copies ==> d.copies[c].corr == c && d.copies[c].attempts >= 0)
    && (racy ==> forall c :: c in d.copies && !d.copies[c].suspended ==>
          Sent(d.w, c) <= d.copies[c].attempts + if Listed(d.pending, c) then 0 else 1)
  }

  ghost predicate Inv(d: Daemon, bound: nat, racy: bool) {
    && Counted(d.w, racy) && Capped(d.w, bound, racy) && ListIsAhead(d) && CopiesCounted(d, racy)
    && (d.w.down || d.cap <= bound)
  }

  /** What handling one ticket can do to the tickets and the tally. */
  ghost predicate Changed(w: World, w': World, c: string, dispatchable: bool) {
    || (w'.live == w.live && w'.sent == w.sent)
    || (w'.live == w.live - {c} && w'.sent == w.sent)
    || (c in w.live && w'.live == Incremented(w, c).live && w'.sent == w.sent)
    || (c in w.live && dispatchable && w'.live == Incremented(w, c).live && w'.sent == w.sent[c := Sent(w, c) + 1])
  }

  lemma HandleChanges(w: World, t: Ticket, v: Verdict, f: Fate)
    ensures Changed(w, Handle(w, t, v, f), t.corr, v == Dispatch)
  {}

  lemma DispatchIsBelowCap(t: Ticket, roster: map<string, Profile>, cap: int)
    ensures Judge(t, roster, cap) == Dispatch ==> t.attempts < cap
  {}

  lemma TallyKept(d: Daemon, w: World, bound: nat, racy: bool)
    requires Inv(d, bound, racy) && !d.w.down && d.pending != []
    requires Changed(d.w, w, d.pending[0].corr, d.pending[0].attempts < d.cap)
    ensures Counted(w, racy) && Capped(w, bound, racy)
  {
    hide ListIsAhead, CopiesCounted, Counted, Capped;
    HeadIsNotBeyond(d);
    var c := d.pending[0].corr;
    CountedKept(d.w, w, c, d.pending[0].attempts < d.cap, racy);
    CappedKept(d.w, w, c, d.pending[0].attempts < d.cap, bound, racy);
  }

  lemma CountedKept(w: World, w': World, c: string, dispatched: bool, racy: bool)
    requires Counted(w, racy) && Changed(w, w', c, dispatched)
    ensures Counted(w', racy)
  {}

  lemma CappedKept(w: World, w': World, c: string, dispatched: bool, bound: nat, racy: bool)
    requires Counted(w, racy) && Capped(w, bound, racy) && Changed(w, w', c, dispatched)
    requires c in w.live && dispatched ==> w.live[c].attempts < bound
    ensures Capped(w', bound, racy)
  {}

  lemma HeadIsNotBeyond(d: Daemon)
    requires ListIsAhead(d) && d.pending != []
    ensures d.pending[0].corr in d.w.live ==> NotBeyond(d.w.live[d.pending[0].corr], d.pending[0])
  {
    var c := d.pending[0].corr;
    assert c in d.w.live ==> NotBeyond(d.w.live[c], d.pending[0]);
  }

  lemma ListKept(d: Daemon, w: World, bound: nat, racy: bool)
    requires Inv(d, bound, racy) && !d.w.down && d.pending != []
    requires Changed(d.w, w, d.pending[0].corr, d.pending[0].attempts < d.cap)
    ensures ListIsAhead(d.(w := w, pending := d.pending[1..]))
  {
    var c, rest := d.pending[0].corr, d.pending[1..];
    forall i | 0 <= i < |rest| ensures rest[i] == d.pending[i + 1] && rest[i].corr != c {}
  }

  lemma CopiesKept(d: Daemon, w: World, bound: nat, racy: bool)
    requires Inv(d, bound, racy) && !d.w.down && d.pending != []
    requires Changed(d.w, w, d.pending[0].corr, d.pending[0].attempts < d.cap)
    ensures CopiesCounted(d.(w := w, pending := d.pending[1..]), racy)
  {
    var c, rest := d.pending[0].corr, d.pending[1..];
    assert Listed(d.pending, c);
    forall k | k in d.copies && Listed(rest, k) ensures Listed(d.pending, k) && k != c {
      var i :| 0 <= i < |rest| && rest[i].corr == k;
      assert rest[i] == d.pending[i + 1];
    }
    forall k | k != c ensures Sent(w, k) == Sent(d.w, k) {}
    assert Sent(w, c) <= Sent(d.w, c) + 1;
  }

  lemma HandleKeepsInv(d: Daemon, f: Fate, bound: nat, racy: bool)
    requires Inv(d, bound, racy) && Enabled(d, HandleNext(f))
    ensures Inv(Step(d, HandleNext(f)), bound, racy)
  {
    hide Judge, Handle, Changed, Counted, Capped;
    var t, v := d.pending[0], Judge(d.pending[0], d.roster, d.cap);
    var w := Handle(d.w, t, v, f);
    HandleChanges(d.w, t, v, f);
    DispatchIsBelowCap(t, d.roster, d.cap);
    ChangedAllows(d.w, w, t.corr, v == Dispatch, t.attempts < d.cap);
    TallyKept(d, w, bound, racy);
    if w.down {
      assert Step(d, HandleNext(f)) == Daemon(w, [], d.roster, d.cap, map[]);
    } else {
      ListKept(d, w, bound, racy);
      CopiesKept(d, w, bound, racy);
      hide ListIsAhead, CopiesCounted;
    }
  }

  lemma ChangedAllows(w: World, w': World, c: string, may: bool, could: bool)
    requires Changed(w, w', c, may) && (may ==> could)
    ensures Changed(w, w', c, could)
  {}

  lemma StepKeepsInv(d: Daemon, a: Action, bound: nat, racy: bool)
    requires Inv(d, bound, racy) && Enabled(d, a) && (a.Boot? ==> a.cap <= bound)
    requires !racy ==> NoStaleWrite(d, a)
    ensures Inv(Step(d, a), bound, racy)
  {
    hide Inv, Step;
    match a
    case Boot(_, _, _) => BootKeepsInv(d, a, bound, racy);
    case HandleNext(f) => HandleKeepsInv(d, f, bound, racy);
    case SuspendList => SuspendListKeepsInv(d, bound, racy);
    case SuspendWrite(c) => SuspendWriteKeepsInv(d, c, bound, racy);
    case Snapshot(_, _) => SnapshotKeepsInv(d, a, bound, racy);
    case _ => OtherKeepsInv(d, a, bound, racy);
  }

  lemma BootKeepsInv(d: Daemon, a: Action, bound: nat, racy: bool)
    requires Inv(d, bound, racy) && a.Boot? && Enabled(d, a) && a.cap <= bound
    ensures Inv(Step(d, a), bound, racy)
  {
    assert forall i :: 0 <= i < |a.ts| ==> a.ts[i].corr in d.w.live;
  }

  lemma SuspendListKeepsInv(d: Daemon, bound: nat, racy: bool)
    requires Inv(d, bound, racy) && Enabled(d, SuspendList)
    ensures Inv(Step(d, SuspendList), bound, racy)
  {}

  lemma SuspendWriteKeepsInv(d: Daemon, c: string, bound: nat, racy: bool)
    requires Inv(d, bound, racy) && Enabled(d, SuspendWrite(c))
    requires !racy ==> NoStaleWrite(d, SuspendWrite(c))
    ensures Inv(Step(d, SuspendWrite(c)), bound, racy)
  {
    assert d.copies[c].corr == c;
  }

  lemma SnapshotKeepsInv(d: Daemon, a: Action, bound: nat, racy: bool)
    requires Inv(d, bound, racy) && a.Snapshot? && Enabled(d, a)
    ensures Inv(Step(d, a), bound, racy)
  {}

  lemma OtherKeepsInv(d: Daemon, a: Action, bound: nat, racy: bool)
    requires Inv(d, bound, racy) && (a.Die? || a.Finalize? || a.NewRun?) && Enabled(d, a)
    ensures Inv(Step(d, a), bound, racy)
  {}

  lemma {:induction false} PathKeepsInv(run: seq<Daemon>, acts: seq<Action>, n: nat, bound: nat, racy: bool)
    requires Path(run, acts) && n < |run| && CapsWithin(acts, bound) && Inv(run[0], bound, racy)
    requires !racy ==> forall i :: 0 <= i < n ==> NoStaleWrite(run[i], acts[i])
    ensures Inv(run[n], bound, racy)
  {
    if n > 0 {
      PathKeepsInv(run, acts, n - 1, bound, racy);
      StepKeepsInv(run[n - 1], acts[n - 1], bound, racy);
    }
  }

  lemma StartHasInv(d: Daemon, bound: nat, racy: bool)
    requires Start(d)
    ensures Inv(d, bound, racy)
  {}

  lemma RunKeepsInv(run: seq<Daemon>, acts: seq<Action>, n: nat, bound: nat, racy: bool)
    requires IsRun(run, acts) && n < |run| && CapsWithin(acts, bound)
    requires !racy ==> forall i :: 0 <= i < n ==> NoStaleWrite(run[i], acts[i])
    ensures Inv(run[n], bound, racy)
  {
    StartHasInv(run[0], bound, racy);
    PathKeepsInv(run, acts, n, bound, racy);
  }

  /** What a boot does to a ticket when its write succeeds. */
  lemma CleanHandleDoes(w: World, t: Ticket, fit: bool, v: Verdict)
    requires !w.down && t.corr in w.live && w.live[t.corr] == t && fit == (v == Dispatch)
    ensures var w' := Handle(w, t, v, Fate(Done, Spared));
      && !w'.down
      && w'.live == (if fit then w.live[t.corr := t.(attempts := t.attempts + 1)] else w.live - {t.corr})
      && w'.quarantined == (if fit then w.quarantined else w.quarantined + [t])
      && w'.sent == if fit then w.sent[t.corr := Sent(w, t.corr) + 1] else w.sent
  {}

  // ---------- the bounds ----------

  /** Whatever crashes and however the writers interleave, no ticket is dispatched more than
      once beyond the cap. */
  lemma DispatchesAreBounded(run: seq<Daemon>, acts: seq<Action>, n: nat, cap: nat, corr: string)
    requires IsRun(run, acts) && n < |run| && CapsWithin(acts, cap)
    ensures Sent(run[n].w, corr) <= cap + 1
  {
    RunKeepsInv(run, acts, n, cap, true);
  }

  lemma RecheckedIsNotStale(d: Daemon, a: Action, bound: nat)
    requires Inv(d, bound, false) && Rechecked(d, a)
    ensures NoStaleWrite(d, a)
  {}

  lemma {:induction false} RecheckedRunKeepsInv(run: seq<Daemon>, acts: seq<Action>, n: nat, bound: nat)
    requires IsRun(run, acts) && n < |run| && CapsWithin(acts, bound)
    requires forall i :: 0 <= i < n ==> Rechecked(run[i], acts[i])
    ensures Inv(run[n], bound, false)
  {
    if n > 0 {
      RecheckedRunKeepsInv(run, acts, n - 1, bound);
      RecheckedIsNotStale(run[n - 1], acts[n - 1], bound);
      StepKeepsInv(run[n - 1], acts[n - 1], bound, false);
    } else {
      StartHasInv(run[0], bound, false);
    }
  }

  /** The promised bound, the cap itself, holds if every write-back of a shutdown first looks
      again, under the lock, whether its copy is behind. */
  lemma DispatchesWithinCap(run: seq<Daemon>, acts: seq<Action>, n: nat, cap: nat, corr: string)
    requires IsRun(run, acts) && n < |run| && CapsWithin(acts, cap)
    requires forall i :: 0 <= i < n ==> Rechecked(run[i], acts[i])
    ensures Sent(run[n].w, corr) <= cap
  {
    RecheckedRunKeepsInv(run, acts, n, cap);
  }

  /** It holds, more generally, when no ticket is written back that was dispatched oftener than
      its copy says. */
  lemma FreshWritesKeepCap(run: seq<Daemon>, acts: seq<Action>, n: nat, cap: nat, corr: string)
    requires IsRun(run, acts) && n < |run| && CapsWithin(acts, cap)
    requires forall i :: 0 <= i < n ==> NoStaleWrite(run[i], acts[i])
    ensures Sent(run[n].w, corr) <= cap
  {
    RunKeepsInv(run, acts, n, cap, false);
  }
}
