/** The watchdog that keeps the daemon alive (cmd/agezt/watchdog.go): backoff, a sliding
    window of starts pruned in place, and the crash-loop guard. Clock readings, spawn and
    sleep outcomes are inputs. */
module Watchdog {
  import opened Common
  import opened Int64

  datatype Policy = Policy(baseDelay: int, maxDelay: int, resetUptime: int, crashWindow: int, maxCrashes: int)

  // ---------- backoff ----------

  function Pow2(n: nat): nat { if n == 0 then 1 else 2 * Pow2(n - 1) }

  /** `n` rounds of the doubling loop. */
  function Doubled(d: int, max: int, n: nat): int
    decreases n
  {
    if n == 0 then d
    else if Wrap(d * 2) >= max then max
    else Doubled(Wrap(d * 2), max, n - 1)
  }

  function Delay(p: Policy, consecutive: int): int {
    if consecutive <= 1 then p.baseDelay else Doubled(p.baseDelay, p.maxDelay, consecutive - 1)
  }

  method NextDelay(p: Policy, consecutive: int) returns (d: int)
    ensures d == Delay(p, consecutive)
  {
    if consecutive <= 1 {
      return p.baseDelay;
    }
    d := p.baseDelay;
    var i := 1;
    while i < consecutive
      invariant 1 <= i <= consecutive
      invariant Delay(p, consecutive) == Doubled(d, p.maxDelay, consecutive - i)
    {
      d := Wrap(d * 2);
      if d >= p.maxDelay {
        return p.maxDelay;
      }
      i := i + 1;
    }
  }

  /** base, 2 base, 4 base, ... up to the ceiling. */
  function Capped(base: int, max: int, doublings: nat): int {
    if base * Pow2(doublings) < max then base * Pow2(doublings) else max
  }

  /** No doubling the loop performs leaves the int64 range. */
  ghost predicate NeverWraps(d: int, max: int) {
    forall m: nat :: m == 0 || d * Pow2(m) < max ==> d * Pow2(m + 1) < TOP
  }

  lemma PowStep(d: int, n: nat)
    ensures d * Pow2(n + 1) == (2 * d) * Pow2(n)
    ensures d * Pow2(0) == d
  {}

  lemma PowDoubles(d: int, n: nat)
    ensures d * Pow2(n + 1) == 2 * (d * Pow2(n))
  {}

  lemma {:induction false} PowGrows(d: int, n: nat)
    requires d > 0
    ensures d * Pow2(n) >= d
  {
    if n > 0 {
      PowGrows(d, n - 1);
      assert d * Pow2(n) == 2 * (d * Pow2(n - 1));
    }
  }

  lemma TwiceNeverWraps(d: int, max: int)
    requires NeverWraps(d, max) && 0 < d && 2 * d < max
    ensures NeverWraps(2 * d, max)
  {
    forall m: nat | m == 0 || (2 * d) * Pow2(m) < max ensures (2 * d) * Pow2(m + 1) < TOP {
      PowStep(d, m);
      PowStep(d, m + 1);
      PowStep(d, 0);
      PowStep(2 * d, 0);
    }
  }

  lemma {:induction false} DoubledIsCapped(d: int, max: int, n: nat)
    requires 0 < d <= max < TOP && NeverWraps(d, max)
    ensures Doubled(d, max, n) == Capped(d, max, n)
    decreases n
  {
    PowStep(d, 0);
    if n > 0 {
      PowStep(d, n - 1);
      PowGrows(2 * d, n - 1);
      assert d * Pow2(0 + 1) < TOP;
      hide Pow2;
      if 2 * d < max {
        TwiceNeverWraps(d, max);
        hide NeverWraps;
        DoubledIsCapped(2 * d, max, n - 1);
      }
    }
  }

  lemma {:induction false} WrapShows(d: int, max: int, m: nat) returns (n: nat)
    requires 0 < d <= max < TOP && (m == 0 || d * Pow2(m) < max) && d * Pow2(m + 1) >= TOP
    ensures Doubled(d, max, n) < 0
    decreases m
  {
    PowStep(d, 0);
    PowStep(d, m);
    if 2 * d >= TOP {
      n := 1;
      assert Wrap(2 * d) == 2 * d - 2 * TOP;
      assert Doubled(d, max, 1) == Doubled(Wrap(d * 2), max, 0);
    } else {
      PowStep(2 * d, 0);
      assert m > 0;
      PowStep(d, m - 1);
      PowGrows(2 * d, m - 1);
      var k := WrapShows(2 * d, max, m - 1);
      n := k + 1;
    }
  }

  /** The delays are base, 2 base, 4 base, ... capped at the ceiling, for every count of
      failures, exactly when no doubling the loop makes overflows. */
  lemma BackoffIsCappedIff(p: Policy)
    requires 0 < p.baseDelay <= p.maxDelay < TOP
    ensures (forall n: nat :: Delay(p, n + 1) == Capped(p.baseDelay, p.maxDelay, n))
       <==> NeverWraps(p.baseDelay, p.maxDelay)
  {
    var d, max := p.baseDelay, p.maxDelay;
    forall n: nat ensures Delay(p, n + 1) == Doubled(d, max, n) {}
    if NeverWraps(d, max) {
      forall n: nat ensures Delay(p, n + 1) == Capped(d, max, n) { DoubledIsCapped(d, max, n); }
    } else {
      var m: nat :| (m == 0 || d * Pow2(m) < max) && d * Pow2(m + 1) >= TOP;
      var n := WrapShows(d, max, m);
      PowGrows(d, n);
      assert Delay(p, n + 1) < 0 < Capped(d, max, n);
    }
  }

  /** Up to a ceiling of 2^62 nothing overflows, unless base and ceiling both are 2^62: then the second
      failure in a row already gets a negative delay. */
  lemma ModestCeilingNeverWraps(p: Policy)
    requires 0 < p.baseDelay <= p.maxDelay <= TOP / 2
    ensures NeverWraps(p.baseDelay, p.maxDelay) <==> p.baseDelay < TOP / 2
    ensures p.baseDelay == TOP / 2 ==> Delay(p, 2) < 0
  {
    var d := p.baseDelay;
    PowStep(d, 0);
    PowDoubles(d, 0);
    forall m: nat | d * Pow2(m) < TOP / 2 ensures d * Pow2(m + 1) < TOP { PowDoubles(d, m); }
    hide Pow2;
    if d == TOP / 2 {
      assert Doubled(d, p.maxDelay, 1) == Doubled(Wrap(d * 2), p.maxDelay, 0);
      assert d * Pow2(0 + 1) == TOP;
    }
  }

  /** A base above the ceiling is waited once, and the ceiling from then on. */
  lemma BaseAboveCeiling(p: Policy, n: nat)
    requires 0 < p.maxDelay <= p.baseDelay < TOP / 2
    ensures Delay(p, n) == if n <= 1 then p.baseDelay else p.maxDelay
  {
    if n > 1 { assert Wrap(p.baseDelay * 2) == p.baseDelay * 2; }
  }

  /** More failures in a row never shorten the delay, and it stays within its bounds. */
  lemma BackoffIsMonotone(p: Policy, n: nat)
    requires 0 < p.baseDelay <= p.maxDelay < TOP && NeverWraps(p.baseDelay, p.maxDelay)
    ensures p.baseDelay <= Delay(p, n + 1) <= Delay(p, n + 2) <= p.maxDelay
  {
    BackoffIsCappedIff(p);
    PowGrows(p.baseDelay, n);
    PowDoubles(p.baseDelay, n);
    hide Delay, Pow2, NeverWraps;
    assert Delay(p, n + 1) == Capped(p.baseDelay, p.maxDelay, n);
    assert Delay(p, (n + 1) + 1) == Capped(p.baseDelay, p.maxDelay, n + 1);
  }

  // ---------- the sliding window ----------

  function After(cutoff: int): int -> bool { t => t > cutoff }

  lemma KeepsNothingOfNothing(cutoff: int)
    ensures Filter([], After(cutoff)) == []
  {}

  /** Filters the first `n` slots in place; returns how many stay. */
  method PruneOlderThan(ts: array<int>, n: nat, cutoff: int) returns (m: nat)
    requires n <= ts.Length
    modifies ts
    ensures m <= n && ts[..m] == Filter(old(ts[..n]), After(cutoff))
    ensures forall i :: n <= i < ts.Length ==> ts[i] == old(ts[i])
  {
    hide Filter;
    ghost var was := ts[..n];
    KeepsNothingOfNothing(cutoff);
    m := 0;
    var i := 0;
    while i < n
      invariant 0 <= m <= i <= n
      invariant ts[..m] == Filter(was[..i], After(cutoff))
      invariant forall k :: i <= k < ts.Length ==> ts[k] == old(ts[k])
    {
      assert was[..i + 1] == was[..i] + [was[i]] && ts[i] == was[i];
      FilterSnoc(was[..i], was[i], After(cutoff));
      if ts[i] > cutoff {
        ghost var kept := ts[..m];
        ts[m] := ts[i];
        assert ts[..m + 1] == kept + [was[i]];
        m := m + 1;
      }
      i := i + 1;
    }
    assert was[..n] == was;
  }

  /** What `recent` holds after these starts: each start prunes what it finds. */
  function Recent(starts: seq<int>, window: int): seq<int> {
    if starts == [] then []
    else
      var now := starts[|starts| - 1];
      Filter(Recent(starts[..|starts| - 1], window) + [now], After(now - window))
  }

  predicate ClockOrdered(starts: seq<int>) {
    forall i, j :: 0 <= i < j < |starts| ==> starts[i] <= starts[j]
  }

  lemma RecentSnoc(s: seq<int>, now: int, window: int)
    ensures Recent(s + [now], window) == Filter(Recent(s, window) + [now], After(now - window))
  {
    assert (s + [now])[..|s|] == s;
  }

  /** Pruning once more is pruning from scratch. */
  lemma PruneAgain(s: seq<int>, now: int, earlier: int, cutoff: int)
    requires earlier <= cutoff
    ensures Filter(Filter(s, After(earlier)) + [now], After(cutoff)) == Filter(s + [now], After(cutoff))
  {
    FilterSnoc(Filter(s, After(earlier)), now, After(cutoff));
    FilterSnoc(s, now, After(cutoff));
    FilterFilter(s, After(earlier), After(cutoff), After(cutoff));
  }

  /** Under a clock that never goes back, the pruned list is the filter of the whole history. */
  lemma {:induction false} RecentIsFilter(starts: seq<int>, window: int)
    requires ClockOrdered(starts) && starts != []
    ensures Recent(starts, window) == Filter(starts, After(starts[|starts| - 1] - window))
  {
    hide Filter, Recent;
    var s, now := starts[..|starts| - 1], starts[|starts| - 1];
    assert starts == s + [now];
    RecentSnoc(s, now, window);
    if s == [] {
      RecentOfNothing(window);
      assert [] + [now] == starts;
    } else {
      assert ClockOrdered(s) && s[|s| - 1] <= now;
      hide ClockOrdered;
      RecentIsFilter(s, window);
      PruneAgain(s, now, s[|s| - 1] - window, now - window);
    }
  }

  lemma RecentOfNothing(window: int)
    ensures Recent([], window) == []
  {}

  /** In an ordered list, what lies after a cutoff is as long as the index says. */
  lemma {:induction false} OrderedFilterLength(starts: seq<int>, cutoff: int, k: nat)
    requires ClockOrdered(starts) && k < |starts|
    ensures |Filter(starts, After(cutoff))| >= k + 1 <==> starts[|starts| - 1 - k] > cutoff
    decreases |starts|
  {
    var s, now := starts[..|starts| - 1], starts[|starts| - 1];
    assert starts == s + [now];
    if now > cutoff {
      if k > 0 {
        OrderedFilterLength(s, cutoff, k - 1);
      }
    } else {
      FilterNone(starts, After(cutoff));
    }
  }

  /** The guard trips exactly when one more start would put maxCrashes + 1 of them closer
      together than the window. */
  lemma GuardTripsIff(starts: seq<int>, p: Policy)
    requires ClockOrdered(starts) && starts != [] && p.maxCrashes >= 0
    ensures |Recent(starts, p.crashWindow)| > p.maxCrashes <==>
      |starts| > p.maxCrashes && starts[|starts| - 1] - starts[|starts| - 1 - p.maxCrashes] < p.crashWindow
  {
    var cutoff := starts[|starts| - 1] - p.crashWindow;
    RecentIsFilter(starts, p.crashWindow);
    if p.maxCrashes < |starts| {
      OrderedFilterLength(starts, cutoff, p.maxCrashes);
    } else {
      FilterMembers(starts, After(cutoff));
    }
  }

  // ---------- the loop ----------

  datatype Child = SpawnFails | KilledByCancel | Exits(at: int, wroteSentinel: bool)

  /** Whether removing the sentinel would work at the check, after the spawn and after the exit. */
  datatype Removals = Removals(atCheck: bool, atStart: bool, atExit: bool)

  /** One turn of the loop, as the world decides it: whether the context is already
      cancelled, the clock at the start, whether someone other than a child drops a sentinel
      first, what becomes of the child and of the best-effort removals, and whether the backoff
      sleep is cut short. */
  datatype Turn = Turn(
    cancelled: bool, start: int, dropped: bool, child: Child, removals: Removals, sleepCut: bool)

  /** Whether a turn that spawns leaves a sentinel behind, given that one did or did not lie there. */
  predicate Leaves(t: Turn, found: bool) {
    var kept := (found || t.dropped) && !t.removals.atCheck;
    match t.child
    case SpawnFails => kept
    case KilledByCancel => kept && !t.removals.atStart
    case Exits(_, wroteSentinel) => ((kept && !t.removals.atStart) || wroteSentinel) && !t.removals.atExit
  }

  datatype Status = Running | Stopped | GaveUp

  /** The supervisor between turns: accepted starts, the streak of quick failures, whether a
      sentinel lies on disk, and what each accepted start did. */
  datatype Sup = Sup(
    status: Status, starts: seq<int>, consecutive: int, sentinel: bool,
    resets: seq<bool>, delays: seq<int>)

  function Begin(sentinel: bool): Sup { Sup(Running, [], 0, sentinel, [], []) }

  function Next(p: Policy, s: Sup, t: Turn): Sup {
    if s.status != Running then s
    else if t.cancelled then s.(status := Stopped)
    else if |Recent(s.starts + [t.start], p.crashWindow)| > p.maxCrashes then s.(status := GaveUp)
    else
      var reset := s.sentinel || t.dropped;
      var streak := if reset then 0 else s.consecutive;
      var began := s.(starts := s.starts + [t.start], resets := s.resets + [reset], sentinel := Leaves(t, s.sentinel));
      match t.child
      case SpawnFails => Backoff(p, began.(consecutive := streak + 1), t.sleepCut)
      case KilledByCancel => began.(status := Stopped, consecutive := streak)
      case Exits(at, _) =>
        var streak' := if at - t.start >= p.resetUptime then 0 else streak;
        Backoff(p, began.(consecutive := streak' + 1), t.sleepCut)
  }

  function Backoff(p: Policy, s: Sup, sleepCut: bool): Sup {
    s.(delays := s.delays + [Delay(p, s.consecutive)], status := if sleepCut then Stopped else Running)
  }

  function Supervised(p: Policy, sentinel: bool, turns: seq<Turn>): Sup {
    if turns == [] then Begin(sentinel)
    else Next(p, Supervised(p, sentinel, turns[..|turns| - 1]), turns[|turns| - 1])
  }

  lemma {:induction false} OverIsOver(p: Policy, sentinel: bool, turns: seq<Turn>, n: nat)
    requires n <= |turns| && Supervised(p, sentinel, turns[..n]).status != Running
    ensures Supervised(p, sentinel, turns) == Supervised(p, sentinel, turns[..n])
    decreases |turns|
  {
    if n < |turns| {
      assert turns[..|turns| - 1][..n] == turns[..n];
      OverIsOver(p, sentinel, turns[..|turns| - 1], n);
    } else {
      assert turns[..n] == turns;
    }
  }

  /** A turn that starts nothing ends the loop or finds it over; one that starts the daemon
      passed the guard. */
  predicate NoStart(s: Sup, s': Sup) {
    && s'.status != Running && s'.starts == s.starts && s'.resets == s.resets
    && s'.delays == s.delays && s'.sentinel == s.sentinel
  }

  predicate Started(p: Policy, s: Sup, t: Turn, s': Sup) {
    && s.status == Running && s'.starts == s.starts + [t.start]
    && |Recent(s'.starts, p.crashWindow)| <= p.maxCrashes
    && s'.resets == s.resets + [s.sentinel || t.dropped] && s'.sentinel == Leaves(t, s.sentinel)
    && (s'.delays == s.delays + [Delay(p, s'.consecutive)] || (s'.delays == s.delays && s'.status == Stopped))
  }

  lemma NextStartsOrNot(p: Policy, s: Sup, t: Turn)
    ensures NoStart(s, Next(p, s, t)) || Started(p, s, t, Next(p, s, t))
    ensures s.status == Running && !t.cancelled ==>
      (Next(p, s, t).status == GaveUp <==> |Recent(s.starts + [t.start], p.crashWindow)| > p.maxCrashes)
  {
    hide Recent, Delay;
  }

  /** The state at turn `i` of the loop, with `recent` spelled out. */
  method SuperviseLoop(p: Policy, sentinelAtStart: bool, turns: seq<Turn>) returns (s: Sup)
    ensures s == Supervised(p, sentinelAtStart, turns)
  {
    hide Recent, Filter, Delay, Next;
    var recent := new int[|turns|](_ => 0);
    var len, i := 0, 0;
    s := Begin(sentinelAtStart);
    RecentOfNothing(p.crashWindow);
    while i < |turns|
      invariant 0 <= len <= i <= |turns|
      invariant s == Supervised(p, sentinelAtStart, turns[..i]) && s.status == Running
      invariant recent[..len] == Recent(s.starts, p.crashWindow)
    {
      assert turns[..i + 1][..i] == turns[..i];
      s, len := OneTurn(p, s, turns[i], recent, len);
      i := i + 1;
      if s.status != Running {
        OverIsOver(p, sentinelAtStart, turns, i);
        return;
      }
    }
    assert turns[..i] == turns;
  }

  /** The body of the loop: `recent[..len]` is pruned in place, the rest are variables. */
  method OneTurn(p: Policy, before: Sup, t: Turn, recent: array<int>, held: nat) returns (after: Sup, len: nat)
    requires before.status == Running && held < recent.Length
    requires recent[..held] == Recent(before.starts, p.crashWindow)
    modifies recent
    ensures after == Next(p, before, t)
    ensures len <= held + 1 && (after.status == Running ==> recent[..len] == Recent(after.starts, p.crashWindow))
  {
    hide Filter, Recent, Delay;
    len := held;
    if t.cancelled {
      return before.(status := Stopped), len;
    }
    ghost var was := recent[..held];
    recent[held] := t.start;
    assert recent[..held + 1] == was + [t.start];
    RecentSnoc(before.starts, t.start, p.crashWindow);
    len := PruneOlderThan(recent, held + 1, t.start - p.crashWindow);
    if len > p.maxCrashes {
      return before.(status := GaveUp), len;
    }
    var starts, consecutive, sentinel := before.starts + [t.start], before.consecutive, before.sentinel || t.dropped;
    var resets := before.resets + [sentinel];
    if sentinel {
      consecutive := 0;
      sentinel := !t.removals.atCheck;
    }
    if t.child.SpawnFails? {
      consecutive := consecutive + 1;
    } else {
      sentinel := sentinel && !t.removals.atStart;
      if t.child.KilledByCancel? {
        return Sup(Stopped, starts, consecutive, sentinel, resets, before.delays), len;
      }
      sentinel := sentinel || t.child.wroteSentinel;
      if t.child.at - t.start >= p.resetUptime {
        consecutive := 0;
      }
      sentinel := sentinel && !t.removals.atExit;
      consecutive := consecutive + 1;
    }
    var delay := NextDelay(p, consecutive);
    var status := if t.sleepCut then Stopped else Running;
    after := Sup(status, starts, consecutive, sentinel, resets, before.delays + [delay]);
  }

  // ---------- what the loop guarantees ----------

  /** The accepted starts are the clock readings of the first turns, one each. */
  predicate ReadingsOf(s: Sup, turns: seq<Turn>) {
    && |s.resets| == |s.starts| <= |turns| && |s.delays| <= |s.starts|
    && (s.status == Running ==> |s.starts| == |turns| == |s.delays|)
    && forall i :: 0 <= i < |s.starts| ==> s.starts[i] == turns[i].start
  }

  lemma ReadingsStep(p: Policy, s: Sup, turns: seq<Turn>, t: Turn)
    requires ReadingsOf(s, turns)
    ensures ReadingsOf(Next(p, s, t), turns + [t])
  {
    NextStartsOrNot(p, s, t);
    hide Next, Recent, Delay, Leaves;
    assert forall i :: 0 <= i < |turns| ==> (turns + [t])[i] == turns[i];
  }

  lemma {:induction false} StartsAreReadings(p: Policy, sentinel: bool, turns: seq<Turn>)
    ensures ReadingsOf(Supervised(p, sentinel, turns), turns)
  {
    hide Next;
    if turns != [] {
      var rest, t := turns[..|turns| - 1], turns[|turns| - 1];
      assert turns == rest + [t];
      StartsAreReadings(p, sentinel, rest);
      ReadingsStep(p, Supervised(p, sentinel, rest), rest, t);
      hide ReadingsOf;
    }
  }

  predicate ReadingsOrdered(turns: seq<Turn>) {
    forall i, j :: 0 <= i < j < |turns| ==> turns[i].start <= turns[j].start
  }

  lemma StartsGrow(p: Policy, s: Sup, t: Turn)
    ensures Next(p, s, t).starts == s.starts
         || (Next(p, s, t).starts == s.starts + [t.start]
             && |Recent(s.starts + [t.start], p.crashWindow)| <= p.maxCrashes)
  {
    hide Next, Recent, Delay;
    NextStartsOrNot(p, s, t);
  }

  /** Every start left the window with at most maxCrashes. */
  ghost predicate PassedGuard(p: Policy, starts: seq<int>) {
    forall some: seq<int> :: some <= starts && some != [] ==> |Recent(some, p.crashWindow)| <= p.maxCrashes
  }

  lemma PassedGuardSnoc(p: Policy, starts: seq<int>, now: int)
    requires PassedGuard(p, starts) && |Recent(starts + [now], p.crashWindow)| <= p.maxCrashes
    ensures PassedGuard(p, starts + [now])
  {
    hide Recent;
    var more := starts + [now];
    forall some: seq<int> | some <= more && some != [] ensures |Recent(some, p.crashWindow)| <= p.maxCrashes {
      if |some| <= |starts| { assert some <= starts; } else { assert some == more; }
    }
  }

  lemma {:induction false} EveryStartPassedGuard(p: Policy, sentinel: bool, turns: seq<Turn>)
    ensures PassedGuard(p, Supervised(p, sentinel, turns).starts)
  {
    hide Recent;
    if turns != [] {
      var rest, t := turns[..|turns| - 1], turns[|turns| - 1];
      EveryStartPassedGuard(p, sentinel, rest);
      var before := Supervised(p, sentinel, rest);
      StartsGrow(p, before, t);
      hide Next, PassedGuard;
      if Next(p, before, t).starts != before.starts { PassedGuardSnoc(p, before.starts, t.start); }
    }
  }

  /** No run of the watchdog spawns maxCrashes + 1 times within less than the window. */
  lemma SpawnsAreSpaced(p: Policy, sentinel: bool, turns: seq<Turn>, k: nat)
    requires ReadingsOrdered(turns) && p.maxCrashes >= 0
    requires k + p.maxCrashes < |Supervised(p, sentinel, turns).starts|
    ensures var starts := Supervised(p, sentinel, turns).starts;
      starts[k + p.maxCrashes] - starts[k] >= p.crashWindow
  {
    hide Recent, Supervised;
    var starts := Supervised(p, sentinel, turns).starts;
    StartsAreReadings(p, sentinel, turns);
    var some := starts[..k + p.maxCrashes + 1];
    EveryStartPassedGuard(p, sentinel, turns);
    assert ClockOrdered(some);
    GuardTripsIff(some, p);
  }

  /** It gives up on a turn exactly when that start would break the spacing. */
  lemma GivesUpIff(p: Policy, sentinel: bool, turns: seq<Turn>, t: Turn)
    requires ReadingsOrdered(turns + [t]) && p.maxCrashes >= 0
    requires Supervised(p, sentinel, turns).status == Running && !t.cancelled
    ensures var starts := Supervised(p, sentinel, turns).starts;
      Supervised(p, sentinel, turns + [t]).status == GaveUp <==>
        |starts| >= p.maxCrashes
        && t.start - (starts + [t.start])[|starts| - p.maxCrashes] < p.crashWindow
  {
    hide Recent, Next, Supervised;
    SupervisedSnoc(p, sentinel, turns, t);
    var s := Supervised(p, sentinel, turns);
    StartsAreReadings(p, sentinel, turns);
    NextStartsOrNot(p, s, t);
    assert forall i :: 0 <= i < |turns| ==> turns[i] == (turns + [t])[i];
    assert (turns + [t])[|turns|] == t;
    assert ClockOrdered(s.starts + [t.start]);
    GuardTripsIff(s.starts + [t.start], p);
  }

  /** The start is spaced as the guard asks. */
  predicate Admitted(p: Policy, starts: seq<int>, now: int)
    requires p.maxCrashes >= 0
  {
    |starts| >= p.maxCrashes ==> now - (starts + [now])[|starts| - p.maxCrashes] >= p.crashWindow
  }

  /** It goes on exactly after an admitted start that was neither killed by the cancellation nor had its
      backoff sleep cut short, whether the spawn failed or the child exited, early or late; and it stops
      exactly when cancelled: before the start, in the child, or in the sleep. Every admitted start is
      recorded, and waits its delay unless the cancellation killed the child. */
  lemma GoesOnIff(p: Policy, sentinel: bool, turns: seq<Turn>, t: Turn)
    requires ReadingsOrdered(turns + [t]) && p.maxCrashes >= 0
    requires Supervised(p, sentinel, turns).status == Running
    ensures var s, s' := Supervised(p, sentinel, turns), Supervised(p, sentinel, turns + [t]);
      var starts := !t.cancelled && Admitted(p, s.starts, t.start);
      && (s'.status == Running <==> starts && !t.child.KilledByCancel? && !t.sleepCut)
      && (s'.status == Stopped <==> t.cancelled || (starts && (t.child.KilledByCancel? || t.sleepCut)))
      && s'.starts == (if starts then s.starts + [t.start] else s.starts)
      && |s'.delays| == |s.delays| + if starts && !t.child.KilledByCancel? then 1 else 0
  {
    hide Supervised, ReadingsOrdered;
    var s := Supervised(p, sentinel, turns);
    SupervisedSnoc(p, sentinel, turns, t);
    NextGoesOn(p, s, t);
    if !t.cancelled { GivesUpIff(p, sentinel, turns, t); }
    hide Next;
  }

  lemma NextGoesOn(p: Policy, s: Sup, t: Turn)
    requires s.status == Running
    ensures var s' := Next(p, s, t);
      var starts := !t.cancelled && s'.status != GaveUp;
      && (s'.status == Running <==> starts && !t.child.KilledByCancel? && !t.sleepCut)
      && s'.starts == (if starts then s.starts + [t.start] else s.starts)
      && |s'.delays| == |s.delays| + if starts && !t.child.KilledByCancel? then 1 else 0
  {
    hide Recent, Delay, Leaves;
  }

  lemma SupervisedSnoc(p: Policy, sentinel: bool, turns: seq<Turn>, t: Turn)
    ensures Supervised(p, sentinel, turns + [t]) == Next(p, Supervised(p, sentinel, turns), t)
  {
    assert (turns + [t])[..|turns|] == turns;
  }

  // ---------- a healthy daemon ----------

  predicate IsLongRun(p: Policy, t: Turn) {
    !t.cancelled && !t.sleepCut && t.child.Exits? && t.child.at - t.start >= p.resetUptime
  }

  /** Every turn spawns, runs at least resetUptime, and the next one starts no earlier than
      the exit plus the base delay. */
  predicate Healthy(p: Policy, turns: seq<Turn>) {
    && (forall i :: 0 <= i < |turns| ==> IsLongRun(p, turns[i]))
    && forall i :: 0 < i < |turns| ==> turns[i].start >= turns[i - 1].child.at + p.baseDelay
  }

  lemma {:induction false} HealthyStarts(p: Policy, turns: seq<Turn>, i: nat, j: nat)
    requires Healthy(p, turns) && i <= j < |turns|
    ensures turns[j].start - turns[i].start >= (j - i) * (p.resetUptime + p.baseDelay)
    decreases j
  {
    if i < j {
      HealthyStarts(p, turns, i, j - 1);
      var step := p.resetUptime + p.baseDelay;
      assert (j - i) * step == (j - 1 - i) * step + step;
    }
  }

  /** A daemon that always stays up long enough waits the base delay every time and never
      trips the guard, if that many long runs do not fit into the window. */
  lemma {:induction false} HealthyDaemonIsNeverAbandoned(p: Policy, sentinel: bool, turns: seq<Turn>)
    requires Healthy(p, turns) && p.maxCrashes >= 0 && p.resetUptime + p.baseDelay >= 0
    requires p.maxCrashes * (p.resetUptime + p.baseDelay) >= p.crashWindow
    ensures var s := Supervised(p, sentinel, turns);
      s.status == Running && forall i :: 0 <= i < |s.delays| ==> s.delays[i] == p.baseDelay
  {
    if turns != [] {
      var rest, t := turns[..|turns| - 1], turns[|turns| - 1];
      assert turns == rest + [t];
      HealthyDaemonIsNeverAbandoned(p, sentinel, rest);
      LongRunIsNotAbandoned(p, sentinel, rest, t);
      LongRunWaitsBase(p, Supervised(p, sentinel, rest), t);
      hide Recent, Delay, Next;
    }
  }

  lemma LongRunIsNotAbandoned(p: Policy, sentinel: bool, turns: seq<Turn>, t: Turn)
    requires Healthy(p, turns + [t]) && p.maxCrashes >= 0 && p.resetUptime + p.baseDelay >= 0
    requires p.maxCrashes * (p.resetUptime + p.baseDelay) >= p.crashWindow
    requires Supervised(p, sentinel, turns).status == Running
    ensures Next(p, Supervised(p, sentinel, turns), t).status != GaveUp
  {
    hide Next, Recent, Delay, Supervised;
    var all, n := turns + [t], |turns|;
    HealthyReadingsOrdered(p, all);
    StartsAreReadings(p, sentinel, turns);
    assert all[n] == t && IsLongRun(p, all[n]);
    var starts := Supervised(p, sentinel, turns).starts;
    assert forall i :: 0 <= i < n ==> starts[i] == all[i].start;
    if n >= p.maxCrashes {
      HealthyStarts(p, all, n - p.maxCrashes, n);
      assert (starts + [t.start])[n - p.maxCrashes] == all[n - p.maxCrashes].start;
    }
    GivesUpIff(p, sentinel, turns, t);
    SupervisedSnoc(p, sentinel, turns, t);
  }

  lemma HealthyReadingsOrdered(p: Policy, turns: seq<Turn>)
    requires Healthy(p, turns) && p.resetUptime + p.baseDelay >= 0
    ensures ReadingsOrdered(turns)
  {
    forall i, j | 0 <= i < j < |turns| ensures turns[i].start <= turns[j].start {
      HealthyStarts(p, turns, i, j);
      NotNegative(j - i, p.resetUptime + p.baseDelay);
    }
  }

  lemma NotNegative(n: nat, step: int)
    requires step >= 0
    ensures n * step >= 0
  {}

  lemma LongRunWaitsBase(p: Policy, s: Sup, t: Turn)
    requires s.status == Running && IsLongRun(p, t) && Next(p, s, t).status != GaveUp
    ensures Next(p, s, t).status == Running && Next(p, s, t).delays == s.delays + [p.baseDelay]
  {
    hide Recent;
  }

  // ---------- the update sentinel ----------

  /** Whether a sentinel lies there after these turns. */
  predicate Lies(sentinel: bool, turns: seq<Turn>) {
    if turns == [] then sentinel else Leaves(turns[|turns| - 1], Lies(sentinel, turns[..|turns| - 1]))
  }

  /** The reset branch acts at a turn exactly when somebody other than a child dropped a sentinel, or
      one was left lying by the turns before. */
  lemma {:induction false} ResetIff(p: Policy, sentinel: bool, turns: seq<Turn>, k: nat)
    requires k < |Supervised(p, sentinel, turns).resets| && k < |turns|
    ensures Supervised(p, sentinel, turns).resets[k] <==> turns[k].dropped || Lies(sentinel, turns[..k])
  {
    hide Next, Supervised, Lies;
    NothingReset(p, sentinel);
    if turns != [] {
      var rest, t := turns[..|turns| - 1], turns[|turns| - 1];
      assert turns == rest + [t] && rest[..k] == turns[..k];
      SupervisedSnoc(p, sentinel, rest, t);
      StartsAreReadings(p, sentinel, rest);
      NextResets(p, Supervised(p, sentinel, rest), t);
      if k < |Supervised(p, sentinel, rest).resets| {
        ResetIff(p, sentinel, rest, k);
      } else {
        SentinelLies(p, sentinel, rest);
        assert rest == turns[..k];
      }
    }
  }

  lemma NothingReset(p: Policy, sentinel: bool)
    ensures Supervised(p, sentinel, []).resets == []
  {}

  lemma NextResets(p: Policy, s: Sup, t: Turn)
    ensures var s' := Next(p, s, t);
      s'.resets == s.resets || (s.status == Running && s'.resets == s.resets + [s.sentinel || t.dropped])
  {
    NextStartsOrNot(p, s, t);
    hide Next, Recent, Delay, Leaves;
  }

  /** What happens to the sentinel in a turn that spawns, in order. */
  datatype FileOp = Put | Remove(works: bool)

  function SentinelOps(t: Turn): seq<FileOp> {
    (if t.dropped then [Put] else []) + [Remove(t.removals.atCheck)]
    + match t.child
      case SpawnFails => []
      case KilledByCancel => [Remove(t.removals.atStart)]
      case Exits(_, wroteSentinel) =>
        [Remove(t.removals.atStart)] + (if wroteSentinel then [Put] else []) + [Remove(t.removals.atExit)]
  }

  function AllOps(turns: seq<Turn>): seq<FileOp> {
    if turns == [] then [] else AllOps(turns[..|turns| - 1]) + SentinelOps(turns[|turns| - 1])
  }

  /** No removal from the i-th operation on works. */
  predicate NotRemoved(ops: seq<FileOp>, i: nat) {
    forall k :: i <= k < |ops| ==> ops[k] != Remove(true)
  }

  /** It was there, or was put there, and no removal since has worked. */
  predicate StillThere(found: bool, ops: seq<FileOp>) {
    (found && NotRemoved(ops, 0)) || exists i :: 0 <= i < |ops| && ops[i] == Put && NotRemoved(ops, i)
  }

  lemma StillThereSnoc(found: bool, ops: seq<FileOp>, op: FileOp)
    ensures StillThere(found, ops + [op]) <==> op == Put || (StillThere(found, ops) && op != Remove(true))
  {
    var all := ops + [op];
    assert all[|ops|] == op && forall i :: 0 <= i < |ops| ==> all[i] == ops[i];
    forall i | 0 <= i <= |ops| ensures NotRemoved(all, i) <==> NotRemoved(ops, i) && op != Remove(true) {}
    hide NotRemoved;
  }

  lemma {:induction false} StillThereConcat(found: bool, a: seq<FileOp>, b: seq<FileOp>)
    ensures StillThere(found, a + b) <==> StillThere(StillThere(found, a), b)
  {
    if b == [] {
      assert a + b == a;
    } else {
      var b', op := b[..|b| - 1], b[|b| - 1];
      assert b == b' + [op] && a + b == (a + b') + [op];
      StillThereConcat(found, a, b');
      StillThereSnoc(found, a + b', op);
      StillThereSnoc(StillThere(found, a), b', op);
    }
  }

  lemma LeavesIff(t: Turn, found: bool)
    ensures Leaves(t, found) <==> StillThere(found, SentinelOps(t))
  {
    hide StillThere;
    var check := (if t.dropped then [Put] else []) + [Remove(t.removals.atCheck)];
    AfterOne(found, Put);
    AfterOne(found || t.dropped, Remove(t.removals.atCheck));
    NothingDone(found);
    StillThereConcat(found, if t.dropped then [Put] else [], [Remove(t.removals.atCheck)]);
    var kept := StillThere(found, check);
    NothingDone(kept);
    if !t.child.SpawnFails? {
      AfterOne(kept, Remove(t.removals.atStart));
      var started := StillThere(kept, [Remove(t.removals.atStart)]);
      StillThereConcat(found, check, [Remove(t.removals.atStart)]);
      if t.child.Exits? {
        var wrote := if t.child.wroteSentinel then [Put] else [];
        NothingDone(started);
        AfterOne(started, Put);
        StillThereConcat(kept, [Remove(t.removals.atStart)], wrote);
        StillThereConcat(kept, [Remove(t.removals.atStart)] + wrote, [Remove(t.removals.atExit)]);
        AfterOne(started || t.child.wroteSentinel, Remove(t.removals.atExit));
        StillThereConcat(found, check, [Remove(t.removals.atStart)] + wrote + [Remove(t.removals.atExit)]);
      }
    } else {
      assert check + [] == check;
    }
  }

  lemma AfterOne(found: bool, op: FileOp)
    ensures StillThere(found, [op]) <==> op == Put || (found && op != Remove(true))
  {
    NothingDone(found);
    StillThereSnoc(found, [], op);
    assert [] + [op] == [op];
    hide StillThere;
  }

  lemma NothingDone(found: bool)
    ensures StillThere(found, []) <==> found
  {}

  /** A sentinel lies there exactly if it was there or was put there, by hand or by a child, and no
      removal since has worked. */
  lemma {:induction false} LiesIff(sentinel: bool, turns: seq<Turn>)
    ensures Lies(sentinel, turns) <==> StillThere(sentinel, AllOps(turns))
  {
    hide StillThere, Leaves, SentinelOps;
    if turns == [] {
      NothingDone(sentinel);
    } else {
      var rest, t := turns[..|turns| - 1], turns[|turns| - 1];
      LiesIff(sentinel, rest);
      LeavesIff(t, Lies(sentinel, rest));
      StillThereConcat(sentinel, AllOps(rest), SentinelOps(t));
    }
  }

  lemma {:induction false} SentinelLies(p: Policy, sentinel: bool, turns: seq<Turn>)
    ensures var s := Supervised(p, sentinel, turns);
      |s.starts| == |turns| ==> s.sentinel == Lies(sentinel, turns)
  {
    hide Next, Recent, Delay, Leaves;
    if turns != [] {
      StartsAreReadings(p, sentinel, turns[..|turns| - 1]);
      SentinelLies(p, sentinel, turns[..|turns| - 1]);
      NextStartsOrNot(p, Supervised(p, sentinel, turns[..|turns| - 1]), turns[|turns| - 1]);
    }
  }

  /** The last removal a turn tries works. */
  predicate RemovalWorks(t: Turn) {
    match t.child
    case SpawnFails => t.removals.atCheck
    case KilledByCancel => t.removals.atStart
    case Exits(_, _) => t.removals.atExit
  }

  /** The comments promise that an update exit resets the streak. It does not: the sentinel a child
      leaves is removed at its exit, before the next check. While removing works, the reset branch acts
      exactly when somebody else dropped a sentinel, or, at the first turn, one was lying there. */
  lemma UpdateExitNeverResets(p: Policy, sentinel: bool, turns: seq<Turn>, k: nat)
    requires k < |Supervised(p, sentinel, turns).resets| && k < |turns|
    requires forall i :: 0 <= i < k ==> RemovalWorks(turns[i])
    ensures Supervised(p, sentinel, turns).resets[k] <==> turns[k].dropped || (k == 0 && sentinel)
  {
    hide Supervised;
    ResetIff(p, sentinel, turns, k);
    if k > 0 {
      assert turns[..k][|turns[..k]| - 1] == turns[k - 1] && RemovalWorks(turns[k - 1]);
    }
  }

  /** A daemon that exits for an update in its first second, and the turn that follows. */
  function AfterUpdate(): seq<Turn> {
    var works := Removals(true, true, true);
    [Turn(false, 0, false, Exits(1, true), works, false), Turn(false, 2, false, Exits(3, false), works, false)]
  }

  const QUICK := Policy(1, 60, 100, 600, 5)

  lemma FirstTurn()
    ensures Next(QUICK, Begin(false), AfterUpdate()[0]) == Sup(Running, [0], 1, false, [false], [1])
  {
    OneStart(600);
    hide Recent;
    assert [] + [0] == [0];
  }

  lemma SecondTurn()
    ensures Next(QUICK, Sup(Running, [0], 1, false, [false], [1]), AfterUpdate()[1])
         == Sup(Running, [0, 2], 2, false, [false, false], [1, 2])
  {
    TwoStarts(600);
    hide Recent;
    assert [0] + [2] == [0, 2];
    assert Delay(QUICK, 2) == 2;
  }

  /** The second start is not taken for an update restart; the delays go on doubling. */
  lemma UpdateExitCountsAsFailure()
    ensures Supervised(QUICK, false, AfterUpdate()) == Sup(Running, [0, 2], 2, false, [false, false], [1, 2])
  {
    var turns := AfterUpdate();
    FirstTurn();
    SecondTurn();
    assert turns[..1] == [turns[0]] && turns[..1][..0] == [];
    hide Next;
  }

  lemma OneStart(window: int)
    requires window > 0
    ensures Recent([0], window) == [0]
  {
    RecentSnoc([], 0, window);
    RecentOfNothing(window);
    FilterAll([0], After(-window));
    assert [] + [0] == [0];
  }

  lemma TwoStarts(window: int)
    requires window > 2
    ensures Recent([0, 2], window) == [0, 2]
  {
    OneStart(window);
    RecentSnoc([0], 2, window);
    FilterAll([0, 2], After(2 - window));
    assert [0] + [2] == [0, 2];
  }

  // ---------- what the delay counts ----------

  /** A turn that forgets the failures before it: it ran long enough, or the reset branch acted. */
  predicate Forgets(p: Policy, t: Turn, reset: bool) {
    reset || (t.child.Exits? && t.child.at - t.start >= p.resetUptime)
  }

  lemma NextCounts(p: Policy, s: Sup, t: Turn)
    requires |Next(p, s, t).delays| > |s.delays|
    ensures s.status == Running && |Next(p, s, t).delays| == |s.delays| + 1
    ensures var reset := s.sentinel || t.dropped;
      && Next(p, s, t).resets == s.resets + [reset]
      && Next(p, s, t).consecutive == if Forgets(p, t, reset) then 1 else s.consecutive + 1
    ensures Next(p, s, t).delays == s.delays + [Delay(p, Next(p, s, t).consecutive)]
  {
    hide Recent, Delay, Leaves;
  }

  /** Turn `j` forgets, or is the first, and no turn after it does. */
  ghost predicate ForgetsLastAt(p: Policy, turns: seq<Turn>, resets: seq<bool>, j: nat) {
    && j < |turns| == |resets|
    && (j == 0 || Forgets(p, turns[j], resets[j]))
    && forall m :: j < m < |turns| ==> !Forgets(p, turns[m], resets[m])
  }

  lemma ForgetsShorter(p: Policy, turns: seq<Turn>, t: Turn, resets: seq<bool>, reset: bool, j: nat)
    requires ForgetsLastAt(p, turns + [t], resets + [reset], j) && |turns| == |resets|
    ensures j < |turns| ==> ForgetsLastAt(p, turns, resets, j) && !Forgets(p, t, reset)
    ensures j == |turns| > 0 ==> Forgets(p, t, reset)
  {
    hide Forgets;
    var all, marks := turns + [t], resets + [reset];
    assert all[|turns|] == t && marks[|turns|] == reset;
    forall m | 0 <= m < |turns| ensures all[m] == turns[m] && marks[m] == resets[m] {}
  }

  /** Every turn's delay is the backoff for the turns since the last one that forgets, that one
      included: failures to spawn count like short runs. */
  lemma {:induction false} DelayCountsFailures(p: Policy, sentinel: bool, turns: seq<Turn>, j: nat)
    requires |Supervised(p, sentinel, turns).delays| == |turns|
    requires ForgetsLastAt(p, turns, Supervised(p, sentinel, turns).resets, j)
    ensures var s := Supervised(p, sentinel, turns);
      s.consecutive == |turns| - j && s.delays[|turns| - 1] == Delay(p, |turns| - j)
  {
    hide Next, Recent, Delay, Supervised, Forgets;
    var rest, t := turns[..|turns| - 1], turns[|turns| - 1];
    assert turns == rest + [t];
    SupervisedSnoc(p, sentinel, rest, t);
    var before := Supervised(p, sentinel, rest);
    StartsAreReadings(p, sentinel, rest);
    NextCounts(p, before, t);
    ForgetsShorter(p, rest, t, before.resets, before.sentinel || t.dropped, j);
    hide ForgetsLastAt;
    if j < |rest| {
      DelayCountsFailures(p, sentinel, rest, j);
    } else if j == 0 {
      NoTurnsNoStreak(p, sentinel);
      assert rest == [];
    }
  }

  lemma NoTurnsNoStreak(p: Policy, sentinel: bool)
    ensures Supervised(p, sentinel, []).consecutive == 0
  {}
}
