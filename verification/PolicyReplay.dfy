/** Boot replay with compaction (cmd/agezt/main_overlay.go; kernel/app/edict/overlay.go).

    The snapshot file is a cache. It must never change what a boot computes: not when a
    compaction dies between its two writes, not when the file is replaced by anything else.
    As in `EventChain`, the content hash is an arbitrary function; a wrong answer is only
    possible with two different snapshots that hash alike. */
module PolicyReplay {
  import opened Common
  import opened Text
  import opened PolicyOverlay

  datatype Snapshot = Snapshot(throughSeq: int, changes: seq<Change>)

  type ContentHash = Snapshot -> string

  /** A journal event as the replay sees it; its seq is its index. */
  datatype Entry = Changed(ch: Change) | Compacted(hash: string) | Unrelated

  /** The policy changes from seq `from` on. */
  function ChangesFrom(journal: seq<Entry>, from: int): seq<Change> {
    if journal == [] then []
    else
      var last, rest := |journal| - 1, ChangesFrom(journal[..|journal| - 1], from);
      if journal[last].Changed? && last >= from then rest + [journal[last].ch] else rest
  }

  function AllChanges(journal: seq<Entry>): seq<Change> { ChangesFrom(journal, 0) }

  function LastHash(journal: seq<Entry>): string {
    if journal == [] then ""
    else if journal[|journal| - 1].Compacted? then journal[|journal| - 1].hash
    else LastHash(journal[..|journal| - 1])
  }

  predicate Trusted(journal: seq<Entry>, file: Option<Snapshot>, hash: ContentHash) {
    file.Some? && LastHash(journal) != "" && hash(file.value) == LastHash(journal)
  }

  /** What a boot computes. */
  function Replay(journal: seq<Entry>, file: Option<Snapshot>, hash: ContentHash, lower: char -> char): Overlay {
    if Trusted(journal, file, hash)
    then Fold(file.value.changes + ChangesFrom(journal, file.value.throughSeq + 1), lower)
    else Fold(AllChanges(journal), lower)
  }

  /** The policy changes with their seqs, as the walk collects them. */
  function Numbered(journal: seq<Entry>): seq<(int, Change)> {
    if journal == [] then []
    else
      var last, rest := |journal| - 1, Numbered(journal[..|journal| - 1]);
      if journal[last].Changed? then rest + [(last, journal[last].ch)] else rest
  }

  /** The collected changes behind `from`. */
  function Recent(all: seq<(int, Change)>, from: int): seq<Change> {
    if all == [] then []
    else
      var rest := Recent(all[..|all| - 1], from);
      if all[|all| - 1].0 > from then rest + [all[|all| - 1].1] else rest
  }

  lemma {:induction false} RecentIsChangesFrom(journal: seq<Entry>, from: int)
    ensures Recent(Numbered(journal), from) == ChangesFrom(journal, from + 1)
  {
    if journal != [] {
      var shorter, last := journal[..|journal| - 1], |journal| - 1;
      RecentIsChangesFrom(shorter, from);
      if journal[last].Changed? {
        var one := (last, journal[last].ch);
        assert (Numbered(shorter) + [one])[..|Numbered(shorter)|] == Numbered(shorter);
      }
    }
  }

  method ReplayPolicyOverlay(journal: seq<Entry>, file: Option<Snapshot>, hash: ContentHash, lower: char -> char)
    returns (overlay: Overlay)
    ensures overlay == Replay(journal, file, hash, lower)
  {
    hide Fold, ChangesFrom;
    var all: seq<(int, Change)> := [];
    var journaledHash, i := "", 0;
    while i < |journal|
      invariant 0 <= i <= |journal|
      invariant journaledHash == LastHash(journal[..i]) && all == Numbered(journal[..i])
    {
      assert journal[..i + 1][..i] == journal[..i];
      match journal[i] {
        case Changed(ch) => all := all + [(i, ch)];
        case Compacted(h) => journaledHash := h;
        case Unrelated =>
      }
      i := i + 1;
    }
    assert journal[..|journal|] == journal;
    var changes: seq<Change>, fromSeq := [], -1;
    if file.Some? && journaledHash != "" && hash(file.value) == journaledHash {
      changes, fromSeq := file.value.changes, file.value.throughSeq;
    }
    ghost var seed := changes;
    var k := 0;
    while k < |all|
      invariant 0 <= k <= |all|
      invariant changes == seed + Recent(all[..k], fromSeq)
    {
      assert all[..k + 1][..k] == all[..k];
      if all[k].0 > fromSeq {
        changes := changes + [all[k].1];
      }
      k := k + 1;
    }
    assert all[..|all|] == all;
    RecentIsChangesFrom(journal, fromSeq);
    assert [] + ChangesFrom(journal, 0) == ChangesFrom(journal, 0);
    overlay := ProjectPolicyChanges(changes, lower);
  }

  // ---------- the machine ----------

  /** A compaction on its way: it has read the journal up to `upTo`, then taken the head and
      formed its snapshot, then saved it. */
  datatype Compaction =
    | Collected(upTo: nat, changes: seq<Change>)
    | Formed(upTo: nat, snap: Snapshot)
    | Saved(upTo: nat, snap: Snapshot)

  /** A published compaction: how much of the journal it read, and its snapshot. */
  datatype Vouch = Vouch(upTo: nat, snap: Snapshot)

  datatype State = State(
    journal: seq<Entry>, file: Option<Snapshot>, running: map<int, Compaction>,
    vouched: seq<Vouch>)   // history: what the journal vouches for, in order

  datatype Action =
    | Amend(ch: Change)
    | Other
    | Collect(id: int, changes: seq<Change>)
    | Form(id: int)
    | Save(id: int)
    | Publish(id: int)
    | Abort(id: int)
    | Crash
    | Overwrite(file: Option<Snapshot>)

  const BOOT := State([], None, map[], [])

  ghost predicate Enabled(s: State, a: Action, lower: char -> char) {
    match a
    case Collect(id, out) => id !in s.running && IsWrittenOut(Fold(AllChanges(s.journal), lower), out)
    case Form(id) => id in s.running && s.running[id].Collected?
    case Save(id) => id in s.running && s.running[id].Formed?
    case Publish(id) => id in s.running && s.running[id].Saved?
    case _ => true
  }

  ghost function Step(s: State, a: Action, hash: ContentHash, lower: char -> char): State
    requires Enabled(s, a, lower)
  {
    match a
    case Amend(ch) => s.(journal := s.journal + [Changed(ch)])
    case Other => s.(journal := s.journal + [Unrelated])
    case Collect(id, out) => s.(running := s.running[id := Collected(|s.journal|, out)])
    case Form(id) =>
      var c := s.running[id];
      s.(running := s.running[id := Formed(c.upTo, Snapshot(|s.journal| - 1, c.changes))])
    case Save(id) =>
      var c := s.running[id];
      s.(running := s.running[id := Saved(c.upTo, c.snap)], file := Some(c.snap))
    case Publish(id) =>
      var c := s.running[id];
      s.(journal := s.journal + [Compacted(hash(c.snap))], running := s.running - {id},
         vouched := s.vouched + [Vouch(c.upTo, c.snap)])
    case Abort(id) => s.(running := s.running - {id})
    case Crash => s.(running := map[])
    case Overwrite(f) => s.(file := f)
  }

  /** A crash forgets the compactions under way and nothing on disk; other events and other writers of the
      file change nothing else. */
  lemma OutsideSteps(s: State, id: int, f: Option<Snapshot>, hash: ContentHash, lower: char -> char)
    ensures Step(s, Crash, hash, lower) == State(s.journal, s.file, map[], s.vouched)
    ensures id !in Step(s, Abort(id), hash, lower).running
    ensures Step(s, Overwrite(f), hash, lower) == State(s.journal, f, s.running, s.vouched)
    ensures Step(s, Other, hash, lower) == State(s.journal + [Unrelated], s.file, s.running, s.vouched)
  {}

  /** `run` is a run of the machine from boot, state by state. */
  ghost predicate IsRun(run: seq<State>, acts: seq<Action>, hash: ContentHash, lower: char -> char) {
    && |run| == |acts| + 1 && run[0] == BOOT
    && forall i :: 0 <= i < |acts| ==>
         Enabled(run[i], acts[i], lower) && run[i + 1] == Step(run[i], acts[i], hash, lower)
  }

  // ---------- the invariant ----------

  /** The list stands for the first `r` entries, and the snapshot claims at least those. */
  ghost predicate SoundSnap(journal: seq<Entry>, r: nat, snap: Snapshot, lower: char -> char) {
    r <= snap.throughSeq + 1 <= |journal| && IsWrittenOut(Fold(AllChanges(journal[..r]), lower), snap.changes)
  }

  ghost predicate Sound(journal: seq<Entry>, c: Compaction, lower: char -> char) {
    match c
    case Collected(r, out) => r <= |journal| && IsWrittenOut(Fold(AllChanges(journal[..r]), lower), out)
    case Formed(r, snap) => SoundSnap(journal, r, snap, lower)
    case Saved(r, snap) => SoundSnap(journal, r, snap, lower)
  }

  ghost predicate Inv(s: State, hash: ContentHash, lower: char -> char) {
    && (forall id :: id in s.running ==> Sound(s.journal, s.running[id], lower))
    && (forall k :: 0 <= k < |s.vouched| ==> SoundSnap(s.journal, s.vouched[k].upTo, s.vouched[k].snap, lower))
    && LastHash(s.journal) == if s.vouched == [] then "" else hash(s.vouched[|s.vouched| - 1].snap)
  }

  lemma SoundSurvivesAppend(journal: seq<Entry>, e: Entry, c: Compaction, lower: char -> char)
    requires Sound(journal, c, lower)
    ensures Sound(journal + [e], c, lower)
  {
    assert (journal + [e])[..c.upTo] == journal[..c.upTo];
  }

  lemma AppendKeepsInv(s: State, e: Entry, hash: ContentHash, lower: char -> char)
    requires Inv(s, hash, lower) && !e.Compacted?
    ensures Inv(s.(journal := s.journal + [e]), hash, lower)
  {
    hide IsWrittenOut, Fold, ChangesFrom;
    forall id | id in s.running ensures Sound(s.journal + [e], s.running[id], lower) {
      SoundSurvivesAppend(s.journal, e, s.running[id], lower);
    }
    forall k | 0 <= k < |s.vouched| ensures SoundSnap(s.journal + [e], s.vouched[k].upTo, s.vouched[k].snap, lower) {
      SoundSurvivesAppend(s.journal, e, Saved(s.vouched[k].upTo, s.vouched[k].snap), lower);
    }
    assert (s.journal + [e])[..|s.journal|] == s.journal;
  }

  lemma PublishKeepsInv(s: State, id: int, hash: ContentHash, lower: char -> char)
    requires Inv(s, hash, lower) && id in s.running && s.running[id].Saved?
    ensures Inv(Step(s, Publish(id), hash, lower), hash, lower)
  {
    hide IsWrittenOut, Fold, ChangesFrom;
    var c := s.running[id];
    var e := Compacted(hash(c.snap));
    var s' := Step(s, Publish(id), hash, lower);
    forall i | i in s'.running ensures Sound(s'.journal, s'.running[i], lower) {
      SoundSurvivesAppend(s.journal, e, s.running[i], lower);
    }
    forall k | 0 <= k < |s'.vouched| ensures SoundSnap(s'.journal, s'.vouched[k].upTo, s'.vouched[k].snap, lower) {
      SoundSurvivesAppend(s.journal, e, Saved(s'.vouched[k].upTo, s'.vouched[k].snap), lower);
    }
  }

  lemma StepKeepsInv(s: State, a: Action, hash: ContentHash, lower: char -> char)
    requires Inv(s, hash, lower) && Enabled(s, a, lower)
    ensures Inv(Step(s, a, hash, lower), hash, lower)
  {
    hide IsWrittenOut, Fold, ChangesFrom;
    match a
    case Amend(ch) => AppendKeepsInv(s, Changed(ch), hash, lower);
    case Other => AppendKeepsInv(s, Unrelated, hash, lower);
    case Publish(id) => PublishKeepsInv(s, id, hash, lower);
    case Collect(id, out) => assert s.journal[..|s.journal|] == s.journal;
    case Form(id) =>
      assert Sound(s.journal, s.running[id], lower);
    case Save(id) =>
      assert Sound(s.journal, s.running[id], lower);
    case _ =>
  }

  lemma {:induction false} RunKeepsInv(run: seq<State>, acts: seq<Action>, n: nat, hash: ContentHash,
      lower: char -> char)
    requires IsRun(run, acts, hash, lower) && n < |run|
    ensures Inv(run[n], hash, lower)
  {
    if n > 0 {
      RunKeepsInv(run, acts, n - 1, hash, lower);
      StepKeepsInv(run[n - 1], acts[n - 1], hash, lower);
    }
  }

  // ---------- what a boot computes ----------

  /** The journal up to seq `through`. */
  function UpTo(journal: seq<Entry>, through: int): seq<Entry> {
    if through + 1 <= 0 then [] else if through + 1 >= |journal| then journal else journal[..through + 1]
  }

  /** The changes that arrived after a compaction read the journal and before it took the head. */
  function Gap(journal: seq<Entry>, v: Vouch): seq<Change> {
    ChangesFrom(UpTo(journal, v.snap.throughSeq), v.upTo)
  }

  lemma {:induction false} SplitChanges(journal: seq<Entry>, from: int, at: nat)
    requires from <= at <= |journal|
    ensures ChangesFrom(journal, from) == ChangesFrom(journal[..at], from) + ChangesFrom(journal, at)
  {
    if |journal| == at {
      assert journal[..at] == journal;
      NothingFromTheEnd(journal, at);
    } else {
      var shorter := journal[..|journal| - 1];
      SplitChanges(shorter, from, at);
      assert shorter[..at] == journal[..at];
    }
  }

  lemma {:induction false} NothingFromTheEnd(journal: seq<Entry>, from: int)
    requires |journal| <= from
    ensures ChangesFrom(journal, from) == []
  {
    if journal != [] { NothingFromTheEnd(journal[..|journal| - 1], from); }
  }

  lemma SplitInThree(journal: seq<Entry>, r: nat, h: nat)
    requires r <= h <= |journal|
    ensures AllChanges(journal) == AllChanges(journal[..r]) + ChangesFrom(journal[..h], r) + ChangesFrom(journal, h)
  {
    SplitChanges(journal, 0, h);
    SplitChanges(journal[..h], 0, r);
    assert journal[..h][..r] == journal[..r];
  }

  /** A boot that trusts the vouched snapshot computes the history without the gap. */
  lemma TrustedReplaySkipsGap(s: State, hash: ContentHash, lower: char -> char)
    requires LowersAscii(lower) && Inv(s, hash, lower) && s.vouched != []
    requires Trusted(s.journal, s.file, hash) && s.file == Some(s.vouched[|s.vouched| - 1].snap)
    ensures var v := s.vouched[|s.vouched| - 1];
      var before, gap := AllChanges(s.journal[..v.upTo]), Gap(s.journal, v);
      var later := ChangesFrom(s.journal, v.snap.throughSeq + 1);
      && AllChanges(s.journal) == before + gap + later
      && Replay(s.journal, s.file, hash, lower) == Fold(before + later, lower)
  {
    hide IsWrittenOut, ChangesFrom, Fold;
    var v := s.vouched[|s.vouched| - 1];
    assert SoundSnap(s.journal, v.upTo, v.snap, lower);
    var h := v.snap.throughSeq + 1;
    assert UpTo(s.journal, v.snap.throughSeq) == s.journal[..h];
    SplitInThree(s.journal, v.upTo, h);
    ResumedFoldIsFullFold(AllChanges(s.journal[..v.upTo]), v.snap.changes, ChangesFrom(s.journal, h), lower);
  }

  /** Two different snapshots with one content hash. */
  predicate Collide(hash: ContentHash, s: Snapshot, t: Snapshot) { s != t && hash(s) == hash(t) }

  /** In every reachable state a boot computes the fold of the whole history, unless the last
      vouched compaction lost changes to its gap or the file collides with its snapshot. */
  lemma ReplayIsFullFold(run: seq<State>, acts: seq<Action>, n: nat, hash: ContentHash, lower: char -> char)
    requires LowersAscii(lower) && IsRun(run, acts, hash, lower) && n < |run|
    ensures var s := run[n];
      || Replay(s.journal, s.file, hash, lower) == Fold(AllChanges(s.journal), lower)
      || (s.vouched != [] && s.file.Some? && Collide(hash, s.file.value, s.vouched[|s.vouched| - 1].snap))
      || (s.vouched != [] && Gap(s.journal, s.vouched[|s.vouched| - 1]) != [])
  {
    hide IsWrittenOut, ChangesFrom, Fold, IsRun;
    RunKeepsInv(run, acts, n, hash, lower);
    var s := run[n];
    if Trusted(s.journal, s.file, hash) {
      var c := s.vouched[|s.vouched| - 1];
      if s.file.value == c.snap {
        TrustedReplaySkipsGap(s, hash, lower);
        if Gap(s.journal, c) == [] {
          var before := AllChanges(s.journal[..c.upTo]);
          assert before + [] == before;
        }
      }
    }
  }

  /** `j` continues the journal a compaction claims to cover, and vouches for its snapshot last. */
  ghost predicate Continues(j: seq<Entry>, journal: seq<Entry>, v: Vouch, hash: ContentHash) {
    UpTo(journal, v.snap.throughSeq) <= j && LastHash(j) == hash(v.snap)
  }

  lemma ReplayOfContinuation(journal: seq<Entry>, v: Vouch, j: seq<Entry>, hash: ContentHash, lower: char -> char)
    requires LowersAscii(lower) && SoundSnap(journal, v.upTo, v.snap, lower) && hash(v.snap) != ""
    requires Continues(j, journal, v, hash)
    ensures var before, later := AllChanges(journal[..v.upTo]), ChangesFrom(j, v.snap.throughSeq + 1);
      && AllChanges(j) == before + Gap(journal, v) + later
      && Replay(j, Some(v.snap), hash, lower) == Fold(before + later, lower)
  {
    hide IsWrittenOut, ChangesFrom, Fold, LastHash;
    var h := v.snap.throughSeq + 1;
    assert UpTo(journal, v.snap.throughSeq) == journal[..h] == j[..h];
    assert journal[..v.upTo] == j[..h][..v.upTo] == j[..v.upTo];
    SplitInThree(j, v.upTo, h);
    ResumedFoldIsFullFold(AllChanges(journal[..v.upTo]), v.snap.changes, ChangesFrom(j, h), lower);
  }

  /** However the journal goes on, boots that trust the snapshot compute the whole history, exactly if
      the changes lost to the gap change nothing where they stand. */
  lemma GapIsHarmlessIff(journal: seq<Entry>, v: Vouch, hash: ContentHash, lower: char -> char)
    requires LowersAscii(lower) && SoundSnap(journal, v.upTo, v.snap, lower) && hash(v.snap) != ""
    ensures var before := AllChanges(journal[..v.upTo]);
      (forall j: seq<Entry> :: Continues(j, journal, v, hash) ==>
         Replay(j, Some(v.snap), hash, lower) == Fold(AllChanges(j), lower))
      <==> Fold(before, lower) == Fold(before + Gap(journal, v), lower)
  {
    hide IsWrittenOut, ChangesFrom, Fold, Replay;
    var before, gap := AllChanges(journal[..v.upTo]), Gap(journal, v);
    if Fold(before, lower) == Fold(before + gap, lower) {
      forall j: seq<Entry> | Continues(j, journal, v, hash)
        ensures Replay(j, Some(v.snap), hash, lower) == Fold(AllChanges(j), lower)
      {
        ReplayOfContinuation(journal, v, j, hash, lower);
        FoldAppend(before, ChangesFrom(j, v.snap.throughSeq + 1), lower);
        FoldAppend(before + gap, ChangesFrom(j, v.snap.throughSeq + 1), lower);
      }
    } else {
      var at := UpTo(journal, v.snap.throughSeq);
      var j := at + [Compacted(hash(v.snap))];
      assert j[..|at|] == at;
      assert Continues(j, journal, v, hash);
      ReplayOfContinuation(journal, v, j, hash, lower);
      ChangesSnoc(at, Compacted(hash(v.snap)), v.snap.throughSeq + 1);
      NothingFromTheEnd(at, v.snap.throughSeq + 1);
      assert before + [] == before && before + gap + [] == before + gap;
    }
  }

  lemma SlippedRun(ch: Change, snap: Snapshot, hash: ContentHash, lower: char -> char)
    returns (run: seq<State>, acts: seq<Action>)
    requires snap == Snapshot(0, [])
    ensures IsRun(run, acts, hash, lower)
    ensures run[|acts|] == State([Changed(ch), Compacted(hash(snap))], Some(snap), map[], [Vouch(0, snap)])
  {
    acts := [Collect(0, []), Amend(ch), Form(0), Save(0), Publish(0)];
    NothingIsWrittenOut(lower);
    hide Fold, IsWrittenOut, AllChanges;
    var j1: seq<Entry> := [Changed(ch)];
    run := [
      BOOT,
      State([], None, map[0 := Collected(0, [])], []),
      State(j1, None, map[0 := Collected(0, [])], []),
      State(j1, None, map[0 := Formed(0, snap)], []),
      State(j1, Some(snap), map[0 := Saved(0, snap)], []),
      State(j1 + [Compacted(hash(snap))], Some(snap), map[], [Vouch(0, snap)])
    ];
    assert [] + j1 == j1;
    assert Step(run[0], acts[0], hash, lower) == run[1];
    assert Step(run[1], acts[1], hash, lower) == run[2];
    assert Step(run[2], acts[2], hash, lower) == run[3];
    assert Step(run[3], acts[3], hash, lower) == run[4];
    assert Step(run[4], acts[4], hash, lower) == run[5];
  }

  /** A change that slips between reading the journal and taking the head is lost to every
      boot that trusts the snapshot. */
  lemma SlippedChangeIsLost(hash: ContentHash, lower: char -> char) returns (run: seq<State>, acts: seq<Action>)
    requires LowersAscii(lower) && hash(Snapshot(0, [])) != ""
    ensures IsRun(run, acts, hash, lower)
    ensures var s := run[|acts|];
      && Replay(s.journal, s.file, hash, lower) == EMPTY
      && Fold(AllChanges(s.journal), lower).levels == map["shell" := LevelDeny]
  {
    var ch, snap := LevelChange("shell", LevelDeny), Snapshot(0, []);
    run, acts := SlippedRun(ch, snap, hash, lower);
    var journal := [Changed(ch), Compacted(hash(snap))];
    LostShellLevel(journal, ch, hash(snap), lower);
    EmptySnapshotWins(journal, snap, hash, lower);
    hide *;
    assert run[|acts|].journal == journal && run[|acts|].file == Some(snap);
  }

  lemma EmptySnapshotWins(journal: seq<Entry>, snap: Snapshot, hash: ContentHash, lower: char -> char)
    requires snap == Snapshot(0, []) && LastHash(journal) == hash(snap) != "" && ChangesFrom(journal, 1) == []
    ensures Replay(journal, Some(snap), hash, lower) == EMPTY
  {
    NothingIsWrittenOut(lower);
    hide Fold;
    assert snap.changes + ChangesFrom(journal, 1) == [];
  }

  lemma NothingIsWrittenOut(lower: char -> char)
    ensures Fold(AllChanges([]), lower) == EMPTY && Fold([], lower) == EMPTY && IsWrittenOut(EMPTY, [])
  {
    var none: seq<string> := [];
    assert [] == ModeChanges(None) + LevelChanges(none, map[]) + RuleChanges([]);
  }

  lemma ChangesSnoc(journal: seq<Entry>, e: Entry, from: int)
    ensures ChangesFrom(journal + [e], from)
         == if e.Changed? && |journal| >= from then ChangesFrom(journal, from) + [e.ch] else ChangesFrom(journal, from)
  {
    assert (journal + [e])[..|journal|] == journal;
  }

  lemma LostShellLevel(journal: seq<Entry>, ch: Change, h: string, lower: char -> char)
    requires LowersAscii(lower) && ch == LevelChange("shell", LevelDeny)
    requires journal == [Changed(ch), Compacted(h)]
    ensures ChangesFrom(journal, 1) == [] && LastHash(journal) == h
    ensures Fold(AllChanges(journal), lower).levels == map["shell" := LevelDeny]
  {
    ChangesSnoc([], Changed(ch), 0);
    ChangesSnoc([], Changed(ch), 1);
    ChangesSnoc([Changed(ch)], Compacted(h), 0);
    ChangesSnoc([Changed(ch)], Compacted(h), 1);
    assert [] + [Changed(ch)] == [Changed(ch)];
    assert [Changed(ch)] + [Compacted(h)] == journal;
    assert AllChanges(journal) == [ch];
    LevelChangeMeans("shell", LevelDeny, lower);
    assert Meanings([ch], lower) == [] + [LevelIs("shell", LevelDeny)];
    FoldSnoc(EMPTY, [], LevelIs("shell", LevelDeny));
  }
}
