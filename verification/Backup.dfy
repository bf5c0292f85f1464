/** Backup archives: create, inspect, restore
    (cmd/agt/backup.go, cmd/agt/backup_lib.go, cmd/agt/backup_restore.go, cmd/agt/backup_restore_helpers.go). */
module Backup {
  import opened Common
  import opened Text
  import opened Paths

  type Bytes = seq<bv8>
  type Place = seq<string>

  /** Regular files with their contents, and directories. */
  datatype Tree = Tree(files: map<Place, Bytes>, dirs: set<Place>)

  datatype Manifest = Manifest(includes: seq<string>, headSeq: int, headHash: string, createdMS: int)

  const NO_MANIFEST := Manifest([], 0, "", 0)
  const MANIFEST_NAME := "backup-manifest.json"
  const INCLUDE_DIRS: seq<string> := ["journal", "catalog"]

  /** One read of the archive: a regular file, another kind of entry, a regular file whose body breaks
      off after `data`, or a header that cannot be read. */
  datatype Entry =
    | Regular(name: string, data: Bytes)
    | Special(name: string)
    | Cut(name: string, data: Bytes)
    | Damaged

  // ---------- which entries are let in ----------

  predicate IsAllowed(name: string) {
    && !Contains(name, "..") && !("/" <= name) && !("\\" <= name)
    && exists i :: 0 <= i < |INCLUDE_DIRS| && INCLUDE_DIRS[i] + "/" <= name
  }

  method IsAllowedBackupPath(name: string) returns (ok: bool)
    ensures ok <==> IsAllowed(name)
  {
    if Contains(name, "..") || "/" <= name || "\\" <= name { return false; }
    for i := 0 to |INCLUDE_DIRS|
      invariant forall k :: 0 <= k < i ==> !(INCLUDE_DIRS[k] + "/" <= name)
    {
      if INCLUDE_DIRS[i] + "/" <= name { return true; }
    }
    return false;
  }

  /** Allowed is what lies in one of the two subtrees and has no ".." in it anywhere; that it is no absolute
      path then goes without saying. */
  lemma AllowedIff(name: string)
    ensures IsAllowed(name) <==> !Contains(name, "..") && ("journal/" <= name || "catalog/" <= name)
  {
    assert INCLUDE_DIRS[0] + "/" == "journal/" && INCLUDE_DIRS[1] + "/" == "catalog/";
    assert "journal/"[0] == 'j' && "catalog/"[0] == 'c' && "/"[0] == '/' && "\\"[0] == '\\';
  }

  /** Where below the destination an entry goes. */
  function Down(name: string): Place { Kept(Split(name)) }

  lemma IncludeDirsAreNames()
    ensures forall i :: 0 <= i < |INCLUDE_DIRS| ==> IsName(INCLUDE_DIRS[i])
  {
    assert INCLUDE_DIRS[0] == "journal" && INCLUDE_DIRS[1] == "catalog";
  }

  /** An allowed entry goes below one of the included subtrees, wherever the destination is. */
  lemma AllowedStaysDown(name: string, dest: Path)
    requires IsAllowed(name) && WellFormed(dest)
    ensures Down(name) != [] && AllNames(Down(name)) && Down(name)[0] in INCLUDE_DIRS
    ensures Under(dest, name) == dest.(segs := dest.segs + Down(name))
  {
    if ".." in Split(name) { NoParentSegment(name); }
    UnderFollows(dest, name);
    FollowDown(dest, Split(name));
    SplitHasNoSlash(name);
    KeptAreNames(Split(name));
    AllowedStartsIncluded(name);
    hide Split, Kept, Follow, Contains;
  }

  lemma AllowedStartsIncluded(name: string)
    requires IsAllowed(name)
    ensures Down(name) != [] && Down(name)[0] in INCLUDE_DIRS
  {
    var i :| 0 <= i < |INCLUDE_DIRS| && INCLUDE_DIRS[i] + "/" <= name;
    var d := INCLUDE_DIRS[i];
    IncludeDirsAreNames();
    assert IsName(d) && d in INCLUDE_DIRS;
    StartsWithSubtree(name, d);
  }

  lemma StartsWithSubtree(name: string, d: string)
    requires IsName(d) && d + "/" <= name
    ensures Down(name) != [] && Down(name)[0] == d
  {
    var rest := name[|d| + 1..];
    assert name == d + "/" + rest;
    SplitConcat(d, rest);
    SplitName(d);
    hide Split, Contains;
  }

  // ---------- writing one file ----------

  /** Some ancestor of `p`, or `p` itself, is a file. */
  predicate Blocked(t: Tree, p: Place) { exists k :: 0 <= k <= |p| && p[..k] in t.files }

  function Ancestors(p: Place): set<Place> { set k | 0 <= k < |p| :: p[..k] }

  /** `MkdirAll` of the parent, then an exclusive create. */
  function Write(t: Tree, p: Place, data: Bytes): (r: (Tree, bool))
    requires p != []
  {
    if Blocked(t, p[..|p| - 1]) then (t, false)
    else
      var made := t.(dirs := t.dirs + Ancestors(p));
      if p in t.files || p in made.dirs then (made, false)
      else (made.(files := made.files[p := data]), true)
  }

  // ---------- restoring ----------

  datatype Outcome = Restored | Refused(name: string) | NotWritten(name: string) | Unreadable

  function Target(dest: Path, name: string): Place { Under(dest, name).segs }

  predicate LetIn(dest: Path, name: string) { IsAllowed(name) && Inside(dest, Under(dest, name)) }

  lemma LetInHasTarget(dest: Path, name: string)
    requires WellFormed(dest) && LetIn(dest, name)
    ensures Target(dest, name) == dest.segs + Down(name) && Down(name) != []
  {
    AllowedStaysDown(name, dest);
  }

  lemma LetInGoesDown(dest: Path, name: string)
    requires WellFormed(dest) && LetIn(dest, name)
    ensures Target(dest, name) == dest.segs + Down(name) && Down(name) != [] && Down(name)[0] in INCLUDE_DIRS
  {
    AllowedStaysDown(name, dest);
  }

  /** A manifest is taken if it parses, and passed over if not. */
  function Updated(man: Manifest, data: Bytes, parse: Bytes -> Option<Manifest>): Manifest {
    match parse(data) case Some(m) => m case None => man
  }

  /** What restoring the rest of an archive does to the tree and the manifest. A body that breaks off
      leaves what was read of it. */
  function Restore(t: Tree, man: Manifest, archive: seq<Entry>, dest: Path, parse: Bytes -> Option<Manifest>)
    : (r: (Tree, Manifest, Outcome))
    requires WellFormed(dest)
    decreases |archive|
  {
    if archive == [] then (t, man, Restored)
    else
      match archive[0]
      case Damaged => (t, man, Unreadable)
      case Special(_) => Restore(t, man, archive[1..], dest, parse)
      case Regular(name, data) =>
        if name == MANIFEST_NAME then Restore(t, Updated(man, data, parse), archive[1..], dest, parse)
        else if !LetIn(dest, name) then (t, man, Refused(name))
        else
          LetInHasTarget(dest, name);
          var (t', ok) := Write(t, Target(dest, name), data);
          if ok then Restore(t', man, archive[1..], dest, parse) else (t', man, NotWritten(name))
      case Cut(name, data) =>
        if name == MANIFEST_NAME then (t, Updated(man, data, parse), Unreadable)
        else if !LetIn(dest, name) then (t, man, Refused(name))
        else
          LetInHasTarget(dest, name);
          var (t', ok) := Write(t, Target(dest, name), data);
          (t', man, if ok then Unreadable else NotWritten(name))
  }

  class Disk {
    var files: map<Place, Bytes>
    var dirs: set<Place>

    ghost function Abs(): Tree
      reads this
    {
      Tree(files, dirs)
    }

    method CreateExclusive(p: Place, data: Bytes) returns (ok: bool)
      requires p != []
      modifies this
      ensures (Abs(), ok) == Write(old(Abs()), p, data)
    {
      if Blocked(Tree(files, dirs), p[..|p| - 1]) { return false; }
      dirs := dirs + Ancestors(p);
      if p in files || p in dirs { return false; }
      files := files[p := data];
      return true;
    }

    method RestoreFile(cleanDest: Path, name: string, data: Bytes) returns (outcome: Outcome)
      requires WellFormed(cleanDest)
      modifies this
      ensures !LetIn(cleanDest, name) ==> outcome == Refused(name) && Abs() == old(Abs())
      ensures LetIn(cleanDest, name) ==>
                && Target(cleanDest, name) != []
                && (Abs(), outcome == Restored) == Write(old(Abs()), Target(cleanDest, name), data)
                && outcome in {Restored, NotWritten(name)}
    {
      hide IsAllowed, Inside, Under, Write;
      var allowed := IsAllowedBackupPath(name);
      if !allowed { return Refused(name); }
      var target := Under(cleanDest, name);
      if !Inside(cleanDest, target) { return Refused(name); }
      LetInHasTarget(cleanDest, name);
      var ok := CreateExclusive(target.segs, data);
      return if ok then Restored else NotWritten(name);
    }

    method RestoreBackup(archive: seq<Entry>, destHome: string, parse: Bytes -> Option<Manifest>)
      returns (man: Manifest, outcome: Outcome)
      modifies this
      ensures WellFormed(Clean(destHome))
      ensures (Abs(), man, outcome) == Restore(old(Abs()), NO_MANIFEST, archive, Clean(destHome), parse)
    {
      hide Clean, LetIn, Target, Write, Updated;
      var cleanDest := Clean(destHome);
      CleanIsWellFormed(destHome);
      man := NO_MANIFEST;
      var i := 0;
      while i < |archive|
        invariant 0 <= i <= |archive|
        invariant Restore(old(Abs()), NO_MANIFEST, archive, cleanDest, parse)
               == Restore(Abs(), man, archive[i..], cleanDest, parse)
      {
        assert archive[i..][1..] == archive[i + 1..];
        match archive[i] {
          case Damaged => return man, Unreadable;
          case Special(_) =>
          case Regular(name, data) =>
            if name == MANIFEST_NAME {
              man := Updated(man, data, parse);
            } else {
              var outcome := RestoreFile(cleanDest, name, data);
              if outcome != Restored { return man, outcome; }
            }
          case Cut(name, data) =>
            if name == MANIFEST_NAME { return Updated(man, data, parse), Unreadable; }
            var outcome := RestoreFile(cleanDest, name, data);
            return man, if outcome == Restored then Unreadable else outcome;
        }
        i := i + 1;
      }
      return man, Restored;
    }
  }

  lemma CleanIsWellFormed(s: string)
    ensures WellFormed(Clean(s))
  {
    SplitHasNoSlash(s);
    FollowIsWellFormed(Path(IsRooted(s), 0, []), Split(s));
  }

  lemma {:induction false} FollowIsWellFormed(p: Path, segs: seq<string>)
    requires WellFormed(p) && forall i :: 0 <= i < |segs| ==> '/' !in segs[i]
    ensures WellFormed(Follow(p, segs))
    decreases |segs|
  {
    if segs != [] { FollowIsWellFormed(Enter(p, segs[0]), segs[1..]); }
  }

  lemma WriteStaysInside(t: Tree, name: string, data: Bytes, dest: Path, p: Place)
    requires WellFormed(dest) && LetIn(dest, name) && Target(dest, name) != []
    ensures var t' := Write(t, Target(dest, name), data).0;
      && (p in t.files ==> p in t'.files && t'.files[p] == t.files[p])
      && (p in t'.files && p !in t.files ==> exists d :: d in INCLUDE_DIRS && dest.segs + [d] <= p)
  {
    hide Down, LetIn, Blocked, Ancestors, Target;
    LetInGoesDown(dest, name);
    assert dest.segs + [Down(name)[0]] <= Target(dest, name);
  }

  /** Whatever the archive and however it ends, a restore leaves every file that was there as it
      was, and writes only below the included subtrees of the destination. */
  lemma {:induction false} RestoreStaysInside(
    t: Tree, man: Manifest, archive: seq<Entry>, dest: Path, parse: Bytes -> Option<Manifest>, p: Place)
    requires WellFormed(dest)
    ensures var t' := Restore(t, man, archive, dest, parse).0;
      && (p in t.files ==> p in t'.files && t'.files[p] == t.files[p])
      && (p in t'.files && p !in t.files ==> exists d :: d in INCLUDE_DIRS && dest.segs + [d] <= p)
    decreases |archive|
  {
    if archive != [] && !archive[0].Damaged? {
      match archive[0] {
        case Cut(name, data) =>
          if name != MANIFEST_NAME && LetIn(dest, name) {
            LetInHasTarget(dest, name);
            WriteStaysInside(t, name, data, dest, p);
          }
        case Special(_) => RestoreStaysInside(t, man, archive[1..], dest, parse, p);
        case Regular(name, data) =>
          if name == MANIFEST_NAME {
            RestoreStaysInside(t, Updated(man, data, parse), archive[1..], dest, parse, p);
          } else if LetIn(dest, name) {
            LetInHasTarget(dest, name);
            WriteStaysInside(t, name, data, dest, p);
            var (t', ok) := Write(t, Target(dest, name), data);
            hide Write, Target, LetIn;
            if ok { RestoreStaysInside(t', man, archive[1..], dest, parse, p); }
          }
      }
    }
  }

  // ---------- how a restore ends ----------

  /** The place is no directory, no file, and not below a file. */
  predicate Free(t: Tree, p: Place) {
    p != [] && p !in t.dirs && forall f :: f in t.files ==> !(f <= p)
  }

  /** Neither is the other or lies below it. */
  predicate Apart(p: Place, q: Place) { !(p <= q) && !(q <= p) }

  /** Neither what is there nor an earlier target has taken a target's place. */
  predicate Clear(t: Tree, targets: seq<Place>) {
    && (forall i :: 0 <= i < |targets| ==> Free(t, targets[i]))
    && (forall i, j :: 0 <= i < j < |targets| ==> Apart(targets[i], targets[j]))
  }

  lemma BlockedIff(t: Tree, p: Place)
    ensures Blocked(t, p) <==> exists f :: f in t.files && f <= p
  {
    if f :| f in t.files && f <= p { assert p[..|f|] == f; }
  }

  /** A write succeeds exactly at a free place. */
  lemma WriteSucceedsIff(t: Tree, p: Place, data: Bytes)
    requires p != []
    ensures var (t', ok) := Write(t, p, data);
      && (ok <==> Free(t, p))
      && (ok ==> t' == Tree(t.files[p := data], t.dirs + Ancestors(p)))
      && (!ok ==> t'.files == t.files)
  {
    BlockedIff(t, p[..|p| - 1]);
    hide Blocked;
    assert p !in Ancestors(p);
    hide Ancestors;
    forall f | f in t.files ensures f <= p <==> f == p || f <= p[..|p| - 1] { BelowIff(f, p); }
  }

  lemma BelowIff(f: Place, p: Place)
    requires p != []
    ensures f <= p[..|p| - 1] <==> f < p
  {
    var parent := p[..|p| - 1];
    if f < p { assert f == p[..|f|] == parent[..|f|]; }
    if f <= parent { assert f == parent[..|f|] == p[..|f|]; }
  }

  /** A write that fails below a file leaves everything as it was; one that finds its place taken has made
      the directories above. */
  lemma FailedWriteLeaves(t: Tree, p: Place, data: Bytes)
    requires p != [] && !Free(t, p)
    ensures Write(t, p, data).0
         == if exists f :: f in t.files && f < p then t else Tree(t.files, t.dirs + Ancestors(p))
  {
    WriteSucceedsIff(t, p, data);
    BlockedIff(t, p[..|p| - 1]);
    hide Blocked, Ancestors, Free;
    forall f | f in t.files ensures f <= p[..|p| - 1] <==> f < p { BelowIff(f, p); }
  }

  lemma AncestorIff(q: Place, p: Place)
    ensures q in Ancestors(p) <==> q <= p && q != p
  {
    if q <= p && q != p { assert q == p[..|q|]; }
  }

  lemma ClearCons(t: Tree, p: Place, rest: seq<Place>)
    ensures Clear(t, [p] + rest) <==> Free(t, p) && Clear(t, rest) && forall i :: 0 <= i < |rest| ==> Apart(p, rest[i])
  {
    hide Free, Apart;
    var all := [p] + rest;
    assert all[0] == p && forall i :: 0 <= i < |rest| ==> all[i + 1] == rest[i];
    if Clear(t, all) {
      forall i | 0 <= i < |rest| ensures Apart(p, rest[i]) { assert Apart(all[0], all[i + 1]); }
    }
  }

  /** A place is free after a write exactly if it was before and the write did not take it. */
  lemma FreeAfterWrite(t: Tree, p: Place, data: Bytes, q: Place)
    ensures Free(Tree(t.files[p := data], t.dirs + Ancestors(p)), q) <==> Free(t, q) && Apart(p, q)
  {
    AncestorIff(q, p);
    hide Ancestors;
    var t' := Tree(t.files[p := data], t.dirs + Ancestors(p));
    assert p in t'.files && forall f :: f in t'.files <==> f in t.files || f == p;
  }

  lemma ClearAfterWrite(t: Tree, p: Place, data: Bytes, rest: seq<Place>)
    ensures Clear(Tree(t.files[p := data], t.dirs + Ancestors(p)), rest)
       <==> Clear(t, rest) && forall i :: 0 <= i < |rest| ==> Apart(p, rest[i])
  {
    hide Free, Apart, Ancestors;
    forall i | 0 <= i < |rest|
      ensures Free(Tree(t.files[p := data], t.dirs + Ancestors(p)), rest[i]) <==> Free(t, rest[i]) && Apart(p, rest[i])
    {
      FreeAfterWrite(t, p, data, rest[i]);
    }
  }

  lemma ClearStep(t: Tree, p: Place, data: Bytes, rest: seq<Place>)
    requires p != []
    ensures var (t', ok) := Write(t, p, data);
      && (ok <==> Clear(t, [p]))
      && (ok ==> (Clear(t, [p] + rest) <==> Clear(t', rest)))
  {
    WriteSucceedsIff(t, p, data);
    NothingIsClear(t);
    ClearCons(t, p, []);
    assert [p] + [] == [p];
    ClearCons(t, p, rest);
    ClearAfterWrite(t, p, data, rest);
    hide Clear, Write, Free, Ancestors;
  }

  lemma NothingIsClear(t: Tree)
    ensures Clear(t, [])
  {}

  predicate IsManifest(e: Entry) { e.Regular? && e.name == MANIFEST_NAME }

  /** The regular entries besides manifests. */
  function Payload(archive: seq<Entry>): seq<Entry>
    decreases |archive|
  {
    if archive == [] then []
    else (if archive[0].Regular? && !IsManifest(archive[0]) then [archive[0]] else []) + Payload(archive[1..])
  }

  lemma {:induction false} PayloadIsRegular(archive: seq<Entry>)
    ensures forall i :: 0 <= i < |Payload(archive)| ==> Payload(archive)[i].Regular?
  {
    if archive != [] { PayloadIsRegular(archive[1..]); }
  }

  predicate AllRegular(entries: seq<Entry>) { forall i :: 0 <= i < |entries| ==> entries[i].Regular? }

  function Targets(entries: seq<Entry>, dest: Path): seq<Place>
    requires AllRegular(entries)
  {
    seq(|entries|, i requires 0 <= i < |entries| => dest.segs + Down(entries[i].name))
  }

  /** The tree with every entry's data at its target. */
  function Filled(t: Tree, entries: seq<Entry>, dest: Path): Tree
    requires AllRegular(entries)
    decreases |entries|
  {
    if entries == [] then t
    else
      var p := dest.segs + Down(entries[0].name);
      Filled(Tree(t.files[p := entries[0].data], t.dirs + Ancestors(p)), entries[1..], dest)
  }

  predicate AllLetIn(entries: seq<Entry>, dest: Path) {
    forall i :: 0 <= i < |entries| && entries[i].Regular? ==> LetIn(dest, entries[i].name)
  }

  predicate Readable(archive: seq<Entry>) {
    forall i :: 0 <= i < |archive| ==> !archive[i].Damaged? && !archive[i].Cut?
  }

  function LastManifest(man: Manifest, archive: seq<Entry>, parse: Bytes -> Option<Manifest>): Manifest
    decreases |archive|
  {
    if archive == [] then man
    else
      var e := archive[0];
      LastManifest(if IsManifest(e) then Updated(man, e.data, parse) else man, archive[1..], parse)
  }

  /** The entries before the first that is not let in: those a restore writes. */
  function Reached(entries: seq<Entry>, dest: Path): seq<Entry>
    requires AllRegular(entries)
    decreases |entries|
  {
    if entries == [] || !LetIn(dest, entries[0].name) then [] else [entries[0]] + Reached(entries[1..], dest)
  }

  lemma {:induction false} ReachedIsPrefix(entries: seq<Entry>, dest: Path)
    requires AllRegular(entries)
    ensures Reached(entries, dest) <= entries && AllRegular(Reached(entries, dest))
    ensures AllLetIn(entries, dest) ==> Reached(entries, dest) == entries
  {
    hide LetIn;
    if entries != [] {
      var e, rest := entries[0], entries[1..];
      AllCons(e, rest, dest);
      assert entries == [e] + rest;
      ReachedIsPrefix(rest, dest);
      if LetIn(dest, e.name) { AllCons(e, Reached(rest, dest), dest); }
      hide AllRegular, AllLetIn;
    }
  }

  lemma AllCons(e: Entry, rest: seq<Entry>, dest: Path)
    ensures AllRegular([e] + rest) <==> e.Regular? && AllRegular(rest)
    ensures e.Regular? ==> (AllLetIn([e] + rest, dest) <==> LetIn(dest, e.name) && AllLetIn(rest, dest))
  {
    hide LetIn;
    var all := [e] + rest;
    assert all[0] == e && forall i :: 0 <= i < |rest| ==> all[i + 1] == rest[i];
  }

  /** What the entries of an archive hold does not clash where a restore writes it. */
  predicate Unclashing(t: Tree, load: seq<Entry>, dest: Path)
    requires AllRegular(load)
  {
    ReachedIsPrefix(load, dest);
    Clear(t, Targets(Reached(load, dest), dest))
  }

  lemma PayloadCons(archive: seq<Entry>)
    requires archive != [] && archive[0].Regular? && archive[0].name != MANIFEST_NAME
    ensures Payload(archive) == [archive[0]] + Payload(archive[1..]) && Payload(archive)[1..] == Payload(archive[1..])
  {}

  /** A readable archive is restored as its entries besides manifests are. */
  lemma {:induction false} PayloadDecides(
    t: Tree, man: Manifest, archive: seq<Entry>, dest: Path, parse: Bytes -> Option<Manifest>)
    requires WellFormed(dest) && Readable(archive)
    ensures Restore(t, man, archive, dest, parse).0 == Restore(t, man, Payload(archive), dest, parse).0
    ensures Restore(t, man, archive, dest, parse).2 == Restore(t, man, Payload(archive), dest, parse).2
    ensures Restore(t, man, archive, dest, parse).2 == Restored ==>
              Restore(t, man, archive, dest, parse).1 == LastManifest(man, archive, parse)
    decreases |archive|
  {
    hide LetIn, Write, Target;
    if archive != [] {
      var e, rest := archive[0], archive[1..];
      assert Readable(rest);
      if e.Regular? && !IsManifest(e) {
        PayloadCons(archive);
        if LetIn(dest, e.name) {
          LetInHasTarget(dest, e.name);
          PayloadDecides(Write(t, Target(dest, e.name), e.data).0, man, rest, dest, parse);
        }
      } else {
        assert Payload(archive) == Payload(rest);
        var man' := if IsManifest(e) then Updated(man, e.data, parse) else man;
        PayloadDecides(t, man', rest, dest, parse);
        PayloadIsRegular(rest);
        ManifestIsNoMatter(t, man', man, Payload(rest), dest, parse);
      }
    }
  }

  lemma {:induction false} ManifestIsNoMatter(
    t: Tree, m: Manifest, n: Manifest, archive: seq<Entry>, dest: Path, parse: Bytes -> Option<Manifest>)
    requires WellFormed(dest)
    ensures Restore(t, m, archive, dest, parse).0 == Restore(t, n, archive, dest, parse).0
    ensures Restore(t, m, archive, dest, parse).2 == Restore(t, n, archive, dest, parse).2
    decreases |archive|
  {
    hide LetIn, Write, Target, Updated;
    if archive != [] {
      var e, rest := archive[0], archive[1..];
      match e {
        case Damaged =>
        case Cut(_, _) =>
        case Special(_) => ManifestIsNoMatter(t, m, n, rest, dest, parse);
        case Regular(name, data) =>
          if name == MANIFEST_NAME {
            ManifestIsNoMatter(t, Updated(m, data, parse), Updated(n, data, parse), rest, dest, parse);
          } else if LetIn(dest, name) {
            LetInHasTarget(dest, name);
            ManifestIsNoMatter(Write(t, Target(dest, name), data).0, m, n, rest, dest, parse);
          }
      }
    }
  }

  predicate NoManifests(load: seq<Entry>) {
    forall i :: 0 <= i < |load| ==> load[i].Regular? && load[i].name != MANIFEST_NAME
  }

  lemma {:induction false} PayloadHasNoManifests(archive: seq<Entry>)
    ensures NoManifests(Payload(archive))
  {
    if archive != [] { PayloadHasNoManifests(archive[1..]); }
  }

  /** Exactly `n` of the entries are written: those before the first that is not let in or whose place is
      taken when it is reached. */
  predicate Writes(t: Tree, load: seq<Entry>, dest: Path, n: nat)
    requires AllRegular(load)
  {
    ReachedIsPrefix(load, dest);
    && n <= |Reached(load, dest)| && Clear(t, Targets(load[..n], dest))
    && (n < |Reached(load, dest)| ==> !Clear(t, Targets(load[..n + 1], dest)))
  }

  /** What becomes of the first entry. */
  lemma FirstEntry(t: Tree, load: seq<Entry>, dest: Path, n: nat)
    requires WellFormed(dest) && AllRegular(load) && load != [] && Writes(t, load, dest, n)
    ensures var p := dest.segs + Down(load[0].name);
      && (n > 0 ==>
            && LetIn(dest, load[0].name) && p != []
            && Write(t, p, load[0].data) == (Tree(t.files[p := load[0].data], t.dirs + Ancestors(p)), true)
            && Writes(Write(t, p, load[0].data).0, load[1..], dest, n - 1))
      && (n == 0 && LetIn(dest, load[0].name) ==>
            p != [] && !Write(t, p, load[0].data).1 && Write(t, p, load[0].data).0.files == t.files)
  {
    hide IsAllowed, Inside, Under, Down, Write, Clear, Ancestors, Targets, Free;
    ReachedIsPrefix(load, dest);
    if LetIn(dest, load[0].name) {
      LetInHasTarget(dest, load[0].name);
      hide LetIn, Target;
      FirstReached(load, dest);
      var p, rest := dest.segs + Down(load[0].name), load[1..];
      ReachedIsPrefix(rest, dest);
      hide Reached;
      WriteSucceedsIff(t, p, load[0].data);
      if n > 0 {
        ClearOfFirst(t, load, dest, n);
        ClearTail(t, load, dest, n);
        if n < |Reached(load, dest)| { ClearTail(t, load, dest, n + 1); }
      } else {
        ClearOfFirst(t, load, dest, 1);
        ClearTail(t, load, dest, 1);
      }
    }
  }

  /** The places of the first `n` entries are clear only if that of the first is free. */
  lemma ClearOfFirst(t: Tree, load: seq<Entry>, dest: Path, n: nat)
    requires AllRegular(load) && 0 < n <= |load|
    ensures Clear(t, Targets(load[..n], dest)) ==> Free(t, dest.segs + Down(load[0].name))
    ensures n == 1 && Free(t, dest.segs + Down(load[0].name)) ==> Clear(t, Targets(load[..n], dest))
  {
    hide Free, Clear, Targets, Down;
    TargetsCons(load[..n], dest);
    var ps := Targets(load[..n][1..], dest);
    ClearCons(t, dest.segs + Down(load[0].name), ps);
    if n == 1 {
      NoTargets(load[..n][1..], dest);
      NothingIsClear(t);
    }
  }

  lemma NoTargets(load: seq<Entry>, dest: Path)
    requires AllRegular(load)
    ensures load == [] ==> Targets(load, dest) == []
  {}

  /** They are clear exactly if, after the first was written, those of the others are. */
  lemma ClearTail(t: Tree, load: seq<Entry>, dest: Path, n: nat)
    requires AllRegular(load) && 0 < n <= |load| && dest.segs + Down(load[0].name) != []
    ensures AllRegular(load[1..])
    ensures var (t', ok) := Write(t, dest.segs + Down(load[0].name), load[0].data);
      ok ==> (Clear(t, Targets(load[..n], dest)) <==> Clear(t', Targets(load[1..][..n - 1], dest)))
  {
    hide Free, Clear, Targets, Down, Write;
    TargetsCons(load[..n], dest);
    assert load[..n][1..] == load[1..][..n - 1];
    ClearStep(t, dest.segs + Down(load[0].name), load[0].data, Targets(load[1..][..n - 1], dest));
  }

  lemma FirstReached(load: seq<Entry>, dest: Path)
    requires AllRegular(load) && load != [] && LetIn(dest, load[0].name)
    ensures AllRegular(load[1..]) && Reached(load, dest) == [load[0]] + Reached(load[1..], dest)
  {}

  lemma TargetsCons(load: seq<Entry>, dest: Path)
    requires AllRegular(load) && load != []
    ensures AllRegular(load[1..]) && Targets(load, dest) == [dest.segs + Down(load[0].name)] + Targets(load[1..], dest)
  {
    hide Down;
  }

  lemma {:induction false} LoadEnds(
    t: Tree, man: Manifest, load: seq<Entry>, dest: Path, parse: Bytes -> Option<Manifest>, n: nat)
    requires WellFormed(dest) && AllRegular(load) && NoManifests(load) && Writes(t, load, dest, n)
    ensures n <= |load| && AllRegular(load[..n])
    ensures var (t', _, outcome) := Restore(t, man, load, dest, parse);
      && t'.files == Filled(t, load[..n], dest).files
      && (n == |load| ==> outcome == Restored && t' == Filled(t, load, dest))
      && (n < |load| ==> outcome == (if LetIn(dest, load[n].name) then NotWritten(load[n].name)
                                     else Refused(load[n].name)))
    decreases |load|
  {
    hide LetIn, Down, Write, Writes, Ancestors, Restore, Filled, Clear, Reached, Targets;
    WritesAtMost(t, load, dest, n);
    if load == [] {
      NothingIsWritten(t, man, dest, parse, n);
    } else {
      FirstEntry(t, load, dest, n);
      RestoreFirst(t, man, load, dest, parse);
      FilledFirst(t, load[..n], dest);
      FilledFirst(t, load, dest);
      if n > 0 {
        var rest := load[1..];
        assert load[..n][1..] == rest[..n - 1];
        LoadEnds(Write(t, dest.segs + Down(load[0].name), load[0].data).0, man, rest, dest, parse, n - 1);
      }
    }
  }

  lemma WritesAtMost(t: Tree, load: seq<Entry>, dest: Path, n: nat)
    requires AllRegular(load) && Writes(t, load, dest, n)
    ensures n <= |load|
  {
    ReachedIsPrefix(load, dest);
  }

  lemma NothingIsWritten(t: Tree, man: Manifest, dest: Path, parse: Bytes -> Option<Manifest>, n: nat)
    requires WellFormed(dest)
    ensures Writes(t, [], dest, n) ==> n == 0
    ensures Restore(t, man, [], dest, parse) == (t, man, Restored) && Filled(t, [], dest) == t
  {}

  lemma RestoreFirst(t: Tree, man: Manifest, load: seq<Entry>, dest: Path, parse: Bytes -> Option<Manifest>)
    requires WellFormed(dest) && load != [] && load[0].Regular? && load[0].name != MANIFEST_NAME
    ensures var p := dest.segs + Down(load[0].name);
      && (!LetIn(dest, load[0].name) ==> Restore(t, man, load, dest, parse) == (t, man, Refused(load[0].name)))
      && (LetIn(dest, load[0].name) ==>
            && p != []
            && var (t', ok) := Write(t, p, load[0].data);
            Restore(t, man, load, dest, parse)
            == if ok then Restore(t', man, load[1..], dest, parse) else (t', man, NotWritten(load[0].name)))
  {
    if LetIn(dest, load[0].name) { LetInHasTarget(dest, load[0].name); }
    hide LetIn, Down, Target, Write;
  }

  lemma FilledFirst(t: Tree, load: seq<Entry>, dest: Path)
    requires AllRegular(load)
    ensures load == [] ==> Filled(t, load, dest) == t
    ensures load != [] ==>
              var p := dest.segs + Down(load[0].name);
              Filled(t, load, dest) == Filled(Tree(t.files[p := load[0].data], t.dirs + Ancestors(p)), load[1..], dest)
  {
    hide Down, Ancestors;
  }

  lemma {:induction false} WritesSome(t: Tree, load: seq<Entry>, dest: Path, k: nat) returns (n: nat)
    requires AllRegular(load) && k <= |Reached(load, dest)| <= |load|
    requires AllRegular(load[..k]) && Clear(t, Targets(load[..k], dest))
    ensures Writes(t, load, dest, n)
    decreases |load| - k
  {
    hide Clear, Reached, Targets;
    ReachedIsPrefix(load, dest);
    if k < |Reached(load, dest)| && Clear(t, Targets(load[..k + 1], dest)) {
      n := WritesSome(t, load, dest, k + 1);
    } else {
      n := k;
    }
  }

  /** Places are clear exactly if each is free when the entries before it have been written. */
  lemma {:induction false} ClearIffFree(t: Tree, load: seq<Entry>, dest: Path)
    requires AllRegular(load)
    ensures Clear(t, Targets(load, dest)) <==>
      forall n :: 0 <= n < |load| ==> FreeWhenReached(t, load, dest, n)
    decreases |load|
  {
    hide Free, Apart, Down, Ancestors, Filled, Clear;
    if load == [] {
      NothingIsClear(t);
      assert Targets(load, dest) == [];
    } else {
      var p, rest := dest.segs + Down(load[0].name), load[1..];
      var t1 := Tree(t.files[p := load[0].data], t.dirs + Ancestors(p));
      TargetsCons(load, dest);
      ClearCons(t, p, Targets(rest, dest));
      ClearAfterWrite(t, p, load[0].data, Targets(rest, dest));
      ClearIffFree(t1, rest, dest);
      FilledFirst(t, load[..0], dest);
      assert FreeWhenReached(t, load, dest, 0) <==> Free(t, p);
      forall n | 0 <= n < |rest| ensures FreeWhenReached(t, load, dest, n + 1) <==> FreeWhenReached(t1, rest, dest, n) {
        FilledFirst(t, load[..n + 1], dest);
        assert load[..n + 1][1..] == rest[..n];
      }
      hide FreeWhenReached;
      if forall n :: 0 <= n < |rest| ==> FreeWhenReached(t1, rest, dest, n) {
        forall n | 0 < n < |load| ensures FreeWhenReached(t, load, dest, n) {
          assert FreeWhenReached(t1, rest, dest, n - 1);
        }
      }
    }
  }

  /** The n-th entry finds its place free when it is reached. */
  predicate FreeWhenReached(t: Tree, load: seq<Entry>, dest: Path, n: nat)
    requires AllRegular(load) && n < |load|
  {
    Free(Filled(t, load[..n], dest), dest.segs + Down(load[n].name))
  }

  /** How a restore of a readable archive ends. It stops at the first entry that is not let in or whose
      place is taken, and says which of the two; the entries before it are written. If there is none,
      everything is written. */
  lemma RestoreEnds(t: Tree, man: Manifest, archive: seq<Entry>, dest: Path, parse: Bytes -> Option<Manifest>)
    returns (n: nat)
    requires WellFormed(dest) && Readable(archive)
    ensures AllRegular(Payload(archive)) && Writes(t, Payload(archive), dest, n)
    ensures n <= |Payload(archive)| && AllRegular(Payload(archive)[..n])
    ensures var load := Payload(archive);
      var (t', man', outcome) := Restore(t, man, archive, dest, parse);
      && t'.files == Filled(t, load[..n], dest).files
      && (n == |load| ==>
            outcome == Restored && t' == Filled(t, load, dest) && man' == LastManifest(man, archive, parse))
      && (n < |load| ==> outcome == (if LetIn(dest, load[n].name) then NotWritten(load[n].name)
                                     else Refused(load[n].name)))
  {
    hide LetIn, Clear, Restore, Filled, Payload, Writes, Reached;
    PayloadIsRegular(archive);
    PayloadHasNoManifests(archive);
    PayloadDecides(t, man, archive, dest, parse);
    ReachedIsPrefix(Payload(archive), dest);
    assert Payload(archive)[..0] == [];
    NothingIsClear(t);
    assert Targets([], dest) == [];
    n := WritesSome(t, Payload(archive), dest, 0);
    LoadEnds(t, man, Payload(archive), dest, parse, n);
  }

  lemma ReachedAllIff(load: seq<Entry>, dest: Path)
    requires AllRegular(load)
    ensures AllLetIn(load, dest) <==> |Reached(load, dest)| == |load|
    ensures |Reached(load, dest)| < |load| ==> !LetIn(dest, load[|Reached(load, dest)|].name)
    ensures forall i :: 0 <= i < |Reached(load, dest)| <= |load| ==> LetIn(dest, load[i].name)
    decreases |load|
  {
    hide LetIn;
    if load != [] && LetIn(dest, load[0].name) { ReachedAllIff(load[1..], dest); }
  }

  /** For every readable archive and whatever is at the destination: something cannot be written exactly if
      the places of the entries before the first one not let in are not clear; if they are, the restore is
      refused exactly if some entry is not let in. */
  lemma RestoreFailsIff(t: Tree, man: Manifest, archive: seq<Entry>, dest: Path, parse: Bytes -> Option<Manifest>)
    requires WellFormed(dest) && Readable(archive)
    ensures AllRegular(Payload(archive))
    ensures var load, outcome := Payload(archive), Restore(t, man, archive, dest, parse).2;
      && (outcome.NotWritten? <==> !Unclashing(t, load, dest))
      && (outcome.Refused? <==> Unclashing(t, load, dest) && !AllLetIn(load, dest))
      && (outcome == Restored <==> Unclashing(t, load, dest) && AllLetIn(load, dest))
  {
    hide Restore, Payload, LetIn, Clear, Reached, Filled;
    var n := RestoreEnds(t, man, archive, dest, parse);
    var load := Payload(archive);
    ReachedIsPrefix(load, dest);
    ReachedAllIff(load, dest);
    var got := Reached(load, dest);
    assert load[..|got|] == got;
    if n < |got| {
      assert Targets(load[..n + 1], dest) <= Targets(got, dest);
      if Clear(t, Targets(got, dest)) { PrefixIsClear(t, Targets(load[..n + 1], dest), Targets(got, dest)); }
    }
  }

  lemma {:induction false} RestoredIsReadable(
    t: Tree, man: Manifest, archive: seq<Entry>, dest: Path, parse: Bytes -> Option<Manifest>)
    requires WellFormed(dest) && Restore(t, man, archive, dest, parse).2 == Restored
    ensures Readable(archive)
    decreases |archive|
  {
    hide LetIn, Write, Target, Updated;
    if archive != [] {
      var e, rest := archive[0], archive[1..];
      assert archive == [e] + rest;
      if e.Regular? && e.name != MANIFEST_NAME {
        LetInHasTarget(dest, e.name);
        RestoredIsReadable(Write(t, Target(dest, e.name), e.data).0, man, rest, dest, parse);
      } else {
        RestoredIsReadable(t, if e.Regular? then Updated(man, e.data, parse) else man, rest, dest, parse);
      }
    }
  }

  /** A file is there after filling exactly if it was before or is a target; and so with directories. */
  lemma {:induction false} FilledHas(t: Tree, load: seq<Entry>, dest: Path, q: Place)
    requires AllRegular(load)
    ensures var t', targets := Filled(t, load, dest), Targets(load, dest);
      && (q in t'.files <==> q in t.files || q in targets)
      && (q in t.files && q !in targets ==> t'.files[q] == t.files[q])
      && (q in t'.dirs <==> q in t.dirs || exists i :: 0 <= i < |targets| && q <= targets[i] && q != targets[i])
    decreases |load|
  {
    hide Down, Ancestors, Filled;
    FilledFirst(t, load, dest);
    if load != [] {
      var p, rest := dest.segs + Down(load[0].name), load[1..];
      TargetsCons(load, dest);
      AncestorIff(q, p);
      FilledHas(Tree(t.files[p := load[0].data], t.dirs + Ancestors(p)), rest, dest, q);
      var targets, ps := Targets(load, dest), Targets(rest, dest);
      hide Targets;
      assert targets[0] == p && forall i :: 0 <= i < |ps| ==> targets[i + 1] == ps[i];
    }
  }

  lemma {:induction false} FilledHolds(t: Tree, load: seq<Entry>, dest: Path, i: nat)
    requires AllRegular(load) && i < |load| && Clear(t, Targets(load, dest))
    ensures var t', p := Filled(t, load, dest), Targets(load, dest)[i];
      p !in t.files && p in t'.files && t'.files[p] == load[i].data
    decreases |load|
  {
    hide Down, Ancestors, Filled;
    FilledFirst(t, load, dest);
    TargetsCons(load, dest);
    var p, rest := dest.segs + Down(load[0].name), load[1..];
    var t1, ps := Tree(t.files[p := load[0].data], t.dirs + Ancestors(p)), Targets(rest, dest);
    hide Targets;
    ClearCons(t, p, ps);
    ClearAfterWrite(t, p, load[0].data, ps);
    if i > 0 {
      FilledHolds(t1, rest, dest, i - 1);
    } else {
      FilledHas(t1, rest, dest, p);
      hide Free;
      forall j | 0 <= j < |ps| ensures ps[j] != p { assert Apart(p, ps[j]); }
    }
  }

  /** Whatever the archive and whatever is at the destination: all is restored exactly if every entry can be
      read and is let in, and none finds its place taken. Then each entry's data is at its target, where no
      file was before and no other entry's is, and nothing else is new but the directories above. */
  lemma RestoredIff(t: Tree, man: Manifest, archive: seq<Entry>, dest: Path, parse: Bytes -> Option<Manifest>)
    requires WellFormed(dest)
    ensures AllRegular(Payload(archive))
    ensures var load := Payload(archive);
      var (t', _, outcome) := Restore(t, man, archive, dest, parse);
      var targets := Targets(load, dest);
      && (outcome == Restored <==> Readable(archive) && AllLetIn(load, dest) && Clear(t, targets))
      && (outcome == Restored ==>
            && (forall i :: 0 <= i < |load| ==>
                  targets[i] !in t.files && targets[i] in t'.files && t'.files[targets[i]] == load[i].data)
            && (forall i, j :: 0 <= i < j < |load| ==> targets[i] != targets[j])
            && (forall q :: q in t'.files <==> q in t.files || q in targets)
            && (forall q :: q in t.files ==> t'.files[q] == t.files[q])
            && (forall q :: q in t'.dirs <==> q in t.dirs || exists i :: 0 <= i < |load| && q < targets[i]))
  {
    hide Restore, Payload, LetIn, Reached, Filled, Targets, Readable;
    PayloadIsRegular(archive);
    var load := Payload(archive);
    if Restore(t, man, archive, dest, parse).2 == Restored { RestoredIsReadable(t, man, archive, dest, parse); }
    if Readable(archive) {
      RestoreFailsIff(t, man, archive, dest, parse);
      ReachedIsPrefix(load, dest);
      if AllLetIn(load, dest) && Clear(t, Targets(load, dest)) {
        var n := RestoreEnds(t, man, archive, dest, parse);
        RestoredTree(t, load, dest);
      }
    }
  }

  lemma RestoredTree(t: Tree, load: seq<Entry>, dest: Path)
    requires AllRegular(load) && Clear(t, Targets(load, dest))
    ensures var t', targets := Filled(t, load, dest), Targets(load, dest);
      && (forall i :: 0 <= i < |load| ==>
            targets[i] !in t.files && targets[i] in t'.files && t'.files[targets[i]] == load[i].data)
      && (forall i, j :: 0 <= i < j < |load| ==> targets[i] != targets[j])
      && (forall q :: q in t'.files <==> q in t.files || q in targets)
      && (forall q :: q in t.files ==> t'.files[q] == t.files[q])
      && (forall q :: q in t'.dirs <==> q in t.dirs || exists i :: 0 <= i < |load| && q < targets[i])
  {
    hide Filled, Down, Free;
    var t', targets := Filled(t, load, dest), Targets(load, dest);
    forall i | 0 <= i < |load|
      ensures targets[i] !in t.files && targets[i] in t'.files && t'.files[targets[i]] == load[i].data
    {
      FilledHolds(t, load, dest, i);
    }
    forall i, j | 0 <= i < j < |load| ensures targets[i] != targets[j] { assert Apart(targets[i], targets[j]); }
    forall q ensures q in t'.files <==> q in t.files || q in targets { FilledHas(t, load, dest, q); }
    forall q | q in t.files ensures t'.files[q] == t.files[q] { FilledHas(t, load, dest, q); }
    forall q ensures q in t'.dirs <==> q in t.dirs || exists i :: 0 <= i < |load| && q < targets[i] {
      FilledHas(t, load, dest, q);
    }
  }

  /** A restore that succeeds on the first part goes on with the rest as if it began there; one that does
      not never sees the rest. */
  lemma {:induction false} RestoreConcat(
    t: Tree, man: Manifest, a: seq<Entry>, b: seq<Entry>, dest: Path, parse: Bytes -> Option<Manifest>)
    requires WellFormed(dest)
    ensures var (t', man', outcome) := Restore(t, man, a, dest, parse);
      Restore(t, man, a + b, dest, parse)
      == if outcome == Restored then Restore(t', man', b, dest, parse) else (t', man', outcome)
    decreases |a|
  {
    hide LetIn, Write, Target, Updated;
    if a == [] {
      assert a + b == b;
    } else {
      var e, rest := a[0], a[1..];
      assert (a + b)[1..] == rest + b;
      match e {
        case Damaged =>
        case Cut(name, data) => if name != MANIFEST_NAME && LetIn(dest, name) { LetInHasTarget(dest, name); }
        case Special(_) => RestoreConcat(t, man, rest, b, dest, parse);
        case Regular(name, data) =>
          if name == MANIFEST_NAME {
            RestoreConcat(t, Updated(man, data, parse), rest, b, dest, parse);
          } else if LetIn(dest, name) {
            LetInHasTarget(dest, name);
            RestoreConcat(Write(t, Target(dest, name), data).0, man, rest, b, dest, parse);
          }
      }
    }
  }

  /** An archive that breaks off after `before` was restored ends the restore there: with an entry not let
      in it is refused, at a taken place nothing is written, and otherwise what was read of the body stays
      behind under the entry's name. */
  lemma BrokenOffArchive(t: Tree, man: Manifest, before: seq<Entry>, e: Entry, behind: seq<Entry>, dest: Path,
      parse: Bytes -> Option<Manifest>)
    requires WellFormed(dest) && (e.Damaged? || e.Cut?) && Restore(t, man, before, dest, parse).2 == Restored
    ensures var t1 := Restore(t, man, before, dest, parse).0;
      var (t', _, outcome) := Restore(t, man, before + [e] + behind, dest, parse);
      if e.Damaged? || e.name == MANIFEST_NAME then t' == t1 && outcome == Unreadable
      else if !LetIn(dest, e.name) then t' == t1 && outcome == Refused(e.name)
      else
        var p := dest.segs + Down(e.name);
        if Free(t1, p) then t'.files == t1.files[p := e.data] && outcome == Unreadable
        else t'.files == t1.files && outcome == NotWritten(e.name)
  {
    var (t1, man1, _) := Restore(t, man, before, dest, parse);
    assert before + [e] + behind == before + ([e] + behind);
    RestoreConcat(t, man, before, [e] + behind, dest, parse);
    assert ([e] + behind)[0] == e;
    if e.Cut? && e.name != MANIFEST_NAME && LetIn(dest, e.name) {
      LetInHasTarget(dest, e.name);
      WriteSucceedsIff(t1, dest.segs + Down(e.name), e.data);
    }
    hide LetIn, Write, Target, Down, Free, Updated;
  }

  /** If what it writes does not clash, a readable archive is refused exactly if some entry is not let
      in; otherwise every entry's data ends up at its target. */
  lemma RestoreWhenClear(
    t: Tree, man: Manifest, archive: seq<Entry>, dest: Path, parse: Bytes -> Option<Manifest>)
    requires WellFormed(dest) && Readable(archive) && AllRegular(Payload(archive))
    requires Unclashing(t, Payload(archive), dest)
    ensures AllLetIn(Payload(archive), dest) ==>
              Restore(t, man, archive, dest, parse)
              == (Filled(t, Payload(archive), dest), LastManifest(man, archive, parse), Restored)
    ensures !AllLetIn(Payload(archive), dest) ==> Restore(t, man, archive, dest, parse).2.Refused?
  {
    RestoreFailsIff(t, man, archive, dest, parse);
    var n := RestoreEnds(t, man, archive, dest, parse);
    hide *;
  }

  // ---------- inspecting ----------

  datatype Listed = Listed(name: string, size: nat, ok: bool)

  datatype Inspection = Inspected(man: Manifest, entries: seq<Listed>) | BadManifest | BadArchive

  function Listing(entries: seq<Entry>): seq<Listed>
    requires AllRegular(entries)
  {
    seq(|entries|, i requires 0 <= i < |entries| =>
      Listed(entries[i].name, |entries[i].data|, IsAllowed(entries[i].name)))
  }

  /** One line an entry, in the archive's order, with its name, the size of its body, and whether its name
      would be let in. */
  lemma ListingShows(load: seq<Entry>, i: nat)
    requires AllRegular(load) && i < |load|
    ensures |Listing(load)| == |load| && Listing(load)[i].name == load[i].name
    ensures Listing(load)[i].size == |load[i].data|
    ensures Listing(load)[i].ok <==>
      !Contains(load[i].name, "..") && ("journal/" <= load[i].name || "catalog/" <= load[i].name)
  {
    AllowedIff(load[i].name);
    hide Contains, IsAllowed;
  }

  /** The entry can be read, and parses if it is a manifest. */
  predicate Reads(e: Entry, parse: Bytes -> Option<Manifest>) {
    !e.Damaged? && !e.Cut? && (IsManifest(e) ==> parse(e.data).Some?)
  }

  predicate AllRead(archive: seq<Entry>, parse: Bytes -> Option<Manifest>) {
    forall i :: 0 <= i < |archive| ==> Reads(archive[i], parse)
  }

  /** The i-th entry is the first that cannot be read or, as a manifest, not parsed. */
  predicate StopsAt(archive: seq<Entry>, i: nat, parse: Bytes -> Option<Manifest>)
    requires i < |archive|
  {
    !Reads(archive[i], parse) && forall k :: 0 <= k < i ==> Reads(archive[k], parse)
  }

  lemma StopsIff(archive: seq<Entry>, i: nat, parse: Bytes -> Option<Manifest>)
    requires i < |archive| && forall k :: 0 <= k < i ==> Reads(archive[k], parse)
    ensures StopsAt(archive, i, parse) <==> !Reads(archive[i], parse)
  {}

  /** Inspection succeeds exactly on a readable archive whose manifests parse, and then lists
      every other regular entry with its size and whether restore would let it in. */
  method InspectBackup(archive: seq<Entry>, parse: Bytes -> Option<Manifest>) returns (r: Inspection)
    ensures r.Inspected? <==> AllRead(archive, parse)
    ensures r.Inspected? ==> r.man == LastManifest(NO_MANIFEST, archive, parse)
    ensures r.Inspected? ==> AllRegular(Payload(archive)) && r.entries == Listing(Payload(archive))
    ensures !r.Inspected? ==>
              exists i :: 0 <= i < |archive| && StopsAt(archive, i, parse) && (r.BadManifest? <==> archive[i].Regular?)
  {
    var man, entries := NO_MANIFEST, [];
    PayloadIsRegular(archive);
    ScanStarts(archive, parse);
    var i := 0;
    hide *;
    while i < |archive|
      invariant 0 <= i <= |archive|
      invariant forall k :: 0 <= k < i ==> Reads(archive[k], parse)
      invariant Scanned(archive, i, man, entries, parse)
    {
      var e := archive[i];
      ScanStep(archive, i, man, entries, parse);
      ReadsIff(archive, i, parse);
      StopsIff(archive, i, parse);
      if e.Damaged? || e.Cut? {
        return BadArchive;
      } else if IsManifest(e) {
        if parse(e.data).None? { return BadManifest; }
        man := parse(e.data).value;
      } else if e.Regular? {
        var ok := IsAllowedBackupPath(e.name);
        entries := entries + [Listed(e.name, |e.data|, ok)];
      }
      i := i + 1;
    }
    ScanEnds(archive, man, entries, parse);
    return Inspected(man, entries);
  }

  /** Having read `i` entries, the manifest and the list so far are what the rest completes. */
  ghost predicate Scanned(archive: seq<Entry>, i: nat, man: Manifest, entries: seq<Listed>,
      parse: Bytes -> Option<Manifest>)
    requires i <= |archive|
  {
    && AllRegular(Payload(archive)) && AllRegular(Payload(archive[i..]))
    && LastManifest(NO_MANIFEST, archive, parse) == LastManifest(man, archive[i..], parse)
    && Listing(Payload(archive)) == entries + Listing(Payload(archive[i..]))
  }

  lemma ScanStarts(archive: seq<Entry>, parse: Bytes -> Option<Manifest>)
    ensures Scanned(archive, 0, NO_MANIFEST, [], parse)
  {
    PayloadIsRegular(archive);
    assert archive[0..] == archive;
  }

  lemma ScanStep(archive: seq<Entry>, i: nat, man: Manifest, entries: seq<Listed>, parse: Bytes -> Option<Manifest>)
    requires i < |archive| && Scanned(archive, i, man, entries, parse)
    ensures var e := archive[i];
      && (e.Special? ==> !IsManifest(e) && Scanned(archive, i + 1, man, entries, parse))
      && (IsManifest(e) && parse(e.data).Some? ==> Scanned(archive, i + 1, parse(e.data).value, entries, parse))
      && (e.Regular? && !IsManifest(e) ==>
            Scanned(archive, i + 1, man, entries + [Listed(e.name, |e.data|, IsAllowed(e.name))], parse))
  {
    OneMoreEntry(archive[i..], man, parse);
    assert archive[i..][1..] == archive[i + 1..] && archive[i..][0] == archive[i];
  }

  lemma ScanEnds(archive: seq<Entry>, man: Manifest, entries: seq<Listed>, parse: Bytes -> Option<Manifest>)
    requires Scanned(archive, |archive|, man, entries, parse)
    requires forall k :: 0 <= k < |archive| ==> Reads(archive[k], parse)
    ensures AllRead(archive, parse) && AllRegular(Payload(archive))
    ensures man == LastManifest(NO_MANIFEST, archive, parse) && entries == Listing(Payload(archive))
  {
    hide LastManifest, Payload, Listing, Reads;
    assert archive[|archive|..] == [];
    NothingListed(man, parse);
    assert entries + [] == entries;
  }

  lemma ReadsIff(archive: seq<Entry>, i: nat, parse: Bytes -> Option<Manifest>)
    requires i < |archive|
    ensures IsManifest(archive[i]) ==> archive[i].Regular?
    ensures !Reads(archive[i], parse) ==> !AllRead(archive, parse)
    ensures Reads(archive[i], parse) <==>
              && !archive[i].Damaged? && !archive[i].Cut?
              && (archive[i].Regular? && IsManifest(archive[i]) ==> parse(archive[i].data).Some?)
  {}

  lemma NothingListed(man: Manifest, parse: Bytes -> Option<Manifest>)
    ensures LastManifest(man, [], parse) == man && Listing(Payload([])) == []
  {}

  lemma OneMoreEntry(archive: seq<Entry>, man: Manifest, parse: Bytes -> Option<Manifest>)
    requires archive != [] && AllRegular(Payload(archive))
    ensures AllRegular(Payload(archive[1..]))
    ensures var e := archive[0];
      && LastManifest(man, archive, parse)
         == LastManifest(if IsManifest(e) then Updated(man, e.data, parse) else man, archive[1..], parse)
      && Listing(Payload(archive))
         == (if e.Regular? && !IsManifest(e) then [Listed(e.name, |e.data|, IsAllowed(e.name))] else [])
            + Listing(Payload(archive[1..]))
  {
    PayloadIsRegular(archive[1..]);
    hide IsAllowed;
    if archive[0].Regular? { ListingCons(archive[0], Payload(archive[1..])); }
  }

  lemma ListingCons(e: Entry, rest: seq<Entry>)
    requires e.Regular? && AllRegular(rest)
    ensures Listing([e] + rest) == [Listed(e.name, |e.data|, IsAllowed(e.name))] + Listing(rest)
  {
    hide IsAllowed;
  }

  /** On a readable archive restored into a named home, if what restore writes before it meets a flagged
      entry does not clash, inspection flags an entry exactly if restore refuses the archive. */
  lemma FlaggedIffRefused(t: Tree, archive: seq<Entry>, dest: Path, parse: Bytes -> Option<Manifest>)
    requires WellFormed(dest) && Named(dest) && Readable(archive) && AllRegular(Payload(archive))
    requires Unclashing(t, Payload(archive), dest)
    ensures (exists l :: l in Listing(Payload(archive)) && !l.ok)
       <==> Restore(t, NO_MANIFEST, archive, dest, parse).2.Refused?
    ensures Restore(t, NO_MANIFEST, archive, dest, parse).2 in {Restored}
         || Restore(t, NO_MANIFEST, archive, dest, parse).2.Refused?
  {
    RestoreWhenClear(t, NO_MANIFEST, archive, dest, parse);
    FlaggedIffNotLetIn(Payload(archive), dest);
    hide Restore, Payload, Clear, Listing, AllLetIn;
  }

  lemma FlaggedIffNotLetIn(load: seq<Entry>, dest: Path)
    requires WellFormed(dest) && Named(dest) && AllRegular(load)
    ensures (exists l :: l in Listing(load) && !l.ok) <==> !AllLetIn(load, dest)
  {
    forall i | 0 <= i < |load| ensures LetIn(dest, load[i].name) <==> Listing(load)[i].ok {
      LetInIff(dest, load[i].name);
    }
    hide LetIn, IsAllowed;
    if AllLetIn(load, dest) {
      forall l | l in Listing(load) ensures l.ok {
        var i :| 0 <= i < |load| && Listing(load)[i] == l;
        assert LetIn(dest, load[i].name);
      }
    } else {
      var i :| 0 <= i < |load| && !LetIn(dest, load[i].name);
      assert Listing(load)[i] in Listing(load);
    }
  }

  /** Restore's two tests come down to inspection's one, unless the destination is "." or "/". */
  lemma LetInIff(dest: Path, name: string)
    requires WellFormed(dest)
    ensures LetIn(dest, name) <==> IsAllowed(name) && Named(dest)
  {
    if IsAllowed(name) {
      AllowedStaysDown(name, dest);
      InsideIff(dest, Down(name));
    }
  }

  /** Restoring to "." or "/" refuses the first file of any archive. */
  lemma UnnamedHomeRefusesAll(t: Tree, archive: seq<Entry>, dest: Path, parse: Bytes -> Option<Manifest>)
    requires WellFormed(dest) && !Named(dest) && Readable(archive) && Payload(archive) != []
    ensures Restore(t, NO_MANIFEST, archive, dest, parse).2.Refused?
    ensures Restore(t, NO_MANIFEST, archive, dest, parse).0 == t
  {
    NothingLetIn(t, NO_MANIFEST, archive, dest, parse);
  }

  lemma {:induction false} NothingLetIn(
    t: Tree, man: Manifest, archive: seq<Entry>, dest: Path, parse: Bytes -> Option<Manifest>)
    requires WellFormed(dest) && !Named(dest) && Readable(archive) && Payload(archive) != []
    ensures Restore(t, man, archive, dest, parse).2.Refused? && Restore(t, man, archive, dest, parse).0 == t
    decreases |archive|
  {
    var e, rest := archive[0], archive[1..];
    if e.Regular? && e.name != MANIFEST_NAME {
      LetInIff(dest, e.name);
    } else {
      assert Readable(rest);
      NothingLetIn(t, if e.Regular? then Updated(man, e.data, parse) else man, rest, dest, parse);
    }
  }

  // ---------- creating ----------

  /** A home directory as the operating system keeps it: proper names, files below directories. */
  predicate WellKept(home: Tree) {
    forall p :: p in home.files ==>
      && p != [] && AllNames(p)
      && forall k :: 0 <= k < |p| ==> p[..k] in home.dirs && p[..k] !in home.files
  }

  predicate Included(home: Tree, p: Place) { p in home.files && |p| > 1 && p[0] in INCLUDE_DIRS }

  predicate AllIncluded(home: Tree, order: seq<Place>) { forall i :: 0 <= i < |order| ==> Included(home, order[i]) }

  /** `walk` visits the files below `d`, each once, in some order. */
  ghost predicate Walks(home: Tree, d: string, walk: seq<Place>) {
    && (forall i :: 0 <= i < |walk| ==> walk[i] in home.files && |walk[i]| > 1 && walk[i][0] == d)
    && (forall p :: p in home.files && |p| > 1 && p[0] == d ==> p in walk)
    && (forall i, j :: 0 <= i < j < |walk| ==> walk[i] != walk[j])
  }

  function FileEntry(home: Tree, p: Place): Entry
    requires p in home.files
  {
    Regular(Join(p), home.files[p])
  }

  function FileEntries(home: Tree, order: seq<Place>): (r: seq<Entry>)
    requires AllIncluded(home, order)
    ensures |r| == |order| && AllRegular(r)
  {
    seq(|order|, i requires 0 <= i < |order| => FileEntry(home, order[i]))
  }

  /** `order` lists the included files, each once. */
  ghost predicate ListsIncluded(home: Tree, order: seq<Place>) {
    && AllIncluded(home, order)
    && (forall p :: Included(home, p) ==> p in order)
    && (forall i, j :: 0 <= i < j < |order| ==> order[i] != order[j])
  }

  /** The subtrees present are archived behind a manifest that names them: every file below
      them, once, as it is; and nothing else of the home. It succeeds exactly if every such file can
      be read and its entry written (`copies`), and the manifest written and the archive closed
      (`framed`). */
  method CreateBackup(home: Tree, walk: string -> seq<Place>, headSeq: int, headHash: string, now: int,
                      encode: Manifest -> Bytes, copies: Place -> bool, framed: bool)
    returns (ok: bool, archive: seq<Entry>, man: Manifest, ghost order: seq<Place>)
    requires WellKept(home) && forall d :: d in INCLUDE_DIRS ==> Walks(home, d, walk(d))
    ensures ok <==> framed && forall p :: Included(home, p) ==> copies(p)
    ensures ok ==> ListsIncluded(home, order) && order == Walked(walk, man.includes)
    ensures ok ==> archive == [Regular(MANIFEST_NAME, encode(man))] + FileEntries(home, order)
    ensures man == Manifest(Filter(INCLUDE_DIRS, PresentIn(home)), headSeq, headHash, now)
  {
    var included := PresentSubtrees(home);
    man := Manifest(included, headSeq, headHash, now);
    forall d | d in included ensures Walks(home, d, walk(d)) {}
    ok, archive, order := ArchiveSubtrees(home, included, walk, [Regular(MANIFEST_NAME, encode(man))], copies);
    if ok {
      ListsUnderAll(home, included, order);
      forall p | Included(home, p) ensures copies(p) {
        var i :| 0 <= i < |order| && order[i] == p;
      }
    }
    ok := ok && framed;
  }

  function PresentIn(home: Tree): string -> bool { d => [d] in home.dirs }

  function Walked(walk: string -> seq<Place>, dirs: seq<string>): seq<Place> {
    if dirs == [] then [] else Walked(walk, dirs[..|dirs| - 1]) + walk(dirs[|dirs| - 1])
  }

  lemma WalkedSnoc(walk: string -> seq<Place>, dirs: seq<string>, n: nat)
    requires n < |dirs|
    ensures Walked(walk, dirs[..n + 1]) == Walked(walk, dirs[..n]) + walk(dirs[n])
  {
    assert dirs[..n + 1][..n] == dirs[..n];
  }

  method ArchiveSubtrees(home: Tree, included: seq<string>, walk: string -> seq<Place>, before: seq<Entry>,
                         copies: Place -> bool)
    returns (ok: bool, archive: seq<Entry>, ghost order: seq<Place>)
    requires forall d :: d in included ==> d in INCLUDE_DIRS && Walks(home, d, walk(d))
    requires forall a, b :: 0 <= a < b < |included| ==> included[a] != included[b]
    ensures ok ==> AllIncluded(home, order) && ListsUnder(home, included, order) && order == Walked(walk, included)
    ensures ok ==> archive == before + FileEntries(home, order) && forall i :: 0 <= i < |order| ==> copies(order[i])
    ensures !ok ==> exists p :: Included(home, p) && !copies(p)
  {
    archive, order := before, [];
    FileEntriesNone(home);
    assert ListsUnder(home, included[..0], order) && order == Walked(walk, included[..0]);
    hide *;
    for i := 0 to |included|
      invariant AllIncluded(home, order) && ListsUnder(home, included[..i], order)
      invariant order == Walked(walk, included[..i])
      invariant archive == before + FileEntries(home, order)
      invariant forall k :: 0 <= k < |order| ==> copies(order[k])
    {
      var d := included[i];
      OneMoreSubtree(home, included, i, walk(d), order);
      ok, archive := ArchiveSubtree(home, walk(d), archive, copies);
      if !ok { return; }
      FileEntriesConcat(home, before, order, walk(d));
      WalkedSnoc(walk, included, i);
      order := order + walk(d);
    }
    assert included[..|included|] == included;
    ok := true;
  }

  method PresentSubtrees(home: Tree) returns (included: seq<string>)
    ensures forall d :: d in included <==> d in INCLUDE_DIRS && [d] in home.dirs
    ensures forall a, b :: 0 <= a < b < |included| ==> included[a] != included[b]
    ensures included == Filter(INCLUDE_DIRS, PresentIn(home))
  {
    included := [];
    hide Filter;
    assert INCLUDE_DIRS[..0] == [];
    FilterNone([], PresentIn(home));
    for i := 0 to |INCLUDE_DIRS|
      invariant included == Filter(INCLUDE_DIRS[..i], PresentIn(home))
      invariant forall d :: d in included <==> d in INCLUDE_DIRS[..i] && [d] in home.dirs
      invariant forall a, b :: 0 <= a < b < |included| ==> included[a] != included[b]
    {
      assert INCLUDE_DIRS[..i + 1] == INCLUDE_DIRS[..i] + [INCLUDE_DIRS[i]];
      assert INCLUDE_DIRS[i] !in INCLUDE_DIRS[..i];
      FilterSnoc(INCLUDE_DIRS[..i], INCLUDE_DIRS[i], PresentIn(home));
      if [INCLUDE_DIRS[i]] in home.dirs { included := included + [INCLUDE_DIRS[i]]; }
    }
    assert INCLUDE_DIRS[..|INCLUDE_DIRS|] == INCLUDE_DIRS;
  }

  /** `order` lists the included files below `dirs`, each once. */
  ghost predicate ListsUnder(home: Tree, dirs: seq<string>, order: seq<Place>) {
    && AllIncluded(home, order)
    && (forall i :: 0 <= i < |order| ==> order[i][0] in dirs)
    && (forall p :: Included(home, p) && p[0] in dirs ==> p in order)
    && (forall i, j :: 0 <= i < j < |order| ==> order[i] != order[j])
  }

  lemma OneMoreSubtree(home: Tree, included: seq<string>, n: nat, walk: seq<Place>, order: seq<Place>)
    requires n < |included| && included[n] in INCLUDE_DIRS && Walks(home, included[n], walk)
    requires forall a, b :: 0 <= a < b < |included| ==> included[a] != included[b]
    requires ListsUnder(home, included[..n], order)
    ensures AllIncluded(home, walk) && AllIncluded(home, order + walk)
    ensures ListsUnder(home, included[..n + 1], order + walk)
  {
    var d := included[n];
    assert included[..n + 1] == included[..n] + [d] && d !in included[..n];
    assert AllIncluded(home, walk);
    forall i, j | 0 <= i < |order| && 0 <= j < |walk| ensures order[i] != walk[j] {
      assert order[i][0] in included[..n] && walk[j][0] == d;
    }
  }

  lemma ListsUnderAll(home: Tree, included: seq<string>, order: seq<Place>)
    requires WellKept(home) && ListsUnder(home, included, order)
    requires forall d :: d in included <==> d in INCLUDE_DIRS && [d] in home.dirs
    ensures ListsIncluded(home, order)
  {
    forall p | Included(home, p) ensures p in order {
      assert p[..1] in home.dirs && p[..1] == [p[0]];
    }
  }

  method ArchiveSubtree(home: Tree, walk: seq<Place>, before: seq<Entry>, copies: Place -> bool)
    returns (ok: bool, archive: seq<Entry>)
    requires AllIncluded(home, walk)
    ensures ok ==> archive == before + FileEntries(home, walk) && forall i :: 0 <= i < |walk| ==> copies(walk[i])
    ensures !ok ==> exists p :: Included(home, p) && !copies(p)
  {
    archive := before;
    for i := 0 to |walk|
      invariant archive == before + FileEntries(home, walk[..i])
      invariant forall k :: 0 <= k < i ==> copies(walk[k])
    {
      if !copies(walk[i]) {
        assert Included(home, walk[i]);
        return false, archive;
      }
      assert FileEntries(home, walk[..i + 1]) == FileEntries(home, walk[..i]) + [FileEntry(home, walk[i])];
      archive := archive + [Regular(Join(walk[i]), home.files[walk[i]])];
    }
    assert walk[..|walk|] == walk;
    ok := true;
  }

  lemma FileEntriesNone(home: Tree)
    ensures AllIncluded(home, []) && FileEntries(home, []) == []
  {}

  lemma FileEntriesConcat(home: Tree, before: seq<Entry>, a: seq<Place>, b: seq<Place>)
    requires AllIncluded(home, a) && AllIncluded(home, b)
    ensures AllIncluded(home, a + b)
    ensures before + FileEntries(home, a + b) == before + FileEntries(home, a) + FileEntries(home, b)
  {
    assert FileEntries(home, a + b) == FileEntries(home, a) + FileEntries(home, b);
  }

  // ---------- there and back ----------

  /** Nothing yet at or below the included subtrees of the destination, and no file above. */
  ghost predicate Fresh(t: Tree, dest: Path) {
    && !Blocked(t, dest.segs)
    && forall p, d :: (p in t.files || p in t.dirs) && d in INCLUDE_DIRS ==> !(dest.segs + [d] <= p)
  }

  /** Every included path spelled without "..". */
  ghost predicate NoDots(home: Tree) { forall p :: Included(home, p) ==> !Contains(Join(p), "..") }

  /** The destination's files, and the home's included files below it. */
  ghost predicate Reproduces(home: Tree, t: Tree, t': Tree, dest: Path) {
    && (forall p :: Included(home, p) ==> dest.segs + p in t'.files && t'.files[dest.segs + p] == home.files[p])
    && (forall q :: q in t'.files ==> q in t.files || exists p :: Included(home, p) && q == dest.segs + p)
    && (forall q :: q in t.files ==> q in t'.files && t'.files[q] == t.files[q])
  }

  /** An included file's entry goes to the file's own place; it is let in unless its path
      contains "..". */
  lemma EntryGoesHome(home: Tree, p: Place)
    requires WellKept(home) && Included(home, p)
    ensures Down(Join(p)) == p && Join(p) != MANIFEST_NAME
    ensures IsAllowed(Join(p)) <==> !Contains(Join(p), "..")
  {
    SplitJoin(p);
    KeptNames(p);
    JoinConcat([p[0]], p[1..]);
    assert p == [p[0]] + p[1..];
    var d := p[0];
    assert Join(p) == d + "/" + Join(p[1..]);
    assert d + "/" <= Join(p);
    assert Join(p)[0] == d[0];
    var i :| 0 <= i < |INCLUDE_DIRS| && INCLUDE_DIRS[i] == d;
    assert d == "journal" || d == "catalog";
    assert MANIFEST_NAME[0] == 'b';
  }

  /** A backup restored into a fresh, named home gives back exactly the included files if and
      only if no included path contains ".."; if one does, the archive is refused. */
  lemma RestoreUndoesCreate(
    home: Tree, order: seq<Place>, man: Manifest, encode: Manifest -> Bytes, parse: Bytes -> Option<Manifest>,
    t: Tree, dest: Path)
    requires WellKept(home) && ListsIncluded(home, order) && parse(encode(man)) == Some(man)
    requires WellFormed(dest) && Named(dest) && Fresh(t, dest)
    ensures var archive := [Regular(MANIFEST_NAME, encode(man))] + FileEntries(home, order);
      var (t', man', outcome) := Restore(t, NO_MANIFEST, archive, dest, parse);
      && (NoDots(home) ==> outcome == Restored && man' == man && Reproduces(home, t, t', dest))
      && (!NoDots(home) ==> outcome.Refused?)
  {
    var body := FileEntries(home, order);
    var archive := [Regular(MANIFEST_NAME, encode(man))] + body;
    ArchiveParts(home, order, man, encode, parse);
    BodyIsClear(home, order, t, dest);
    ClearIsUnclashing(t, body, dest);
    RestoreWhenClear(t, NO_MANIFEST, archive, dest, parse);
    BodyLetInIff(home, order, dest);
    FilledReproduces(home, order, t, dest);
    hide *;
  }

  lemma ArchiveParts(
    home: Tree, order: seq<Place>, man: Manifest, encode: Manifest -> Bytes, parse: Bytes -> Option<Manifest>)
    requires WellKept(home) && AllIncluded(home, order) && parse(encode(man)) == Some(man)
    ensures var body := FileEntries(home, order);
      var archive := [Regular(MANIFEST_NAME, encode(man))] + body;
      && Readable(archive) && AllRegular(body) && Payload(archive) == body
      && LastManifest(NO_MANIFEST, archive, parse) == man
  {
    hide WellKept, Included, Join, Down, Contains;
    var body := FileEntries(home, order);
    var archive := [Regular(MANIFEST_NAME, encode(man))] + body;
    assert archive[1..] == body;
    BodyIsPayload(home, order);
    forall i | 0 <= i < |body| ensures body[i].name != MANIFEST_NAME { EntryGoesHome(home, order[i]); }
    BodyHasNoManifest(man, body, parse);
    hide FileEntries, AllIncluded;
  }

  lemma FileEntriesTail(home: Tree, order: seq<Place>)
    requires AllIncluded(home, order) && order != []
    ensures AllIncluded(home, order[1..])
    ensures FileEntries(home, order)[1..] == FileEntries(home, order[1..])
    ensures order[0] in home.files && FileEntries(home, order)[0] == Regular(Join(order[0]), home.files[order[0]])
  {
    hide Join;
  }

  lemma {:induction false} BodyIsPayload(home: Tree, order: seq<Place>)
    requires WellKept(home) && AllIncluded(home, order)
    ensures Payload(FileEntries(home, order)) == FileEntries(home, order)
  {
    if order != [] {
      EntryGoesHome(home, order[0]);
      var body, rest := FileEntries(home, order), FileEntries(home, order[1..]);
      FileEntriesTail(home, order);
      hide *;
      BodyIsPayload(home, order[1..]);
      PayloadCons(body);
      assert body == [body[0]] + rest;
    }
  }

  lemma {:induction false} BodyHasNoManifest(man: Manifest, body: seq<Entry>, parse: Bytes -> Option<Manifest>)
    requires AllRegular(body) && forall i :: 0 <= i < |body| ==> body[i].name != MANIFEST_NAME
    ensures LastManifest(man, body, parse) == man
  {
    if body != [] { BodyHasNoManifest(man, body[1..], parse); }
  }

  /** Two files of a home never clash: neither lies below the other. */
  lemma FilesDoNotNest(home: Tree, p: Place, q: Place)
    requires WellKept(home) && p in home.files && q in home.files && p != q
    ensures !(p <= q)
  {
    if |p| < |q| {
      assert q[..|p|] !in home.files;
    } else if |p| == |q| {
      assert q[..|p|] == q;
    }
    assert |p| <= |q| ==> q[..|p|] != p;
  }

  lemma BodyIsClear(home: Tree, order: seq<Place>, t: Tree, dest: Path)
    requires WellKept(home) && ListsIncluded(home, order) && Fresh(t, dest)
    ensures Clear(t, Targets(FileEntries(home, order), dest))
  {
    var targets := Targets(FileEntries(home, order), dest);
    forall i | 0 <= i < |targets| ensures targets[i] == dest.segs + order[i] {
      EntryGoesHome(home, order[i]);
    }
    hide WellKept, FileEntries, Down, Targets, Join;
    forall i | 0 <= i < |targets| ensures Free(t, targets[i]) { FreshTarget(t, dest, order[i]); }
    hide Free, Fresh;
    forall i, j | 0 <= i < j < |targets| ensures Apart(targets[i], targets[j]) {
      FilesDoNotNest(home, order[i], order[j]);
      FilesDoNotNest(home, order[j], order[i]);
      PrefixBelow(dest.segs, order[i], order[j]);
      PrefixBelow(dest.segs, order[j], order[i]);
    }
  }

  lemma ClearIsUnclashing(t: Tree, load: seq<Entry>, dest: Path)
    requires AllRegular(load) && Clear(t, Targets(load, dest))
    ensures Unclashing(t, load, dest)
  {
    hide Reached, Clear, Down;
    ReachedIsPrefix(load, dest);
    var some, all := Targets(Reached(load, dest), dest), Targets(load, dest);
    forall i | 0 <= i < |some| ensures some[i] == all[i] {}
    PrefixIsClear(t, some, all);
  }

  lemma PrefixIsClear(t: Tree, some: seq<Place>, all: seq<Place>)
    requires Clear(t, all) && some <= all
    ensures Clear(t, some)
  {
    hide Free, Apart;
  }

  lemma PrefixBelow(at: Place, p: Place, q: Place)
    ensures at + p <= at + q ==> p <= q
  {
    if at + p <= at + q {
      assert (at + q)[|at|..][..|p|] == (at + p)[|at|..] == p;
      assert (at + q)[|at|..] == q;
    }
  }

  lemma FreshTarget(t: Tree, dest: Path, p: Place)
    requires Fresh(t, dest) && p != [] && p[0] in INCLUDE_DIRS
    ensures Free(t, dest.segs + p)
  {
    BlockedIff(t, dest.segs + p);
    var at := dest.segs;
    assert at + [p[0]] <= at + p;
    forall k | 0 <= k <= |at + p| ensures (at + p)[..k] !in t.files {
      if k <= |at| {
        assert (at + p)[..k] == at[..k];
      } else {
        assert at + [p[0]] <= (at + p)[..k];
      }
    }
  }

  lemma BodyLetInIff(home: Tree, order: seq<Place>, dest: Path)
    requires WellKept(home) && ListsIncluded(home, order) && WellFormed(dest) && Named(dest)
    ensures AllLetIn(FileEntries(home, order), dest) <==> NoDots(home)
  {
    var body := FileEntries(home, order);
    forall i | 0 <= i < |order| ensures LetIn(dest, body[i].name) <==> !Contains(Join(order[i]), "..") {
      EntryGoesHome(home, order[i]);
      LetInIff(dest, body[i].name);
    }
    if AllLetIn(body, dest) {
      forall p | Included(home, p) ensures !Contains(Join(p), "..") {
        var i :| 0 <= i < |order| && order[i] == p;
        assert LetIn(dest, body[i].name);
      }
    }
  }

  lemma BodyTargets(home: Tree, order: seq<Place>, dest: Path)
    requires WellKept(home) && AllIncluded(home, order)
    ensures var body := FileEntries(home, order);
      && |Targets(body, dest)| == |order|
      && forall i :: 0 <= i < |order| ==>
           && order[i] in home.files && body[i].data == home.files[order[i]]
           && Targets(body, dest)[i] == dest.segs + order[i]
  {
    hide WellKept, Down, Join, Contains;
    forall i | 0 <= i < |order| ensures Down(FileEntries(home, order)[i].name) == order[i] {
      EntryGoesHome(home, order[i]);
    }
  }

  lemma FilledReproduces(home: Tree, order: seq<Place>, t: Tree, dest: Path)
    requires WellKept(home) && ListsIncluded(home, order) && Fresh(t, dest)
    ensures Reproduces(home, t, Filled(t, FileEntries(home, order), dest), dest)
  {
    hide FileEntries, Filled, WellKept, Fresh, Targets, Clear;
    var body := FileEntries(home, order);
    BodyIsClear(home, order, t, dest);
    BodyTargets(home, order, dest);
    RestoredTree(t, body, dest);
    var t', targets := Filled(t, body, dest), Targets(body, dest);
    forall p | Included(home, p) ensures dest.segs + p in t'.files && t'.files[dest.segs + p] == home.files[p] {
      var i :| 0 <= i < |order| && order[i] == p;
      assert targets[i] == dest.segs + p;
    }
    forall q | q in t'.files && q !in t.files ensures exists p :: Included(home, p) && q == dest.segs + p {
      var i :| 0 <= i < |targets| && targets[i] == q;
      assert Included(home, order[i]);
    }
  }

  // ---------- two refusals ----------

  /** A home whose journal holds one file named "a..b". */
  const DOTTED := Tree(map[["journal", "a..b"] := []], {[], ["journal"]})

  lemma DottedIsWellKept()
    ensures WellKept(DOTTED) && Included(DOTTED, ["journal", "a..b"]) && !NoDots(DOTTED)
    ensures ListsIncluded(DOTTED, [["journal", "a..b"]])
  {
    var p := ["journal", "a..b"];
    DottedIsAHome();
    DottedHasDots();
    hide WellKept, Join, Contains;
    assert Included(DOTTED, p);
    assert forall q :: Included(DOTTED, q) ==> q == p;
  }

  lemma DottedIsAHome()
    ensures WellKept(DOTTED)
  {
    var p := ["journal", "a..b"];
    assert p[..0] == [] && p[..1] == ["journal"];
    assert IsName("journal") && IsName("a..b");
  }

  lemma DottedHasDots()
    ensures Contains(Join(["journal", "a..b"]), "..")
  {
    var p := ["journal", "a..b"];
    assert p[1..] == ["a..b"] && Join(p) == "journal" + "/" + "a..b";
    assert ".." <= Join(p)[9..];
  }

  /** Its backup is refused by every fresh, named home. */
  lemma DottedNameIsRefused(man: Manifest, encode: Manifest -> Bytes, parse: Bytes -> Option<Manifest>, t: Tree,
      dest: Path)
    requires parse(encode(man)) == Some(man) && WellFormed(dest) && Named(dest) && Fresh(t, dest)
    ensures AllIncluded(DOTTED, [["journal", "a..b"]])
    ensures var archive := [Regular(MANIFEST_NAME, encode(man))] + FileEntries(DOTTED, [["journal", "a..b"]]);
      Restore(t, NO_MANIFEST, archive, dest, parse).2.Refused?
  {
    DottedIsWellKept();
    RestoreUndoesCreate(DOTTED, [["journal", "a..b"]], man, encode, parse, t, dest);
  }

  /** An archive of one journal segment is refused by the homes "." and "/". */
  lemma DotAndRootRefuse(t: Tree, data: Bytes, parse: Bytes -> Option<Manifest>)
    ensures WellFormed(Clean(".")) && WellFormed(Clean("/"))
    ensures Restore(t, NO_MANIFEST, [Regular("journal/00000001.jsonl", data)], Clean("."), parse).2.Refused?
    ensures Restore(t, NO_MANIFEST, [Regular("journal/00000001.jsonl", data)], Clean("/"), parse).2.Refused?
  {
    hide Clean, Restore;
    var archive := [Regular("journal/00000001.jsonl", data)];
    CleanRender(Path(false, 0, []));
    CleanRender(Path(true, 0, []));
    assert MANIFEST_NAME[0] == 'b' && "journal/00000001.jsonl"[0] == 'j';
    assert Payload(archive) == archive;
    UnnamedHomeRefusesAll(t, archive, Path(false, 0, []), parse);
    UnnamedHomeRefusesAll(t, archive, Path(true, 0, []), parse);
  }
}
