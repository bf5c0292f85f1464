/** Slash-separated paths as `path/filepath` cleans and joins them. */
module Paths {
  import opened Text

  /** A cleaned path: from the root or not, up `ups` levels, then down `segs`. */
  datatype Path = Path(rooted: bool, ups: nat, segs: seq<string>)

  /** A name a file or directory can have. */
  predicate IsName(seg: string) { seg != "" && seg != "." && seg != ".." && '/' !in seg }

  predicate AllNames(segs: seq<string>) { forall i :: 0 <= i < |segs| ==> IsName(segs[i]) }

  predicate WellFormed(p: Path) { AllNames(p.segs) && (p.rooted ==> p.ups == 0) }

  function Split(s: string): (r: seq<string>)
    ensures r != []
  {
    if s == "" then [""]
    else
      var rest := Split(s[1..]);
      if s[0] == '/' then [""] + rest else [[s[0]] + rest[0]] + rest[1..]
  }

  function Join(segs: seq<string>): string {
    if segs == [] then "" else if |segs| == 1 then segs[0] else segs[0] + "/" + Join(segs[1..])
  }

  lemma {:induction false} SplitConcat(s: string, t: string)
    ensures Split(s + "/" + t) == Split(s) + Split(t)
  {
    var u := s + "/" + t;
    if s == "" {
      assert u[1..] == t;
    } else {
      assert u[1..] == s[1..] + "/" + t;
      SplitConcat(s[1..], t);
    }
  }

  lemma {:induction false} SplitName(s: string)
    requires '/' !in s
    ensures Split(s) == [s]
  {
    if s != "" {
      SplitName(s[1..]);
      assert [s[0]] + s[1..] == s;
    }
  }

  /** Splitting undoes joining. */
  lemma {:induction false} SplitJoin(segs: seq<string>)
    requires segs != [] && forall i :: 0 <= i < |segs| ==> '/' !in segs[i]
    ensures Split(Join(segs)) == segs
  {
    SplitName(segs[0]);
    if |segs| > 1 {
      SplitConcat(segs[0], Join(segs[1..]));
      SplitJoin(segs[1..]);
    }
  }

  lemma {:induction false} JoinConcat(a: seq<string>, b: seq<string>)
    requires a != [] && b != []
    ensures Join(a + b) == Join(a) + "/" + Join(b)
  {
    if |a| == 1 {
      assert (a + b)[1..] == b;
    } else {
      assert (a + b)[1..] == a[1..] + b;
      JoinConcat(a[1..], b);
      assert Join(a + b) == a[0] + "/" + (Join(a[1..]) + "/" + Join(b));
    }
  }

  lemma {:induction false} SplitHasNoSlash(s: string)
    ensures forall i :: 0 <= i < |Split(s)| ==> '/' !in Split(s)[i]
  {
    if s != "" { SplitHasNoSlash(s[1..]); }
  }

  lemma {:induction false} FirstIsPrefix(s: string)
    ensures Split(s)[0] <= s
  {
    if s != "" { FirstIsPrefix(s[1..]); }
  }

  /** A name free of ".." has no parent-directory segment. */
  lemma {:induction false} NoParentSegment(s: string)
    requires ".." in Split(s)
    ensures Contains(s, "..")
  {
    if s != "" {
      if s[0] != '/' && [s[0]] + Split(s[1..])[0] == ".." {
        FirstIsPrefix(s[1..]);
        var first := Split(s[1..])[0];
        var two := [s[0]] + first;
        assert two[0] == '.' && two[1] == '.' && |two| == 2;
        assert first[0] == '.' && s[1..][0] == '.';
        assert ".." <= s[0..];
      } else {
        NoParentSegment(s[1..]);
        var i :| 0 <= i <= |s[1..]| && ".." <= s[1..][i..];
        assert s[1..][i..] == s[i + 1..];
      }
    }
  }

  // ---------- cleaning ----------

  function Enter(p: Path, seg: string): Path {
    if seg == "" || seg == "." then p
    else if seg != ".." then p.(segs := p.segs + [seg])
    else if p.segs != [] then p.(segs := p.segs[..|p.segs| - 1])
    else if p.rooted then p
    else p.(ups := p.ups + 1)
  }

  function Follow(p: Path, segs: seq<string>): Path
    decreases |segs|
  {
    if segs == [] then p else Follow(Enter(p, segs[0]), segs[1..])
  }

  lemma {:induction false} FollowConcat(p: Path, a: seq<string>, b: seq<string>)
    ensures Follow(p, a + b) == Follow(Follow(p, a), b)
    decreases |a|
  {
    if a == [] {
      assert a + b == b;
    } else {
      assert (a + b)[1..] == a[1..] + b;
      FollowConcat(Enter(p, a[0]), a[1..], b);
    }
  }

  predicate IsRooted(s: string) { s != "" && s[0] == '/' }

  /** `filepath.Clean`. */
  function Clean(s: string): Path { Follow(Path(IsRooted(s), 0, []), Split(s)) }

  function Parents(n: nat): (r: seq<string>)
    ensures |r| == n && forall i :: 0 <= i < n ==> r[i] == ".."
  {
    seq(n, _ => "..")
  }

  function Render(p: Path): string {
    var parts := Parents(p.ups) + p.segs;
    if parts == [] then if p.rooted then "/" else "."
    else (if p.rooted then "/" else "") + Join(parts)
  }

  lemma {:induction false} FollowNames(p: Path, segs: seq<string>)
    requires AllNames(segs)
    ensures Follow(p, segs) == p.(segs := p.segs + segs)
    decreases |segs|
  {
    if segs == [] {
      assert p.segs + segs == p.segs;
    } else {
      FollowNames(Enter(p, segs[0]), segs[1..]);
      assert p.segs + [segs[0]] + segs[1..] == p.segs + segs;
    }
  }

  lemma {:induction false} FollowParents(p: Path, n: nat)
    requires !p.rooted && p.segs == []
    ensures Follow(p, Parents(n)) == p.(ups := p.ups + n)
    decreases n
  {
    if n > 0 {
      assert Parents(n)[1..] == Parents(n - 1);
      FollowParents(Enter(p, ".."), n - 1);
    }
  }

  lemma FollowParts(rooted: bool, ups: nat, segs: seq<string>)
    requires AllNames(segs) && (rooted ==> ups == 0)
    ensures Follow(Path(rooted, 0, []), Parents(ups) + segs) == Path(rooted, ups, segs)
  {
    FollowConcat(Path(rooted, 0, []), Parents(ups), segs);
    if !rooted { FollowParents(Path(false, 0, []), ups); }
    FollowNames(Path(rooted, ups, []), segs);
    assert [] + segs == segs;
  }

  lemma JoinStartsWithPart(parts: seq<string>)
    requires parts != [] && parts[0] != ""
    ensures Join(parts) != "" && Join(parts)[0] == parts[0][0]
  {}

  lemma CleanTop(rooted: bool)
    ensures Clean(if rooted then "/" else ".") == Path(rooted, 0, [])
  {
    if rooted {
      SplitConcat("", "");
      assert "" + "/" + "" == "/" && Split("/") == ["", ""];
      assert Follow(Path(true, 0, []), [""]) == Path(true, 0, []);
    } else {
      SplitName(".");
    }
  }

  /** Reading a rendered path back gives the path: cleaning a clean path changes nothing. */
  lemma CleanRender(p: Path)
    requires WellFormed(p)
    ensures Clean(Render(p)) == p && (IsRooted(Render(p)) <==> p.rooted)
  {
    var parts := Parents(p.ups) + p.segs;
    FollowParts(p.rooted, p.ups, p.segs);
    if parts == [] {
      CleanTop(p.rooted);
    } else {
      hide Follow;
      assert parts[0] == ".." || IsName(parts[0]);
      JoinStartsWithPart(parts);
      assert '/' !in parts[0] && parts[0][0] in parts[0];
      SplitJoin(parts);
      if p.rooted {
        SplitConcat("", Join(parts));
        assert Render(p) == "" + "/" + Join(parts);
        assert ([""] + parts)[1..] == parts;
      } else {
        assert Render(p) == Join(parts);
      }
    }
  }

  /** `filepath.Join` of a clean path and a name. */
  function Under(p: Path, name: string): Path { Clean(Render(p) + "/" + name) }

  lemma UnderFollows(p: Path, name: string)
    requires WellFormed(p)
    ensures Under(p, name) == Follow(p, Split(name))
  {
    var s := Render(p);
    CleanRender(p);
    SplitConcat(s, name);
    assert s != "" by {
      var parts := Parents(p.ups) + p.segs;
      if parts != [] { JoinStartsWithPart(parts); }
    }
    assert (s + "/" + name)[0] == s[0];
    FollowConcat(Path(p.rooted, 0, []), Split(s), Split(name));
  }

  /** ".." takes back the name before it. */
  lemma UpUndoesDown(s: string, name: string)
    requires s != "" && IsName(name)
    ensures Clean(s + "/" + (name + "/" + "..")) == Clean(s)
  {
    SplitName(name);
    SplitName("..");
    SplitConcat(name, "..");
    SplitConcat(s, name + "/" + "..");
    assert (s + "/" + (name + "/" + ".."))[0] == s[0];
    FollowConcat(Path(IsRooted(s), 0, []), Split(s), [name, ".."]);
    var p := Clean(s);
    hide Split;
    assert p.segs + [name] != [] && (p.segs + [name])[..|p.segs|] == p.segs;
    assert [name] + [".."] == [name, ".."] && [name, ".."][1..] == [".."];
    assert Follow(p, [name, ".."]) == Follow(Enter(p, name), [".."]);
    assert Follow(Enter(p, name), [".."]) == Enter(Enter(p, name), "..");
  }

  /** With no name before it, it leads nowhere from the root, and up one level otherwise. */
  lemma UpFromTheTop(n: nat)
    ensures n > 0 ==> Clean("/" + Join(Parents(n))) == Path(true, 0, [])
    ensures n > 0 ==> Clean(Join(Parents(n))) == Path(false, n, [])
  {
    if n > 0 {
      var up := Join(Parents(n));
      SplitJoin(Parents(n));
      JoinStartsWithPart(Parents(n));
      assert "" + "/" + up == "/" + up;
      SplitConcat("", up);
      assert ([""] + Parents(n))[1..] == Parents(n);
      FollowParents(Path(false, 0, []), n);
      RootHasNoParent(n);
      hide Split, Join;
    }
  }

  lemma {:induction false} RootHasNoParent(n: nat)
    ensures Follow(Path(true, 0, []), Parents(n)) == Path(true, 0, [])
  {
    if n > 0 {
      assert Parents(n)[1..] == Parents(n - 1);
      RootHasNoParent(n - 1);
    }
  }

  /** The segments that name something. */
  function Kept(segs: seq<string>): seq<string> {
    if segs == [] then []
    else if segs[0] == "" || segs[0] == "." then Kept(segs[1..])
    else [segs[0]] + Kept(segs[1..])
  }

  lemma {:induction false} FollowDown(p: Path, segs: seq<string>)
    requires ".." !in segs
    ensures Follow(p, segs) == p.(segs := p.segs + Kept(segs))
    decreases |segs|
  {
    if segs == [] {
      assert p.segs + [] == p.segs;
    } else {
      var q, kept := Enter(p, segs[0]), Kept(segs[1..]);
      assert segs[0] in segs && segs[0] != "..";
      FollowDown(q, segs[1..]);
      assert Follow(p, segs) == q.(segs := q.segs + kept);
      hide Follow;
      assert p.segs + [segs[0]] + kept == p.segs + ([segs[0]] + kept);
    }
  }

  lemma {:induction false} KeptAreNames(segs: seq<string>)
    requires ".." !in segs && forall i :: 0 <= i < |segs| ==> '/' !in segs[i]
    ensures AllNames(Kept(segs))
  {
    if segs != [] {
      assert segs[0] in segs;
      KeptAreNames(segs[1..]);
    }
  }

  lemma {:induction false} KeptNames(segs: seq<string>)
    requires AllNames(segs)
    ensures Kept(segs) == segs
  {
    if segs != [] { KeptNames(segs[1..]); }
  }

  // ---------- staying inside ----------

  /** Restore's test that a target lies below the destination, on the paths as text. */
  predicate Inside(dest: Path, target: Path) { Render(dest) + "/" <= Render(target) }

  /** Neither "." nor "/". */
  predicate Named(dest: Path) { dest.ups > 0 || dest.segs != [] }

  /** A target below the destination passes the test exactly if the destination is neither "."
      nor "/". */
  lemma InsideIff(dest: Path, down: seq<string>)
    requires WellFormed(dest) && down != [] && AllNames(down)
    ensures Inside(dest, dest.(segs := dest.segs + down)) <==> Named(dest)
  {
    var parts, target := Parents(dest.ups) + dest.segs, dest.(segs := dest.segs + down);
    assert Parents(target.ups) + target.segs == parts + down;
    if Named(dest) {
      JoinConcat(parts, down);
      hide Join, IsName;
      var lead := if dest.rooted then "/" else "";
      assert Render(target) == lead + (Join(parts) + "/" + Join(down)) == (Render(dest) + "/") + Join(down);
    } else {
      assert parts + down == down && IsName(down[0]);
      TopIsNotInside(dest.rooted, down);
      hide Join;
    }
  }

  lemma TopIsNotInside(rooted: bool, down: seq<string>)
    requires down != [] && IsName(down[0])
    ensures !((if rooted then "//" else "./") <= (if rooted then "/" else "") + Join(down))
  {
    JoinStartsWithPart(down);
    DotSlash(down);
    assert down[0][0] in down[0];
    hide Join;
    assert ("/" + Join(down))[1] == down[0][0];
    assert "" + Join(down) == Join(down);
  }

  lemma DotSlash(down: seq<string>)
    requires down != [] && IsName(down[0])
    ensures !("./" <= Join(down))
  {
    var j := Join(down);
    assert j[0] == down[0][0];
    if |down[0]| >= 2 {
      assert j[1] == down[0][1] && down[0][1] in down[0];
    } else {
      assert down[0] == [down[0][0]] != ".";
    }
  }
}
