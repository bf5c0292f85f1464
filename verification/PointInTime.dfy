/** Point-in-time restore: the journal's prefix up to a cutoff, into a fresh home
    (cmd/agt/backup_restore_helpers.go). */
module PointInTime {
  import opened Common
  import opened EventChain
  import opened JournalStore

  datatype Cutoff = AtSeq(n: int) | AtTime(ms: int)

  predicate Within(e: Event, c: Cutoff) {
    match c
    case AtSeq(n) => e.seqNo <= n
    case AtTime(ms) => e.tsMS <= ms
  }

  /** `p` is the longest prefix of `s` with every event within the cutoff. */
  predicate IsCut(s: seq<Event>, c: Cutoff, p: seq<Event>) {
    && p <= s
    && (forall i :: 0 <= i < |p| ==> Within(p[i], c))
    && (|p| < |s| ==> !Within(s[|p|], c))
  }

  /** The range callback: once an event is past the cutoff, the rest is skipped. */
  method CollectPrefix(s: seq<Event>, c: Cutoff) returns (prefix: seq<Event>)
    ensures IsCut(s, c, prefix)
  {
    prefix := [];
    var done, i := false, 0;
    while i < |s|
      invariant 0 <= i <= |s|
      invariant !done ==> prefix == s[..i]
      invariant forall k :: 0 <= k < |prefix| ==> Within(prefix[k], c)
      invariant done ==> prefix <= s && |prefix| < i && !Within(s[|prefix|], c)
    {
      if !done {
        if !Within(s[i], c) {
          done := true;
        } else {
          prefix := prefix + [s[i]];
        }
      }
      i := i + 1;
    }
  }

  /** Anything longer that starts the journal holds an event past the cutoff. */
  lemma CutIsLongest(s: seq<Event>, c: Cutoff, p: seq<Event>, q: seq<Event>)
    requires IsCut(s, c, p) && q <= s && forall i :: 0 <= i < |q| ==> Within(q[i], c)
    ensures q <= p
  {
    assert p == s[..|p|] && q == s[..|q|];
    assert forall i :: 0 <= i < |q| ==> q[i] == s[i];
  }

  lemma CutIsUnique(s: seq<Event>, c: Cutoff, p: seq<Event>, q: seq<Event>)
    requires IsCut(s, c, p) && IsCut(s, c, q)
    ensures p == q
  {
    CutIsLongest(s, c, p, q);
    CutIsLongest(s, c, q, p);
  }

  /** What is restored is what was recorded up to and at the cutoff; the first event left out came later. */
  lemma CutKeepsUntil(s: seq<Event>, c: Cutoff, p: seq<Event>)
    requires IsCut(s, c, p)
    ensures forall e :: e in p ==> if c.AtSeq? then e.seqNo <= c.n else e.tsMS <= c.ms
    ensures |p| < |s| ==> if c.AtSeq? then s[|p|].seqNo > c.n else s[|p|].tsMS > c.ms
  {}

  function Inside(c: Cutoff): Event -> bool { e => Within(e, c) }

  /** The cut is the plain timestamp filter exactly when no event behind the first late one
      is back within the cutoff; a clock that never goes back guarantees that. */
  lemma CutIsFilterIff(s: seq<Event>, c: Cutoff, p: seq<Event>)
    requires IsCut(s, c, p)
    ensures p == Filter(s, Inside(c)) <==> forall i :: |p| <= i < |s| ==> !Within(s[i], c)
  {
    hide Filter;
    var keep, rest := Inside(c), s[|p|..];
    assert s == p + rest;
    FilterConcat(p, rest, keep);
    FilterAll(p, keep);
    FilterMembers(rest, keep);
    if i :| |p| <= i < |s| && Within(s[i], c) {
      assert rest[i - |p|] == s[i];
      assert s[i] in Filter(rest, keep);
    } else {
      FilterNone(rest, keep);
    }
  }

  lemma MonotoneClockCutIsFilter(s: seq<Event>, ms: int, p: seq<Event>)
    requires IsCut(s, AtTime(ms), p)
    requires forall i, j :: 0 <= i < j < |s| ==> s[i].tsMS <= s[j].tsMS
    ensures p == Filter(s, Inside(AtTime(ms)))
  {
    CutIsFilterIff(s, AtTime(ms), p);
  }

  /** The restored prefix is a chain from genesis; by seq, it is the first n + 1 events. */
  lemma CutIsValidChain(h: Digest, s: seq<Event>, c: Cutoff, p: seq<Event>)
    requires ValidChain(h, s) && IsCut(s, c, p)
    ensures ValidChain(h, p)
    ensures c.AtSeq? && c.n >= 0 ==> |p| == if c.n < |s| then c.n + 1 else |s|
  {
    PrefixIsValid(h, s, |p|);
    assert p == s[..|p|];
    if c.AtSeq? && c.n >= 0 {
      if |p| > 0 { ChainLinks(h, s, |p| - 1); }
      if |p| < |s| { ChainLinks(h, s, |p|); }
    }
  }

  function Earlier(c: Cutoff, d: Cutoff): Cutoff
    requires c.AtSeq? <==> d.AtSeq?
  {
    match c
    case AtSeq(n) => if n <= d.n then c else d
    case AtTime(ms) => if ms <= d.ms then c else d
  }

  /** Restoring from a restored home is restoring once at the earlier cutoff. */
  lemma CutTwiceIsCutOnce(s: seq<Event>, c: Cutoff, d: Cutoff, p: seq<Event>, q: seq<Event>)
    requires c.AtSeq? <==> d.AtSeq?
    requires IsCut(s, c, p) && IsCut(p, d, q)
    ensures IsCut(s, Earlier(c, d), q)
  {
    assert q == s[..|q|];
    if |q| < |p| {
      assert p[|q|] == s[|q|];
    }
  }

  datatype Outcome = SourceInvalid | NothingToRestore | Refused(error: RestoreError) | Unverified | Restored

  method PointInTimeRestore(source: Journal, dest: Journal, c: Cutoff, writeOk: bool) returns (r: Outcome)
    requires source != dest && source.h == dest.h
    modifies dest
    ensures r.Restored? <==>
      && GoodPrefix(source.h, source.lines, |source.lines|) && old(dest.Unused())
      && source.lines != [] && Within(source.History()[0], c) && writeOk
    ensures r.Restored? ==> dest.Valid() && IsCut(source.History(), c, dest.History())
    ensures !r.Restored? ==> unchanged(dest)
    ensures r.SourceInvalid? <==> !GoodPrefix(source.h, source.lines, |source.lines|)
    ensures r.NothingToRestore? <==> GoodPrefix(source.h, source.lines, |source.lines|)
                                     && (source.lines == [] || !Within(source.History()[0], c))
    ensures r.Refused? ==> r.error == if old(dest.Unused()) then WriteFailed else NotEmpty
    ensures !r.Unverified?
  {
    var intact := source.Verify();
    if !intact {
      return SourceInvalid;
    }
    assert source.lines[..|source.lines|] == source.lines;
    var prefix := CollectPrefix(Events(source.lines), c);
    CutIsValidChain(source.h, Events(source.lines), c, prefix);
    if prefix == [] {
      return NothingToRestore;
    }
    var err := dest.Restore(prefix, writeOk);
    if err.Some? {
      return Refused(err.value);
    }
    LinesRoundTrip(dest.h, prefix);
    var ok := dest.Verify();
    if !ok {
      return Unverified;
    }
    return Restored;
  }
}
