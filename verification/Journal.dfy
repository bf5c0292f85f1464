/** The append-only journal: append, verify, restore, and opening what a disk holds
    (kernel/journal). Segment files are one sequence of lines. */
module JournalStore {
  import opened Common
  import opened EventChain

  /** One stored line: an event, or bytes that do not decode to one. */
  datatype Line = Decoded(e: Event) | Garbage(bytes: string)

  datatype Spec = Spec(
    subject: string, kind: string, actor: string, correlation: string, causation: string,
    payload: string, tags: map<string, string>)

  datatype RestoreError = NotFullExport | ChainBreak | NotEmpty | WriteFailed

  /** How writing a line turns out: committed, taken back because it could not be synced, or broken off
      after a fragment of it. */
  datatype Write = Written | NotSynced | Short(fragment: string)

  function Lines(events: seq<Event>): seq<Line> {
    seq(|events|, i requires 0 <= i < |events| => Decoded(events[i]))
  }

  predicate AllDecoded(lines: seq<Line>) {
    forall i :: 0 <= i < |lines| ==> lines[i].Decoded?
  }

  function Events(lines: seq<Line>): seq<Event>
    requires AllDecoded(lines)
  {
    seq(|lines|, i requires 0 <= i < |lines| => lines[i].e)
  }

  /** The first `n` lines are a valid chain. */
  predicate GoodPrefix(h: Digest, lines: seq<Line>, n: nat)
    requires n <= |lines|
  {
    AllDecoded(lines[..n]) && ValidChain(h, Events(lines[..n]))
  }

  lemma GoodPrefixStep(h: Digest, lines: seq<Line>, n: nat)
    requires n < |lines| && GoodPrefix(h, lines, n)
    ensures GoodPrefix(h, lines, n + 1)
       <==> lines[n].Decoded? && Extends(h, Events(lines[..n]), lines[n].e)
  {
    assert lines[..n + 1] == lines[..n] + [lines[n]];
    if lines[n].Decoded? {
      assert Events(lines[..n + 1]) == Events(lines[..n]) + [lines[n].e];
      ExtendedIsValid(h, Events(lines[..n]), lines[n].e);
    } else {
      assert lines[..n + 1][n] == lines[n];
    }
  }

  lemma GoodPrefixShorter(h: Digest, lines: seq<Line>, m: nat, n: nat)
    requires m <= n <= |lines| && GoodPrefix(h, lines, n)
    ensures GoodPrefix(h, lines, m)
  {
    PrefixIsValid(h, Events(lines[..n]), m);
    assert Events(lines[..n])[..m] == Events(lines[..m]);
  }

  /** Recovery scan: how many lines from the start chain, and the head they lead to. */
  method Scan(h: Digest, lines: seq<Line>) returns (good: nat, head: string)
    ensures good <= |lines| && GoodPrefix(h, lines, good)
    ensures head == HeadHash(Events(lines[..good]))
    ensures forall n :: good < n <= |lines| ==> !GoodPrefix(h, lines, n)
  {
    good, head := 0, GENESIS_HASH;
    while good < |lines|
      invariant good <= |lines| && GoodPrefix(h, lines, good)
      invariant head == HeadHash(Events(lines[..good]))
    {
      GoodPrefixStep(h, lines, good);
      if lines[good].Garbage? || lines[good].e.seqNo != good || lines[good].e.prevHash != head
         || !VerifyHash(h, lines[good].e) {
        forall n | good < n <= |lines| ensures !GoodPrefix(h, lines, n) {
          if GoodPrefix(h, lines, n) { GoodPrefixShorter(h, lines, good + 1, n); }
        }
        return;
      }
      assert Events(lines[..good + 1]) == Events(lines[..good]) + [lines[good].e];
      head := lines[good].e.hash;
      good := good + 1;
    }
  }

  /** `e` carries what its publisher asked for. */
  predicate Records(e: Event, spec: Spec, id: string, ts: int) {
    && e.id == id && e.tsMS == ts
    && Spec(e.subject, e.kind, e.actor, e.correlation, e.causation, e.payload, e.tags) == spec
  }

  /** Field by field. */
  lemma RecordsIff(e: Event, spec: Spec, id: string, ts: int)
    ensures Records(e, spec, id, ts) <==>
      && e.id == id && e.tsMS == ts && e.subject == spec.subject && e.kind == spec.kind && e.actor == spec.actor
      && e.correlation == spec.correlation && e.causation == spec.causation
      && e.payload == spec.payload && e.tags == spec.tags
  {}

  /** The event made of `spec` behind a head. */
  function Made(h: Digest, seqNo: nat, head: string, spec: Spec, id: string, ts: int): (e: Event)
    ensures Records(e, spec, id, ts)
  {
    var bare := Event(id, seqNo, ts, head, "", spec.subject, spec.actor, spec.kind,
                      spec.correlation, spec.causation, spec.payload, spec.tags);
    bare.(hash := h(bare))
  }

  class Journal {
    const h: Digest
    var lines: seq<Line>         // the complete lines of the live segments, in order
    var torn: string             // what follows the last of them without an end of line
    var created: bool            // a segment file exists, be it empty
    var quarantined: seq<Line>   // bytes moved aside, never deleted
    var nextSeq: nat
    var head: string

    /** The chain on disk is intact, and is the one held in memory. */
    ghost predicate Tracks()
      reads this
    {
      && GoodPrefix(h, lines, |lines|)
      && nextSeq == |lines| && head == HeadHash(History()) && created
    }

    /** ... and the next line will start where the last one ended. */
    ghost predicate Valid()
      reads this
    {
      Tracks() && torn == ""
    }

    /** The directory holds no segment file. */
    predicate Unused()
      reads this
    {
      !created && lines == [] && torn == ""
    }

    ghost function History(): seq<Event>
      reads this
      requires GoodPrefix(h, lines, |lines|)
    {
      assert lines[..|lines|] == lines;
      Events(lines)
    }

    constructor (h: Digest, created: bool, stored: seq<Line>, tail: string)
      ensures this.h == h && lines == stored && torn == tail && quarantined == [] && nextSeq == 0
      ensures Unused() <==> !created && stored == [] && tail == ""
    {
      this.h, this.created, lines, torn, quarantined := h, created, stored, tail, [];
      nextSeq, head := 0, GENESIS_HASH;
    }

    /** Opens what is stored. A bad line is an error for an offline tool (`failOnCorruption`);
        the daemon cuts the chain there, keeps the cut bytes, and records the cut as the
        next event. A torn last line is no error: it was never committed, and is cut off. */
    method Open(failOnCorruption: bool, recovered: Spec, id: string, ts: int, write: Write, encode: Event -> string)
      returns (ok: bool, ghost good: nat)
      requires IsDigest(h)
      requires recovered.subject != "" && recovered.kind != "" && recovered.actor != ""
      modifies this
      ensures good <= |old(lines)| && GoodPrefix(h, old(lines), good)
      ensures forall n :: good < n <= |old(lines)| ==> !GoodPrefix(h, old(lines), n)
      ensures ok <==> good == |old(lines)| || (!failOnCorruption && write.Written?)
      ensures created && (ok ==> Valid())
      ensures !ok && failOnCorruption ==> torn == old(torn)
      ensures good == |old(lines)| || failOnCorruption ==> lines == old(lines) && quarantined == old(quarantined)
      ensures good < |old(lines)| && !failOnCorruption ==>
        && |lines| == good + (if ok then 1 else 0) && lines[..good] == old(lines)[..good]
        && quarantined == old(quarantined) + old(lines)[good..]
                          + (if old(torn) == "" then [] else [Garbage(old(torn))])
        && (ok ==> lines[good].Decoded? && Records(lines[good].e, recovered, id, ts))
    {
      var found: nat;
      found, head := Scan(h, lines);
      nextSeq, good, created := found, found, true;
      assert lines[..|lines|] == lines;
      if found < |lines| {
        if failOnCorruption {
          return false, good;
        }
        CutIsGood(h, lines, found);
        quarantined := quarantined + lines[found..] + Tail(torn);
        lines, torn := lines[..found], "";
        ok := Append(recovered, id, ts, write, encode);
      } else {
        torn := "";
        ok := true;
      }
    }

    /** A rejected spec writes nothing, and a line that cannot be synced is taken back. A line broken off
        is not: the next line is then glued to the fragment, and the two are no event. */
    method Append(spec: Spec, id: string, ts: int, write: Write, encode: Event -> string) returns (ok: bool)
      requires Tracks() && IsDigest(h)
      modifies this
      ensures quarantined == old(quarantined) && created
      ensures ok <==> write.Written? && spec.subject != "" && spec.kind != "" && spec.actor != ""
      ensures !ok ==> lines == old(lines) && Tracks()
      ensures !ok && spec.subject != "" && spec.kind != "" && spec.actor != "" ==>
                torn == if write.Short? then old(torn) + write.fragment else ""
      ensures !ok && (spec.subject == "" || spec.kind == "" || spec.actor == "") ==> torn == old(torn)
      ensures ok ==> |lines| == |old(lines)| + 1 && lines[..|old(lines)|] == old(lines) && torn == ""
      ensures ok && old(torn) == "" ==>
                Valid() && lines[|old(lines)|].Decoded? && Records(lines[|old(lines)|].e, spec, id, ts)
      ensures ok && old(torn) != "" ==> lines[|old(lines)|].Garbage? && !GoodPrefix(h, lines, |lines|)
    {
      hide ValidChain, Extends, GoodPrefix, IsDigest, HeadHash, AllDecoded, Events, Made, Records;
      if spec.subject == "" || spec.kind == "" || spec.actor == "" {
        return false;
      }
      if !write.Written? {
        torn := if write.Short? then torn + write.fragment else "";
        return false;
      }
      var e := Made(h, nextSeq, head, spec, id, ts);
      assert lines[..|lines|] == lines;
      HistoryIsValid(h, lines);
      MadeExtends(h, History(), spec, id, ts);
      if torn == "" {
        AppendKeepsGood(h, lines, e);
        lines := lines + [Decoded(e)];
      } else {
        lines, torn := lines + [Garbage(torn + encode(e))], "";
        GarbageEndsChain(h, lines, |lines| - 1, |lines|);
      }
      head, nextSeq := e.hash, nextSeq + 1;
      ok := true;
    }

    /** Replays the chain. */
    method Verify() returns (ok: bool)
      ensures ok <==> GoodPrefix(h, lines, |lines|)
    {
      var good, hd := Scan(h, lines);
      ok := good == |lines|;
    }

    /** Seeds a directory without a segment file from a full export; anything else writes nothing. */
    method Restore(events: seq<Event>, writeOk: bool) returns (err: Option<RestoreError>)
      modifies this
      ensures err.None? <==>
                && events != [] && ValidChain(h, events) && writeOk
                && !old(created) && old(lines) == [] && old(torn) == ""
      ensures err.None? ==> Valid() && lines == Lines(events) && quarantined == old(quarantined)
      ensures err.Some? ==> unchanged(this)
      ensures err == Some(NotFullExport) <==>
                events == [] || events[0].seqNo != 0 || events[0].prevHash != GENESIS_HASH
      ensures err == Some(NotEmpty) <==> events != [] && ValidChain(h, events) && !old(Unused())
      ensures err == Some(WriteFailed) <==> events != [] && ValidChain(h, events) && old(Unused()) && !writeOk
    {
      if events == [] || events[0].seqNo != 0 || events[0].prevHash != GENESIS_HASH {
        NotFromTheStart(h, events);
        return Some(NotFullExport);
      }
      hide ValidChain, HeadHash, GoodPrefix, VerifyHash;
      EmptyChain(h);
      assert events[..0] == [];
      var prev, n := GENESIS_HASH, 0;
      while n < |events|
        invariant 0 <= n <= |events|
        invariant ValidChain(h, events[..n]) && prev == HeadHash(events[..n])
        invariant unchanged(this)
      {
        RestoreStep(h, events, n);
        if events[n].seqNo != n || events[n].prevHash != prev || !VerifyHash(h, events[n]) {
          return Some(ChainBreak);
        }
        prev := events[n].hash;
        n := n + 1;
      }
      assert events[..|events|] == events;
      if !Unused() {
        return Some(NotEmpty);
      }
      if !writeOk {
        return Some(WriteFailed);                // the segment is removed again
      }
      LinesRoundTrip(h, events);
      created, lines, nextSeq, head := true, Lines(events), |events|, prev;
      return None;
    }
  }

  /** No chain runs through a line that is no event: whatever was appended behind it, the next open moves
      aside. */
  lemma GarbageEndsChain(h: Digest, lines: seq<Line>, k: nat, n: nat)
    requires k < n <= |lines| && lines[k].Garbage?
    ensures !GoodPrefix(h, lines, n)
  {
    assert lines[..n][k] == lines[k];
  }

  lemma NotFromTheStart(h: Digest, events: seq<Event>)
    ensures events != [] && (events[0].seqNo != 0 || events[0].prevHash != GENESIS_HASH) ==> !ValidChain(h, events)
  {
    if events != [] && ValidChain(h, events) { ChainLinks(h, events, 0); }
  }

  lemma EmptyChain(h: Digest)
    ensures ValidChain(h, []) && HeadHash([]) == GENESIS_HASH
  {}

  lemma RestoreStep(h: Digest, events: seq<Event>, n: nat)
    requires n < |events| && ValidChain(h, events[..n])
    ensures var e := events[n];
      if e.seqNo == n && e.prevHash == HeadHash(events[..n]) && VerifyHash(h, e)
      then ValidChain(h, events[..n + 1]) && HeadHash(events[..n + 1]) == e.hash
      else !ValidChain(h, events)
  {
    hide ValidChain, VerifyHash;
    assert events[..n + 1] == events[..n] + [events[n]];
    ExtendedIsValid(h, events[..n], events[n]);
    if ValidChain(h, events) { PrefixIsValid(h, events, n + 1); }
  }

  /** One broken-off write and one good append are enough for the journal to fail its own check. */
  method ShortWriteBreaksChain(h: Digest, spec: Spec, fragment: string, encode: Event -> string) returns (intact: bool)
    requires IsDigest(h) && fragment != "" && spec.subject != "" && spec.kind != "" && spec.actor != ""
    ensures !intact
  {
    var j := new Journal(h, false, [], "");
    var ready, _ := j.Open(false, spec, "open", 0, Written, encode);
    var first := j.Append(spec, "1", 1, Short(fragment), encode);
    var second := j.Append(spec, "2", 2, Written, encode);
    intact := j.Verify();
  }

  function Tail(torn: string): seq<Line> { if torn == "" then [] else [Garbage(torn)] }

  lemma CutIsGood(h: Digest, lines: seq<Line>, good: nat)
    requires good <= |lines| && GoodPrefix(h, lines, good)
    ensures GoodPrefix(h, lines[..good], |lines[..good]|)
    ensures lines[..good][..good] == lines[..good]
  {
    assert lines[..good][..good] == lines[..good];
  }

  lemma HeadIsHex(h: Digest, chain: seq<Event>)
    requires IsDigest(h) && ValidChain(h, chain)
    ensures IsHex(HeadHash(chain))
  {
    if chain != [] {
      ChainLinks(h, chain, |chain| - 1);
      assert IsHex(h(Canonical(chain[|chain| - 1])));
    }
  }

  lemma HistoryIsValid(h: Digest, lines: seq<Line>)
    requires GoodPrefix(h, lines, |lines|) && lines[..|lines|] == lines
    ensures AllDecoded(lines) && ValidChain(h, Events(lines)) && |Events(lines)| == |lines|
  {}

  lemma MadeExtends(h: Digest, chain: seq<Event>, spec: Spec, id: string, ts: int)
    requires IsDigest(h) && ValidChain(h, chain)
    ensures Extends(h, chain, Made(h, |chain|, HeadHash(chain), spec, id, ts))
  {
    HeadIsHex(h, chain);
    hide ValidChain, IsDigest, IsHex, HeadHash;
    var e := Made(h, |chain|, HeadHash(chain), spec, id, ts);
    assert e.hash == h(Canonical(e));
  }

  lemma AppendKeepsGood(h: Digest, lines: seq<Line>, e: Event)
    requires GoodPrefix(h, lines, |lines|) && lines[..|lines|] == lines
    requires Extends(h, Events(lines), e)
    ensures GoodPrefix(h, lines + [Decoded(e)], |lines| + 1)
    ensures HeadHash(Events(lines + [Decoded(e)])) == e.hash
  {
    var more := lines + [Decoded(e)];
    assert more[..|lines|] == lines && more[..|more|] == more;
    GoodPrefixStep(h, more, |lines|);
  }

  lemma LinesRoundTrip(h: Digest, events: seq<Event>)
    requires ValidChain(h, events)
    ensures Events(Lines(events)) == events && GoodPrefix(h, Lines(events), |events|)
  {
    hide ValidChain;
    assert Lines(events)[..|events|] == Lines(events);
    assert Events(Lines(events)) == events;
  }
}
