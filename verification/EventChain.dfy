/** Journal events and the hash chain they form (kernel/event, kernel/journal).

    BLAKE3 over the canonical encoding is an arbitrary function `h` of the event without its
    hash. Nothing assumes that `h` is injective: a theorem that needs it says instead that
    the only way out is a collision among the events at hand (`Forged`). */
module EventChain {
  import Decimal

  datatype Event = Event(
    id: string, seqNo: int, tsMS: int, prevHash: string, hash: string,
    subject: string, actor: string, kind: string, correlation: string, causation: string,
    payload: string, tags: map<string, string>)

  type Digest = Event -> string

  const GENESIS_HASH: string := Decimal.Zeros(64)

  predicate IsHex(s: string) {
    |s| % 2 == 0 && forall c :: c in s ==> '0' <= c <= '9' || 'a' <= c <= 'f' || 'A' <= c <= 'F'
  }

  lemma HexIff(s: string)
    ensures IsHex(s) <==> |s| % 2 == 0 && forall i :: 0 <= i < |s| ==>
      48 <= s[i] as int <= 57 || 65 <= s[i] as int <= 70 || 97 <= s[i] as int <= 102
  {
    if IsHex(s) { assert forall i :: 0 <= i < |s| ==> s[i] in s; }
  }

  /** `h` yields what a 256-bit digest in hex looks like. */
  ghost predicate IsDigest(h: Digest) {
    forall e :: |h(e)| == 64 && IsHex(h(e))
  }

  function Canonical(e: Event): Event { e.(hash := "") }

  predicate VerifyHash(h: Digest, e: Event) {
    IsHex(e.prevHash) && e.hash == h(Canonical(e))
  }

  function HeadHash(chain: seq<Event>): string {
    if chain == [] then GENESIS_HASH else chain[|chain| - 1].hash
  }

  /** `e` is what may follow `chain`. */
  predicate Extends(h: Digest, chain: seq<Event>, e: Event) {
    e.seqNo == |chain| && e.prevHash == HeadHash(chain) && VerifyHash(h, e)
  }

  /** A gap-free chain from genesis. */
  predicate ValidChain(h: Digest, chain: seq<Event>) {
    chain == [] ||
    (ValidChain(h, chain[..|chain| - 1]) && Extends(h, chain[..|chain| - 1], chain[|chain| - 1]))
  }

  lemma {:induction false} PrefixIsValid(h: Digest, chain: seq<Event>, n: nat)
    requires ValidChain(h, chain) && n <= |chain|
    ensures ValidChain(h, chain[..n])
    ensures n < |chain| ==> Extends(h, chain[..n], chain[n])
  {
    assert chain[..|chain|] == chain;
    if n < |chain| {
      var shorter := chain[..|chain| - 1];
      if n < |shorter| { PrefixIsValid(h, shorter, n); }
      assert shorter[..n] == chain[..n];
    }
  }

  lemma ExtendedIsValid(h: Digest, chain: seq<Event>, e: Event)
    requires ValidChain(h, chain)
    ensures ValidChain(h, chain + [e]) <==> Extends(h, chain, e)
  {
    assert (chain + [e])[..|chain|] == chain;
  }

  /** Every event of a chain links to the one before it. */
  lemma ChainLinks(h: Digest, chain: seq<Event>, i: nat)
    requires ValidChain(h, chain) && i < |chain|
    ensures VerifyHash(h, chain[i]) && chain[i].seqNo == i
    ensures chain[i].prevHash == if i == 0 then GENESIS_HASH else chain[i - 1].hash
  {
    PrefixIsValid(h, chain, i);
  }

  /** Neighbouring events link, whatever precedes the first. */
  predicate Linked(h: Digest, s: seq<Event>) {
    forall i :: 0 <= i < |s| ==> VerifyHash(h, s[i]) && (i > 0 ==> s[i].prevHash == s[i - 1].hash)
  }

  lemma SuffixIsLinked(h: Digest, chain: seq<Event>, k: nat)
    requires ValidChain(h, chain) && k <= |chain|
    ensures Linked(h, chain[k..])
  {
    hide ValidChain, VerifyHash;
    forall i | 0 <= i < |chain| - k
      ensures VerifyHash(h, chain[k..][i]) && (i > 0 ==> chain[k..][i].prevHash == chain[k..][i - 1].hash)
    {
      ChainLinks(h, chain, k + i);
    }
  }

  /** The events show a break of the hash: two different ones that hash alike, or one that
      hashes to the genesis value. */
  ghost predicate Forged(h: Digest, s: seq<Event>, t: seq<Event>) {
    || (exists x, y :: x in s && y in t && Canonical(x) != Canonical(y) && h(Canonical(x)) == h(Canonical(y)))
    || (exists x :: x in s && h(Canonical(x)) == GENESIS_HASH)
  }

  lemma SameHashSameEvent(h: Digest, s: seq<Event>, t: seq<Event>, i: nat, j: nat)
    requires i < |s| && j < |t| && !Forged(h, s, t)
    requires VerifyHash(h, s[i]) && VerifyHash(h, t[j]) && s[i].hash == t[j].hash
    ensures s[i] == t[j]
  {
    assert s[i] in s && t[j] in t;
    assert Canonical(s[i]).(hash := s[i].hash) == s[i];
    assert Canonical(t[j]).(hash := t[j].hash) == t[j];
  }

  lemma NothingBeforeGenesis(h: Digest, s: seq<Event>, t: seq<Event>, i: nat)
    requires i < |s| && !Forged(h, s, t) && VerifyHash(h, s[i])
    ensures s[i].hash != GENESIS_HASH
  {
    assert s[i] in s;
  }

  lemma ShorterIsNotForged(h: Digest, s: seq<Event>, t: seq<Event>, m: nat, n: nat)
    requires m <= |s| && n <= |t| && !Forged(h, s, t)
    ensures !Forged(h, s[..m], t[..n])
  {
    assert forall x :: x in s[..m] ==> x in s;
    assert forall y :: y in t[..n] ==> y in t;
  }

  lemma GlueTail(journal: seq<Event>, window: seq<Event>)
    requires 0 < |window| <= |journal|
    requires window[..|window| - 1] == journal[..|journal| - 1][|journal| - |window|..]
    requires window[|window| - 1] == journal[|journal| - 1]
    ensures window == journal[|journal| - |window|..]
  {
    assert window == window[..|window| - 1] + [window[|window| - 1]];
    assert journal == journal[..|journal| - 1] + [journal[|journal| - 1]];
  }

  lemma {:induction false} TailStep(h: Digest, journal: seq<Event>, window: seq<Event>)
    requires ValidChain(h, journal) && Linked(h, window) && window != []
    requires window[|window| - 1].hash == HeadHash(journal)
    requires !Forged(h, window, journal)
    ensures |window| <= |journal| && window == journal[|journal| - |window|..]
    decreases |window|
  {
    hide ValidChain, VerifyHash, Forged;
    var m, n := |window| - 1, |journal| - 1;
    assert VerifyHash(h, window[m]);
    NothingBeforeGenesis(h, window, journal, m);
    ChainLinks(h, journal, n);
    SameHashSameEvent(h, window, journal, m, n);
    if m > 0 {
      assert window[m].prevHash == window[m - 1].hash;
      PrefixIsValid(h, journal, n);
      ShorterIsNotForged(h, window, journal, m, n);
      assert Linked(h, window[..m]);
      TailStep(h, journal[..n], window[..m]);
      GlueTail(journal, window);
    }
  }

  /** A linked window whose last hash is the journal's head hash is the journal's tail,
      unless it exhibits a broken hash. */
  lemma HeadHashFixesTail(h: Digest, journal: seq<Event>, window: seq<Event>)
    requires ValidChain(h, journal) && Linked(h, window) && window != []
    requires window[|window| - 1].hash == HeadHash(journal)
    ensures Forged(h, window, journal) || (|window| <= |journal| && window == journal[|journal| - |window|..])
  {
    if !Forged(h, window, journal) {
      TailStep(h, journal, window);
    }
  }

  /** Two valid chains with the same head are the same chain, unless the hash is broken. */
  lemma SameHeadSameHistory(h: Digest, s: seq<Event>, t: seq<Event>)
    requires ValidChain(h, s) && ValidChain(h, t) && HeadHash(s) == HeadHash(t)
    ensures Forged(h, s, t) || Forged(h, t, s) || s == t
  {
    SuffixIsLinked(h, s, 0);
    SuffixIsLinked(h, t, 0);
    assert s[0..] == s && t[0..] == t;
    if s != [] {
      HeadHashFixesTail(h, t, s);
    }
    if t != [] {
      HeadHashFixesTail(h, s, t);
    }
  }
}
