/** The string operations the program takes from Go's library. */
module Text {
  import opened Common

  /** The characters `strings.TrimSpace` cuts. */
  predicate IsSpace(c: char) {
    || '\t' <= c <= '\r' || c == ' ' || c == '\U{85}' || c == '\U{A0}' || c == '\U{1680}'
    || '\U{2000}' <= c <= '\U{200A}' || c == '\U{2028}' || c == '\U{2029}' || c == '\U{202F}'
    || c == '\U{205F}' || c == '\U{3000}'
  }

  /** Unicode's White_Space, by code point. */
  lemma SpaceIff(c: char)
    ensures IsSpace(c) <==>
      var n := c as int;
      || 9 <= n <= 13 || n == 32 || n == 133 || n == 160 || n == 5760 || 8192 <= n <= 8202
      || n == 8232 || n == 8233 || n == 8239 || n == 8287 || n == 12288
  {}

  lemma GraphicIsNotSpace(c: char)
    requires '!' <= c <= '~'
    ensures !IsSpace(c)
  {}

  function TrimLeft(s: string, cut: char -> bool): (r: string)
    ensures r == [] || !cut(r[0])
    ensures |r| <= |s| && r == s[|s| - |r|..]
  {
    if s == [] || !cut(s[0]) then s else TrimLeft(s[1..], cut)
  }

  function TrimRight(s: string, cut: char -> bool): (r: string)
    ensures r == [] || !cut(r[|r| - 1])
    ensures |r| <= |s| && r == s[..|r|]
  {
    if s == [] || !cut(s[|s| - 1]) then s else TrimRight(s[..|s| - 1], cut)
  }

  function Trim(s: string, cut: char -> bool): (r: string)
    ensures r == [] || (!cut(r[0]) && !cut(r[|r| - 1]))
  {
    TrimRight(TrimLeft(s, cut), cut)
  }

  function TrimSpace(s: string): (r: string)
    ensures r == [] || (!IsSpace(r[0]) && !IsSpace(r[|r| - 1]))
  {
    Trim(s, IsSpace)
  }

  predicate AllCut(s: string, cut: char -> bool) { forall i :: 0 <= i < |s| ==> cut(s[i]) }

  /** Trimming takes away what is cut at both ends, and nothing else. */
  lemma TrimTakesOnly(s: string, cut: char -> bool) returns (left: string, right: string)
    ensures s == left + Trim(s, cut) + right && AllCut(left, cut) && AllCut(right, cut)
  {
    hide TrimLeft, TrimRight, AllCut;
    var t := TrimLeft(s, cut);
    left := s[..|s| - |t|];
    LeftIsCut(s, cut);
    right := t[|Trim(s, cut)|..];
    RightIsCut(t, cut);
    assert s == left + t;
    assert t == Trim(s, cut) + right;
    hide Trim;
    assert left + (Trim(s, cut) + right) == left + Trim(s, cut) + right;
  }

  lemma {:induction false} LeftIsCut(s: string, cut: char -> bool)
    ensures AllCut(s[..|s| - |TrimLeft(s, cut)|], cut)
  {
    if s != [] && cut(s[0]) {
      LeftIsCut(s[1..], cut);
      var n := |s| - |TrimLeft(s, cut)|;
      assert s[..n] == [s[0]] + s[1..][..n - 1];
    }
  }

  lemma {:induction false} RightIsCut(s: string, cut: char -> bool)
    ensures AllCut(s[|TrimRight(s, cut)|..], cut)
  {
    if s != [] && cut(s[|s| - 1]) {
      var t := s[..|s| - 1];
      RightIsCut(t, cut);
      assert s[|TrimRight(s, cut)|..] == t[|TrimRight(t, cut)|..] + [s[|s| - 1]];
    }
  }

  lemma TrimFixed(s: string, cut: char -> bool)
    requires s == [] || (!cut(s[0]) && !cut(s[|s| - 1]))
    ensures Trim(s, cut) == s
  {}

  lemma TrimSpaceTwice(s: string)
    ensures TrimSpace(TrimSpace(s)) == TrimSpace(s)
  {
    TrimFixed(TrimSpace(s), IsSpace);
  }

  function Map(s: string, f: char -> char): string {
    seq(|s|, i requires 0 <= i < |s| => f(s[i]))
  }

  /** A case map that treats ASCII as `strings.ToLower` does, whatever it does elsewhere. */
  ghost predicate LowersAscii(lower: char -> char) {
    forall c :: c < '\U{80}' ==> lower(c) == if 'A' <= c <= 'Z' then c + ' ' else c
  }

  /** `strings.CutPrefix`. */
  function CutPrefix(s: string, prefix: string): Option<string> {
    if prefix <= s then Some(s[|prefix|..]) else None
  }

  lemma CutPrefixOf(prefix: string, rest: string)
    ensures CutPrefix(prefix + rest, prefix) == Some(rest)
  {
    assert (prefix + rest)[|prefix|..] == rest;
  }

  predicate Contains(s: string, sub: string) {
    exists i :: 0 <= i <= |s| && sub <= s[i..]
  }

  /** The bytes of a character. */
  function Utf8Char(c: char): seq<nat> {
    var n := c as int;
    if n < 0x80 then [n]
    else if n < 0x800 then [0xC0 + n / 0x40, 0x80 + n % 0x40]
    else if n < 0x1_0000 then [0xE0 + n / 0x1000, 0x80 + n / 0x40 % 0x40, 0x80 + n % 0x40]
    else [0xF0 + n / 0x4_0000, 0x80 + n / 0x1000 % 0x40, 0x80 + n / 0x40 % 0x40, 0x80 + n % 0x40]
  }

  /** As many bytes as the code point needs; the later ones carry six bits each. */
  lemma Utf8Reads(c: char)
    ensures var n, b := c as int, Utf8Char(c);
      && (forall i :: 0 < i < |b| ==> 0x80 <= b[i] < 0xC0)
      && if n <= 0x7F then |b| == 1 && n == b[0]
         else if n <= 0x7FF then |b| == 2 && 0xC2 <= b[0] < 0xE0 && n == 64 * (b[0] - 0xC0) + (b[1] - 0x80)
         else if n <= 0xFFFF then
           |b| == 3 && 0xE0 <= b[0] < 0xF0 && n == 64 * (64 * (b[0] - 0xE0) + (b[1] - 0x80)) + (b[2] - 0x80)
         else
           && |b| == 4 && 0xF0 <= b[0] < 0xF8
           && n == 64 * (64 * (64 * (b[0] - 0xF0) + (b[1] - 0x80)) + (b[2] - 0x80)) + (b[3] - 0x80)
  {
    SixBits(c as int);
    SixBits(c as int / 0x40);
    SixBits(c as int / 0x1000);
  }

  lemma SixBits(n: nat)
    ensures n == 0x40 * (n / 0x40) + n % 0x40
    ensures n / 0x40 / 0x40 == n / 0x1000 && n / 0x1000 / 0x40 == n / 0x4_0000
  {}

  /** The bytes of a string, which is what indexing it gives. */
  function Utf8(s: string): seq<nat> {
    if s == "" then [] else Utf8(s[..|s| - 1]) + Utf8Char(s[|s| - 1])
  }

  lemma {:induction false} Utf8Concat(s: string, t: string)
    ensures Utf8(s + t) == Utf8(s) + Utf8(t)
  {
    if t == "" {
      assert s + t == s;
    } else {
      var t', c := t[..|t| - 1], t[|t| - 1];
      assert (s + t)[..|s + t| - 1] == s + t' && (s + t)[|s + t| - 1] == c;
      Utf8Concat(s, t');
      hide Utf8Char;
    }
  }
}
