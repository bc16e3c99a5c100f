/** String helpers used by both handlers: Python's whitespace test, `str.strip()`
    without arguments, and the overlapping two-character windows of a string. */
module Text {

  /** Python's `str.isspace()` on one character: the code points that
      `str.strip()` removes when it is called without arguments. These
      include the ASCII blank, tab and line breaks, and no letter or digit. */
  predicate IsSpace(c: char)
    ensures c == ' ' || c == '\t' || c == '\n' || c == '\r' ==> IsSpace(c)
    ensures 'a' <= c <= 'z' || 'A' <= c <= 'Z' || '0' <= c <= '9' ==> !IsSpace(c)
  {
    var n := c as int;
    || (0x09 <= n <= 0x0D)
    || (0x1C <= n <= 0x20)
    || n == 0x85 || n == 0xA0 || n == 0x1680
    || (0x2000 <= n <= 0x200A)
    || n == 0x2028 || n == 0x2029 || n == 0x202F || n == 0x205F || n == 0x3000
  }

  predicate AllSpace(s: string) {
    forall i :: 0 <= i < |s| ==> IsSpace(s[i])
  }

  /** The length of the run of whitespace at the front of `s`; it stops at
      the first non-space. */
  function LeadingSpaces(s: string): (k: nat)
    ensures k <= |s|
    ensures k < |s| ==> !IsSpace(s[k])
  {
    if s == [] || !IsSpace(s[0]) then 0 else 1 + LeadingSpaces(s[1..])
  }

  /** The length of the run of whitespace at the back of `s`; it stops at
      the last non-space. */
  function TrailingSpaces(s: string): (k: nat)
    ensures k <= |s|
    ensures k < |s| ==> !IsSpace(s[|s| - 1 - k])
  {
    if s == [] || !IsSpace(s[|s| - 1]) then 0 else 1 + TrailingSpaces(s[..|s| - 1])
  }

  /** The leading run is all whitespace. */
  lemma {:induction false} LeadingRun(s: string)
    ensures AllSpace(s[..LeadingSpaces(s)])
  {
    if s != [] && IsSpace(s[0]) {
      LeadingRun(s[1..]);
      assert s[..LeadingSpaces(s)] == [s[0]] + s[1..][..LeadingSpaces(s[1..])];
    }
  }

  /** The trailing run is all whitespace. */
  lemma {:induction false} TrailingRun(s: string)
    ensures AllSpace(s[|s| - TrailingSpaces(s)..])
  {
    if s != [] && IsSpace(s[|s| - 1]) {
      var init := s[..|s| - 1];
      TrailingRun(init);
      assert s[|s| - TrailingSpaces(s)..] == init[|init| - TrailingSpaces(init)..] + [s[|s| - 1]];
    }
  }

  /** Python's `s.strip()`: `s` without its leading and trailing whitespace.
      The result is never longer than `s`; `StripShape` says what it keeps. */
  function Strip(s: string): (r: string)
    ensures |r| <= |s|
  {
    var t := s[LeadingSpaces(s)..];
    t[..|t| - TrailingSpaces(t)]
  }

  /** After the leading run, whatever `Strip` drops at the back is whitespace. */
  lemma TrailingTail(s: string, a: nat)
    requires a == LeadingSpaces(s)
    ensures a + |Strip(s)| <= |s| && AllSpace(s[a + |Strip(s)|..])
  {
    var t := s[a..];
    TrailingRun(t);
    assert s[a + |Strip(s)|..] == t[|t| - TrailingSpaces(t)..];
  }

  /** What `Strip` leaves: the infix of `s` that starts after the leading
      whitespace run and leaves out only whitespace on either side, starting
      and ending with a non-space when it is not empty. */
  lemma StripShape(s: string)
    ensures var a, r := LeadingSpaces(s), Strip(s);
            && a + |r| <= |s|
            && r == s[a..a + |r|]
            && AllSpace(s[..a]) && AllSpace(s[a + |r|..])
            && (r != [] ==> !IsSpace(r[0]) && !IsSpace(r[|r| - 1]))
  {
    var a := LeadingSpaces(s);
    var t := s[a..];
    var n := |t| - TrailingSpaces(t);
    assert Strip(s) == t[..n] == s[a..a + n];
    LeadingRun(s);
    TrailingTail(s, a);
  }

  /** Stripping leaves nothing exactly when the input is all whitespace. */
  lemma StripEmpty(s: string)
    ensures Strip(s) == [] <==> AllSpace(s)
  {
    StripShape(s);
    var a := LeadingSpaces(s);
    if Strip(s) == [] {
      assert a == |s|;
      assert s[..a] == s;
    }
  }

  /** The overlapping two-character windows of `s`, left to right: one per
      offset from 0 to |s| - 2, none when |s| < 2. */
  function Pairs(s: string): (ws: seq<string>)
    ensures |ws| == if |s| < 2 then 0 else |s| - 1
  {
    if |s| < 2 then [] else [s[..2]] + Pairs(s[1..])
  }

  /** The window at position `i` is the slice of `s` that starts at offset
      `i`; in particular every window is exactly two characters long. */
  lemma {:induction false} PairsAt(s: string, i: nat)
    requires i + 2 <= |s|
    ensures Pairs(s)[i] == s[i..i + 2] && |Pairs(s)[i]| == 2
  {
    if i > 0 {
      PairsAt(s[1..], i - 1);
      assert s[1..][i - 1..i + 1] == s[i..i + 2];
    }
  }
}
