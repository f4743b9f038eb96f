/** The parts of java.lang.String and java.util that the logging managers rely on:
    `strip`, `trim`, `isBlank`, `toUpperCase`, `equalsIgnoreCase`, `compareTo`
    (to sort logger names; modelled in code-point order) and
    `Collectors.joining("\n")`. */
module Strings {

  // ---------------------------------------------------------------------------
  // Whitespace, strip, trim, isBlank
  // ---------------------------------------------------------------------------

  /** java.lang.Character.isWhitespace: the Unicode space separators other than
      the no-break spaces, the line and paragraph separators, and the ASCII
      controls U+0009..U+000D and U+001C..U+001F. */
  predicate IsWhitespace(c: char) {
    || c == ' '
    || ('\t' <= c <= '\r')
    || ('\U{1C}' <= c <= '\U{1F}')
    || c == '\U{1680}'
    || ('\U{2000}' <= c <= '\U{2006}')
    || ('\U{2008}' <= c <= '\U{200A}')
    || c == '\U{2028}' || c == '\U{2029}'
    || c == '\U{205F}' || c == '\U{3000}'
  }

  /** The characters String.trim removes: every code point up to U+0020. */
  predicate IsTrimmable(c: char) {
    c <= ' '
  }

  /** The characters cut off by `strip` (`trim` false) or by `trim` (`trim`
      true). */
  predicate Dropped(c: char, trim: bool) {
    if trim then IsTrimmable(c) else IsWhitespace(c)
  }

  /** The index of the first kept character at or after `i`, `|s|` if none. */
  function Lead(s: string, trim: bool, i: nat): (j: nat)
    requires i <= |s|
    ensures i <= j <= |s|
    ensures forall k :: i <= k < j ==> Dropped(s[k], trim)
    ensures j == |s| || !Dropped(s[j], trim)
    decreases |s| - i
  {
    if i < |s| && Dropped(s[i], trim) then Lead(s, trim, i + 1) else i
  }

  /** One past the last kept character of `s[lo..j]`, `lo` if none. */
  function Trail(s: string, trim: bool, lo: nat, j: nat): (e: nat)
    requires lo <= j <= |s|
    ensures lo <= e <= j
    ensures forall k :: e <= k < j ==> Dropped(s[k], trim)
    ensures e == lo || !Dropped(s[e - 1], trim)
    decreases j
  {
    if lo < j && Dropped(s[j - 1], trim) then Trail(s, trim, lo, j - 1) else j
  }

  /** Cuts the dropped characters off both ends: what is left starts and ends
      with a kept character, and everything cut away is dropped. */
  function StripEnds(s: string, trim: bool): (r: string)
    ensures |r| <= |s|
    ensures r == [] || (!Dropped(r[0], trim) && !Dropped(r[|r| - 1], trim))
  {
    var i := Lead(s, trim, 0);
    s[i..Trail(s, trim, i, |s|)]
  }

  /** String.strip */
  function Strip(s: string): string {
    StripEnds(s, false)
  }

  /** String.trim */
  function Trim(s: string): string {
    StripEnds(s, true)
  }

  /** A string that starts and ends with kept characters is its own strip. */
  lemma StripEndsKeeps(s: string, trim: bool)
    requires s != [] && !Dropped(s[0], trim) && !Dropped(s[|s| - 1], trim)
    ensures StripEnds(s, trim) == s
  {
    assert Lead(s, trim, 0) == 0;
    assert Trail(s, trim, 0, |s|) == |s|;
  }

  /** One dropped character on each side of such a string is cut away. */
  lemma StripEndsPadded(s: string, trim: bool, a: char, b: char)
    requires s != [] && !Dropped(s[0], trim) && !Dropped(s[|s| - 1], trim)
    requires Dropped(a, trim) && Dropped(b, trim)
    ensures StripEnds([a] + s + [b], trim) == s
  {
    var p := [a] + s + [b];
    assert p[1] == s[0];
    assert Lead(p, trim, 1) == 1;
    assert Lead(p, trim, 0) == 1;
    assert p[|p| - 2] == s[|s| - 1];
    assert Trail(p, trim, 1, |p| - 1) == |p| - 1;
    assert Trail(p, trim, 1, |p|) == |p| - 1;
    assert p[1..|p| - 1] == s;
  }

  /** String.isBlank: empty, or whitespace only. */
  predicate IsBlank(s: string) {
    forall k :: 0 <= k < |s| ==> IsWhitespace(s[k])
  }

  /** A line strips down to "" exactly when it is blank. */
  lemma StripIsEmptyIffBlank(s: string)
    ensures Strip(s) == "" <==> IsBlank(s)
  {
    var i := Lead(s, false, 0);
    var e := Trail(s, false, i, |s|);
    if Strip(s) == "" {
      assert e == i;
      assert forall k :: 0 <= k < |s| ==> Dropped(s[k], false);
    }
  }

  // ---------------------------------------------------------------------------
  // Case
  // ---------------------------------------------------------------------------

  /** Character.toUpperCase, restricted to the ASCII letters. */
  function UpperChar(c: char): char {
    if 'a' <= c <= 'z' then (c as int - 32) as char else c
  }

  /** String.toUpperCase, restricted to the ASCII letters. */
  function ToUpper(s: string): (r: string)
    ensures |r| == |s|
  {
    seq(|s|, i requires 0 <= i < |s| => UpperChar(s[i]))
  }

  /** A string with no lower-case ASCII letter is its own upper case. */
  lemma ToUpperOfUpper(s: string)
    requires forall k :: 0 <= k < |s| ==> !('a' <= s[k] <= 'z')
    ensures ToUpper(s) == s
  {
  }

  /** String.equalsIgnoreCase, restricted to the ASCII letters. */
  predicate EqualsIgnoreCase(a: string, b: string) {
    ToUpper(a) == ToUpper(b)
  }

  // ---------------------------------------------------------------------------
  // String.compareTo and sorting
  // ---------------------------------------------------------------------------

  /** The order names are sorted in: lexicographic on characters, a proper
      prefix coming first (characters compare by code point). */
  predicate Le(a: string, b: string)
    decreases |a|
  {
    if a == [] then true
    else if b == [] then false
    else if a[0] != b[0] then a[0] < b[0]
    else Le(a[1..], b[1..])
  }

  lemma {:induction false} LeTotal(a: string, b: string)
    ensures Le(a, b) || Le(b, a)
    decreases |a|
  {
    if a != [] && b != [] && a[0] == b[0] {
      LeTotal(a[1..], b[1..]);
    }
  }

  lemma {:induction false} LeAntisymmetric(a: string, b: string)
    requires Le(a, b) && Le(b, a)
    ensures a == b
    decreases |a|
  {
    if a != [] {
      LeAntisymmetric(a[1..], b[1..]);
      assert a == [a[0]] + a[1..] && b == [b[0]] + b[1..];
    }
  }

  lemma {:induction false} LeTransitive(a: string, b: string, c: string)
    requires Le(a, b) && Le(b, c)
    ensures Le(a, c)
    decreases |a|
  {
    if a != [] && a[0] == b[0] && b[0] == c[0] {
      LeTransitive(a[1..], b[1..], c[1..]);
    }
  }

  /** `m` comes first among the strings of `s`. */
  predicate IsLeast(m: string, s: set<string>) {
    m in s && forall x :: x in s ==> Le(m, x)
  }

  /** Every non-empty finite set of strings has a first element. */
  lemma {:induction false} LeastExists(s: set<string>)
    requires s != {}
    ensures exists m :: IsLeast(m, s)
    decreases s
  {
    var y :| y in s;
    LeTotal(y, y);
    if s == {y} {
      assert IsLeast(y, s);
    } else {
      LeastExists(s - {y});
      var m :| IsLeast(m, s - {y});
      LeTotal(m, y);
      if Le(m, y) {
        assert IsLeast(m, s);
      } else {
        forall x | x in s ensures Le(y, x) {
          if x != y { LeTransitive(y, m, x); }
        }
        assert IsLeast(y, s);
      }
    }
  }

  /** Strictly ascending: sorted and without repetitions. */
  predicate StrictlySorted(r: seq<string>) {
    forall i, j :: 0 <= i < j < |r| ==> Le(r[i], r[j]) && r[i] != r[j]
  }

  /** A set has at most one least element. */
  lemma LeastUnique(s: set<string>)
    ensures forall a, b :: IsLeast(a, s) && IsLeast(b, s) ==> a == b
  {
    forall a, b | IsLeast(a, s) && IsLeast(b, s) ensures a == b {
      LeAntisymmetric(a, b);
    }
  }

  /** The least element of `s` in front of the rest of `s`, sorted, is `s`
      sorted. */
  lemma LeastInFront(m: string, s: set<string>, rest: seq<string>)
    requires IsLeast(m, s)
    requires forall x :: x in rest <==> x in s - {m}
    requires StrictlySorted(rest)
    ensures forall x :: x in [m] + rest <==> x in s
    ensures StrictlySorted([m] + rest)
  {
    var r := [m] + rest;
    forall i, j | 0 <= i < j < |r| ensures Le(r[i], r[j]) && r[i] != r[j] {
      if i == 0 {
        assert r[j] == rest[j - 1] && r[j] in s - {m};
      } else {
        assert r[i] == rest[i - 1] && r[j] == rest[j - 1];
      }
    }
  }

  /** The strings of `s` in ascending code-point order
      (`names.sort(String::compareTo)` applied to the elements of a set): a
      strictly ascending sequence that holds each element of `s` exactly once. */
  function SortedStrings(s: set<string>): (r: seq<string>)
    ensures |r| == |s|
    ensures forall x :: x in r <==> x in s
    ensures StrictlySorted(r)
    decreases s
  {
    if s == {} then []
    else
      LeastExists(s);
      LeastUnique(s);
      var m :| IsLeast(m, s);
      var rest := SortedStrings(s - {m});
      LeastInFront(m, s, rest);
      [m] + rest
  }

  // ---------------------------------------------------------------------------
  // Collectors.joining("\n") and its inverse
  // ---------------------------------------------------------------------------

  /** Collectors.joining("\n"): the lines separated by a newline, no trailing
      newline, and "" for no lines at all. */
  function JoinLines(lines: seq<string>): (r: string)
    ensures lines == [] ==> r == ""
    ensures |lines| == 1 ==> r == lines[0]
    decreases |lines|
  {
    if lines == [] then ""
    else if |lines| == 1 then lines[0]
    else lines[0] + "\n" + JoinLines(lines[1..])
  }

  /** The joined text starts with the first line. */
  lemma JoinLinesStartsWithFirst(lines: seq<string>)
    requires lines != []
    ensures lines[0] <= JoinLines(lines)
  {
  }

  /** Two lines join around one newline. */
  lemma JoinTwo(x: string, y: string)
    ensures JoinLines([x, y]) == x + "\n" + y
  {
    assert [x, y][1..] == [y];
  }

  /** Splits a text at every newline (String.split("\n", -1)). */
  function SplitLines(s: string): (r: seq<string>)
    ensures |r| >= 1
    decreases |s|
  {
    if '\n' !in s then [s]
    else
      var i := FirstNewline(s);
      [s[..i]] + SplitLines(s[i + 1..])
  }

  function FirstNewline(s: string): (i: nat)
    requires '\n' in s
    ensures i < |s| && s[i] == '\n' && '\n' !in s[..i]
  {
    if s[0] == '\n' then 0 else 1 + FirstNewline(s[1..])
  }

  lemma {:induction false} FirstNewlineAfterLine(a: string, b: string)
    requires '\n' !in a
    ensures FirstNewline(a + "\n" + b) == |a|
    decreases |a|
  {
    if a != [] {
      assert (a + "\n" + b)[1..] == a[1..] + "\n" + b;
      FirstNewlineAfterLine(a[1..], b);
    }
  }

  lemma SplitAfterLine(a: string, b: string)
    requires '\n' !in a
    ensures SplitLines(a + "\n" + b) == [a] + SplitLines(b)
  {
    var s := a + "\n" + b;
    assert s[|a|] == '\n';
    FirstNewlineAfterLine(a, b);
    assert s[..|a|] == a;
    assert s[|a| + 1..] == b;
  }

  /** Splitting the joined text at newlines gives the lines back, provided no
      line holds a newline of its own. */
  lemma {:induction false} SplitJoinLines(lines: seq<string>)
    requires lines != []
    requires forall k :: 0 <= k < |lines| ==> '\n' !in lines[k]
    ensures SplitLines(JoinLines(lines)) == lines
    decreases |lines|
  {
    if |lines| > 1 {
      SplitAfterLine(lines[0], JoinLines(lines[1..]));
      SplitJoinLines(lines[1..]);
      assert lines == [lines[0]] + lines[1..];
    }
  }
}
