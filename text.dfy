/** The pieces of Python's string handling that the status script relies on:
    `str.isspace`, `str.strip`, `str.startswith`, `in` on strings, `str.ljust`,
    `str.join`, `str.split(sep)` and `str.splitlines`. */
module Text {
  import opened Base

  /** Whitespace for `\s` and `str.strip()`: six of the ten ASCII characters Python counts
      as white space (space, tab, newline, carriage return, vertical tab, form feed). */
  predicate IsSpace(c: char) {
    c == ' ' || c == '\t' || c == '\n' || c == '\r' || c == '\U{000B}' || c == '\U{000C}'
  }

  predicate IsDigit(c: char) {
    '0' <= c <= '9'
  }

  /** The character classes the status script's regular expressions use: `\d`, `\s`, `\S`. */
  datatype CharClass = Digit | Space | NonSpace

  predicate InClass(c: char, cls: CharClass) {
    match cls
    case Digit => IsDigit(c)
    case Space => IsSpace(c)
    case NonSpace => !IsSpace(c)
  }

  /** The end of the longest run of `cls` characters starting at `i`: what a greedy
      `\d+`, `\s+` or `\S+` consumes from there. */
  function RunEnd(s: string, i: nat, cls: CharClass): (j: nat)
    requires i <= |s|
    ensures i <= j <= |s|
    ensures forall k :: i <= k < j ==> InClass(s[k], cls)
    ensures j < |s| ==> !InClass(s[j], cls)
    decreases |s| - i
  {
    if i == |s| || !InClass(s[i], cls) then i else RunEnd(s, i + 1, cls)
  }

  /** A run of `cls` characters from `i` to `j` that cannot be extended is the one RunEnd finds. */
  lemma RunEndIs(s: string, i: nat, cls: CharClass, j: nat)
    requires i <= j <= |s|
    requires forall k :: i <= k < j ==> InClass(s[k], cls)
    requires j < |s| ==> !InClass(s[j], cls)
    ensures RunEnd(s, i, cls) == j
  {
  }

  /** The maximal run of non-space characters starting at `p`. */
  function Token(s: string, p: nat): (t: string)
    requires p <= |s|
    ensures forall k :: 0 <= k < |t| ==> !IsSpace(t[k])
  {
    s[p..RunEnd(s, p, NonSpace)]
  }

  /** The characters at which `str.splitlines` ends a line. */
  predicate IsLineBreak(c: char) {
    c == '\n' || c == '\r' || c == '\U{000B}' || c == '\U{000C}' || c == '\U{001C}' || c == '\U{001D}'
    || c == '\U{001E}' || c == '\U{0085}' || c == '\U{2028}' || c == '\U{2029}'
  }

  /** `not s.strip()`: the string is empty or white space only. */
  predicate IsBlank(s: string) {
    forall i :: 0 <= i < |s| ==> IsSpace(s[i])
  }

  predicate HasNoBreak(s: string) {
    forall i :: 0 <= i < |s| ==> !IsLineBreak(s[i])
  }

  /** `s.startswith(prefix)` */
  predicate StartsWith(s: string, prefix: string) {
    |prefix| <= |s| && s[..|prefix|] == prefix
  }

  /** `sub` occurs in `s` starting at index `i`. */
  predicate OccursAt(s: string, sub: string, i: int) {
    0 <= i <= |s| - |sub| && s[i..i + |sub|] == sub
  }

  /** `sub in s` */
  predicate Contains(s: string, sub: string) {
    exists i | 0 <= i <= |s| - |sub| :: OccursAt(s, sub, i)
  }

  /** `c * n` */
  function Repeat(c: char, n: nat): (r: string)
    ensures |r| == n
    ensures forall i :: 0 <= i < n ==> r[i] == c
  {
    seq(n, _ => c)
  }

  /** `f"{s:<width}"`: pads with spaces on the right up to `width`, never truncates. */
  function LJust(s: string, width: nat): (r: string)
    ensures |r| == if |s| < width then width else |s|
    ensures r[..|s|] == s
    ensures forall i :: |s| <= i < |r| ==> r[i] == ' '
  {
    if |s| < width then s + Repeat(' ', width - |s|) else s
  }

  /** The number of leading white-space characters of `s`. */
  function LeadingSpaces(s: string): (n: nat)
    ensures n <= |s| && IsBlank(s[..n])
    ensures n < |s| ==> !IsSpace(s[n])
  {
    if s == [] || !IsSpace(s[0]) then 0
    else
      var n := 1 + LeadingSpaces(s[1..]);
      assert s[..n] == [s[0]] + s[1..][..n - 1];
      n
  }

  /** The length of `s` without its trailing white space. */
  function TrailingStart(s: string): (n: nat)
    ensures n <= |s| && IsBlank(s[n..])
    ensures n > 0 ==> !IsSpace(s[n - 1])
  {
    if s == [] || !IsSpace(s[|s| - 1]) then |s|
    else
      var n := TrailingStart(s[..|s| - 1]);
      assert s[n..] == s[..|s| - 1][n..] + [s[|s| - 1]];
      n
  }

  /** `s.strip()`: the slice of `s` between its leading and its trailing white space. */
  function Strip(s: string): (r: string)
    ensures exists i, j :: 0 <= i <= j <= |s| && r == s[i..j] && IsBlank(s[..i]) && IsBlank(s[j..])
    ensures r != [] ==> !IsSpace(r[0]) && !IsSpace(r[|r| - 1])
    ensures IsBlank(s) <==> r == []
  {
    var i := LeadingSpaces(s);
    var j := TrailingStart(s);
    if i < j then
      assert i < |s| ==> !IsSpace(s[i]);
      s[i..j]
    else
      assert forall k :: j <= k < |s| ==> s[j..][k - j] == s[k];
      assert s[..i] == s;
      assert s[i..i] == [];
      []
  }

  /** The first index of `c` in `s`, as `s.find(c)` without the -1. */
  function IndexOf(s: string, c: char): (r: Option<nat>)
    ensures r.None? <==> c !in s
    ensures r.Some? ==> r.value < |s| && s[r.value] == c && c !in s[..r.value]
  {
    if s == [] then None
    else if s[0] == c then Some(0)
    else
      match IndexOf(s[1..], c)
      case None => None
      case Some(i) =>
        assert s[..i + 1] == [s[0]] + s[1..][..i];
        Some(i + 1)
  }

  /** `sep.join(parts)` */
  function Join(sep: string, parts: seq<string>): string {
    if |parts| == 0 then ""
    else if |parts| == 1 then parts[0]
    else parts[0] + sep + Join(sep, parts[1..])
  }

  /** `s.split(c)` for a one-character separator. */
  function Split(s: string, c: char): (r: seq<string>)
    ensures |r| >= 1
    ensures forall k :: 0 <= k < |r| ==> c !in r[k]
    decreases |s|
  {
    match IndexOf(s, c)
    case None => [s]
    case Some(i) => [s[..i]] + Split(s[i + 1..], c)
  }

  lemma IndexOfAfterPrefix(a: string, c: char, b: string)
    requires c !in a
    ensures IndexOf(a + [c] + b, c) == Some(|a|)
  {
    var s := a + [c] + b;
    assert s[|a|] == c;
    assert s[..|a|] == a;
    var r := IndexOf(s, c);
    assert forall k :: 0 <= k < |a| ==> s[k] == a[k];
    assert forall k :: |a| < k <= |s| ==> s[..k][|a|] == c;
  }

  /** Splitting takes off the text before the first separator. */
  lemma SplitFirst(a: string, c: char, rest: string, s: string)
    requires c !in a && s == a + [c] + rest
    ensures Split(s, c) == [a] + Split(rest, c)
  {
    IndexOfAfterPrefix(a, c, rest);
    assert s[..|a|] == a;
    assert s[|a| + 1..] == rest;
  }

  /** Joining parts that do not contain the separator and splitting again gives the parts back. */
  lemma {:induction false} SplitJoin(parts: seq<string>, c: char)
    requires |parts| >= 1
    requires forall k :: 0 <= k < |parts| ==> c !in parts[k]
    ensures Split(Join([c], parts), c) == parts
  {
    if |parts| > 1 {
      var rest := Join([c], parts[1..]);
      var s := Join([c], parts);
      SplitFirst(parts[0], c, rest, s);
      SplitJoin(parts[1..], c);
      assert parts == [parts[0]] + parts[1..];
    } else {
      assert IndexOf(parts[0], c) == None;
    }
  }

  /** Joining the parts of a split with the separator gives the text back. */
  lemma {:induction false} JoinSplit(s: string, c: char)
    ensures Join([c], Split(s, c)) == s
    decreases |s|
  {
    var r := IndexOf(s, c);
    if r.Some? {
      var i := r.value;
      var a, rest := s[..i], s[i + 1..];
      var tail := Split(rest, c);
      SplitAt(s, c, i, a, rest);
      AroundIndex(s, c, i, a, rest);
      JoinSplit(rest, c);
      JoinSplitStep(s, c, a, rest, tail);
    }
  }

  lemma SplitAt(s: string, c: char, i: nat, a: string, rest: string)
    requires IndexOf(s, c) == Some(i) && a == s[..i] && rest == s[i + 1..]
    ensures Split(s, c) == [a] + Split(rest, c)
  {
  }

  lemma AroundIndex(s: string, c: char, i: nat, a: string, rest: string)
    requires i < |s| && s[i] == c && a == s[..i] && rest == s[i + 1..]
    ensures s == a + [c] + rest
  {
    assert s[..i + 1] == a + [c];
    assert s == s[..i + 1] + rest;
  }

  lemma JoinSplitStep(s: string, c: char, a: string, rest: string, tail: seq<string>)
    requires s == a + [c] + rest && |tail| >= 1 && Join([c], tail) == rest
    ensures Join([c], [a] + tail) == s
  {
    JoinCons(a, [c], tail);
  }

  lemma JoinCons(a: string, sep: string, tail: seq<string>)
    requires |tail| >= 1
    ensures Join(sep, [a] + tail) == a + sep + Join(sep, tail)
  {
    assert ([a] + tail)[1..] == tail;
  }

  /** The index of the first line break in `s`, or `|s|`. */
  function FirstBreak(s: string): (i: nat)
    ensures i <= |s| && HasNoBreak(s[..i])
    ensures i < |s| ==> IsLineBreak(s[i])
  {
    if s == [] || IsLineBreak(s[0]) then 0
    else
      var i := 1 + FirstBreak(s[1..]);
      assert s[..i] == [s[0]] + s[1..][..i - 1];
      i
  }

  /** `s.splitlines()`: a line ends at any line-break character, `\r\n` counts as one break,
      and a break at the very end does not start another line. */
  function SplitLines(s: string): (r: seq<string>)
    ensures forall k :: 0 <= k < |r| ==> HasNoBreak(r[k])
    ensures s == [] <==> r == []
    decreases |s|
  {
    if s == [] then []
    else
      var i := FirstBreak(s);
      if i == |s| then [s]
      else
        var width := if s[i] == '\r' && i + 1 < |s| && s[i + 1] == '\n' then 2 else 1;
        [s[..i]] + SplitLines(s[i + width..])
  }

  /** A line free of breaks followed by a newline ends at that newline. */
  lemma BreakAfter(a: string, rest: string, s: string)
    requires HasNoBreak(a) && s == a + "\n" + rest
    ensures FirstBreak(s) == |a| && s[|a|] == '\n'
    ensures s[..|a|] == a && s[|a| + 1..] == rest
  {
    var i := FirstBreak(s);
    assert s[|a|] == '\n' && IsLineBreak(s[|a|]);
    assert forall k :: 0 <= k < |a| ==> s[k] == a[k];
    assert forall j :: 0 <= j < i ==> s[..i][j] == s[j];
    assert forall j :: 0 <= j < i ==> !IsLineBreak(s[j]);
  }

  /** Splitting a joined text takes off its first line. */
  lemma SplitFirstLine(a: string, rest: string, s: string)
    requires HasNoBreak(a) && s == a + "\n" + rest
    ensures SplitLines(s) == [a] + SplitLines(rest)
  {
    BreakAfter(a, rest, s);
  }

  /** Two break-free lines joined by a newline split back into the two, the second being
      non-empty. */
  lemma SplitTwoLines(a: string, b: string)
    requires HasNoBreak(a) && HasNoBreak(b) && b != ""
    ensures SplitLines(a + "\n" + b) == [a, b]
  {
    var lines := [a, b];
    assert lines[1..] == [b];
    assert Join("\n", lines) == a + "\n" + b;
    SplitLinesJoin(lines);
  }

  /** `"\n".join(lines).splitlines()` returns the lines, when none holds a break and the last
      one is not empty. */
  lemma {:induction false} SplitLinesJoin(lines: seq<string>)
    requires forall k :: 0 <= k < |lines| ==> HasNoBreak(lines[k])
    requires lines != [] ==> lines[|lines| - 1] != ""
    ensures SplitLines(Join("\n", lines)) == lines
  {
    if |lines| == 1 {
      var i := FirstBreak(lines[0]);
      assert HasNoBreak(lines[0]);
    } else if |lines| > 1 {
      var a := lines[0];
      var rest := Join("\n", lines[1..]);
      var s := Join("\n", lines);
      assert HasNoBreak(a);
      SplitFirstLine(a, rest, s);
      SplitLinesJoin(lines[1..]);
      assert lines == [a] + lines[1..];
    }
  }
}
