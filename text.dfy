/**
 * The handful of Python string operations the session pipeline relies on:
 * `strip`, `rstrip("\r\n")`, `lower`, `startswith`, `in` (substring),
 * `split()` and `"\n".join`, plus iteration over the lines of a text file.
 * Only ASCII case folding and ASCII whitespace are modelled.
 */
module Text {

  /** Python's `str.isspace` restricted to the ASCII range. */
  predicate IsSpace(c: char) {
    c == ' ' || c == '\t' || c == '\n' || c == '\r' || c == '\U{B}' || c == '\U{C}'
    || ('\U{1C}' <= c <= '\U{1F}')
  }

  predicate NoSpace(s: string) {
    forall k :: 0 <= k < |s| ==> !IsSpace(s[k])
  }

  /** `s.lstrip()` */
  function TrimLeft(s: string): string {
    if s != "" && IsSpace(s[0]) then TrimLeft(s[1..]) else s
  }

  /** The first `n` characters of `s` are all whitespace. */
  predicate SpacesBefore(s: string, n: int) {
    forall k :: 0 <= k < n && k < |s| ==> IsSpace(s[k])
  }

  /** `lstrip` removes exactly the leading whitespace: what remains is a suffix
      that does not start with whitespace, and everything removed was whitespace. */
  lemma TrimLeftRemovesLeadingSpace(s: string)
    ensures var r := TrimLeft(s);
      && |r| <= |s| && r == s[|s| - |r|..]
      && (r == "" || !IsSpace(r[0]))
      && SpacesBefore(s, |s| - |r|)
  {
    TrimLeftIsSuffix(s);
    TrimLeftDropsSpaces(s);
  }

  lemma {:induction false} TrimLeftIsSuffix(s: string)
    ensures var r := TrimLeft(s);
      |r| <= |s| && r == s[|s| - |r|..] && (r == "" || !IsSpace(r[0]))
  {
    if s != "" && IsSpace(s[0]) {
      var t := s[1..];
      TrimLeftIsSuffix(t);
      assert t[|t| - |TrimLeft(t)|..] == s[|s| - |TrimLeft(t)|..];
    }
  }

  lemma {:induction false} TrimLeftDropsSpaces(s: string)
    ensures SpacesBefore(s, |s| - |TrimLeft(s)|)
  {
    if s != "" && IsSpace(s[0]) {
      var t := s[1..];
      TrimLeftDropsSpaces(t);
      forall k | 0 <= k < |s| - |TrimLeft(t)|
        ensures IsSpace(s[k])
      {
        if k > 0 {
          assert s[k] == t[k - 1];
        }
      }
    }
  }

  /** `s.rstrip()` */
  function TrimRight(s: string): string {
    if s != "" && IsSpace(s[|s| - 1]) then TrimRight(s[..|s| - 1]) else s
  }

  /** `rstrip` removes exactly the trailing whitespace. */
  lemma {:induction false} TrimRightRemovesTrailingSpace(s: string)
    ensures var r := TrimRight(s);
      && |r| <= |s| && r == s[..|r|]
      && (r == "" || !IsSpace(r[|r| - 1]))
      && forall k :: |r| <= k < |s| ==> IsSpace(s[k])
  {
    if s != "" && IsSpace(s[|s| - 1]) {
      TrimRightRemovesTrailingSpace(s[..|s| - 1]);
    }
  }

  /** `s.strip()` */
  function Strip(s: string): string {
    TrimRight(TrimLeft(s))
  }

  /** A string strips to nothing exactly when every character is whitespace. */
  lemma StripEmptyIffBlank(s: string)
    ensures Strip(s) == "" <==> forall k :: 0 <= k < |s| ==> IsSpace(s[k])
  {
    TrimLeftRemovesLeadingSpace(s);
    TrimRightRemovesTrailingSpace(TrimLeft(s));
  }

  /** Stripping twice is stripping once. */
  lemma StripIdempotent(s: string)
    ensures Strip(Strip(s)) == Strip(s)
  {
    var t := TrimLeft(s);
    var r := TrimRight(t);
    TrimLeftRemovesLeadingSpace(s);
    TrimRightRemovesTrailingSpace(t);
    if r != "" {
      assert r[0] == t[0];
    }
    assert TrimLeft(r) == r;
  }

  /** A line with no surrounding whitespace strips back to itself once its line feed is added. */
  lemma StripDropsLineFeed(line: string)
    requires line != "" && !IsSpace(line[0]) && !IsSpace(line[|line| - 1])
    ensures Strip(line + "\n") == line
  {
    var s := line + "\n";
    assert s[0] == line[0];
    assert TrimLeft(s) == s;
    assert s[|s| - 1] == '\n' && s[..|s| - 1] == line;
    assert TrimRight(s) == TrimRight(line);
  }

  /** `s.rstrip("\r\n")`: drops trailing carriage returns and line feeds only. */
  function RStripCrLf(s: string): (r: string)
    ensures |r| <= |s| && r == s[..|r|]
    ensures r == "" || (r[|r| - 1] != '\r' && r[|r| - 1] != '\n')
  {
    if s != "" && (s[|s| - 1] == '\r' || s[|s| - 1] == '\n') then RStripCrLf(s[..|s| - 1]) else s
  }

  function LowerChar(c: char): char {
    if 'A' <= c <= 'Z' then (c as int + 32) as char else c
  }

  /** `s.lower()` on ASCII letters. */
  function Lower(s: string): (r: string) {
    seq(|s|, k requires 0 <= k < |s| => LowerChar(s[k]))
  }

  /** `s.lower() == w` for an all-lower-case `w`, compared character by character. */
  predicate LowerEquals(s: string, w: string) {
    |s| == |w| && forall k :: 0 <= k < |s| ==> LowerChar(s[k]) == w[k]
  }

  /** `s.lower().startswith(p)` for an all-lower-case `p`. */
  predicate LowerStartsWith(s: string, p: string) {
    |p| <= |s| && forall k :: 0 <= k < |p| ==> LowerChar(s[k]) == p[k]
  }

  lemma LowerEqualsIsLower(s: string, w: string)
    ensures LowerEquals(s, w) <==> Lower(s) == w
    ensures LowerStartsWith(s, w) <==> StartsWith(Lower(s), w)
  {
    if Lower(s) == w {
      assert forall k :: 0 <= k < |s| ==> Lower(s)[k] == w[k];
    }
    if StartsWith(Lower(s), w) {
      assert forall k :: 0 <= k < |w| ==> Lower(s)[k] == w[k];
    }
  }

  /** `s.startswith(p)` */
  predicate StartsWith(s: string, p: string) {
    p <= s
  }

  /** `s.endswith(p)` */
  predicate EndsWith(s: string, p: string) {
    |p| <= |s| && s[|s| - |p|..] == p
  }

  /** `sub` occurs in `s` starting at index `k`. */
  predicate OccursAt(s: string, sub: string, k: nat) {
    k + |sub| <= |s| && s[k..k + |sub|] == sub
  }

  /** `sub in s` */
  predicate Contains(s: string, sub: string) {
    exists k: nat :: k <= |s| && OccursAt(s, sub, k)
  }

  /** `s.replace(ch, "")` for a single character. */
  function RemoveChar(s: string, ch: char): (r: string)
    ensures ch !in r
  {
    if s == "" then "" else (if s[0] == ch then "" else [s[0]]) + RemoveChar(s[1..], ch)
  }

  /** The longest prefix of `s` that holds no whitespace. */
  function TakeWord(s: string): (w: string)
    ensures w <= s && NoSpace(w)
    ensures |w| < |s| ==> IsSpace(s[|w|])
  {
    if s == "" || IsSpace(s[0]) then "" else [s[0]] + TakeWord(s[1..])
  }

  /** `s.split()`: the maximal runs of non-whitespace characters, in order. */
  function Words(s: string): (ws: seq<string>)
    decreases |s|
  {
    TrimLeftRemovesLeadingSpace(s);
    var t := TrimLeft(s);
    if t == "" then []
    else
      var w := TakeWord(t);
      [w] + Words(t[|w|..])
  }

  /** `sep.join(parts)` */
  function Join(sep: string, parts: seq<string>): string {
    if parts == [] then ""
    else if |parts| == 1 then parts[0]
    else parts[0] + sep + Join(sep, parts[1..])
  }

  /** Length of the first line of `s`, its terminating line feed included. */
  function LineLength(s: string): (n: nat)
    requires s != ""
    ensures 0 < n <= |s|
    ensures s[n - 1] == '\n' || n == |s|
    ensures '\n' !in s[..n - 1]
  {
    if s[0] == '\n' || |s| == 1 then 1 else 1 + LineLength(s[1..])
  }

  /**
   * Iterating over a file opened in text mode: every line keeps its
   * terminating line feed, and the last line may lack one.
   */
  function SplitLines(s: string): (lines: seq<string>)
    decreases |s|
  {
    if s == "" then [] else
      var n := LineLength(s);
      [s[..n]] + SplitLines(s[n..])
  }

  /**
   * Reading in text mode with universal newlines: "\r\n" and a lone "\r" each
   * become one "\n", so no carriage return is left.
   */
  function UniversalNewlines(s: string): (t: string)
    ensures '\r' !in t
    ensures |t| <= |s|
  {
    if s == "" then ""
    else if s[0] == '\r' then "\n" + UniversalNewlines(if |s| > 1 && s[1] == '\n' then s[2..] else s[1..])
    else [s[0]] + UniversalNewlines(s[1..])
  }

  /** Text without carriage returns reads back unchanged, whatever follows it. */
  lemma {:induction false} UniversalNewlinesKeepsPlain(a: string, rest: string)
    requires '\r' !in a
    ensures UniversalNewlines(a + rest) == a + UniversalNewlines(rest)
  {
    if a == "" {
      assert a + rest == rest;
    } else {
      assert a[0] in a;
      assert (a + rest)[0] == a[0] && (a + rest)[1..] == a[1..] + rest;
      assert forall c :: c in a[1..] ==> c in a;
      UniversalNewlinesKeepsPlain(a[1..], rest);
    }
  }

  /** A lone "\r" ends a line just as "\n" does. */
  lemma CarriageReturnEndsLine(a: string, b: string)
    requires '\r' !in a && '\n' !in a
    requires b == "" || b[0] != '\n'
    ensures SplitLines(UniversalNewlines(a + "\r" + b)) == [a + "\n"] + SplitLines(UniversalNewlines(b))
  {
    var rest := "\r" + b;
    assert a + "\r" + b == a + rest;
    UniversalNewlinesKeepsPlain(a, rest);
    assert rest[1..] == b;
    var u := UniversalNewlines(b);
    assert UniversalNewlines(rest) == "\n" + u;
    var t := a + "\n" + u;
    assert UniversalNewlines(a + "\r" + b) == t;
    LineLengthOfTerminated(a, u);
    var n := |a| + 1;
    assert t[..n] == a + "\n";
    assert t[n..] == u;
    assert SplitLines(t) == [t[..n]] + SplitLines(t[n..]);
  }

  /** Terminating lines that hold no `c` gives text that holds no `c` except a line feed. */
  lemma {:induction false} TerminatedFreeOf(lines: seq<string>, c: char)
    requires c != '\n'
    requires forall k :: 0 <= k < |lines| ==> c !in lines[k]
    ensures c !in Terminated(lines)
  {
    if lines != [] {
      TerminatedFreeOf(lines[1..], c);
    }
  }

  /** `s.split()` finds a first word exactly when `s` is not blank, and that word
      is a non-empty, whitespace-free prefix of the stripped text. */
  lemma FirstWordOfStripped(s: string)
    requires Strip(s) != ""
    ensures |Words(s)| > 0
    ensures Words(s)[0] != "" && NoSpace(Words(s)[0])
    ensures Words(s)[0] <= Strip(s)
  {
    var t := TrimLeft(s);
    TrimLeftRemovesLeadingSpace(s);
    assert t != "";
    WordBeforeTrailingSpace(t);
  }

  lemma WordBeforeTrailingSpace(t: string)
    requires t != "" && !IsSpace(t[0])
    ensures TakeWord(t) != "" && TakeWord(t) <= TrimRight(t)
  {
    var w, r := TakeWord(t), TrimRight(t);
    TrimRightRemovesTrailingSpace(t);
    assert w == t[..|w|];
  }

  /** A text built from line-feed-free lines, each terminated, splits back into them. */
  lemma {:induction false} SplitTerminatedLines(lines: seq<string>)
    requires forall k :: 0 <= k < |lines| ==> '\n' !in lines[k]
    ensures SplitLines(Terminated(lines)) == seq(|lines|, k requires 0 <= k < |lines| => lines[k] + "\n")
  {
    if lines != [] {
      var head := lines[0] + "\n";
      var s := Terminated(lines);
      assert s == head + Terminated(lines[1..]);
      LineLengthOfTerminated(lines[0], Terminated(lines[1..]));
      assert s[..|head|] == head;
      assert s[|head|..] == Terminated(lines[1..]);
      SplitTerminatedLines(lines[1..]);
    }
  }

  /** The concatenation of the lines, each followed by a line feed. */
  function Terminated(lines: seq<string>): string {
    if lines == [] then "" else lines[0] + "\n" + Terminated(lines[1..])
  }

  lemma {:induction false} LineLengthOfTerminated(line: string, rest: string)
    requires '\n' !in line
    ensures LineLength(line + "\n" + rest) == |line| + 1
  {
    if line != "" {
      assert (line + "\n" + rest)[1..] == line[1..] + "\n" + rest;
      LineLengthOfTerminated(line[1..], rest);
    }
  }
}
