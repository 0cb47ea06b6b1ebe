/**
 * Character classes of JavaScript regular expressions and the string helpers of
 * versatile.js: `trim`, `removeTrailingEmptyLines`, and `split` / `join` on a
 * one-character separator.
 */
module Text {

  /** The line terminators of JavaScript: the characters `.` in a regular expression never matches. */
  predicate IsLineTerminator(c: char) {
    c == '\n' || c == '\r' || c == '\U{2028}' || c == '\U{2029}'
  }

  /** The class `\s` of JavaScript regular expressions: white space and line terminators. */
  predicate IsSpace(c: char) {
    || c == '\t' || c == '\U{000B}' || c == '\U{000C}' || c == ' ' || c == '\U{00A0}'
    || c == '\U{1680}' || ('\U{2000}' <= c <= '\U{200A}') || c == '\U{202F}'
    || c == '\U{205F}' || c == '\U{3000}' || c == '\U{FEFF}'
    || IsLineTerminator(c)
  }

  /** The class `[a-z0-9_]` under the case-insensitive flag `i`. */
  predicate IsWordChar(c: char) {
    ('a' <= c <= 'z') || ('A' <= c <= 'Z') || ('0' <= c <= '9') || c == '_'
  }

  predicate AllSpace(s: string) {
    forall i :: 0 <= i < |s| ==> IsSpace(s[i])
  }

  predicate NoLineTerminator(s: string) {
    forall i :: 0 <= i < |s| ==> !IsLineTerminator(s[i])
  }

  /** Neither begins nor ends with a `\s` character. */
  predicate Stripped(s: string) {
    s == [] || (!IsSpace(s[0]) && !IsSpace(s[|s| - 1]))
  }

  /** Length of the longest prefix of `s` made of `\s` characters. */
  function SpacePrefix(s: string): (n: nat)
    ensures n <= |s|
    ensures AllSpace(s[..n])
    ensures n == |s| || !IsSpace(s[n])
  {
    if |s| == 0 || !IsSpace(s[0]) then 0
    else
      var m := SpacePrefix(s[1..]);
      assert s[..1 + m] == [s[0]] + s[1..][..m];
      1 + m
  }

  /** Length of the longest suffix of `s` made of `\s` characters. */
  function SpaceSuffix(s: string): (n: nat)
    ensures n <= |s|
    ensures AllSpace(s[|s| - n..])
    ensures n == |s| || !IsSpace(s[|s| - n - 1])
  {
    if |s| == 0 || !IsSpace(s[|s| - 1]) then 0
    else
      var m := SpaceSuffix(s[..|s| - 1]);
      assert s[|s| - (1 + m)..] == s[..|s| - 1][|s| - 1 - m..] + [s[|s| - 1]];
      1 + m
  }

  /** A prefix of spaces followed by a non-space is exactly what `SpacePrefix` measures. */
  lemma {:induction false} SpacePrefixOf(a: string, b: string)
    requires AllSpace(a)
    requires b == [] || !IsSpace(b[0])
    ensures SpacePrefix(a + b) == |a|
  {
    if a == [] {
      assert a + b == b;
    } else {
      SpacePrefixOf(a[1..], b);
      assert (a + b)[1..] == a[1..] + b;
    }
  }

  /** A suffix of spaces preceded by a non-space is exactly what `SpaceSuffix` measures. */
  lemma {:induction false} SpaceSuffixOf(a: string, b: string)
    requires AllSpace(b)
    requires a == [] || !IsSpace(a[|a| - 1])
    ensures SpaceSuffix(a + b) == |b|
  {
    if b == [] {
      assert a + b == a;
    } else {
      var b' := b[..|b| - 1];
      SpaceSuffixOf(a, b');
      assert (a + b)[..|a + b| - 1] == a + b';
    }
  }

  /** `s` without its leading and trailing `\s` characters. */
  function Strip(s: string): (r: string)
    ensures Stripped(r)
    ensures SpacePrefix(s) + |r| <= |s|
    ensures r == s[SpacePrefix(s)..SpacePrefix(s) + |r|]
    ensures AllSpace(s[SpacePrefix(s) + |r|..])
  {
    var t := s[SpacePrefix(s)..];
    var r := t[..|t| - SpaceSuffix(t)];
    assert r == [] || r[0] == t[0];
    assert s[SpacePrefix(s) + |r|..] == t[|t| - SpaceSuffix(t)..];
    r
  }

  /** Stripping removes exactly the padding around a stripped core. */
  lemma StripPadded(a: string, m: string, b: string)
    requires AllSpace(a) && AllSpace(b) && Stripped(m)
    ensures Strip(a + m + b) == m
  {
    var s := a + m + b;
    if m == [] {
      assert AllSpace(s) by {
        forall i | 0 <= i < |s| ensures IsSpace(s[i]) {
          if i < |a| { assert s[i] == a[i]; } else { assert s[i] == b[i - |a|]; }
        }
      }
      SpacePrefixOf(s, []);
      assert s + [] == s;
    } else {
      assert s == a + (m + b);
      SpacePrefixOf(a, m + b);
      var t := s[|a|..];
      assert t == m + b;
      SpaceSuffixOf(m, b);
    }
  }

  /** Every string is its leading spaces, its stripped core and its trailing spaces. */
  lemma StripDecomposes(s: string)
    ensures var p := SpacePrefix(s); var c := Strip(s);
      s == s[..p] + c + s[p + |c|..] && AllSpace(s[..p]) && AllSpace(s[p + |c|..])
  {
    var p := SpacePrefix(s);
    var c := Strip(s);
    assert s == s[..p] + s[p..p + |c|] + s[p + |c|..];
  }

  lemma AllSpaceAppend(a: string, b: string)
    requires AllSpace(a) && AllSpace(b)
    ensures AllSpace(a + b)
  {
  }

  /** The core of a string without line terminators has none either. */
  lemma StripKeepsNoLineTerminator(s: string)
    requires NoLineTerminator(s)
    ensures NoLineTerminator(Strip(s))
  {
    var p := SpacePrefix(s);
    var c := Strip(s);
    forall k | 0 <= k < |c| ensures !IsLineTerminator(c[k]) {
      assert c[k] == s[p + k];
    }
  }

  lemma Regroup(a: string, l: string, c: string, r: string, b: string)
    ensures a + (l + c + r) + b == (a + l) + c + (r + b)
  {
  }

  /** Surrounding a string with more white space does not change its stripped core. */
  lemma StripAround(a: string, s: string, b: string)
    requires AllSpace(a) && AllSpace(b)
    ensures Strip(a + s + b) == Strip(s)
  {
    var p := SpacePrefix(s);
    var c := Strip(s);
    var l := s[..p];
    var tl := s[p + |c|..];
    StripDecomposes(s);
    Regroup(a, l, c, tl, b);
    AllSpaceAppend(a, l);
    AllSpaceAppend(tl, b);
    StripPadded(a + l, c, tl + b);
  }

  /** `trim` (versatile.js:11-13): the replacement `/^\s*(.*?)\s*$/` -> `$1`. The
    * pattern matches only when the part between the surrounding `\s` runs contains
    * no line terminator (`.` does not match one); otherwise the string is returned
    * unchanged. */
  function Trim(s: string): (r: string)
    ensures r == s || (Stripped(r) && NoLineTerminator(r))
    ensures |r| <= |s|
  {
    var m := Strip(s);
    if NoLineTerminator(m) then m else s
  }

  /** Trimming a padded core with no line terminator gives back exactly the core. */
  lemma TrimPadded(a: string, m: string, b: string)
    requires AllSpace(a) && AllSpace(b) && Stripped(m) && NoLineTerminator(m)
    ensures Trim(a + m + b) == m
  {
    StripPadded(a, m, b);
  }

  /** A stripped string without line terminators is its own trim. */
  lemma TrimStripped(s: string)
    requires Stripped(s) && NoLineTerminator(s)
    ensures Trim(s) == s
  {
    StripPadded([], s, []);
    assert [] + s + [] == s;
  }

  /** A string whose stripped core holds a line terminator is left as it is. */
  lemma TrimKeepsMultiLine(s: string)
    requires !NoLineTerminator(Strip(s))
    ensures Trim(s) == s
  {
  }

  /** A line of white space trims to nothing. */
  lemma TrimAllSpace(s: string)
    requires AllSpace(s)
    ensures Trim(s) == ""
  {
    assert SpacePrefix(s) == |s|;
  }

  /** `trim` is idempotent. */
  lemma {:induction false} TrimIdempotent(s: string)
    ensures Trim(Trim(s)) == Trim(s)
  {
    var r := Trim(s);
    if r != s {
      StripPadded([], r, []);
      assert [] + r + [] == r;
    }
  }

  /** The lines of `s` separated by `sep`, as `String.prototype.split` with a
    * one-character separator gives them: always at least one element, none holding
    * the separator. */
  function Split(s: string, sep: char): (r: seq<string>)
    ensures |r| >= 1
    ensures forall i :: 0 <= i < |r| ==> sep !in r[i]
  {
    if |s| == 0 then [""]
    else
      var rest := Split(s[1..], sep);
      if s[0] == sep then [""] + rest
      else [[s[0]] + rest[0]] + rest[1..]
  }

  /** Joining the parts of a split with the separator gives back the text. */
  lemma {:induction false} JoinSplit(s: string, sep: char)
    ensures Join(Split(s, sep), [sep]) == s
  {
    if |s| > 0 {
      var rest := Split(s[1..], sep);
      JoinSplit(s[1..], sep);
      if s[0] == sep {
        assert ([""] + rest)[1..] == rest;
      } else {
        var r := [[s[0]] + rest[0]] + rest[1..];
        if |rest| > 1 {
          assert r[1..] == rest[1..];
        }
        assert [s[0]] + s[1..] == s;
      }
    }
  }

  /** `Array.prototype.join`. */
  function Join(parts: seq<string>, sep: string): string {
    if |parts| == 0 then ""
    else if |parts| == 1 then parts[0]
    else parts[0] + sep + Join(parts[1..], sep)
  }

  /** A text without the separator splits into itself alone. */
  lemma {:induction false} SplitWithoutSeparator(s: string, sep: char)
    requires sep !in s
    ensures Split(s, sep) == [s]
  {
    if |s| > 0 {
      SplitWithoutSeparator(s[1..], sep);
      assert [s[0]] + s[1..] == s;
    }
  }

  /** A part without the separator followed by the separator splits off as one element. */
  lemma {:induction false} SplitAfterPart(x: string, sep: char, rest: string)
    requires sep !in x
    ensures Split(x + [sep] + rest, sep) == [x] + Split(rest, sep)
  {
    if |x| > 0 {
      SplitAfterPart(x[1..], sep, rest);
      assert (x + [sep] + rest)[1..] == x[1..] + [sep] + rest;
      assert [x[0]] + x[1..] == x;
    } else {
      assert x + [sep] + rest == [sep] + rest;
    }
  }

  /** Splitting undoes joining when no part holds the separator. */
  lemma {:induction false} SplitJoin(parts: seq<string>, sep: char)
    requires |parts| >= 1
    requires forall i :: 0 <= i < |parts| ==> sep !in parts[i]
    ensures Split(Join(parts, [sep]), sep) == parts
  {
    if |parts| == 1 {
      SplitWithoutSeparator(parts[0], sep);
    } else {
      SplitJoin(parts[1..], sep);
      SplitAfterPart(parts[0], sep, Join(parts[1..], [sep]));
      assert parts == [parts[0]] + parts[1..];
    }
  }

  /** The first line is empty exactly when the text is empty or starts with the separator. */
  lemma SplitFirstEmpty(s: string, sep: char)
    ensures Split(s, sep)[0] == "" <==> (s == "" || s[0] == sep)
  {
  }

  /** The last line is empty exactly when the text is empty or ends with the separator. */
  lemma {:induction false} SplitLastEmpty(s: string, sep: char)
    ensures var r := Split(s, sep); r[|r| - 1] == "" <==> (s == "" || s[|s| - 1] == sep)
  {
    if |s| > 1 {
      SplitLastEmpty(s[1..], sep);
    }
  }

  /** `removeTrailingEmptyLines` (versatile.js:15-18): pops `""` entries off the end;
    * lines of white space are not empty and stay. */
  function RemoveTrailingEmptyLines(lines: seq<string>): (r: seq<string>)
    ensures |r| <= |lines| && r == lines[..|r|]
    ensures r == [] || r[|r| - 1] != ""
    ensures forall i :: |r| <= i < |lines| ==> lines[i] == ""
  {
    if |lines| > 0 && lines[|lines| - 1] == "" then RemoveTrailingEmptyLines(lines[..|lines| - 1])
    else lines
  }

  /** The leading run of `""` entries removed, as the parser's accumulator does. */
  function DropLeadingEmptyLines(lines: seq<string>): (r: seq<string>)
    ensures |r| <= |lines| && r == lines[|lines| - |r|..]
    ensures r == [] || r[0] != ""
    ensures forall i :: 0 <= i < |lines| - |r| ==> lines[i] == ""
  {
    if |lines| > 0 && lines[0] == "" then DropLeadingEmptyLines(lines[1..])
    else lines
  }

  /** Appending a line extends the accumulated block unless the block is still empty
    * and the line is empty too. */
  lemma {:induction false} DropLeadingEmptyLinesSnoc(lines: seq<string>, l: string)
    ensures DropLeadingEmptyLines(lines + [l]) ==
      (if DropLeadingEmptyLines(lines) == [] && l == "" then [] else DropLeadingEmptyLines(lines) + [l])
  {
    if |lines| == 0 {
      assert lines + [l] == [l];
    } else if lines[0] == "" {
      DropLeadingEmptyLinesSnoc(lines[1..], l);
      assert (lines + [l])[1..] == lines[1..] + [l];
    } else {
      assert (lines + [l])[0] != "";
    }
  }
}
