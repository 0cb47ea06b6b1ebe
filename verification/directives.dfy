/**
 * Classification of one line (`parseLine`, versatile.js:38-50): a directive
 * `@@key:filter:filter text`, or plain text.
 *
 * The pattern at versatile.js:39 is `^@@\s*([a-z0-9_]+(:[a-z0-9_]+)*)(\s+(.*?)\s*)?$`
 * with the flags `g` and `i`. `MatchDirective` matches it by hand; `Matches` states
 * the language of the pattern, and the two lemmas `MatchDirective` carries in its
 * contract and `MatchComplete` show that the hand matcher accepts exactly that language.
 */
module Directives {
  import opened Values
  import opened Text
  import opened Filters

  predicate IsKeyChar(c: char) {
    IsWordChar(c) || c == ':'
  }

  /** `[a-z0-9_]+` */
  predicate IsSegment(s: string) {
    |s| > 0 && forall i :: 0 <= i < |s| ==> IsWordChar(s[i])
  }

  /** `[a-z0-9_]+(:[a-z0-9_]+)*` */
  predicate IsKeyPath(p: string) {
    var segments := Split(p, ':');
    forall i :: 0 <= i < |segments| ==> IsSegment(segments[i])
  }

  /** Length of the longest prefix of `s` made of word characters and `:`. */
  function KeyRun(s: string): (n: nat)
    ensures n <= |s|
    ensures forall i :: 0 <= i < n ==> IsKeyChar(s[i])
    ensures n == |s| || !IsKeyChar(s[n])
  {
    if |s| == 0 || !IsKeyChar(s[0]) then 0 else 1 + KeyRun(s[1..])
  }

  lemma {:induction false} KeyRunOf(a: string, b: string)
    requires forall i :: 0 <= i < |a| ==> IsKeyChar(a[i])
    requires b == [] || !IsKeyChar(b[0])
    ensures KeyRun(a + b) == |a|
  {
    if a == [] {
      assert a + b == b;
    } else {
      KeyRunOf(a[1..], b);
      assert (a + b)[1..] == a[1..] + b;
    }
  }

  lemma SpaceIsNoKeyChar(c: char)
    requires IsSpace(c)
    ensures !IsKeyChar(c)
  {
  }

  /** Segments joined by `:` consist of key characters and start with a word character. */
  lemma {:induction false} JoinedSegments(parts: seq<string>)
    requires |parts| >= 1
    requires forall i :: 0 <= i < |parts| ==> IsSegment(parts[i])
    ensures var p := Join(parts, ":"); |p| > 0 && IsWordChar(p[0]) && forall i :: 0 <= i < |p| ==> IsKeyChar(p[i])
  {
    if |parts| > 1 {
      JoinedSegments(parts[1..]);
      var p := Join(parts, ":");
      var q := Join(parts[1..], ":");
      assert p == parts[0] + ":" + q;
      assert forall i :: 0 <= i < |p| ==> IsKeyChar(p[i]) by {
        forall i | 0 <= i < |p| ensures IsKeyChar(p[i]) {
          if i < |parts[0]| {
            assert p[i] == parts[0][i];
          } else if i > |parts[0]| {
            assert p[i] == q[i - |parts[0]| - 1];
          }
        }
      }
    }
  }

  /** A key path is a non-empty run of key characters starting with a word character. */
  lemma KeyPathChars(p: string)
    requires IsKeyPath(p)
    ensures |p| > 0 && IsWordChar(p[0])
    ensures forall i :: 0 <= i < |p| ==> IsKeyChar(p[i])
  {
    JoinedSegments(Split(p, ':'));
    JoinSplit(p, ':');
  }

  /** What follows the key path: `(\s+(.*?)\s*)?$`. `gap` is the `\s+` (empty when
    * group 3 does not take part), `inline` group 4, `tail` the final `\s*`. */
  datatype Tail = Tail(gap: string, inline: string, tail: string)

  /** The text the pieces of a tail cover. */
  function TailText(r: Tail): string {
    r.gap + r.inline + r.tail
  }

  predicate TailMatches(rest: string, r: Tail) {
    && rest == TailText(r)
    && AllSpace(r.gap)
    && NoLineTerminator(r.inline)
    && AllSpace(r.tail)
    && (r.gap == "" ==> r.inline == "" && r.tail == "")
  }

  /** The matcher for what follows the key path: greedy `\s+`, lazy group 4. */
  function MatchTail(rest: string): (r: Option<Tail>)
    ensures r.Some? ==> TailMatches(rest, r.value)
    ensures r.Some? && r.value.gap != "" ==> Stripped(r.value.inline)
  {
    if rest == "" then Some(Tail("", "", ""))
    else if !IsSpace(rest[0]) then None
    else
      var j := SpacePrefix(rest);
      var inline := Strip(rest);
      var tail := rest[j + |inline|..];
      if !NoLineTerminator(inline) then None
      else
        assert rest == rest[..j] + inline + tail;
        assert rest[..j][0] == rest[0];
        Some(Tail(rest[..j], inline, tail))
  }

  /** The pieces of one way a line matches the pattern. */
  datatype Match = Match(spaces: string, path: string, rest: Tail)

  /** The line matches the pattern with these pieces. */
  predicate Matches(line: string, m: Match) {
    && line == "@@" + m.spaces + m.path + TailText(m.rest)
    && AllSpace(m.spaces)
    && IsKeyPath(m.path)
    && TailMatches(TailText(m.rest), m.rest)
  }

  /** The hand matcher. On success it returns the decomposition the regular
    * expression engine picks: greedy `\s` runs and the lazy group 4. */
  function MatchDirective(line: string): (r: Option<Match>)
    ensures r.Some? ==> Matches(line, r.value)
    ensures r.Some? && r.value.rest.gap != "" ==> Stripped(r.value.rest.inline)
    ensures |line| < 2 || line[..2] != "@@" ==> r.None?
  {
    if |line| < 2 || line[..2] != "@@" then None
    else
      var s := line[2..];
      var i := SpacePrefix(s);
      var t := s[i..];
      var n := KeyRun(t);
      var path := t[..n];
      if !IsKeyPath(path) then None
      else
        match MatchTail(t[n..])
        case None => None
        case Some(r) =>
          LineSplit(line, i, n);
          Some(Match(s[..i], path, r))
  }


  lemma LineSplit(line: string, i: nat, n: nat)
    requires |line| >= 2 && line[..2] == "@@"
    requires i <= |line[2..]| && n <= |line[2..][i..]|
    ensures line == "@@" + line[2..][..i] + line[2..][i..][..n] + line[2..][i..][n..]
  {
    var s := line[2..];
    var t := s[i..];
    assert line == line[..2] + s;
    assert s == s[..i] + t;
    assert t == t[..n] + t[n..];
  }

  /** Every tail the pattern admits is found by `MatchTail`, with the same choice
    * about group 3 and with group 4 equal to the trimmed text. */
  lemma MatchTailComplete(rest: string, r: Tail)
    requires TailMatches(rest, r)
    ensures MatchTail(rest).Some?
    ensures MatchTail(rest).value.gap == "" <==> r.gap == ""
    ensures r.gap != "" ==> MatchTail(rest).value.inline == Trim(r.inline)
  {
    if r.gap != "" {
      StripOfTail(rest, r);
      StripKeepsNoLineTerminator(r.inline);
      assert rest[0] == r.gap[0];
      MatchTailOfSpace(rest);
    }
  }

  /** Stripping the whole tail leaves the stripped inline text. */
  lemma StripOfTail(rest: string, r: Tail)
    requires TailMatches(rest, r)
    ensures Strip(rest) == Strip(r.inline)
  {
    StripAround(r.gap, r.inline, r.tail);
  }

  /** When the rest starts with white space, group 4 is its stripped core. */
  lemma MatchTailOfSpace(rest: string)
    requires rest != "" && IsSpace(rest[0]) && NoLineTerminator(Strip(rest))
    ensures MatchTail(rest).Some?
    ensures MatchTail(rest).value.gap != ""
    ensures MatchTail(rest).value.inline == Strip(rest)
  {
  }

  /** How the matcher treats a line cut into `@@`, a maximal `\s` run, a maximal run
    * of key characters, and the rest: the run must be a key path, and the rest must
    * match as a tail. */
  lemma MatchDirectiveOf(line: string, spaces: string, run: string, rest: string)
    requires line == "@@" + spaces + run + rest
    requires AllSpace(spaces)
    requires forall i :: 0 <= i < |run| ==> IsKeyChar(run[i])
    requires run + rest == "" || !IsSpace((run + rest)[0])
    requires rest == "" || !IsKeyChar(rest[0])
    ensures !IsKeyPath(run) ==> MatchDirective(line) == None
    ensures IsKeyPath(run) ==> (MatchDirective(line).Some? <==> MatchTail(rest).Some?)
    ensures IsKeyPath(run) && MatchTail(rest).Some? ==>
      MatchDirective(line) == Some(Match(spaces, run, MatchTail(rest).value))
  {
    var s := line[2..];
    assert line[..2] == "@@" && s == spaces + (run + rest);
    assert SpacePrefix(s) == |spaces| by {
      SpacePrefixOf(spaces, run + rest);
    }
    var t := s[|spaces|..];
    assert t == run + rest;
    assert KeyRun(t) == |run| by {
      KeyRunOf(run, rest);
    }
    assert t[..|run|] == run && t[|run|..] == rest;
  }

  /** The pieces of a match meet at the boundaries the greedy runs stop at. */
  lemma MatchBoundaries(m: Match)
    requires IsKeyPath(m.path) && TailMatches(TailText(m.rest), m.rest)
    ensures |m.path| > 0
    ensures forall i :: 0 <= i < |m.path| ==> IsKeyChar(m.path[i])
    ensures !IsSpace((m.path + TailText(m.rest))[0])
    ensures TailText(m.rest) == "" || !IsKeyChar(TailText(m.rest)[0])
  {
    var rest := TailText(m.rest);
    KeyPathChars(m.path);
    assert (m.path + rest)[0] == m.path[0];
    if m.rest.gap != "" {
      assert rest == m.rest.gap + (m.rest.inline + m.rest.tail);
      SpaceIsNoKeyChar(m.rest.gap[0]);
    }
  }

  /** Every decomposition the pattern admits is found by the matcher, with the same
    * key path, the same choice about group 3, and group 4 equal to the trimmed text. */
  lemma MatchComplete(line: string, m: Match)
    requires Matches(line, m)
    ensures MatchDirective(line).Some?
    ensures MatchDirective(line).value.path == m.path
    ensures MatchDirective(line).value.rest.gap == "" <==> m.rest.gap == ""
    ensures m.rest.gap != "" ==> MatchDirective(line).value.rest.inline == Trim(m.rest.inline)
  {
    var rest := TailText(m.rest);
    MatchTailComplete(rest, m.rest);
    MatchBoundaries(m);
    MatchDirectiveOf(line, m.spaces, m.path, rest);
  }

  /** A classified line. `inline` is the text after the key when it is not blank. */
  datatype Line =
    | Directive(key: string, filters: seq<Filter>, inline: Option<string>)
    | Plain(line: string)

  /** The inline text of a directive (versatile.js:43-45): group 4, which is
    * undefined when group 3 does not take part, kept only when it is not blank. */
  function InlineText(r: Tail): (o: Option<string>)
    requires r.gap != "" ==> Stripped(r.inline) && NoLineTerminator(r.inline)
    ensures o.Some? ==> o.value != "" && Trim(o.value) == o.value
    ensures o.Some? <==> r.gap != "" && r.inline != ""
  {
    var last := if r.gap == "" then None else Some(r.inline);
    if last.Some? && last.value != "" && Trim(last.value) != "" then
      TrimStripped(r.inline);
      last
    else None
  }

  /** `parseLine` (versatile.js:38-50). */
  function ParseLine(line: string, reg: Registry): (r: Line)
    ensures r.Plain? ==> r.line == line
    ensures |line| < 2 || line[..2] != "@@" ==> r.Plain?
    ensures r.Directive? ==> IsSegment(r.key)
    ensures r.Directive? && r.inline.Some? ==>
      r.inline.value != "" && Trim(r.inline.value) == r.inline.value
    ensures r.Directive? ==> exists m :: Matches(line, m) && Split(m.path, ':')[0] == r.key
  {
    match MatchDirective(line)
    case None => Plain(line)
    case Some(m) =>
      match ParseKey(m.path, reg)
      case None => Plain(line)
      case Some(ks) => Directive(ks.key, ks.filters, InlineText(m.rest))
  }

  /** The inline text the matcher finds is the trimmed group 4 of any match. */
  lemma InlineTextOf(d: Tail, m: Tail)
    requires TailMatches(TailText(m), m)
    requires d.gap == "" <==> m.gap == ""
    requires d.gap != "" ==> d.inline == Trim(m.inline) && Stripped(d.inline) && NoLineTerminator(d.inline)
    ensures InlineText(d) == if m.gap == "" || Trim(m.inline) == "" then None else Some(Trim(m.inline))
  {
    if m.gap != "" {
      TrimIdempotent(m.inline);
    }
  }

  /** The filter names of a key path are its segments after the first. */
  lemma FilterNames(segments: seq<string>, reg: Registry)
    requires |segments| >= 1
    ensures (forall i :: 1 <= i < |segments| ==> segments[i] in reg) <==>
            LookupFilters(segments[1..], reg).Some?
  {
    var names := segments[1..];
    assert forall i :: 1 <= i < |segments| ==> segments[i] == names[i - 1];
  }

  /** A line of the directive shape is a directive exactly when every filter name
    * after the key is registered; the key is the first segment, the filters are
    * looked up in order, and blank inline text opens a block instead. */
  lemma ParseLineOfMatch(line: string, m: Match, reg: Registry)
    requires Matches(line, m)
    ensures var segments := Split(m.path, ':');
      (forall i :: 1 <= i < |segments| ==> segments[i] in reg) ==>
        ParseLine(line, reg) ==
          Directive(segments[0], LookupFilters(segments[1..], reg).value,
                    if m.rest.gap == "" || Trim(m.rest.inline) == "" then None else Some(Trim(m.rest.inline)))
    ensures var segments := Split(m.path, ':');
      (exists i :: 1 <= i < |segments| && segments[i] !in reg) ==>
        ParseLine(line, reg) == Plain(line)
  {
    MatchComplete(line, m);
    var d := MatchDirective(line).value;
    var segments := Split(m.path, ':');
    assert ParseKey(m.path, reg) ==
      (if LookupFilters(segments[1..], reg).Some?
       then Some(KeySpec(segments[0], LookupFilters(segments[1..], reg).value)) else None);
    FilterNames(segments, reg);
    InlineTextOf(d.rest, m.rest);
    ParseLineOfSome(line, d, reg);
  }

  /** `parseLine` on a line the matcher accepts. */
  lemma ParseLineOfSome(line: string, d: Match, reg: Registry)
    requires MatchDirective(line) == Some(d)
    ensures ParseKey(d.path, reg).None? ==> ParseLine(line, reg) == Plain(line)
    ensures ParseKey(d.path, reg).Some? ==>
      ParseLine(line, reg) ==
        Directive(ParseKey(d.path, reg).value.key, ParseKey(d.path, reg).value.filters, InlineText(d.rest))
  {
  }

  /** A run of key characters that ends in `:` makes the line plain text, whatever
    * white space comes before it and whatever follows it. */
  lemma TrailingColonIsPlain(spaces: string, run: string, rest: string, reg: Registry)
    requires AllSpace(spaces)
    requires |run| > 0 && run[|run| - 1] == ':'
    requires forall i :: 0 <= i < |run| ==> IsKeyChar(run[i])
    requires rest == "" || !IsKeyChar(rest[0])
    ensures ParseLine("@@" + spaces + run + rest, reg) == Plain("@@" + spaces + run + rest)
  {
    assert (run + rest)[0] == run[0];
    assert !IsKeyPath(run) by {
      SplitLastEmpty(run, ':');
    }
    MatchDirectiveOf("@@" + spaces + run + rest, spaces, run, rest);
  }

  /** A `-` right after the run of key characters makes the line plain text, whatever
    * white space comes before it and whatever follows it. */
  lemma HyphenInKeyIsPlain(spaces: string, run: string, more: string, reg: Registry)
    requires AllSpace(spaces)
    requires forall i :: 0 <= i < |run| ==> IsKeyChar(run[i])
    ensures ParseLine("@@" + spaces + run + "-" + more, reg) == Plain("@@" + spaces + run + "-" + more)
  {
    var line := "@@" + spaces + run + "-" + more;
    var rest := "-" + more;
    assert line == "@@" + spaces + run + rest;
    assert !IsSpace((run + rest)[0]) by {
      if |run| > 0 {
        assert (run + rest)[0] == run[0];
      } else {
        assert run + rest == rest;
      }
    }
    assert MatchTail(rest) == None;
    MatchDirectiveOf(line, spaces, run, rest);
  }

  /** The key path `key:partial` splits into the key and `partial`. */
  lemma PartialPath(key: string)
    requires IsSegment(key)
    ensures Split(key + ":partial", ':') == [key, "partial"]
    ensures IsKeyPath(key + ":partial")
  {
    var p := "partial";
    assert IsSegment(p);
    assert ':' !in p;
    assert ':' !in key by {
      forall i | 0 <= i < |key| ensures key[i] != ':' {
        assert IsWordChar(key[i]);
      }
    }
    assert key + ":partial" == key + [':'] + p;
    SplitAfterPart(key, ':', p);
    SplitWithoutSeparator(p, ':');
    var segments := Split(key + ":partial", ':');
    assert segments == [key, p];
    assert IsSegment(segments[0]) && IsSegment(segments[1]);
  }

  /** With the filters registered at load, `@@key:partial text` stores `text` under
    * `key` through the `partial` filter. */
  lemma PartialDirective(key: string, text: string)
    requires IsSegment(key)
    requires text != "" && Stripped(text) && NoLineTerminator(text)
    ensures ParseLine("@@" + key + ":partial " + text, DefaultRegistry()) ==
      Directive(key, [PartialFilter], Some(text))
  {
    var line := "@@" + key + ":partial " + text;
    var reg := DefaultRegistry();
    PartialPath(key);
    var m := Match("", key + ":partial", Tail(" ", text, ""));
    assert line == "@@" + m.spaces + m.path + TailText(m.rest);
    assert Matches(line, m);
    assert LookupFilters(["partial"], reg) == Some([PartialFilter]) by {
      var names := ["partial"];
      assert names[0] in reg && reg[names[0]] == PartialFilter;
      var r := LookupFilters(names, reg);
      assert r.Some? && |r.value| == 1 && r.value[0] == PartialFilter;
      assert r.value == [PartialFilter];
    }
    assert [key, "partial"][1..] == ["partial"];
    TrimStripped(text);
    ParseLineOfMatch(line, m, reg);
  }

  /** `@@` followed by nothing but white space names no key and is plain text. */
  lemma MissingKeyIsPlain(spaces: string, reg: Registry)
    requires AllSpace(spaces)
    ensures ParseLine("@@" + spaces, reg) == Plain("@@" + spaces)
  {
    assert "@@" + spaces == "@@" + spaces + "" + "";
    MatchDirectiveOf("@@" + spaces, spaces, "", "");
  }
}
