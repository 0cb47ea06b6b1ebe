/**
 * The line-oriented document parser of versatile.js: `applyCurrentValToDoc`,
 * `buildDoc` and `parseDocumentText` (versatile.js:52-56, 69-91, 116-134).
 *
 * The parser walks the lines of a text with one open block (`current`). A directive
 * with inline text stores its value at once; a directive without inline text closes
 * the open block and opens a new one; plain lines go into the open block.
 */
module Parser {
  import opened Values
  import opened Text
  import opened Filters
  import opened Directives

  /** The open block: the key and filters it will be stored under, and its lines so far. */
  datatype Block = Block(key: string, filters: seq<Filter>, lines: seq<string>)

  /** The document built so far and the open block. */
  datatype State = State(doc: Doc, current: Block)

  /** The block has a line that is not empty. */
  predicate HasText(lines: seq<string>) {
    exists i :: 0 <= i < |lines| && lines[i] != ""
  }

  /** `applyCurrentValToDoc` (versatile.js:52-56): the block without its trailing empty
    * lines, joined by `\n` and filtered, is stored under the block's key, unless
    * nothing is left. */
  function Close(doc: Doc, b: Block, natives: Natives): (r: Doc)
    ensures r.Keys == if HasText(b.lines) && b.key != "__proto__" then doc.Keys + {b.key} else doc.Keys
    ensures forall k :: k in doc && k != b.key ==> r[k] == doc[k]
    ensures !HasText(b.lines) ==> r == doc
  {
    var kept := RemoveTrailingEmptyLines(b.lines);
    if |kept| > 0 then
      assert kept[|kept| - 1] == b.lines[|kept| - 1];
      SetProperty(doc, b.key, FilterValue(Str(Join(kept, "\n")), b.filters, natives))
    else doc
  }

  /** A block whose last line is not empty is stored whole. */
  lemma CloseStoresAllLines(doc: Doc, b: Block, natives: Natives)
    requires |b.lines| > 0 && b.lines[|b.lines| - 1] != ""
    ensures Close(doc, b, natives) == SetProperty(doc, b.key, FilterValue(Str(Join(b.lines, "\n")), b.filters, natives))
  {
  }

  /** Empty lines at the end of a block make no difference to what is stored. */
  lemma {:induction false} CloseIgnoresTrailingEmptyLines(doc: Doc, b: Block, empties: seq<string>, natives: Natives)
    requires forall i :: 0 <= i < |empties| ==> empties[i] == ""
    ensures Close(doc, b.(lines := b.lines + empties), natives) == Close(doc, b, natives)
    decreases |empties|
  {
    if |empties| > 0 {
      var shorter := empties[..|empties| - 1];
      assert (b.lines + empties)[..|b.lines + empties| - 1] == b.lines + shorter;
      assert RemoveTrailingEmptyLines(b.lines + empties) == RemoveTrailingEmptyLines(b.lines + shorter);
      CloseIgnoresTrailingEmptyLines(doc, b, shorter, natives);
    } else {
      assert b.lines + empties == b.lines;
    }
  }

  /** A plain line joins the open block, except an empty line while the block is
    * still empty (versatile.js:85-86). */
  function Push(b: Block, text: string): Block {
    if |b.lines| > 0 || text != "" then b.(lines := b.lines + [text]) else b
  }

  /** `processLine` (versatile.js:72-86) without the final close. */
  function Step(st: State, line: string, reg: Registry, natives: Natives): (r: State)
    ensures st.doc.Keys <= r.doc.Keys
  {
    match ParseLine(line, reg)
    case Directive(key, filters, Some(text)) =>
      st.(doc := SetProperty(st.doc, key, FilterValue(Str(Trim(text)), filters, natives)))
    case Directive(key, filters, None) =>
      State(Close(st.doc, st.current, natives), Block(key, filters, []))
    case Plain(text) =>
      st.(current := Push(st.current, text))
  }

  /** The lines processed from first to last. */
  function Run(st: State, lines: seq<string>, reg: Registry, natives: Natives): State
    decreases |lines|
  {
    if |lines| == 0 then st else Run(Step(st, lines[0], reg, natives), lines[1..], reg, natives)
  }

  /** `buildDoc` (versatile.js:69-91): the lines processed, then the block left open
    * closed when the last line is done. */
  function BuildDoc(st: State, lines: seq<string>, reg: Registry, natives: Natives): Doc {
    if |lines| == 0 then st.doc
    else
      var end := Run(st, lines, reg, natives);
      Close(end.doc, end.current, natives)
  }

  /** The document before any line is read: `contentType`, then the extra properties. */
  function InitialDoc(contentType: Value, extra: Doc): (doc: Doc)
    ensures doc.Keys == {"contentType"} + extra.Keys
    ensures forall k :: k in extra ==> doc[k] == extra[k]
    ensures "contentType" !in extra ==> doc["contentType"] == contentType
  {
    map["contentType" := contentType] + extra
  }

  /** `parseDocumentText` (versatile.js:116-134). `defaultKey` is the key specification
    * of the file type, `""` when there is none. */
  function ParseDocumentText(text: string, defaultKey: string, contentType: Value, extra: Doc,
                             reg: Registry, natives: Natives): Doc
  {
    var ks := DefaultKeySpec(defaultKey, reg);
    BuildDoc(State(InitialDoc(contentType, extra), Block(ks.key, ks.filters, [])),
             Split(text, '\n'), reg, natives)
  }

  /** Processing two runs of lines one after the other is processing them together. */
  lemma {:induction false} RunAppend(st: State, a: seq<string>, b: seq<string>, reg: Registry, natives: Natives)
    ensures Run(st, a + b, reg, natives) == Run(Run(st, a, reg, natives), b, reg, natives)
    decreases |a|
  {
    if |a| == 0 {
      assert a + b == b;
    } else {
      assert (a + b)[0] == a[0];
      assert (a + b)[1..] == a[1..] + b;
      RunAppend(Step(st, a[0], reg, natives), a[1..], b, reg, natives);
    }
  }

  /** The lines of a block after plain lines were added to it: appended to a block that
    * already has lines, without the leading empty ones to a block that has none. */
  function Accumulated(lines: seq<string>, more: seq<string>): seq<string> {
    if |lines| > 0 then lines + more else DropLeadingEmptyLines(more)
  }

  predicate AllPlain(lines: seq<string>, reg: Registry) {
    forall i :: 0 <= i < |lines| ==> ParseLine(lines[i], reg).Plain?
  }

  /** Plain lines change nothing but the open block's lines, which they extend. */
  lemma {:induction false} PlainLinesAccumulate(st: State, more: seq<string>, reg: Registry, natives: Natives)
    requires AllPlain(more, reg)
    ensures Run(st, more, reg, natives) ==
      State(st.doc, st.current.(lines := Accumulated(st.current.lines, more)))
    decreases |more|
  {
    if |more| > 0 {
      assert ParseLine(more[0], reg) == Plain(more[0]);
      var next := Step(st, more[0], reg, natives);
      assert next.current == Push(st.current, more[0]);
      assert AllPlain(more[1..], reg) by {
        forall i | 0 <= i < |more[1..]| ensures ParseLine(more[1..][i], reg).Plain? {
          assert more[1..][i] == more[i + 1];
        }
      }
      PlainLinesAccumulate(next, more[1..], reg, natives);
      if |st.current.lines| > 0 {
        assert st.current.lines + [more[0]] + more[1..] == st.current.lines + more;
      } else if more[0] != "" {
        assert [more[0]] + more[1..] == more;
      }
    }
  }

  /** A text in which no line is a directive is stored under the default key, without
    * its leading and trailing empty lines, and nothing is stored when no line has text. */
  lemma NoDirectiveDocument(text: string, defaultKey: string, contentType: Value, extra: Doc,
                            reg: Registry, natives: Natives)
    requires AllPlain(Split(text, '\n'), reg)
    ensures var ks := DefaultKeySpec(defaultKey, reg);
      var kept := RemoveTrailingEmptyLines(DropLeadingEmptyLines(Split(text, '\n')));
      ParseDocumentText(text, defaultKey, contentType, extra, reg, natives) ==
        if kept == [] then InitialDoc(contentType, extra)
        else SetProperty(InitialDoc(contentType, extra), ks.key, FilterValue(Str(Join(kept, "\n")), ks.filters, natives))
  {
    var ks := DefaultKeySpec(defaultKey, reg);
    var lines := Split(text, '\n');
    var st := State(InitialDoc(contentType, extra), Block(ks.key, ks.filters, []));
    assert ParseDocumentText(text, defaultKey, contentType, extra, reg, natives) ==
      BuildDoc(st, lines, reg, natives);
    PlainLinesAccumulate(st, lines, reg, natives);
    var b := Block(ks.key, ks.filters, DropLeadingEmptyLines(lines));
    assert Run(st, lines, reg, natives) == State(st.doc, b);
    assert BuildDoc(st, lines, reg, natives) == Close(st.doc, b, natives);
  }

  /** A text that neither starts nor ends with a line break and has no directive is
    * stored whole, line breaks included, under the default key. */
  lemma PlainTextRoundTrip(text: string, defaultKey: string, contentType: Value, extra: Doc,
                           reg: Registry, natives: Natives)
    requires text != "" && text[0] != '\n' && text[|text| - 1] != '\n'
    requires AllPlain(Split(text, '\n'), reg)
    ensures var ks := DefaultKeySpec(defaultKey, reg);
      ParseDocumentText(text, defaultKey, contentType, extra, reg, natives) ==
        SetProperty(InitialDoc(contentType, extra), ks.key, FilterValue(Str(text), ks.filters, natives))
  {
    var lines := Split(text, '\n');
    NoDirectiveDocument(text, defaultKey, contentType, extra, reg, natives);
    SplitFirstEmpty(text, '\n');
    SplitLastEmpty(text, '\n');
    assert DropLeadingEmptyLines(lines) == lines;
    assert RemoveTrailingEmptyLines(lines) == lines;
    JoinSplit(text, '\n');
  }

  /** Every filter name of the key path is registered. */
  predicate Registered(m: Match, reg: Registry) {
    var segments := Split(m.path, ':');
    forall i :: 1 <= i < |segments| ==> segments[i] in reg
  }

  /** The key a directive stores under and its filter chain. */
  function KeyOf(m: Match): string {
    Split(m.path, ':')[0]
  }

  function ChainOf(m: Match, reg: Registry): seq<Filter>
    requires Registered(m, reg)
  {
    FilterNames(Split(m.path, ':'), reg);
    LookupFilters(Split(m.path, ':')[1..], reg).value
  }

  /** A directive with inline text stores the trimmed text, filtered left to right,
    * under its key, and leaves the open block as it is: plain lines after it still
    * go into the block opened before it. */
  lemma InlineDirectiveKeepsBlock(st: State, line: string, m: Match, more: seq<string>,
                                  reg: Registry, natives: Natives)
    requires Matches(line, m) && Registered(m, reg)
    requires m.rest.gap != "" && Trim(m.rest.inline) != ""
    requires AllPlain(more, reg)
    ensures Run(st, [line] + more, reg, natives) ==
      State(SetProperty(st.doc, KeyOf(m), FilterValue(Str(Trim(m.rest.inline)), ChainOf(m, reg), natives)),
            st.current.(lines := Accumulated(st.current.lines, more)))
  {
    ParseLineOfMatch(line, m, reg);
    TrimIdempotent(m.rest.inline);
    RunAppend(st, [line], more, reg, natives);
    PlainLinesAccumulate(Step(st, line, reg, natives), more, reg, natives);
  }

  /** A directive without inline text, or with white space only, closes the open block
    * and opens a new one for its key, which collects the plain lines after it. */
  lemma BlockDirectiveOpensBlock(st: State, line: string, m: Match, more: seq<string>,
                                 reg: Registry, natives: Natives)
    requires Matches(line, m) && Registered(m, reg)
    requires m.rest.gap == "" || AllSpace(m.rest.inline)
    requires AllPlain(more, reg)
    ensures Run(st, [line] + more, reg, natives) ==
      State(Close(st.doc, st.current, natives),
            Block(KeyOf(m), ChainOf(m, reg), DropLeadingEmptyLines(more)))
  {
    if m.rest.gap != "" {
      TrimAllSpace(m.rest.inline);
    }
    ParseLineOfMatch(line, m, reg);
    RunAppend(st, [line], more, reg, natives);
    PlainLinesAccumulate(Step(st, line, reg, natives), more, reg, natives);
  }

  /** A document of one directive line with inline text holds the initial properties
    * and that directive's value; the implicit default block stores nothing. */
  lemma SingleDirectiveDocument(line: string, m: Match, defaultKey: string, contentType: Value,
                                extra: Doc, reg: Registry, natives: Natives)
    requires Matches(line, m) && Registered(m, reg) && '\n' !in line
    requires m.rest.gap != "" && Trim(m.rest.inline) != ""
    ensures ParseDocumentText(line, defaultKey, contentType, extra, reg, natives) ==
      SetProperty(InitialDoc(contentType, extra), KeyOf(m), FilterValue(Str(Trim(m.rest.inline)), ChainOf(m, reg), natives))
  {
    var ks := DefaultKeySpec(defaultKey, reg);
    var st := State(InitialDoc(contentType, extra), Block(ks.key, ks.filters, []));
    SplitWithoutSeparator(line, '\n');
    InlineDirectiveKeepsBlock(st, line, m, [], reg, natives);
    assert [line] + [] == [line];
  }

  /** The keys directive lines name. */
  function DirectiveKeys(lines: seq<string>, reg: Registry): set<string>
    decreases |lines|
  {
    if |lines| == 0 then {}
    else
      (match ParseLine(lines[0], reg)
       case Directive(key, _, _) => {key}
       case Plain(_) => {}) + DirectiveKeys(lines[1..], reg)
  }

  /** `d` keeps every key of `base`, and differs from `base` only under the keys in `written`. */
  predicate Frames(d: Doc, base: Doc, written: set<string>) {
    && base.Keys <= d.Keys
    && forall k :: k in d && k !in written ==> k in base && d[k] == base[k]
  }

  lemma {:induction false} RunFrames(st: State, lines: seq<string>, base: Doc, written: set<string>,
                                      reg: Registry, natives: Natives)
    requires Frames(st.doc, base, written) && st.current.key in written
    requires DirectiveKeys(lines, reg) <= written
    ensures Frames(Run(st, lines, reg, natives).doc, base, written)
    ensures Run(st, lines, reg, natives).current.key in written
    decreases |lines|
  {
    if |lines| > 0 {
      RunFrames(Step(st, lines[0], reg, natives), lines[1..], base, written, reg, natives);
    }
  }

  /** A parsed document keeps `contentType` and the extra properties unless a directive
    * or the default block writes the same key; no other key appears. */
  lemma DocumentFrame(text: string, defaultKey: string, contentType: Value, extra: Doc,
                      reg: Registry, natives: Natives)
    ensures Frames(ParseDocumentText(text, defaultKey, contentType, extra, reg, natives),
                   InitialDoc(contentType, extra),
                   {DefaultKeySpec(defaultKey, reg).key} + DirectiveKeys(Split(text, '\n'), reg))
  {
    var ks := DefaultKeySpec(defaultKey, reg);
    var written := {ks.key} + DirectiveKeys(Split(text, '\n'), reg);
    var st := State(InitialDoc(contentType, extra), Block(ks.key, ks.filters, []));
    RunFrames(st, Split(text, '\n'), InitialDoc(contentType, extra), written, reg, natives);
  }
}
