# versatile.js content core in Dafny

This project models the core of versatile.js, a small content loader for websites.
It has three parts.

1. **The line-oriented document parser.** A content file is split into lines. A line
   of the form `@@key:filter:filter text` stores `text` under `key`, after trimming it
   and running it through the named filters from left to right. A directive without
   text opens a block that collects the following plain lines. Plain lines go into the
   open block. The file starts in an implicit block for the file type's default key,
   and the last line closes the open block.
2. **The document store.** Every non-empty document is appended to a list. A document
   without an `id` takes its `filename` as id. The id index is first-writer-wins.
3. **Layout composition.** A document's `layout` property names another document. The
   document is laid over that layout, and the layout's template content is rendered
   against the merged document. This repeats along the layout chain until a document
   has no layout, a layout repeats, or a layout is missing.

Modules:

- `Values` (values.dfy) holds JavaScript values, truthiness, string conversion and `typeof`.
  A number is kept as its canonical JavaScript text, so `0` and `NaN` are falsy without
  floating point.
- `Text` (text.dfy) holds the `\s` class of JavaScript regular expressions, `trim`,
  `split` and `join`, and the removal of empty lines.
- `Filters` (filters.dfy) holds the filter registry, `filterValue` and `parseKey`.
- `Directives` (directives.dfy) holds `parseLine`. The regular expression
  `^@@\s*([a-z0-9_]+(:[a-z0-9_]+)*)(\s+(.*?)\s*)?$` (flag `i`) is matched by hand.
  Two results tie the hand matcher to the pattern:
  - `MatchDirective` is sound: whatever it returns is a decomposition of the line that
    the pattern admits.
  - `MatchComplete` is complete: every decomposition the pattern admits is found, with
    the same key path and group 4.
- `Parser` (parser.dfy) holds `applyCurrentValToDoc`, `buildDoc` and `parseDocumentText`.
- `Store` (store.dfy) holds `addToDocs`.
- `Compose` (compose.dfy) holds `renderContent`, `mergeDocIntoLayout`, `mergeDocTree` and
  `buildResponseDocument`.

Foreign code becomes parameters:

- `parseInt` and `parseFloat` (the `int` and `float` filters), the `partial` filter and
  caller-registered filters come from a `Natives` record of functions.
- Template functions (`content.template`) come from a `Renderer` function from a
  template and a context document to a value.

Where the code and its documentation differ, the model follows the code:

- The pattern takes zero or more white-space characters after `@@`, not one or more.
- No white space may come before `@@`.
- Only empty strings count as empty lines, both when leading lines are dropped and when
  trailing lines are removed. A line of white space is kept.
- `mergeDocTree` renders the document's own truthy content against the document itself
  before each merge (versatile.js:164-165). `Prepare` models this step.

## Model

| member | source | states |
|---|---|---|
| Text.Strip | versatile.js:12 | The result has no `\s` at either end. It is the slice of the input that starts after the leading `\s` run, and only `\s` follows it. |
| Text.StripAround | versatile.js:12 | Adding white space on either side of a string does not change its stripped core. |
| Text.Trim | versatile.js:11-13 | `trim` returns either its input unchanged, or a string with no `\s` at either end and no line terminator. It is never longer than the input. |
| Text.TrimIdempotent | versatile.js:11-13 | Trimming twice gives the same as trimming once. |
| Text.TrimAllSpace | versatile.js:11-13 | A string made only of white space trims to the empty string. |
| Text.JoinSplit | versatile.js:118 | Joining the lines of `text.split(/\n/)` with `\n` gives the text back. |
| Text.SplitJoin | versatile.js:27 | Splitting, on the separator, a list of parts that contain no separator gives the parts back. |
| Text.SplitLastEmpty | versatile.js:118 | The last line of a split is empty exactly when the text is empty or ends with the separator. |
| Text.RemoveTrailingEmptyLines | versatile.js:15-18 | The result is the longest prefix of the list that does not end in `""`. Only `""` entries are removed. |
| Text.DropLeadingEmptyLines | versatile.js:85-86 | The result is the longest suffix of the list that does not start with `""`. Everything dropped is `""`. |
| Values.SetProperty | versatile.js:75 | Assigning a property adds or replaces that key and leaves every other key as it was. Assigning to `__proto__` adds no own property. |
| Filters.DefaultRegistry | versatile.js:241-266 | The registry at load time holds exactly `html`, `int`, `float`, `bool` and `partial`, each name mapped to its own filter. |
| Filters.Apply | versatile.js:241-266 | `html` is the identity. `bool` gives true exactly for the string `"true"`. `int` and `float` give the number their native parser returns. `partial` gives what the abstract partial lookup returns. |
| Filters.FilterValueSnoc | versatile.js:20-24 | The last filter of a chain is applied to the result of the ones before it, so the chain runs left to right. |
| Filters.FilterValueAppend | versatile.js:20-24 | Running two chains one after the other is running their concatenation. |
| Filters.HtmlChainIsIdentity | versatile.js:241-243 | A chain made only of `html` leaves the value unchanged. |
| Filters.LookupFilters | versatile.js:29-34 | The lookup succeeds exactly when every name is registered. On success the filters are the registered ones, in order. |
| Filters.ParseKey | versatile.js:26-36 | A parsed key never contains `:`. |
| Filters.ParseKeyOfJoin | versatile.js:26-36 | A key joined to filter names by `:` parses back into that key and those names' filters when every name is registered. It fails when any name is not registered. |
| Filters.DefaultKeySpec | versatile.js:117 | The key has no `:`. A default key specification that parses gives exactly the key and filters `parseKey` returns for it (`content` when it is empty). One that does not parse falls back to `content` with no filters. |
| Filters.HtmlDefaultKeySpec | versatile.js:275-278 | An `.html` file, whose type declares `content:html`, starts in the `content` block with the `html` filter. |
| Filters.DefaultKeySpecIsContent | versatile.js:117 | With no default key, documents start in the `content` block without filters. |
| Directives.MatchTail | versatile.js:39 | What follows the key path is empty, or is white space, then group 4 without line terminators, then white space. Group 4 has no `\s` at either end. |
| Directives.MatchDirective | versatile.js:39 | Every match found is a decomposition the pattern admits. A line that does not start with `@@` never matches. |
| Directives.MatchTailComplete | versatile.js:39 | Every tail the pattern admits is found, with the same choice about group 3 and with group 4 equal to the trimmed text. |
| Directives.MatchDirectiveOf | versatile.js:39 | Cut a line into `@@`, a maximal white-space run, a maximal run of key characters, and the rest. The line matches exactly when the run is a key path and the rest matches as a tail. |
| Directives.MatchComplete | versatile.js:39 | Every decomposition the pattern admits is found, with the same key path, the same group 3 choice, and group 4 equal to the trimmed text. |
| Directives.InlineText | versatile.js:43-45 | Inline text is kept only when group 3 took part and group 4 is not blank. Kept text is non-empty and is its own trim. |
| Directives.InlineTextOf | versatile.js:43-45 | For any decomposition, the inline text is the trimmed group 4. It is absent when group 3 is absent or the trimmed text is empty. |
| Directives.ParseLine | versatile.js:38-50 | A plain result carries the line unchanged. A line not starting with `@@` is plain. A directive's key is one segment of word characters and is the first segment of a matching key path. Its inline text is non-blank and already trimmed. |
| Directives.ParseLineOfMatch | versatile.js:38-50 | A line the pattern matches is a directive exactly when every filter name is registered. The key is the first segment, the filters are looked up in order, and the inline text is the trimmed group 4 when not blank. Otherwise the line is plain text. |
| Directives.TrailingColonIsPlain | versatile.js:26-50 | A run of key characters ending in `:` makes the line plain text. This holds for any white space after `@@` and anything after the run, e.g. `@@title:`, `@@title:html:` and `@@ title: text`. |
| Directives.HyphenInKeyIsPlain | versatile.js:39-49 | A `-` right after the run of key characters makes the line plain text. This holds for any white space after `@@` and anything after the `-`. |
| Directives.PartialDirective | versatile.js:38-50 | With the filters registered at load, `@@key:partial text` is a directive that stores `text` under `key` through the `partial` filter. |
| Directives.MissingKeyIsPlain | versatile.js:39-49 | `@@` followed only by white space is plain text. |
| Parser.Close | versatile.js:52-56 | Closing a block adds its key exactly when some line of the block is non-empty and the key is not `__proto__`. No other key changes. A block of empty lines leaves the document as it was. |
| Parser.CloseStoresAllLines | versatile.js:52-56 | A block whose last line is non-empty is stored whole, joined by `\n` and filtered. |
| Parser.CloseIgnoresTrailingEmptyLines | versatile.js:52-56 | Empty lines at the end of a block do not change what is stored. |
| Parser.Step | versatile.js:72-86 | Processing a line never removes a key from the document. |
| Parser.RunAppend | versatile.js:70-90 | Processing two runs of lines in turn equals processing their concatenation. |
| Parser.PlainLinesAccumulate | versatile.js:85-86 | Plain lines change only the open block. They are appended when the block has lines. Without lines, the block takes them minus their leading empty ones. |
| Parser.InlineDirectiveKeepsBlock | versatile.js:73-75 | A directive with inline text stores the trimmed text, filtered left to right, under its key. It leaves the open block as it was, so later plain lines still go into the earlier block. |
| Parser.BlockDirectiveOpensBlock | versatile.js:76-83 | A directive without inline text, or with only white space, closes the open block. It opens a new block for its key, and the following plain lines go there minus the leading empty ones. |
| Parser.InitialDoc | versatile.js:119-130 | The starting document has `contentType` plus the extra properties. The extra properties win. |
| Parser.NoDirectiveDocument | versatile.js:116-134 | A text without directives is stored under the default key with its leading and trailing empty lines removed. Nothing is stored when no line has text. |
| Parser.PlainTextRoundTrip | versatile.js:116-134 | A text without directives that neither starts nor ends with a line break is stored whole under the default key. |
| Parser.SingleDirectiveDocument | versatile.js:116-134 | A one-line directive document holds the initial properties and the directive's filtered value, which overrides them. The default block stores nothing. |
| Parser.RunFrames | versatile.js:69-91 | Processing lines keeps every initial key. Only keys named by directives or by an open block change. |
| Parser.DocumentFrame | versatile.js:116-134 | A parsed document keeps `contentType` and the extra properties, except under the default key and the keys directives name. No other keys appear. |
| Store.FirstWithId | versatile.js:65-66 | The document found is in the list and carries the id searched for. |
| Store.WithId | versatile.js:63-64 | An `id` that is `undefined` is replaced by `filename`. All other properties are kept. |
| Store.AddToDocs | versatile.js:58-67 | A document without keys changes nothing. Otherwise it is appended to the list with its id set. Index entries are never replaced. A new entry holds this document under its own truthy id. |
| Store.FirstWithIdSnoc | versatile.js:65-66 | Appending a document makes it the first with its id only when no earlier document has that id. |
| Store.AddToDocsValid | versatile.js:58-67 | If the index held the first listed document for every id before adding, it still does after. |
| Store.AddAllValid | versatile.js:58-67 | Adding any sequence of documents keeps the index first-writer-wins. |
| Store.FirstWriterWins | versatile.js:65-66 | Of two documents with the same id, both are listed and the first keeps the index entry. |
| Store.NoIdNotIndexed | versatile.js:63-66 | A document whose `id` and `filename` are both falsy is not indexed. |
| Compose.RenderContent | versatile.js:136-140 | A template content gives what the template renders for the context document. Any other content comes back unchanged whatever the context, which `StringLayoutContentWins` uses. Content that is `undefined` or `null` is excluded because reading `.template` from it throws. |
| Compose.Overlay | versatile.js:143-145 | The overlay has the layout's keys plus the document's keys except `layout`. The document wins on every key but `layout`, which comes only from the layout. |
| Compose.MergeDocIntoLayout | versatile.js:142-152 | The merge has the union of the keys. The document's values win except on `content` and `layout`, and `layout` comes from the layout document. `content` is the layout's rendered content when that is truthy, and the overlay's otherwise. |
| Compose.StringLayoutContentWins | versatile.js:147-149 | A non-empty string as layout content replaces the document's content. |
| Compose.DocContentKeptUnderPlainLayout | versatile.js:142-152 | A layout without truthy content keeps the document's content. |
| Compose.Prepare | versatile.js:164-165 | When the document's content is truthy, it becomes that content rendered against the document itself. No other key changes. A document with falsy content is left as it is. |
| Compose.Visited | versatile.js:157-166 | The layouts the chain merges are distinct stored layouts outside the already-used set. There are never more of them than unused store keys. |
| Compose.Resolve | versatile.js:154-169 | A composed result has no truthy `layout` and keeps every property of the original document other than `layout` and `content`. A not-found failure names a layout missing from the store. A recursion failure names a layout in `used` or on the chain of visited layouts. |
| Compose.ResolveFailsAtChainEnd | versatile.js:154-163 | A failing composition fails at the name that the last visited layout points to. When no layout was visited, it fails at the document's own layout. With `Resolve`'s recursion clause, a recursion failure therefore names a layout the chain has already passed through. |
| Compose.MergeDocTree | versatile.js:154-169 | The loop with its visited set computes the recursive definition, and it terminates because the unvisited store keys shrink. A composed result has no truthy `layout`. |
| Compose.ResolveMergesVisited | versatile.js:157-168 | A successful composition is the document merged into exactly the visited layouts, in order. So the loop performs at most as many merges as the store holds layouts. |
| Compose.ResolveFailsAsChain | versatile.js:157-166 | Composition fails exactly when the chain of layout names, followed through the store, fails. The failure is the same. It depends neither on content nor on templates. |
| Compose.SelfLayoutIsRecursive | versatile.js:158-159 | A layout that names itself fails as recursive, with the message `Unable to render document: layout "X" usage is recursive`. |
| Compose.MutualLayoutsAreRecursive | versatile.js:158-159 | Two layouts naming each other fail as recursive at the first one. |
| Compose.MissingLayoutNotFound | versatile.js:162-163 | A layout missing from the store fails with `Unable to render document: layout "X" not found`. |
| Compose.NoLayoutUnchanged | versatile.js:157-168 | A document without a truthy layout is returned unchanged. |
| Compose.SingleLayout | versatile.js:157-168 | A layout without a layout of its own gives exactly one merge. |
| Compose.BuildResponseDocument | versatile.js:227-234 | A falsy argument gives the 404 not-found error. A truthy primitive gives the wrong-type error. A document argument gets the composed document when composition succeeds and the failure's message when it fails. A document response has no truthy `layout`. |
| Compose.ResponseForDocument | versatile.js:227-234 | A document argument gets a document response exactly when its layout chain does not fail. Otherwise it gets that failure's message. |
| Compose.WrongTypeMessage | versatile.js:231-232 | The wrong-type message names `boolean` or `number`, as `typeof` does. |

## Left out

- `readDir`, `processVersatileDocument` and `loadContent` (versatile.js:93-114, 171-225) are left out. They are file-system I/O with promises, `process.nextTick` and logging. `Store.AddAll` stands for adding the parsed documents one after the other.
- `setFileType` and the default file types (versatile.js:204-206, 270-278) are left out. They are plain configuration; the default key specification and content type are parameters.
- The `int` and `float` filters are left abstract, and so are filters registered by callers. JavaScript number parsing and floating point are not modelled.
- What the `partial` filter (versatile.js:257-266) computes is left abstract (`Natives.partial`). It is registered like the other built-ins, but it reads the store at parse time and depends on load order.
- Filters are given only the value. The document that versatile.js:55 passes as a second argument is not modelled, because no built-in filter reads it.
- `addFilter` (versatile.js:199-202) is modelled only as the registry map. Registering a name pushes to an array, so numeric names, `length` and other array members alias registry entries. The store index and the visited-layout set are arrays too. All three are modelled as finite maps and sets, without those aliases.
- Values.SetProperty: assigning an object value to `__proto__` replaces the document's prototype in JavaScript, so inherited properties become readable. The model keeps no prototypes and drops such an assignment like a primitive one.
- The global `contextDoc` side channel (versatile.js:146, 150) is left out. It is set and then reset, and nothing in the core reads it.
- Template functions are opaque: `Renderer` gives their results, and their side effects are not modelled.
- Compose.BuildResponseDocument: the string-argument branch (versatile.js:228) is excluded by precondition. It reads an undeclared `id`, which throws. Objects that are not documents and function arguments are excluded too.
- The source updates its arguments in place where copying makes no difference. `removeTrailingEmptyLines` pops the block's own array, and `addToDocs` sets `id` on the document it was given. In the model every value is immutable, so the copies taken at versatile.js:143, 145 and 155 hold trivially.
- Strings are sequences of characters. UTF-16 surrogate pairs are not distinguished from code points, and `\s` is the fixed set of characters JavaScript gives it.
