/**
 * Layout composition of versatile.js: `renderContent`, `mergeDocIntoLayout`,
 * `mergeDocTree` and the object path of `buildResponseDocument`
 * (versatile.js:136-169, 227-234).
 *
 * A document names a layout document in its `layout` property; the document is laid
 * over the layout, whose content, when it is a template, is rendered against the
 * merged document. The layout may name a layout of its own, and so on.
 */
module Compose {
  import opened Values
  import Store

  /** The templates are foreign code: `render(template, ctx)` is what the template
    * function named `template` returns for the context document `ctx`. */
  type Renderer = (nat, Doc) -> Value


  /** `renderContent` (versatile.js:136-140): a template content is rendered against
    * `ctx`, any other content is returned as it is. Reading `content.template` throws
    * when the content is `undefined` or `null`. */
  function RenderContent(doc: Doc, ctx: Doc, render: Renderer): (r: Value)
    requires Get(doc, "content") != Undefined && Get(doc, "content") != Null
    ensures !Get(doc, "content").Templated? ==> r == Get(doc, "content")
    ensures Get(doc, "content").Templated? ==> r == render(Get(doc, "content").template, ctx)
  {
    match Get(doc, "content")
    case Templated(template) => render(template, ctx)
    case other => other
  }

  /** The document laid over the layout before the content is rendered: every property
    * of the document but `layout` wins over the layout's. */
  function Overlay(doc: Doc, layout: Doc): (r: Doc)
    ensures r.Keys == layout.Keys + (doc.Keys - {"layout"})
    ensures forall k :: k in doc && k != "layout" ==> r[k] == doc[k]
    ensures forall k :: k in layout && (k !in doc || k == "layout") ==> r[k] == layout[k]
  {
    layout + (doc - {"layout"})
  }

  /** `mergeDocIntoLayout` (versatile.js:142-152). */
  function MergeDocIntoLayout(doc: Doc, layout: Doc, render: Renderer): (r: Doc)
    ensures r.Keys == layout.Keys + (doc.Keys - {"layout"})
    ensures forall k :: k in doc && k != "layout" && k != "content" ==> r[k] == doc[k]
    ensures forall k :: k in layout && k !in doc && k != "content" ==> r[k] == layout[k]
    ensures Get(r, "layout") == Get(layout, "layout")
    ensures Truthy(Get(layout, "content")) ==>
      r["content"] == RenderContent(layout, Overlay(doc, layout), render)
    ensures !Truthy(Get(layout, "content")) ==> Get(r, "content") == Get(Overlay(doc, layout), "content")
  {
    var merged := Overlay(doc, layout);
    if Truthy(Get(layout, "content")) then
      merged["content" := RenderContent(layout, merged, render)]
    else merged
  }

  /** A layout whose content is a non-empty string replaces the document's content. */
  lemma StringLayoutContentWins(doc: Doc, layout: Doc, s: string, render: Renderer)
    requires Get(layout, "content") == Str(s) && s != ""
    ensures MergeDocIntoLayout(doc, layout, render)["content"] == Str(s)
  {
  }

  /** A layout without truthy content keeps the document's content, when it has one. */
  lemma DocContentKeptUnderPlainLayout(doc: Doc, layout: Doc, render: Renderer)
    requires !Truthy(Get(layout, "content")) && "content" in doc
    ensures MergeDocIntoLayout(doc, layout, render)["content"] == doc["content"]
  {
  }

  /** Why composing a document failed. */
  datatype Failure = LayoutRecursive(name: string) | LayoutNotFound(name: string)

  /** The `error` text of a failure. */
  function Message(f: Failure): string {
    match f
    case LayoutRecursive(name) => "Unable to render document: layout \"" + name + "\" usage is recursive"
    case LayoutNotFound(name) => "Unable to render document: layout \"" + name + "\" not found"
  }

  datatype Outcome = Composed(doc: Doc) | Failed(failure: Failure)

  /** The document before it is laid over its layout: its own content rendered against
    * itself when truthy (versatile.js:164-165). */
  function Prepare(doc: Doc, render: Renderer): (r: Doc)
    ensures r.Keys == doc.Keys
    ensures forall k :: k in doc && k != "content" ==> r[k] == doc[k]
    ensures Truthy(Get(doc, "content")) ==> r["content"] == RenderContent(doc, doc, render)
    ensures !Truthy(Get(doc, "content")) ==> r == doc
  {
    if Truthy(Get(doc, "content")) then doc["content" := RenderContent(doc, doc, render)] else doc
  }

  /** The layouts the chain merges, in order: the stored layouts reached by following
    * `layout` properties, up to the first name that repeats, is missing, or is absent.
    * Each is visited at most once, so there are never more than the store holds. */
  function Visited(store: Store.Index, layout: Value, used: set<string>): (names: seq<string>)
    ensures |names| <= |store.Keys - used|
    ensures forall i :: 0 <= i < |names| ==> names[i] in store && names[i] !in used
    ensures forall i, j :: 0 <= i < j < |names| ==> names[i] != names[j]
    decreases store.Keys - used
  {
    if !Truthy(layout) then []
    else
      var name := ToStr(layout);
      if name in used || name !in store then []
      else
        assert store.Keys - (used + {name}) == (store.Keys - used) - {name};
        [name] + Visited(store, Get(store[name], "layout"), used + {name})
  }

  /** The document merged into each of the named layouts in turn. */
  function MergeAlong(store: Store.Index, doc: Doc, names: seq<string>, render: Renderer): Doc
    requires forall i :: 0 <= i < |names| ==> names[i] in store
    decreases |names|
  {
    if |names| == 0 then doc
    else MergeAlong(store, MergeDocIntoLayout(Prepare(doc, render), store[names[0]], render), names[1..], render)
  }

  /** What `mergeDocTree` (versatile.js:154-169) computes from a document once the
    * layouts in `used` have been visited. */
  function Resolve(store: Store.Index, doc: Doc, used: set<string>, render: Renderer): (r: Outcome)
    ensures r.Composed? ==> !Truthy(Get(r.doc, "layout"))
    ensures r.Composed? ==> forall k :: k in doc && k != "layout" && k != "content" ==>
      k in r.doc && r.doc[k] == doc[k]
    ensures r.Failed? && r.failure.LayoutNotFound? ==> r.failure.name !in store
    ensures r.Failed? && r.failure.LayoutRecursive? ==>
      r.failure.name in used || r.failure.name in Visited(store, Get(doc, "layout"), used)
    decreases store.Keys - used
  {
    var layout := Get(doc, "layout");
    if !Truthy(layout) then Composed(doc)
    else
      var name := ToStr(layout);
      if name in used then Failed(LayoutRecursive(name))
      else if name !in store then Failed(LayoutNotFound(name))
      else Resolve(store, MergeDocIntoLayout(Prepare(doc, render), store[name], render), used + {name}, render)
  }

  /** `mergeDocTree` (versatile.js:154-169): the layout chain followed with a set of
    * visited layouts, which grows at every step and bounds the loop. */
  method MergeDocTree(store: Store.Index, basedoc: Doc, render: Renderer) returns (r: Outcome)
    ensures r == Resolve(store, basedoc, {}, render)
    ensures r.Composed? ==> !Truthy(Get(r.doc, "layout"))
  {
    var doc := basedoc;
    var used: set<string> := {};
    while Truthy(Get(doc, "layout"))
      invariant used <= store.Keys
      invariant Resolve(store, doc, used, render) == Resolve(store, basedoc, {}, render)
      decreases store.Keys - used
    {
      var name := ToStr(Get(doc, "layout"));
      if name in used {
        return Failed(LayoutRecursive(name));
      }
      if name !in store {
        return Failed(LayoutNotFound(name));
      }
      used := used + {name};
      doc := MergeDocIntoLayout(Prepare(doc, render), store[name], render);
    }
    return Composed(doc);
  }

  /** How the layout chain ends, following only the `layout` properties of the stored
    * layouts: at a layout without a truthy `layout`, or at a failure. */
  function ChainFailure(store: Store.Index, layout: Value, used: set<string>): Option<Failure>
    decreases store.Keys - used
  {
    if !Truthy(layout) then None
    else
      var name := ToStr(layout);
      if name in used then Some(LayoutRecursive(name))
      else if name !in store then Some(LayoutNotFound(name))
      else ChainFailure(store, Get(store[name], "layout"), used + {name})
  }

  /** Whether composition fails, and how, depends only on the chain of layout names:
    * not on the documents' content or on what the templates render. */
  lemma {:induction false} ResolveFailsAsChain(store: Store.Index, doc: Doc, used: set<string>, render: Renderer)
    ensures Resolve(store, doc, used, render).Failed? <==> ChainFailure(store, Get(doc, "layout"), used).Some?
    ensures Resolve(store, doc, used, render).Failed? ==>
      Resolve(store, doc, used, render).failure == ChainFailure(store, Get(doc, "layout"), used).value
    decreases store.Keys - used
  {
    var layout := Get(doc, "layout");
    if Truthy(layout) {
      var name := ToStr(layout);
      if name !in used && name in store {
        var next := MergeDocIntoLayout(Prepare(doc, render), store[name], render);
        ResolveFailsAsChain(store, next, used + {name}, render);
      }
    }
  }

  /** A composition that succeeds merges the document into exactly the visited layouts,
    * one after the other, so it performs at most as many merges as the store holds
    * layouts. */
  lemma {:induction false} ResolveMergesVisited(store: Store.Index, doc: Doc, used: set<string>, render: Renderer)
    ensures var names := Visited(store, Get(doc, "layout"), used);
      ChainFailure(store, Get(doc, "layout"), used).None? ==>
        Resolve(store, doc, used, render) == Composed(MergeAlong(store, doc, names, render))
    decreases store.Keys - used
  {
    var layout := Get(doc, "layout");
    if Truthy(layout) {
      var name := ToStr(layout);
      if name !in used && name in store {
        var next := MergeDocIntoLayout(Prepare(doc, render), store[name], render);
        ResolveMergesVisited(store, next, used + {name}, render);
        var names := Visited(store, layout, used);
        assert names[1..] == Visited(store, Get(next, "layout"), used + {name});
      }
    }
  }

  /** Where a failing chain stops: at the name the last visited layout points to, or
    * at the document's own layout when no layout was visited. With the recursion
    * clause of `Resolve`, a recursive failure therefore names a layout the chain has
    * already passed through. */
  lemma {:induction false} ResolveFailsAtChainEnd(store: Store.Index, doc: Doc, used: set<string>, render: Renderer)
    ensures var vs := Visited(store, Get(doc, "layout"), used);
      Resolve(store, doc, used, render).Failed? ==>
        Resolve(store, doc, used, render).failure.name ==
          ToStr(if vs == [] then Get(doc, "layout") else Get(store[vs[|vs| - 1]], "layout"))
    decreases store.Keys - used
  {
    var layout := Get(doc, "layout");
    if Truthy(layout) {
      var name := ToStr(layout);
      if name !in used && name in store {
        var next := MergeDocIntoLayout(Prepare(doc, render), store[name], render);
        ResolveFailsAtChainEnd(store, next, used + {name}, render);
        var vs := Visited(store, layout, used);
        var rest := Visited(store, Get(next, "layout"), used + {name});
        assert vs == [name] + rest;
        assert Get(next, "layout") == Get(store[name], "layout");
        if rest != [] {
          assert vs[|vs| - 1] == rest[|rest| - 1];
        }
      }
    }
  }

  /** A document whose layout names itself is recursive. */
  lemma SelfLayoutIsRecursive(store: Store.Index, doc: Doc, name: string, render: Renderer)
    requires name != "" && name in store
    requires Get(doc, "layout") == Str(name) && Get(store[name], "layout") == Str(name)
    ensures Resolve(store, doc, {}, render) == Failed(LayoutRecursive(name))
    ensures Message(Resolve(store, doc, {}, render).failure) ==
      "Unable to render document: layout \"" + name + "\" usage is recursive"
  {
    ResolveFailsAsChain(store, doc, {}, render);
  }

  /** Two layouts naming each other: the chain comes back to the first and fails there. */
  lemma MutualLayoutsAreRecursive(store: Store.Index, doc: Doc, a: string, b: string, render: Renderer)
    requires a != "" && b != "" && a != b && a in store && b in store
    requires Get(doc, "layout") == Str(a)
    requires Get(store[a], "layout") == Str(b) && Get(store[b], "layout") == Str(a)
    ensures Resolve(store, doc, {}, render) == Failed(LayoutRecursive(a))
  {
    ResolveFailsAsChain(store, doc, {}, render);
    var none: set<string> := {};
    assert none + {a} == {a};
    assert ChainFailure(store, Str(a), none) == ChainFailure(store, Str(b), {a});
    assert {a} + {b} == {a, b};
    assert ChainFailure(store, Str(b), {a}) == ChainFailure(store, Str(a), {a, b});
  }

  /** A layout that is not in the store fails with its name. */
  lemma MissingLayoutNotFound(store: Store.Index, doc: Doc, name: string, render: Renderer)
    requires name != "" && name !in store && Get(doc, "layout") == Str(name)
    ensures Resolve(store, doc, {}, render) == Failed(LayoutNotFound(name))
    ensures Message(Resolve(store, doc, {}, render).failure) ==
      "Unable to render document: layout \"" + name + "\" not found"
  {
  }

  /** A document without a layout is returned as it is. */
  lemma NoLayoutUnchanged(store: Store.Index, doc: Doc, render: Renderer)
    requires !Truthy(Get(doc, "layout"))
    ensures Resolve(store, doc, {}, render) == Composed(doc)
  {
  }

  /** One layout without a layout of its own: the result is that single merge. */
  lemma SingleLayout(store: Store.Index, doc: Doc, name: string, render: Renderer)
    requires name != "" && name in store && Get(doc, "layout") == Str(name)
    requires !Truthy(Get(store[name], "layout"))
    ensures Resolve(store, doc, {}, render) ==
      Composed(MergeDocIntoLayout(Prepare(doc, render), store[name], render))
  {
    var merged := MergeDocIntoLayout(Prepare(doc, render), store[name], render);
    assert Resolve(store, merged, {name}, render) == Composed(merged);
  }

  /** The argument of `buildResponseDocument`: a document, or any other value. */
  datatype Request = DocArg(doc: Doc) | ScalarArg(value: Value)

  /** The result of `buildResponseDocument`: a document or an error object. */
  datatype Response = Document(doc: Doc) | Error(message: string, statusCode: Option<nat>)

  /** `buildResponseDocument` (versatile.js:227-234) for a document or a primitive
    * argument. A string argument takes the branch at versatile.js:228, which reads the
    * undeclared `id` and throws, so it is excluded, as are objects that are not
    * documents. */
  function BuildResponseDocument(arg: Request, store: Store.Index, render: Renderer): (r: Response)
    requires arg.ScalarArg? ==> arg.value.Undefined? || arg.value.Null? || arg.value.Bool? || arg.value.Num?
    ensures arg.ScalarArg? && !Truthy(arg.value) ==>
      r == Error("The requested document was not found", Some(404))
    ensures arg.ScalarArg? && Truthy(arg.value) ==> r.Error? && r.statusCode == None
    ensures r.Document? ==> arg.DocArg? && !Truthy(Get(r.doc, "layout"))
    ensures arg.DocArg? && Resolve(store, arg.doc, {}, render).Composed? ==>
      r == Document(Resolve(store, arg.doc, {}, render).doc)
    ensures arg.DocArg? && Resolve(store, arg.doc, {}, render).Failed? ==>
      r == Error(Message(Resolve(store, arg.doc, {}, render).failure), None)
  {
    match arg
    case ScalarArg(v) =>
      if !Truthy(v) then Error("The requested document was not found", Some(404))
      else Error("The specified document was of the wrong type (expected \"object\" but was \"" + TypeOf(v) + "\")", None)
    case DocArg(doc) =>
      match Resolve(store, doc, {}, render)
      case Composed(d) => Document(d)
      case Failed(f) => Error(Message(f), None)
  }

  /** A document is answered with its composition exactly when its layout chain ends
    * without failure; otherwise with the failure's message. */
  lemma ResponseForDocument(doc: Doc, store: Store.Index, render: Renderer)
    ensures var r := BuildResponseDocument(DocArg(doc), store, render);
      var c := ChainFailure(store, Get(doc, "layout"), {});
      (r.Document? <==> c.None?) && (c.Some? ==> r == Error(Message(c.value), None))
  {
    ResolveFailsAsChain(store, doc, {}, render);
  }

  /** A truthy number or `true` names the wrong type. */
  lemma WrongTypeMessage(v: Value, store: Store.Index, render: Renderer)
    requires v.Bool? || v.Num?
    requires Truthy(v)
    ensures BuildResponseDocument(ScalarArg(v), store, render).message ==
      "The specified document was of the wrong type (expected \"object\" but was \"" +
      (if v.Bool? then "boolean" else "number") + "\")"
  {
  }
}
