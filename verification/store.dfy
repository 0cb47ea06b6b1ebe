/**
 * The document store of versatile.js: `addToDocs` (versatile.js:58-67) appends every
 * non-empty document to a list and indexes it by its `id`, the first document with a
 * given id keeping the index entry.
 */
module Store {
  import opened Values

  /** Documents by id; composition looks layouts up in the `index` of a `Store`. */
  type Index = map<string, Doc>

  /** The list of loaded documents and the index from id to document. */
  datatype Store = Store(docs: seq<Doc>, index: Index)

  /** The index key a document is filed under: its `id`, when truthy, as a property key. */
  function IdKey(doc: Doc): Option<string> {
    if Truthy(Get(doc, "id")) then Some(ToStr(Get(doc, "id"))) else None
  }

  /** The first document of the list filed under `key`. */
  function FirstWithId(docs: seq<Doc>, key: string): (r: Option<Doc>)
    ensures r.Some? ==> r.value in docs && IdKey(r.value) == Some(key)
  {
    if |docs| == 0 then None
    else if IdKey(docs[0]) == Some(key) then Some(docs[0])
    else FirstWithId(docs[1..], key)
  }

  /** The index holds, for every id, the first document of the list with that id. */
  ghost predicate Valid(s: Store) {
    forall key :: (key in s.index <==> FirstWithId(s.docs, key).Some?) &&
                  (key in s.index ==> s.index[key] == FirstWithId(s.docs, key).value)
  }

  function Empty(): (s: Store)
    ensures s.docs == [] && s.index == map[]
  {
    Store([], map[])
  }

  /** The document as it is stored: `id` set to `filename` when it is undefined. */
  function WithId(doc: Doc): (d: Doc)
    ensures d.Keys == doc.Keys + {"id"}
    ensures forall k :: k in doc && k != "id" ==> d[k] == doc[k]
    ensures Get(doc, "id") != Undefined ==> d == doc
    ensures Get(doc, "id") == Undefined ==> d["id"] == Get(doc, "filename")
  {
    if Get(doc, "id") == Undefined then doc["id" := Get(doc, "filename")] else doc
  }

  /** `addToDocs` (versatile.js:58-67). */
  function AddToDocs(s: Store, doc: Doc): (r: Store)
    ensures |doc.Keys| == 0 ==> r == s
    ensures |doc.Keys| > 0 ==> r.docs == s.docs + [WithId(doc)]
    ensures s.index.Keys <= r.index.Keys
    ensures forall k :: k in s.index ==> r.index[k] == s.index[k]
    ensures forall k :: k in r.index && k !in s.index ==> r.index[k] == WithId(doc) && IdKey(WithId(doc)) == Some(k)
  {
    if |doc.Keys| == 0 then s
    else
      var d := WithId(doc);
      var docs := s.docs + [d];
      match IdKey(d)
      case Some(key) =>
        if key !in s.index then Store(docs, s.index[key := d]) else Store(docs, s.index)
      case None => Store(docs, s.index)
  }

  /** A document appended after the others is the first with its id only when none
    * before it has that id. */
  lemma {:induction false} FirstWithIdSnoc(docs: seq<Doc>, d: Doc, key: string)
    ensures FirstWithId(docs + [d], key) ==
      if FirstWithId(docs, key).Some? then FirstWithId(docs, key)
      else if IdKey(d) == Some(key) then Some(d) else None
    decreases |docs|
  {
    if |docs| == 0 {
      assert docs + [d] == [d];
    } else {
      assert (docs + [d])[0] == docs[0];
      assert (docs + [d])[1..] == docs[1..] + [d];
      FirstWithIdSnoc(docs[1..], d, key);
    }
  }

  /** `addToDocs` keeps the index first-writer-wins: a later document with an id
    * already indexed stays in the list only. */
  lemma AddToDocsValid(s: Store, doc: Doc)
    requires Valid(s)
    ensures Valid(AddToDocs(s, doc))
  {
    var r := AddToDocs(s, doc);
    if |doc.Keys| > 0 {
      forall key
        ensures (key in r.index <==> FirstWithId(r.docs, key).Some?) &&
                (key in r.index ==> r.index[key] == FirstWithId(r.docs, key).value)
      {
        FirstWithIdSnoc(s.docs, WithId(doc), key);
      }
    }
  }

  /** Documents added one after the other, as `processVersatileDocument` does for each file. */
  function AddAll(s: Store, docs: seq<Doc>): Store
    decreases |docs|
  {
    if |docs| == 0 then s else AddAll(AddToDocs(s, docs[0]), docs[1..])
  }

  /** Whatever documents are added, the index stays first-writer-wins. */
  lemma {:induction false} AddAllValid(s: Store, docs: seq<Doc>)
    requires Valid(s)
    ensures Valid(AddAll(s, docs))
    decreases |docs|
  {
    if |docs| > 0 {
      AddToDocsValid(s, docs[0]);
      AddAllValid(AddToDocs(s, docs[0]), docs[1..]);
    }
  }

  /** Two documents with the same id: the first one added keeps the index entry,
    * and both are in the list. */
  lemma FirstWriterWins(a: Doc, b: Doc)
    requires |a.Keys| > 0 && |b.Keys| > 0
    requires IdKey(WithId(a)).Some? && IdKey(WithId(a)) == IdKey(WithId(b))
    ensures var s := AddToDocs(AddToDocs(Empty(), a), b);
      s.docs == [WithId(a), WithId(b)] && s.index == map[IdKey(WithId(a)).value := WithId(a)]
  {
  }

  /** A document whose `id` and `filename` are both falsy is listed but not indexed. */
  lemma NoIdNotIndexed(s: Store, doc: Doc)
    requires |doc.Keys| > 0
    requires !Truthy(Get(doc, "id")) && !Truthy(Get(doc, "filename"))
    ensures AddToDocs(s, doc).index == s.index
  {
  }
}
