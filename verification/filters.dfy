/**
 * The filter registry and filter chains of versatile.js: `filterValue`, `parseKey`
 * and the built-in filters `html`, `int`, `float` and `bool`.
 */
module Filters {
  import opened Values
  import opened Text

  /** A registered filter. `int`, `float`, `partial` and caller-registered filters are
    * foreign code or depend on state outside the parser; what they compute comes
    * from `Natives`. */
  datatype Filter = Html | BoolFilter | IntFilter | FloatFilter | PartialFilter | Custom(id: nat)

  /** The behaviour the model keeps abstract: JavaScript's `parseInt` and
    * `parseFloat` (giving the canonical text of the resulting number), the `partial`
    * filter, which renders another loaded document, and the functions callers
    * register under their own names. */
  datatype Natives = Natives(
    parseInt: Value -> string,
    parseFloat: Value -> string,
    partial: Value -> Value,
    custom: (nat, Value) -> Value)

  /** The registry maps filter names to filters. */
  type Registry = map<string, Filter>

  /** The five built-ins registered at load (versatile.js:241-266). */
  function DefaultRegistry(): (reg: Registry)
    ensures reg.Keys == {"html", "int", "float", "bool", "partial"}
    ensures reg["html"] == Html && reg["int"] == IntFilter && reg["float"] == FloatFilter
    ensures reg["bool"] == BoolFilter && reg["partial"] == PartialFilter
  {
    map["html" := Html, "int" := IntFilter, "float" := FloatFilter, "bool" := BoolFilter,
        "partial" := PartialFilter]
  }

  /** One filter applied to a value. */
  function Apply(f: Filter, v: Value, natives: Natives): (r: Value)
    ensures f == Html ==> r == v
    ensures f == BoolFilter ==> r.Bool? && (r.b <==> v == Str("true"))
    ensures f == IntFilter ==> r == Num(natives.parseInt(v))
    ensures f == FloatFilter ==> r == Num(natives.parseFloat(v))
    ensures f == PartialFilter ==> r == natives.partial(v)
  {
    match f
    case Html => v
    case BoolFilter => Bool(v == Str("true"))
    case IntFilter => Num(natives.parseInt(v))
    case FloatFilter => Num(natives.parseFloat(v))
    case PartialFilter => natives.partial(v)
    case Custom(id) => natives.custom(id, v)
  }

  /** `filterValue` (versatile.js:20-24): the chain applied from left to right. */
  function FilterValue(v: Value, chain: seq<Filter>, natives: Natives): Value
    decreases |chain|
  {
    if |chain| == 0 then v else FilterValue(Apply(chain[0], v, natives), chain[1..], natives)
  }

  /** The last filter of a chain is applied last: the chain runs left to right. */
  lemma {:induction false} FilterValueSnoc(v: Value, chain: seq<Filter>, f: Filter, natives: Natives)
    ensures FilterValue(v, chain + [f], natives) == Apply(f, FilterValue(v, chain, natives), natives)
    decreases |chain|
  {
    if |chain| > 0 {
      FilterValueSnoc(Apply(chain[0], v, natives), chain[1..], f, natives);
      assert (chain + [f])[1..] == chain[1..] + [f];
    }
  }

  /** Running two chains one after the other is running their concatenation. */
  lemma {:induction false} FilterValueAppend(v: Value, a: seq<Filter>, b: seq<Filter>, natives: Natives)
    ensures FilterValue(v, a + b, natives) == FilterValue(FilterValue(v, a, natives), b, natives)
    decreases |a|
  {
    if |a| > 0 {
      FilterValueAppend(Apply(a[0], v, natives), a[1..], b, natives);
      assert (a + b)[1..] == a[1..] + b;
    } else {
      assert a + b == b;
    }
  }

  /** A chain made only of `html` leaves the value as it is. */
  lemma {:induction false} HtmlChainIsIdentity(v: Value, chain: seq<Filter>, natives: Natives)
    requires forall i :: 0 <= i < |chain| ==> chain[i] == Html
    ensures FilterValue(v, chain, natives) == v
    decreases |chain|
  {
    if |chain| > 0 {
      HtmlChainIsIdentity(v, chain[1..], natives);
    }
  }

  /** A parsed key specification: the key and its filter chain. */
  datatype KeySpec = KeySpec(key: string, filters: seq<Filter>)

  /** Every name looked up in the registry, or `None` if one is unknown. */
  function LookupFilters(names: seq<string>, reg: Registry): (r: Option<seq<Filter>>)
    ensures r.Some? <==> forall i :: 0 <= i < |names| ==> names[i] in reg
    ensures r.Some? ==> |r.value| == |names|
    ensures r.Some? ==> forall i :: 0 <= i < |names| ==> r.value[i] == reg[names[i]]
  {
    if |names| == 0 then Some([])
    else if names[0] !in reg then None
    else match LookupFilters(names[1..], reg)
      case None => None
      case Some(rest) => Some([reg[names[0]]] + rest)
  }

  /** `parseKey` (versatile.js:26-36): the text before the first `:` is the key,
    * each further `:`-separated name must be a registered filter. */
  function ParseKey(spec: string, reg: Registry): (r: Option<KeySpec>)
    ensures r.Some? ==> ':' !in r.value.key
  {
    var segments := Split(spec, ':');
    match LookupFilters(segments[1..], reg)
    case None => None
    case Some(chain) => Some(KeySpec(segments[0], chain))
  }

  /** A key joined to filter names by `:` parses back into the key and the filters
    * those names are registered under, and fails when one name is not registered. */
  lemma ParseKeyOfJoin(key: string, names: seq<string>, reg: Registry)
    requires ':' !in key
    requires forall i :: 0 <= i < |names| ==> ':' !in names[i]
    ensures (forall i :: 0 <= i < |names| ==> names[i] in reg) ==>
      ParseKey(Join([key] + names, ":"), reg).Some? &&
      ParseKey(Join([key] + names, ":"), reg).value.key == key &&
      |ParseKey(Join([key] + names, ":"), reg).value.filters| == |names| &&
      forall i :: 0 <= i < |names| ==> ParseKey(Join([key] + names, ":"), reg).value.filters[i] == reg[names[i]]
    ensures (exists i :: 0 <= i < |names| && names[i] !in reg) ==>
      ParseKey(Join([key] + names, ":"), reg) == None
  {
    var parts := [key] + names;
    SplitJoin(parts, ':');
    assert parts[1..] == names;
  }

  /** The key specification a document starts with (versatile.js:117): the given
    * one (`content` when empty), or `content` without filters when it does not parse. */
  function DefaultKeySpec(spec: string, reg: Registry): (ks: KeySpec)
    ensures ':' !in ks.key
    ensures ParseKey(if spec == "" then "content" else spec, reg).None? ==>
      ks == KeySpec("content", [])
    ensures ParseKey(if spec == "" then "content" else spec, reg).Some? ==>
      ks == ParseKey(if spec == "" then "content" else spec, reg).value
  {
    match ParseKey(if spec == "" then "content" else spec, reg)
    case Some(ks) => ks
    case None => KeySpec("content", [])
  }

  /** With no key specification, documents start in the `content` block with no filters. */
  lemma DefaultKeySpecIsContent(reg: Registry)
    ensures DefaultKeySpec("", reg) == KeySpec("content", [])
  {
    SplitWithoutSeparator("content", ':');
  }

  /** A default key with filters, as `.html` files declare with `content:html`
    * (versatile.js:276): the implicit first block is `content` through `html`. */
  lemma HtmlDefaultKeySpec()
    ensures DefaultKeySpec("content:html", DefaultRegistry()) == KeySpec("content", [Html])
  {
    var reg := DefaultRegistry();
    var spec := "content" + ":" + "html";
    assert spec == "content:html";
    var names := ["html"];
    assert Join(["content"] + names, ":") == spec by {
      assert ["content"] + names == ["content", "html"];
    }
    assert ':' !in "content" && ':' !in names[0];
    assert names[0] in reg && reg[names[0]] == Html;
    ParseKeyOfJoin("content", names, reg);
    var ks := ParseKey(spec, reg).value;
    assert ks.filters == [Html] by {
      assert |ks.filters| == 1 && ks.filters[0] == Html;
    }
  }
}
