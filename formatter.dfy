/**
 * Post-processing of a rule's result graph (`convert_to_json`) and the
 * final report of `validate` (`results.flatten.reject(&:empty?)`).
 * The JSON-LD writer and `JSON.parse` are outside the model: their output
 * arrives here as a parsed JSON object.
 */
module Formatter {
  import opened Wrappers

  /** A parsed JSON value. */
  datatype Json =
    | JNull
    | JBool(flag: bool)
    | JNumber(number: int)
    | JString(text: string)
    | JArray(elems: seq<Json>)
    | JObject(members: map<string, Json>)

  type JsonObject = map<string, Json>

  /** `IGNORED_ATTRS`: keys removed from every reported object. */
  const IgnoredAttrs: set<string> := {"@id"}

  const ContextKey: string := "@context"
  const GraphKey: string := "@graph"

  /** What `convert_to_json` raises on a document of an unexpected shape. */
  datatype FormatError =
    | GraphNotAList      // `@graph` holds a string, number or `true`: `map` is undefined on it
    | MemberNotAnObject  // an `@graph` member is not a hash (a hash's members are `[key, value]` pairs): `delete_if`/`[]=` fail on it

  /** Ruby truthiness of a parsed value. */
  predicate Truthy(v: Json) {
    !(v.JNull? || v == JBool(false))
  }

  /** The public context URL written into every reported object. */
  function ContextUri(baseUri: string): string {
    baseUri + "context.jsonld"
  }

  /** One reported object as the caller sees it. */
  predicate Clean(item: JsonObject, baseUri: string) {
    && (forall k :: k in IgnoredAttrs ==> k !in item)
    && ContextKey in item && item[ContextKey] == JString(ContextUri(baseUri))
  }

  /**
   * The per-item step of `convert_to_json`: ignored keys are deleted and
   * `@context` is overwritten; every other key keeps its value.
   */
  function Normalise(item: JsonObject, baseUri: string): (r: JsonObject)
    ensures Clean(r, baseUri)
    ensures r.Keys == (item.Keys - IgnoredAttrs) + {ContextKey}
    ensures forall k :: k in item && k !in IgnoredAttrs && k != ContextKey ==> r[k] == item[k]
  {
    (item - IgnoredAttrs)[ContextKey := JString(ContextUri(baseUri))]
  }

  /** The `@graph` array when the key holds a truthy value; otherwise the document alone. */
  predicate HasGraph(doc: JsonObject) {
    GraphKey in doc && Truthy(doc[GraphKey])
  }

  /**
   * `error_hash["@graph"] || [error_hash]`, then the per-item step on each
   * element. A hash under `@graph` is mapped over its `[key, value]` pairs,
   * so an empty one gives an empty list and any other one fails on its first pair.
   */
  function FormatDocument(doc: JsonObject, baseUri: string): Result<seq<JsonObject>, FormatError> {
    if HasGraph(doc) then
      match doc[GraphKey]
      case JArray(elems) =>
        if exists i :: 0 <= i < |elems| && !elems[i].JObject? then Failure(MemberNotAnObject)
        else Success(seq(|elems|, i requires 0 <= i < |elems| => Normalise(elems[i].members, baseUri)))
      case JObject(pairs) => if pairs == map[] then Success([]) else Failure(MemberNotAnObject)
      case _ => Failure(GraphNotAList)
    else
      Success([Normalise(doc, baseUri)])
  }

  /**
   * The shape guarantee: a list always, one entry per `@graph` member when
   * that key is truthy (so an empty array gives an empty list), otherwise
   * exactly the cleaned document; every entry is clean.
   */
  lemma {:induction false} FormatShape(doc: JsonObject, baseUri: string)
    ensures FormatDocument(doc, baseUri).Success? ==>
              forall i :: 0 <= i < |FormatDocument(doc, baseUri).value| ==> Clean(FormatDocument(doc, baseUri).value[i], baseUri)
    ensures !HasGraph(doc) ==> FormatDocument(doc, baseUri) == Success([Normalise(doc, baseUri)])
    ensures HasGraph(doc) && doc[GraphKey] in {JArray([]), JObject(map[])} ==> FormatDocument(doc, baseUri) == Success([])
    ensures HasGraph(doc) && FormatDocument(doc, baseUri).Success? ==>
              || (doc[GraphKey].JArray? && |FormatDocument(doc, baseUri).value| == |doc[GraphKey].elems|)
              || (doc[GraphKey] == JObject(map[]) && FormatDocument(doc, baseUri).value == [])
  {
    if HasGraph(doc) && doc[GraphKey] == JArray([]) {
      assert FormatDocument(doc, baseUri).value == [];
    }
  }

  /** `convert_to_json` after parsing: the loop of `error_list.map`, failing on the first element that is not an object. */
  method FormatItems(doc: JsonObject, baseUri: string) returns (r: Result<seq<JsonObject>, FormatError>)
    ensures r == FormatDocument(doc, baseUri)
  {
    if !HasGraph(doc) {
      return Success([Normalise(doc, baseUri)]);
    }
    var graph := doc[GraphKey];
    if graph.JObject? {
      return if graph.members == map[] then Success([]) else Failure(MemberNotAnObject);
    }
    if !graph.JArray? {
      return Failure(GraphNotAList);
    }
    var elems := graph.elems;
    var items: seq<JsonObject> := [];
    var i := 0;
    while i < |elems|
      invariant 0 <= i <= |elems| && |items| == i
      invariant forall j :: 0 <= j < i ==> elems[j].JObject? && items[j] == Normalise(elems[j].members, baseUri)
    {
      if !elems[i].JObject? {
        return Failure(MemberNotAnObject);
      }
      items := items + [Normalise(elems[i].members, baseUri)];
      i := i + 1;
    }
    assert items == seq(|elems|, i requires 0 <= i < |elems| => Normalise(elems[i].members, baseUri));
    return Success(items);
  }

  /** What `run_test` returns for one rule: `{}` for an empty result graph, else the formatted list. */
  datatype RuleResult = NoViolations | Violations(items: seq<JsonObject>)

  /** Every item of a rule's list carries `@context`, as `Normalise` guarantees. */
  predicate WellFormed(r: RuleResult) {
    r.Violations? ==> forall j :: 0 <= j < |r.items| ==> ContextKey in r.items[j]
  }

  /** `results.flatten`: each list is spliced in, each `{}` stays as one (empty) element. */
  function Flatten(results: seq<RuleResult>): seq<JsonObject> {
    if results == [] then []
    else
      (match results[0]
       case NoViolations => [map[]]
       case Violations(items) => items) + Flatten(results[1..])
  }

  /** `reject(&:empty?)` */
  function RejectEmpty(s: seq<JsonObject>): seq<JsonObject> {
    if s == [] then []
    else (if s[0] == map[] then [] else [s[0]]) + RejectEmpty(s[1..])
  }

  /** The report `validate` returns from the per-rule results. */
  function Report(results: seq<RuleResult>): seq<JsonObject> {
    RejectEmpty(Flatten(results))
  }

  /** The in-order concatenation of the lists of rules that found something. */
  function Violated(results: seq<RuleResult>): seq<JsonObject> {
    if results == [] then []
    else (if results[0].Violations? then results[0].items else []) + Violated(results[1..])
  }

  lemma {:induction false} RejectEmptyKeepsNonEmpty(s: seq<JsonObject>)
    requires forall j :: 0 <= j < |s| ==> ContextKey in s[j]
    ensures RejectEmpty(s) == s
  {
    if s != [] {
      assert ContextKey in s[0];
      RejectEmptyKeepsNonEmpty(s[1..]);
    }
  }

  lemma {:induction false} RejectEmptyAppend(a: seq<JsonObject>, b: seq<JsonObject>)
    ensures RejectEmpty(a + b) == RejectEmpty(a) + RejectEmpty(b)
  {
    if a != [] {
      assert (a + b)[1..] == a[1..] + b;
      RejectEmptyAppend(a[1..], b);
    } else {
      assert a + b == b;
    }
  }

  /**
   * The report is the in-order concatenation of the lists of rules that
   * found something: a rule with an empty result contributes nothing.
   */
  lemma {:induction false} ReportIsConcatenation(results: seq<RuleResult>)
    requires forall i :: 0 <= i < |results| ==> WellFormed(results[i])
    ensures Report(results) == Violated(results)
  {
    if results != [] {
      ReportIsConcatenation(results[1..]);
      var head := match results[0] case NoViolations => [map[]] case Violations(items) => items;
      RejectEmptyAppend(head, Flatten(results[1..]));
      assert WellFormed(results[0]);
      if results[0].Violations? {
        RejectEmptyKeepsNonEmpty(head);
      }
    }
  }

  /** Reports of consecutive runs concatenate. */
  lemma {:induction false} ReportAppend(a: seq<RuleResult>, b: seq<RuleResult>)
    ensures Report(a + b) == Report(a) + Report(b)
  {
    FlattenAppend(a, b);
    RejectEmptyAppend(Flatten(a), Flatten(b));
  }

  lemma {:induction false} FlattenAppend(a: seq<RuleResult>, b: seq<RuleResult>)
    ensures Flatten(a + b) == Flatten(a) + Flatten(b)
  {
    if a == [] {
      assert a + b == b;
    } else {
      assert (a + b)[1..] == a[1..] + b;
      FlattenAppend(a[1..], b);
    }
  }

  /** A report of rules that all found nothing is empty, whatever their number. */
  lemma {:induction false} ReportOfPasses(results: seq<RuleResult>)
    requires forall i :: 0 <= i < |results| ==> results[i] == NoViolations
    ensures Report(results) == []
  {
    if results != [] {
      ReportOfPasses(results[1..]);
      RejectEmptyAppend([map[]], Flatten(results[1..]));
    }
  }
}
