/**
 * `DataValidator`: configuration, the content-addressed graph name, and the
 * load -> test -> clear transaction of `validate` against the store.
 */
module Validator {
  import opened Wrappers
  import opened Rdf
  import opened Substitution
  import opened Configuration
  import opened Formatter
  import opened Store

  /** What `validate` raises: a store failure, or a JSON-LD document `convert_to_json` cannot walk. */
  datatype Error = StoreFailure(store: StoreError) | Malformed(format: FormatError)

  /** `@namespace + Digest::SHA1.hexdigest(data.dump(:turtle))` */
  function GraphName(namespace: string, sha1hex: string -> string, turtle: seq<Triple> -> string, data: seq<Triple>): (name: string)
    ensures |namespace| <= |name| && name[..|namespace|] == namespace
  {
    namespace + sha1hex(turtle(data))
  }

  /** What `run_test` returns for the store's response to its query. */
  function RuleRun(baseUri: string, jsonLd: seq<Triple> -> JsonObject, response: Response): Result<RuleResult, Error> {
    match response
    case Failed(e) => Failure(StoreFailure(e))
    case Ok(ts) =>
      var graph := WithAll([], ts);
      if graph == [] then Success(NoViolations)
      else
        match FormatDocument(jsonLd(graph), baseUri)
        case Success(items) => Success(Violations(items))
        case Failure(f) => Failure(Malformed(f))
  }

  /** A rule passes (`{}`) exactly when its query returned no statement; otherwise it reports or raises. */
  lemma {:induction false} EmptyResultPasses(baseUri: string, jsonLd: seq<Triple> -> JsonObject, ts: seq<Triple>)
    ensures RuleRun(baseUri, jsonLd, Ok(ts)) == Success(NoViolations) <==> ts == []
    ensures ts != [] && RuleRun(baseUri, jsonLd, Ok(ts)).Success? ==> RuleRun(baseUri, jsonLd, Ok(ts)).value.Violations?
  {
    WithAllEmpty(ts);
  }

  /** The rule results of the given query exchanges (a failed rule stands as `NoViolations`). */
  function Passed(baseUri: string, jsonLd: seq<Triple> -> JsonObject, queries: seq<Exchange>): (results: seq<RuleResult>)
    ensures |results| == |queries|
  {
    seq(|queries|, i requires 0 <= i < |queries| =>
      var run := RuleRun(baseUri, jsonLd, queries[i].response);
      if run.Success? then run.value else NoViolations)
  }

  /**
   * The exchanges `L` one `validate` call makes with the store, and its
   * outcome `r`. First `INSERT DATA` of the timestamped payload under `name`.
   * If that fails, nothing else happens and its error is raised. Otherwise
   * the rules are queried in catalogue order until one raises or all have
   * run, and then `CLEAR GRAPH` is issued once, last. A failing clear
   * replaces any pending error; otherwise a failed rule's error is raised;
   * otherwise the report of the rule results is returned.
   */
  ghost predicate Transaction(baseUri: string, jsonLd: seq<Triple> -> JsonObject, tests: seq<string>,
                              L: seq<Exchange>, name: string, payload: seq<Triple>, r: Result<seq<JsonObject>, Error>)
  {
    && |L| >= 1
    && L[0].request == Request.InsertData(name, payload)
    && (L[0].response.Failed? ==> |L| == 1 && r == Failure(StoreFailure(L[0].response.error)))
    && (L[0].response.Ok? ==>
          && 2 <= |L| <= |tests| + 2
          && L[|L| - 1].request == Request.Clear(name)
          && (forall i :: 1 <= i < |L| - 1 ==> L[i].request == Request.Query(AddGraph(tests[i - 1], name)))
          && (forall i :: 1 <= i < |L| - 2 ==> RuleRun(baseUri, jsonLd, L[i].response).Success?)
          && (|L| - 2 < |tests| ==> |L| > 2 && RuleRun(baseUri, jsonLd, L[|L| - 2].response).Failure?)
          && r == (if L[|L| - 1].response.Failed? then Failure(StoreFailure(L[|L| - 1].response.error))
                   else if |L| > 2 && RuleRun(baseUri, jsonLd, L[|L| - 2].response).Failure?
                   then Failure(RuleRun(baseUri, jsonLd, L[|L| - 2].response).error)
                   else Success(Report(Passed(baseUri, jsonLd, L[1..|L| - 1])))))
  }

  /** A run whose insert failed consists of that insert alone and raises its error. */
  lemma {:induction false} LoadFailed(baseUri: string, jsonLd: seq<Triple> -> JsonObject, tests: seq<string>,
                   L: seq<Exchange>, name: string, payload: seq<Triple>, e: StoreError)
    requires L == [Exchange(Request.InsertData(name, payload), Failed(e))]
    ensures Transaction(baseUri, jsonLd, tests, L, name, payload, Failure(StoreFailure(e)))
  {
  }

  /** Each exchange of `queries` is the query of the rule at the same catalogue position. */
  ghost predicate RuleQueries(tests: seq<string>, name: string, queries: seq<Exchange>) {
    |queries| <= |tests| &&
    forall j :: 0 <= j < |queries| ==> queries[j].request == Request.Query(AddGraph(tests[j], name))
  }

  /** The rules of `queries` produced `results`, except the last one, which raised `failure` when there is one. */
  ghost predicate RuleOutcomes(baseUri: string, jsonLd: seq<Triple> -> JsonObject, queries: seq<Exchange>,
                               results: seq<RuleResult>, failure: Option<Error>) {
    && |queries| == |results| + (if failure.Some? then 1 else 0)
    && (forall j :: 0 <= j < |results| ==> RuleRun(baseUri, jsonLd, queries[j].response) == Success(results[j]))
    && (failure.Some? ==> RuleRun(baseUri, jsonLd, queries[|queries| - 1].response) == Failure(failure.value))
  }

  /** A run whose insert succeeded, whose rules ran as `queries` and which then cleared the graph, satisfies `Transaction`. */
  lemma {:induction false} TransactionAfterInsert(baseUri: string, jsonLd: seq<Triple> -> JsonObject, tests: seq<string>,
                               name: string, payload: seq<Triple>, queries: seq<Exchange>, clear: Exchange,
                               results: seq<RuleResult>, failure: Option<Error>, r: Result<seq<JsonObject>, Error>)
    requires RuleQueries(tests, name, queries)
    requires RuleOutcomes(baseUri, jsonLd, queries, results, failure)
    requires failure.None? ==> |results| == |tests|
    requires clear.request == Request.Clear(name)
    requires r == (if clear.response.Failed? then Failure(StoreFailure(clear.response.error))
                   else if failure.Some? then Failure(failure.value)
                   else Success(Report(results)))
    ensures Transaction(baseUri, jsonLd, tests, [Exchange(Request.InsertData(name, payload), Ok([]))] + queries + [clear], name, payload, r)
  {
    var L := [Exchange(Request.InsertData(name, payload), Ok([]))] + queries + [clear];
    assert L[1..|L| - 1] == queries;
    forall i | 1 <= i < |L| - 1 ensures L[i] == queries[i - 1] { }
    if failure.None? {
      var passed := Passed(baseUri, jsonLd, queries);
      forall j | 0 <= j < |results| ensures passed[j] == results[j] {
        assert RuleRun(baseUri, jsonLd, queries[j].response) == Success(results[j]);
      }
      assert passed == results;
    }
  }

  class DataValidator {
    const baseUri: string
    const namespace: string
    const queryEndpoint: string
    const updateEndpoint: string
    const strict: Value
    /** The rule texts, in the order the directory listing yields them. */
    const tests: seq<string>
    /** The store both SPARQL clients reach. */
    const store: TripleStore
    const sha1hex: string -> string
    const turtle: seq<Triple> -> string
    /** The JSON-LD writer followed by `JSON.parse`. */
    const jsonLd: seq<Triple> -> JsonObject

    /** The fields `initialize` sets from accepted arguments. */
    ghost predicate ConfiguredFrom(args: map<Key, Value>, listing: string -> seq<string>, store: TripleStore,
                                   sha1hex: string -> string, turtle: seq<Triple> -> string, jsonLd: seq<Triple> -> JsonObject)
    {
      && BaseUri in args && args[BaseUri].Str? && baseUri == NormaliseBaseUri(args[BaseUri].text)
      && Namespace in args && args[Namespace].Str? && namespace == args[Namespace].text
      && SparqlEndpoint in args && args[SparqlEndpoint].Str? && queryEndpoint == args[SparqlEndpoint].text
      && SparqlUpdateEndpoint in args && args[SparqlUpdateEndpoint].Str? && updateEndpoint == args[SparqlUpdateEndpoint].text
      && TestDir in args && args[TestDir].Str? && tests == listing(args[TestDir].text)
      && strict == StrictSetting(args)
      && this.store == store && this.sha1hex == sha1hex && this.turtle == turtle && this.jsonLd == jsonLd
    }

    constructor (args: map<Key, Value>, isUri: string -> bool, isDirectory: string -> bool, listing: string -> seq<string>,
                 store: TripleStore, sha1hex: string -> string, turtle: seq<Triple> -> string, jsonLd: seq<Triple> -> JsonObject)
      requires ArgumentsError(args, isUri, isDirectory).None?
      ensures ConfiguredFrom(args, listing, store, sha1hex, turtle, jsonLd)
    {
      AcceptedArguments(args, isUri, isDirectory);
      baseUri := NormaliseBaseUri(args[BaseUri].text);
      queryEndpoint := args[SparqlEndpoint].text;
      updateEndpoint := args[SparqlUpdateEndpoint].text;
      this.store := store;
      namespace := args[Namespace].text;
      tests := listing(args[TestDir].text);
      strict := StrictSetting(args);
      this.sha1hex := sha1hex;
      this.turtle := turtle;
      this.jsonLd := jsonLd;
    }

    /** `DataValidator.new(**args)`: raises the first failing check's `ArgumentError`, else a configured validator. */
    static method New(args: map<Key, Value>, isUri: string -> bool, isDirectory: string -> bool, listing: string -> seq<string>,
                      store: TripleStore, sha1hex: string -> string, turtle: seq<Triple> -> string, jsonLd: seq<Triple> -> JsonObject)
      returns (r: Result<DataValidator, ConfigError>)
      ensures r.Failure? <==> ArgumentsError(args, isUri, isDirectory).Some?
      ensures r.Failure? ==> r.error == ArgumentsError(args, isUri, isDirectory).value
      ensures r.Success? ==> fresh(r.value) && r.value.ConfiguredFrom(args, listing, store, sha1hex, turtle, jsonLd)
    {
      var err := CheckArguments(args, isUri, isDirectory);
      if err.Some? {
        return Failure(err.value);
      }
      var v := new DataValidator(args, isUri, isDirectory, listing, store, sha1hex, turtle, jsonLd);
      return Success(v);
    }

    /** `add_timestamp`: appends `<graphName> dc:issued now` to the caller's graph. */
    method AddTimestamp(graphName: string, graph: Graph, now: string)
      requires graph.Valid()
      modifies graph
      ensures graph.Valid()
      ensures graph.statements == With(old(graph.statements), Timestamp(graphName, now))
    {
      graph.Insert(Timestamp(graphName, now));
    }

    /** `clear_graph` */
    method ClearGraph(graphName: string) returns (r: Result<(), StoreError>)
      modifies store
      ensures store.log == old(store.log) + [Exchange(Request.Clear(graphName), Acknowledgement(r))]
      ensures store.graphs == Effect(old(store.graphs), store.log[|store.log| - 1])
    {
      r := store.Clear(graphName);
    }

    /** `convert_to_json`: the parsed JSON-LD of the graph, normalised to a list of clean objects. */
    method ConvertToJson(graph: Graph) returns (r: Result<seq<JsonObject>, FormatError>)
      ensures r == FormatDocument(jsonLd(graph.statements), baseUri)
    {
      r := FormatItems(jsonLd(graph.statements), baseUri);
    }

    /**
     * `load_data`: names the graph by the digest of the caller's data,
     * then timestamps the caller's graph in place, then inserts it.
     */
    method LoadData(data: Graph, now: string) returns (r: Result<string, StoreError>)
      requires data.Valid()
      modifies data, store
      ensures data.Valid()
      ensures data.statements == With(old(data.statements), Timestamp(GraphName(namespace, sha1hex, turtle, old(data.statements)), now))
      ensures r.Success? ==> r.value == GraphName(namespace, sha1hex, turtle, old(data.statements))
      ensures store.log == old(store.log) + [Exchange(Request.InsertData(GraphName(namespace, sha1hex, turtle, old(data.statements)), data.statements), Acknowledgement(r))]
      ensures store.graphs == Effect(old(store.graphs), store.log[|store.log| - 1])
    {
      var graphName := namespace + sha1hex(turtle(data.statements));
      AddTimestamp(graphName, data, now);
      var inserted := store.InsertData(graphName, data.statements);
      if inserted.Failure? {
        return Failure(inserted.error);
      }
      return Success(graphName);
    }

    /** `run_test`: one rule, substituted, queried, and formatted when its result graph is non-empty. */
    method RunTest(test: string, graphName: string) returns (r: Result<RuleResult, Error>)
      modifies store`log
      ensures |store.log| == |old(store.log)| + 1 && store.log[..|old(store.log)|] == old(store.log)
      ensures store.log[|old(store.log)|].request == Request.Query(AddGraph(test, graphName))
      ensures store.log[|old(store.log)|].response.Ok? ==>
                store.log[|old(store.log)|].response.statements == store.engine(AddGraph(test, graphName), store.graphs)
      ensures r == RuleRun(baseUri, jsonLd, store.log[|old(store.log)|].response)
    {
      var query := AddGraph(test, graphName);
      var results := store.Query(query);
      if results.Failure? {
        return Failure(StoreFailure(results.error));
      }
      var graph := new Graph();
      graph.InsertAll(results.value);
      if graph.IsEmpty() {
        return Success(NoViolations);
      }
      var items := ConvertToJson(graph);
      if items.Failure? {
        return Failure(Malformed(items.error));
      }
      return Success(Violations(items.value));
    }

    /**
     * The `@tests.map { run_test }` loop of `validate`: runs the rules in
     * catalogue order until one raises. `failure` is that rule's error;
     * `results` holds the results of the rules before it.
     */
    method RunRules(graphName: string) returns (results: seq<RuleResult>, failure: Option<Error>)
      modifies store`log
      ensures |old(store.log)| <= |store.log| && store.log[..|old(store.log)|] == old(store.log)
      ensures RuleQueries(tests, graphName, store.log[|old(store.log)|..])
      ensures AnsweredOn(store.log[|old(store.log)|..], store.engine, store.graphs)
      ensures RuleOutcomes(baseUri, jsonLd, store.log[|old(store.log)|..], results, failure)
      ensures failure.None? ==> |results| == |tests|
    {
      results, failure := [], None;
      var i := 0;
      while i < |tests| && failure.None?
        invariant 0 <= i <= |tests|
        invariant |store.log| == |old(store.log)| + i && store.log[..|old(store.log)|] == old(store.log)
        invariant RuleQueries(tests, graphName, store.log[|old(store.log)|..])
        invariant AnsweredOn(store.log[|old(store.log)|..], store.engine, store.graphs)
        invariant RuleOutcomes(baseUri, jsonLd, store.log[|old(store.log)|..], results, failure)
      {
        ghost var before := store.log[|old(store.log)|..];
        var outcome := RunTest(tests[i], graphName);
        ghost var after := store.log[|old(store.log)|..];
        assert after == before + [store.log[|store.log| - 1]];
        if outcome.Failure? {
          failure := Some(outcome.error);
        } else {
          results := results + [outcome.value];
        }
        i := i + 1;
      }
    }

    /**
     * The `begin ... ensure clear_graph ... end` block of `validate`, entered
     * once the insert logged as `insert` succeeded: the rules run, then the
     * graph is cleared whatever happened, and the clear's own failure takes
     * precedence over a rule's.
     */
    method TestThenClear(graphName: string, ghost payload: seq<Triple>, ghost graphs0: Dataset, ghost insert: Exchange)
      returns (r: Result<seq<JsonObject>, Error>)
      requires insert == Exchange(Request.InsertData(graphName, payload), Ok([]))
      requires store.graphs == Replay(graphs0, [insert]) && Answered(graphs0, [insert], store.engine)
      modifies store
      ensures |old(store.log)| <= |store.log| && store.log[..|old(store.log)|] == old(store.log)
      ensures Transaction(baseUri, jsonLd, tests, [insert] + store.log[|old(store.log)|..], graphName, payload, r)
      ensures store.graphs == Replay(graphs0, [insert] + store.log[|old(store.log)|..])
      ensures Answered(graphs0, [insert] + store.log[|old(store.log)|..], store.engine)
    {
      ghost var log0 := store.log;
      var results, failure := RunRules(graphName);
      ghost var queries := store.log[|log0|..];
      var cleared := ClearGraph(graphName);
      ghost var clear := Exchange(Request.Clear(graphName), Acknowledgement(cleared));
      assert store.log[|store.log| - 1] == clear;
      assert store.log[|log0|..] == queries + [clear];
      assert [insert] + store.log[|log0|..] == [insert] + queries + [clear];
      QueriesThenUpdate(graphs0, [insert], queries, clear, store.engine);
      if cleared.Failure? {
        r := Failure(StoreFailure(cleared.error));
      } else if failure.Some? {
        r := Failure(failure.value);
      } else {
        r := Success(Report(results));
      }
      TransactionAfterInsert(baseUri, jsonLd, tests, graphName, payload, queries, clear, results, failure, r);
    }

    /**
     * `validate`: load, run every rule in catalogue order, clear the graph
     * in an `ensure`, and report the non-empty results.
     */
    method Validate(data: Graph, now: string) returns (r: Result<seq<JsonObject>, Error>)
      requires data.Valid()
      modifies data, store
      ensures data.Valid()
      ensures data.statements == With(old(data.statements), Timestamp(GraphName(namespace, sha1hex, turtle, old(data.statements)), now))
      ensures |old(store.log)| <= |store.log| && store.log[..|old(store.log)|] == old(store.log)
      ensures Transaction(baseUri, jsonLd, tests, store.log[|old(store.log)|..],
                          GraphName(namespace, sha1hex, turtle, old(data.statements)), data.statements, r)
      ensures store.graphs == Replay(old(store.graphs), store.log[|old(store.log)|..])
      ensures Answered(old(store.graphs), store.log[|old(store.log)|..], store.engine)
    {
      ghost var log0, graphs0 := store.log, store.graphs;
      ghost var name := GraphName(namespace, sha1hex, turtle, data.statements);
      var loaded := LoadData(data, now);
      ghost var payload := data.statements;
      ghost var insert := Exchange(Request.InsertData(name, payload), Acknowledgement(loaded));
      assert store.log == log0 + [insert];
      assert store.log[|log0|..] == [insert];
      ReplayAppend(graphs0, [], insert);
      AnsweredAppend(graphs0, [], insert, store.engine);
      if loaded.Failure? {
        LoadFailed(baseUri, jsonLd, tests, store.log[|log0|..], name, payload, loaded.error);
        return Failure(StoreFailure(loaded.error));
      }
      ghost var log1 := store.log;
      r := TestThenClear(loaded.value, payload, graphs0, insert);
      assert store.log[|log0|..] == [insert] + store.log[|log1|..];
    }
  }

  /** The number of `CLEAR GRAPH` requests in `L`. */
  function ClearCount(L: seq<Exchange>): nat
    decreases |L|
  {
    if L == [] then 0 else ClearCount(L[..|L| - 1]) + (if L[|L| - 1].request.Clear? then 1 else 0)
  }

  /** The number of queries in `L`. */
  function QueryCount(L: seq<Exchange>): nat
    decreases |L|
  {
    if L == [] then 0 else QueryCount(L[..|L| - 1]) + (if L[|L| - 1].request.Query? then 1 else 0)
  }

  lemma {:induction false} NoClearsBefore(L: seq<Exchange>, k: nat)
    requires k <= |L|
    requires forall i :: 0 <= i < k ==> !L[i].request.Clear?
    ensures ClearCount(L[..k]) == 0
    decreases k
  {
    if k > 0 {
      assert L[..k][..k - 1] == L[..k - 1];
      NoClearsBefore(L, k - 1);
    }
  }

  /**
   * Guaranteed cleanup: a run whose insert succeeded issues exactly one
   * `CLEAR GRAPH`, whether or not a rule raised; a run whose insert failed
   * issues no query and no clear.
   */
  lemma {:induction false} CleanupExactlyOnce(baseUri: string, jsonLd: seq<Triple> -> JsonObject, tests: seq<string>,
                           L: seq<Exchange>, name: string, payload: seq<Triple>, r: Result<seq<JsonObject>, Error>)
    requires Transaction(baseUri, jsonLd, tests, L, name, payload, r)
    ensures ClearCount(L) == (if L[0].response.Ok? then 1 else 0)
    ensures L[0].response.Failed? ==> QueryCount(L) == 0 && r.Failure?
  {
    if L[0].response.Ok? {
      NoClearsBefore(L, |L| - 1);
    } else {
      assert L[..|L| - 1] == [];
    }
  }

  /**
   * A report is returned only when the insert, every rule of the catalogue
   * and the clear succeeded; it is then the in-order concatenation of the
   * lists of the rules that found something.
   */
  lemma {:induction false} SuccessfulValidation(baseUri: string, jsonLd: seq<Triple> -> JsonObject, tests: seq<string>,
                             L: seq<Exchange>, name: string, payload: seq<Triple>, r: Result<seq<JsonObject>, Error>)
    requires Transaction(baseUri, jsonLd, tests, L, name, payload, r)
    requires r.Success?
    ensures L[0].response.Ok? && |L| == |tests| + 2 && L[|L| - 1].response.Ok?
    ensures forall i :: 1 <= i < |L| - 1 ==> RuleRun(baseUri, jsonLd, L[i].response).Success?
    ensures r.value == Violated(Passed(baseUri, jsonLd, L[1..|L| - 1]))
  {
    var passed := Passed(baseUri, jsonLd, L[1..|L| - 1]);
    assert r == Success(Report(passed)) by {
      assert L[0].response.Ok? && L[|L| - 1].response.Ok?;
      assert !(|L| > 2 && RuleRun(baseUri, jsonLd, L[|L| - 2].response).Failure?);
    }
    PassedWellFormed(baseUri, jsonLd, L[1..|L| - 1]);
    ReportIsConcatenation(passed);
  }

  /** Every rule result built from store answers is well formed. */
  lemma {:induction false} PassedWellFormed(baseUri: string, jsonLd: seq<Triple> -> JsonObject, queries: seq<Exchange>)
    ensures forall j :: 0 <= j < |queries| ==> WellFormed(Passed(baseUri, jsonLd, queries)[j])
  {
    forall j | 0 <= j < |queries| ensures WellFormed(Passed(baseUri, jsonLd, queries)[j]) {
      var response := queries[j].response;
      if response.Ok? && WithAll([], response.statements) != [] {
        FormatShape(jsonLd(WithAll([], response.statements)), baseUri);
      }
    }
  }

  /** With an empty catalogue the graph is still inserted and cleared, and the report is empty. */
  lemma {:induction false} EmptyCatalogue(baseUri: string, jsonLd: seq<Triple> -> JsonObject,
                       L: seq<Exchange>, name: string, payload: seq<Triple>, r: Result<seq<JsonObject>, Error>)
    requires Transaction(baseUri, jsonLd, [], L, name, payload, r)
    requires L[0].response.Ok?
    ensures |L| == 2 && L[1].request == Request.Clear(name)
    ensures L[1].response.Ok? ==> r == Success([])
  {
    assert Passed(baseUri, jsonLd, L[1..1]) == [];
  }

  /** A failed insert leaves the store's graphs as they were. */
  lemma {:induction false} InsertFailureChangesNothing(baseUri: string, jsonLd: seq<Triple> -> JsonObject, tests: seq<string>,
                                    L: seq<Exchange>, name: string, payload: seq<Triple>, r: Result<seq<JsonObject>, Error>,
                                    graphs: Dataset)
    requires Transaction(baseUri, jsonLd, tests, L, name, payload, r)
    requires L[0].response.Failed?
    ensures Replay(graphs, L) == graphs
  {
    assert L[..0] == [];
  }

  /** The dataset after a successful insert of `payload` under `name`. */
  function Loaded(graphs: Dataset, name: string, payload: seq<Triple>): Dataset {
    graphs[name := Stored(graphs, name) + Members(payload)]
  }

  /** Every rule query runs against the dataset as the insert left it. */
  lemma {:induction false} QueriesSeeInsertedGraph(baseUri: string, jsonLd: seq<Triple> -> JsonObject, tests: seq<string>,
                                                   L: seq<Exchange>, name: string, payload: seq<Triple>, r: Result<seq<JsonObject>, Error>,
                                                   graphs: Dataset, k: nat)
    requires Transaction(baseUri, jsonLd, tests, L, name, payload, r)
    requires L[0].response.Ok? && 1 <= k < |L|
    ensures Replay(graphs, L[..k]) == Loaded(graphs, name, payload)
    decreases k
  {
    assert L[..k][..k - 1] == L[..k - 1];
    if k == 1 {
      assert L[..0] == [];
    } else {
      QueriesSeeInsertedGraph(baseUri, jsonLd, tests, L, name, payload, r, graphs, k - 1);
      assert L[k - 1].request.Query?;
    }
  }

  /** A run whose insert and clear both succeeded leaves no graph under `name`, and every other graph as it was. */
  lemma {:induction false} CleanupRemovesGraph(baseUri: string, jsonLd: seq<Triple> -> JsonObject, tests: seq<string>,
                            L: seq<Exchange>, name: string, payload: seq<Triple>, r: Result<seq<JsonObject>, Error>,
                            graphs: Dataset)
    requires Transaction(baseUri, jsonLd, tests, L, name, payload, r)
    requires L[0].response.Ok? && L[|L| - 1].response.Ok?
    ensures Replay(graphs, L) == graphs - {name}
  {
    QueriesSeeInsertedGraph(baseUri, jsonLd, tests, L, name, payload, r, graphs, |L| - 1);
    assert Loaded(graphs, name, payload) - {name} == graphs - {name};
  }

  /**
   * Each rule's query is answered on the inserted graph: the answer a rule
   * receives is the engine's answer to its substituted query on the
   * dataset as the insert of `payload` left it.
   */
  lemma {:induction false} RuleAnsweredOnLoadedData(baseUri: string, jsonLd: seq<Triple> -> JsonObject, tests: seq<string>,
                                 L: seq<Exchange>, name: string, payload: seq<Triple>, r: Result<seq<JsonObject>, Error>,
                                 graphs: Dataset, engine: (string, Dataset) -> seq<Triple>, i: nat)
    requires Transaction(baseUri, jsonLd, tests, L, name, payload, r)
    requires Answered(graphs, L, engine)
    requires L[0].response.Ok? && 1 <= i < |L| - 1 && L[i].response.Ok?
    ensures L[i].request == Request.Query(AddGraph(tests[i - 1], name))
    ensures L[i].response.statements == engine(AddGraph(tests[i - 1], name), Loaded(graphs, name, payload))
  {
    QueriesSeeInsertedGraph(baseUri, jsonLd, tests, L, name, payload, r, graphs, i);
    AnsweredAt(graphs, L, engine, i);
  }

  /**
   * When no graph of that name existed before, the graph the rules query
   * holds exactly the caller's statements plus the one timestamp statement.
   */
  lemma {:induction false} TimestampedGraphContents(graphs: Dataset, name: string, data: seq<Triple>, now: string)
    requires NoDuplicates(data)
    requires name !in graphs
    ensures Loaded(graphs, name, With(data, Timestamp(name, now)))[name] == Members(data) + {Timestamp(name, now)}
  {
    WithContents(data, Timestamp(name, now));
  }

  /**
   * The two facts together: when no graph of that name existed before,
   * each rule is answered on a dataset whose graph under `name` holds
   * exactly the caller's statements plus the timestamp statement.
   */
  lemma {:induction false} RulesQueryTheTimestampedData(baseUri: string, jsonLd: seq<Triple> -> JsonObject, tests: seq<string>,
                                                         L: seq<Exchange>, name: string, data: seq<Triple>, now: string,
                                                         r: Result<seq<JsonObject>, Error>, graphs: Dataset,
                                                         engine: (string, Dataset) -> seq<Triple>, i: nat)
    requires NoDuplicates(data)
    requires Transaction(baseUri, jsonLd, tests, L, name, With(data, Timestamp(name, now)), r)
    requires Answered(graphs, L, engine)
    requires L[0].response.Ok? && 1 <= i < |L| - 1 && L[i].response.Ok?
    requires name !in graphs
    ensures L[i].response.statements == engine(AddGraph(tests[i - 1], name), Loaded(graphs, name, With(data, Timestamp(name, now))))
    ensures Loaded(graphs, name, With(data, Timestamp(name, now)))[name] == Members(data) + {Timestamp(name, now)}
  {
    RuleAnsweredOnLoadedData(baseUri, jsonLd, tests, L, name, With(data, Timestamp(name, now)), r, graphs, engine, i);
    TimestampedGraphContents(graphs, name, data, now);
  }
}
