/**
 * The remote triple store behind the two SPARQL clients (`@sparql` for
 * queries, `@sparql_update` for `INSERT DATA` and `CLEAR GRAPH`). Every
 * request may fail; the store keeps a log of each request with the
 * response it got, so that callers can state the order of their requests.
 */
module Store {
  import opened Wrappers
  import opened Rdf

  /** A failure reported by the store or its transport (malformed payload or query, network, authentication). */
  datatype StoreError = StoreError(reason: string)

  datatype Request =
    | InsertData(graph: string, statements: seq<Triple>)
    | Query(text: string)
    | Clear(graph: string)

  /** A successful response carries the statements a query produced (none for updates). */
  datatype Response = Ok(statements: seq<Triple>) | Failed(error: StoreError)

  datatype Exchange = Exchange(request: Request, response: Response)

  /** The named graphs held by the store. */
  type Dataset = map<string, set<Triple>>

  function Stored(graphs: Dataset, name: string): set<Triple> {
    if name in graphs then graphs[name] else {}
  }

  /** What one exchange does to the stored graphs: failed requests change nothing. */
  function Effect(graphs: Dataset, ex: Exchange): Dataset {
    if ex.response.Failed? then graphs
    else
      match ex.request
      case InsertData(name, ts) => graphs[name := Stored(graphs, name) + Members(ts)]
      case Query(_) => graphs
      case Clear(name) => graphs - {name}
  }

  /** The graphs after the exchanges of `log`, in order, starting from `graphs`. */
  function Replay(graphs: Dataset, log: seq<Exchange>): Dataset
    decreases |log|
  {
    if log == [] then graphs else Effect(Replay(graphs, log[..|log| - 1]), log[|log| - 1])
  }

  /** Every successful query in `log` was answered by `engine` on the graphs as they stood when it ran. */
  ghost predicate Answered(graphs: Dataset, log: seq<Exchange>, engine: (string, Dataset) -> seq<Triple>)
    decreases |log|
  {
    log == [] ||
    (Answered(graphs, log[..|log| - 1], engine) && AnsweredBy(Replay(graphs, log[..|log| - 1]), log[|log| - 1], engine))
  }

  /** A successful query in `ex` holds `engine`'s answer on `graphs`. */
  ghost predicate AnsweredBy(graphs: Dataset, ex: Exchange, engine: (string, Dataset) -> seq<Triple>) {
    ex.request.Query? && ex.response.Ok? ==> ex.response.statements == engine(ex.request.text, graphs)
  }

  /** The response an update request gets. */
  function Acknowledgement<T>(r: Result<T, StoreError>): Response {
    if r.Success? then Ok([]) else Failed(r.error)
  }

  lemma {:induction false} ReplayAppend(graphs: Dataset, log: seq<Exchange>, ex: Exchange)
    ensures Replay(graphs, log + [ex]) == Effect(Replay(graphs, log), ex)
  {
    assert (log + [ex])[..|log|] == log;
  }

  lemma {:induction false} AnsweredAppend(graphs: Dataset, log: seq<Exchange>, ex: Exchange, engine: (string, Dataset) -> seq<Triple>)
    requires Answered(graphs, log, engine)
    requires AnsweredBy(Replay(graphs, log), ex, engine)
    ensures Answered(graphs, log + [ex], engine)
  {
    assert (log + [ex])[..|log|] == log;
  }

  /** In an `Answered` log, the successful query at position `i` was answered on the graphs the first `i` exchanges left. */
  lemma {:induction false} AnsweredAt(graphs: Dataset, log: seq<Exchange>, engine: (string, Dataset) -> seq<Triple>, i: nat)
    requires Answered(graphs, log, engine) && i < |log|
    ensures AnsweredBy(Replay(graphs, log[..i]), log[i], engine)
    decreases |log|
  {
    if i < |log| - 1 {
      AnsweredAt(graphs, log[..|log| - 1], engine, i);
      assert log[..|log| - 1][..i] == log[..i];
    }
  }

  /** Every exchange of `queries` is a query, answered (when it succeeded) by `engine` on `graphs`. */
  ghost predicate AnsweredOn(queries: seq<Exchange>, engine: (string, Dataset) -> seq<Triple>, graphs: Dataset) {
    forall j :: 0 <= j < |queries| ==> queries[j].request.Query? && AnsweredBy(graphs, queries[j], engine)
  }

  /** Queries change no graph; queries answered on the graphs of the moment keep the log `Answered`. */
  lemma {:induction false} AnsweredQueries(graphs: Dataset, log: seq<Exchange>, queries: seq<Exchange>, engine: (string, Dataset) -> seq<Triple>)
    requires Answered(graphs, log, engine)
    requires AnsweredOn(queries, engine, Replay(graphs, log))
    ensures Replay(graphs, log + queries) == Replay(graphs, log)
    ensures Answered(graphs, log + queries, engine)
    decreases |queries|
  {
    if queries == [] {
      assert log + queries == log;
    } else {
      var front, last := queries[..|queries| - 1], queries[|queries| - 1];
      assert AnsweredOn(front, engine, Replay(graphs, log)) by {
        forall j | 0 <= j < |front| ensures front[j] == queries[j] { }
      }
      AnsweredQueries(graphs, log, front, engine);
      assert log + queries == (log + front) + [last];
      assert last.request.Query?;
      ReplayAppend(graphs, log + front, last);
      AnsweredAppend(graphs, log + front, last, engine);
    }
  }

  /** Queries followed by one update: only the update changes the graphs, and the log stays `Answered`. */
  lemma {:induction false} QueriesThenUpdate(graphs: Dataset, log: seq<Exchange>, queries: seq<Exchange>, update: Exchange,
                          engine: (string, Dataset) -> seq<Triple>)
    requires Answered(graphs, log, engine)
    requires AnsweredOn(queries, engine, Replay(graphs, log))
    requires !update.request.Query?
    ensures Replay(graphs, log + queries + [update]) == Effect(Replay(graphs, log), update)
    ensures Answered(graphs, log + queries + [update], engine)
  {
    AnsweredQueries(graphs, log, queries, engine);
    ReplayAppend(graphs, log + queries, update);
    AnsweredAppend(graphs, log + queries, update, engine);
  }

  /** The store: its graphs, the log of exchanges, and the query engine that answers queries. */
  class TripleStore {
    var graphs: Dataset
    var log: seq<Exchange>
    const engine: (string, Dataset) -> seq<Triple>

    constructor (graphs: Dataset, engine: (string, Dataset) -> seq<Triple>)
      ensures this.graphs == graphs && this.engine == engine && log == []
    {
      this.graphs := graphs;
      this.engine := engine;
      log := [];
    }

    /** `INSERT DATA { GRAPH <name> { statements } }` */
    method InsertData(name: string, statements: seq<Triple>) returns (r: Result<(), StoreError>)
      modifies this
      ensures log == old(log) + [Exchange(Request.InsertData(name, statements), Acknowledgement(r))]
      ensures graphs == Effect(old(graphs), log[|log| - 1])
    {
      var fails: bool :| true;
      if fails {
        var e: StoreError :| true;
        r := Failure(e);
      } else {
        graphs := graphs[name := Stored(graphs, name) + Members(statements)];
        r := Success(());
      }
      log := log + [Exchange(Request.InsertData(name, statements), Acknowledgement(r))];
    }

    /** A read query, answered by the engine over the current graphs. */
    method Query(text: string) returns (r: Result<seq<Triple>, StoreError>)
      modifies this`log
      ensures log == old(log) + [Exchange(Request.Query(text), if r.Success? then Ok(r.value) else Failed(r.error))]
      ensures r.Success? ==> r.value == engine(text, graphs)
    {
      var fails: bool :| true;
      if fails {
        var e: StoreError :| true;
        r := Failure(e);
      } else {
        r := Success(engine(text, graphs));
      }
      log := log + [Exchange(Request.Query(text), if r.Success? then Ok(r.value) else Failed(r.error))];
    }

    /** `CLEAR GRAPH <name>` */
    method Clear(name: string) returns (r: Result<(), StoreError>)
      modifies this
      ensures log == old(log) + [Exchange(Request.Clear(name), Acknowledgement(r))]
      ensures graphs == Effect(old(graphs), log[|log| - 1])
    {
      var fails: bool :| true;
      if fails {
        var e: StoreError :| true;
        r := Failure(e);
      } else {
        graphs := graphs - {name};
        r := Success(());
      }
      log := log + [Exchange(Request.Clear(name), Acknowledgement(r))];
    }
  }
}
