# DataValidator in Dafny

This project models the `DataValidator` class of a Rails application that
checks structured data (RDFa or Microdata) embedded in HTML. The validator
works in four steps:

1. It loads the parsed statements into a fresh named graph of a SPARQL
   store. The graph is named by the namespace followed by the SHA-1 digest
   of the statements' Turtle serialisation. A `dc:issued` timestamp is
   added before the insert.
2. It runs every SPARQL rule of a test directory against that graph. The
   variable `?validatedGraph`, in any letter case, is replaced by `<name>`.
3. Once the insert has succeeded, it always clears the graph afterwards,
   whatever the rules did.
4. It returns the flattened list of JSON-LD objects that the rules
   produced, with empty results removed.

The model has seven modules:

- `Wrappers`: `Option` and `Result`. A Ruby method that raises becomes a
  `Result` whose failure names the exception.
- `Rdf`: terms, statements and the timestamp statement. It also holds
  `Graph`, an in-memory RDF graph, as a class whose statement list is
  updated in place. `<<` adds a statement only when it is absent.
- `Substitution`: `add_graph`. The case-insensitive, leftmost,
  non-overlapping `gsub` is written out over characters and proved
  complete, length-exact and idempotent.
- `Configuration`: the argument checks of `initialize`, in the source's
  order, as a specification function and as the looping method that
  computes it. It also covers the trailing-slash normalisation of
  `base_uri` and the `strict` default.
- `Formatter`: `convert_to_json` on parsed JSON values, and the
  `flatten.reject(&:empty?)` report.
- `Store`: a SPARQL store. Both clients of the source reach it. It records
  every request with its response in a log. Any request may fail; a failed
  request changes nothing.
- `Validator`: the `DataValidator` class itself. The contract of
  `Validate` is stated as the predicate `Transaction` over the log entries
  that one call appends. The lemmas after the class derive from it:
  - cleanup happens exactly once;
  - a successful report is the in-order concatenation of the rules'
    findings;
  - every rule query sees the inserted graph;
  - a successful clear removes the graph.

The following outside pieces are parameters of the model, not
definitions:

- SHA-1, the Turtle writer, and the JSON-LD writer followed by
  `JSON.parse`;
- the query engine of the store;
- the URI pattern, the directory test and the directory listing;
- the current time.

Notes on what the code does, which the model follows:

- A failure of the `CLEAR GRAPH` request raises from the `ensure` block
  and so replaces a rule's error. `Transaction` gives the clear error
  priority.
- The graph name is the digest of the statements in the order the graph
  holds them. No canonical order is applied, so the same statements
  inserted in another order may get another name.
- The query endpoint key is `sparql_endpoint`.
- The placeholder is `?validatedGraph`. The method's doc comment says
  `?graphName`.

Every lemma carries `{:induction false}`, and its inductive steps are
written out. Dafny 4.11's automatic induction hypothesis for a lemma over a
sequence of one datatype states that the first element of every non-empty
sequence, whatever its element type, belongs to that datatype. Once a
one-element sequence of another datatype is in scope (the timestamped
payload is one), that hypothesis contradicts the datatype axioms, and
premises that can be met would be refuted. Switching automatic induction
off removes the hypothesis.

## Model

| member | source | states |
|---|---|---|
| Substitution.AddGraph | lib/data_validator.rb:68-71 | the substituted query is longer than the template by exactly (occurrences of the placeholder) × (length of `<name>` − 15) |
| Substitution.ReplaceLength | lib/data_validator.rb:70 | the `gsub` scan changes the length by (|replacement| − 15) for each counted occurrence |
| Substitution.NoOverlap | lib/data_validator.rb:70 | two occurrences of `?validatedGraph` can never overlap, so counting every position equals counting `gsub`'s non-overlapping matches |
| Substitution.LeftmostReplaced | lib/data_validator.rb:70 | `gsub` keeps the text before the leftmost match, emits the replacement, and continues after the match |
| Substitution.ReplaceLeavesNoPlaceholder | lib/data_validator.rb:70 | when the replacement starts with `<`, ends with `>` and holds no placeholder itself, no placeholder in any letter case survives the substitution, neither left over nor formed across a boundary |
| Substitution.BracketedNoPlaceholder | lib/data_validator.rb:70 | `<name>` holds no placeholder when `name` holds none: the brackets cannot be part of one |
| Substitution.AddGraphComplete | lib/data_validator.rb:68-71 | for a graph name that holds no placeholder, the substituted query contains none |
| Substitution.AddGraphNoPlaceholder | lib/data_validator.rb:68-71 | a query without the placeholder is returned unchanged |
| Substitution.AddGraphIdempotent | lib/data_validator.rb:68-71 | substituting a second time with a graph name that holds no placeholder changes nothing |
| Configuration.FirstFlaggedIsFirst | lib/data_validator.rb:37-42 | the reported key is flagged and every key before it in the list is not, and nothing is reported when no key is flagged |
| Configuration.CheckArguments | lib/data_validator.rb:30-45 | the loop returns the first missing required key, else the first URI key whose value does not match, else the directory error, else nothing, exactly as `ArgumentsError` specifies |
| Configuration.MissingKeyFirst | lib/data_validator.rb:30-39 | when the i-th required key is missing and the earlier ones are present, construction fails with `MissingKey` for that key, before any URI check |
| Configuration.AcceptedArguments | lib/data_validator.rb:37-45 | accepted arguments hold all five keys, four URI strings and an existing test directory path |
| Configuration.NormaliseBaseUri | lib/data_validator.rb:47 | the stored base URI ends with `/`, extends the argument by at most that one character, and equals it exactly when the argument already ends with `/` |
| Configuration.NormaliseIdempotent | lib/data_validator.rb:47 | normalising a normalised base URI changes nothing |
| Configuration.StrictSetting | lib/data_validator.rb:58 | `@strict` is the argument when it is present and truthy, and `false` otherwise |
| Validator.DataValidator.constructor | lib/data_validator.rb:29-59 | accepted arguments give a validator whose fields are the normalised base URI, the namespace, both endpoints, the listed rules and the strict flag |
| Validator.DataValidator.New | lib/data_validator.rb:29-45 | construction fails exactly when a check fails, with that check's error, and otherwise yields a fresh configured validator |
| Rdf.WithContents | lib/data_validator.rb:81 | adding a statement gives the old members plus that statement, without duplicates, and keeps the old order as a prefix |
| Rdf.WithAllContents | lib/data_validator.rb:150-151 | adding a list of statements gives the union of both member sets, without duplicates, with the old statements first |
| Rdf.WithAllEmpty | lib/data_validator.rb:150-153 | a graph filled from a result list is empty exactly when the list is empty |
| Rdf.Graph.constructor | lib/data_validator.rb:150 | a new graph holds no statement |
| Rdf.Graph.Insert | lib/data_validator.rb:81 | `graph << statement` appends the statement when it is absent and keeps the graph free of duplicates |
| Rdf.Graph.InsertAll | lib/data_validator.rb:151 | `graph << results` adds the results one by one, in order, keeping the graph free of duplicates |
| Rdf.Graph.IsEmpty | lib/data_validator.rb:153 | `graph.empty?` holds exactly when the set of statements the graph holds is empty |
| Rdf.MembersEmpty | lib/data_validator.rb:150-153 | a statement list has no members exactly when it is the empty list, so `empty?` over the list agrees with `empty?` over the graph's statement set |
| Store.TripleStore.InsertData | lib/data_validator.rb:121 | the insert is logged; on success the named graph gains the statements, on failure nothing changes |
| Store.TripleStore.Query | lib/data_validator.rb:148 | the query is logged; a successful answer is the engine's answer on the current dataset, which does not change |
| Store.TripleStore.Clear | lib/data_validator.rb:90 | the clear is logged; on success the named graph is gone, on failure nothing changes |
| Store.AnsweredQueries | lib/data_validator.rb:169-171 | queries change no graph, so a run of queries each answered on the dataset of its moment keeps the whole log answered |
| Store.QueriesThenUpdate | lib/data_validator.rb:168-174 | a run of answered queries followed by one update (the clear) leaves the dataset as that update applied to the dataset before the queries, and the whole log stays answered |
| Store.AnsweredAt | lib/data_validator.rb:148 | in an answered log, each successful query's answer is the engine's answer on the replay of the log before it |
| Formatter.Normalise | lib/data_validator.rb:103-106 | a formatted item has no `@id`, has `@context` set to `<base_uri>context.jsonld`, and keeps every other key with its value |
| Formatter.FormatShape | lib/data_validator.rb:101-107 | every item returned is clean; a document without a truthy `@graph` yields itself, cleaned, as the only item; a successful `@graph` yields one item per array member, or none for `[]` and for the empty hash `{}` |
| Formatter.FormatItems | lib/data_validator.rb:101-108 | the loop over the item list computes `FormatDocument`: an empty hash under `@graph` gives `[]`, a string, number or `true` there fails, and a member that is not a hash (a non-empty hash's `[key, value]` pairs included) fails |
| Formatter.ReportIsConcatenation | lib/data_validator.rb:177 | `flatten.reject(&:empty?)` over the rule results is the in-order concatenation of the lists of the rules that found something |
| Formatter.ReportAppend | lib/data_validator.rb:169-177 | the report over two runs of rules is the report over the first followed by the report over the second |
| Formatter.ReportOfPasses | lib/data_validator.rb:176-177 | rules that all passed give an empty report |
| Validator.GraphName | lib/data_validator.rb:117-118 | the graph name is the namespace followed by the digest of the data's Turtle serialisation |
| Validator.EmptyResultPasses | lib/data_validator.rb:150-157 | a rule passes with `{}` exactly when its query returned no statement; otherwise it reports its formatted list or raises |
| Validator.PassedWellFormed | lib/data_validator.rb:150-157 | every item of every rule result built from a store answer carries `@context`, so no finding is an empty hash that `reject(&:empty?)` would drop |
| Validator.DataValidator.AddTimestamp | lib/data_validator.rb:79-82 | the caller's graph gains the timestamp statement in place |
| Validator.DataValidator.ClearGraph | lib/data_validator.rb:89-91 | one `CLEAR GRAPH` request for the name is issued and logged with its effect |
| Validator.DataValidator.ConvertToJson | lib/data_validator.rb:98-108 | the result is the formatting of the graph's parsed JSON-LD against the base URI |
| Validator.DataValidator.LoadData | lib/data_validator.rb:116-123 | the name is computed from the data before the timestamp; the caller's graph is timestamped in place; exactly that graph is inserted under the name; the name is returned only on success |
| Validator.DataValidator.RunTest | lib/data_validator.rb:145-158 | one query, the rule with the graph substituted, is issued; its failure raises, an empty answer passes, and otherwise the answer is formatted |
| Validator.DataValidator.RunRules | lib/data_validator.rb:169-171 | the rules run in catalogue order; each issues its substituted query; the loop stops at the first rule that raises |
| Validator.DataValidator.TestThenClear | lib/data_validator.rb:168-177 | after a successful insert, the rules run, then the clear runs whatever happened, and the result follows the `ensure` semantics |
| Validator.DataValidator.Validate | lib/data_validator.rb:165-178 | the log entries of one call form a `Transaction`, the dataset is their replay, and every query was answered on the dataset of its time |
| Validator.TransactionAfterInsert | lib/data_validator.rb:165-177 | an insert followed by the rules' exchanges and a clear, with a result chosen by the `ensure` semantics, forms a `Transaction` |
| Validator.CleanupExactlyOnce | lib/data_validator.rb:166-174 | a run whose insert succeeded issues exactly one clear; a run whose insert failed issues no query and no clear and raises |
| Validator.SuccessfulValidation | lib/data_validator.rb:165-177 | a report is returned only when the insert, every rule and the clear succeeded, and it is the in-order concatenation of the findings |
| Validator.EmptyCatalogue | lib/data_validator.rb:165-177 | with no rules the graph is still inserted and cleared, and the report is empty when the clear succeeds |
| Validator.InsertFailureChangesNothing | lib/data_validator.rb:166 | with a failed request taken to have no effect on the store (see `Store.Effect` under Left out), a run whose insert failed leaves every graph as it was, since it issues no further request |
| Validator.QueriesSeeInsertedGraph | lib/data_validator.rb:166-171 | every rule query runs on the dataset as the insert left it |
| Validator.CleanupRemovesGraph | lib/data_validator.rb:172-174 | a run whose insert and clear succeeded leaves no graph under the name and every other graph as it was |
| Validator.RuleAnsweredOnLoadedData | lib/data_validator.rb:148-171 | each rule's logged request is its substituted query, and a successful answer is the engine's answer on the dataset as the insert of the payload left it |
| Validator.TimestampedGraphContents | lib/data_validator.rb:116-123 | when the name was unused, the inserted graph holds exactly the caller's statements plus the timestamp statement |
| Validator.RulesQueryTheTimestampedData | lib/data_validator.rb:116-123 | when the name was unused, each rule is answered on a dataset whose graph under the name holds exactly the caller's statements plus the timestamp |

## Left out

- `parse`: the RDFa and Microdata readers are outside the model. `Validate`
  starts from the parsed graph. `strict` is stored but has no other effect.
- The SPARQL clients and HTTP: one store with a log stands for both
  endpoints. The SPARQL query language is the `engine` parameter. Store
  failures are nondeterministic.
- The JSON-LD writer, `JSON.parse` and `JSONLD_CONTEXT`: together they are
  the `jsonLd` parameter. JSON objects are maps, so key order is not
  modelled. Numbers are integers.
- SHA-1 and the Turtle writer are parameters. The digest is not
  constrained to 40 hexadecimal characters.
- `URI::regexp`, `File.directory?` and `Dir[...]` are parameters. The order
  of the listing is taken as given.
- The rule files are read once, at construction. The source reads each
  file again on every run, so changes to a rule file between runs are not
  modelled.
- `DateTime.now` is the `now` parameter of `Validate`.
- Concurrent validations of the same data share a graph name. The race in
  which one run clears the graph another run is querying is not modelled.
- Substitution.AddGraph: a backslash sequence in the graph name is copied
  literally. Ruby's `gsub` interprets `\0`, `\1` and similar in the
  replacement, and that is not modelled.
- Substitution.AddGraph: case-insensitive matching folds ASCII letters
  only. Unicode case folding is not modelled.
- Configuration.CheckArguments: a non-string value under a URI key fails
  the URI check, as `=~` returns `nil` for it in the Ruby versions this
  code targets. Newer Ruby versions raise `NoMethodError` for a boolean.
- Formatter.FormatItems: the Ruby exceptions are two `FormatError` cases.
  `GraphNotAList` stands for the `NoMethodError` of `map` on a string,
  number or `true`. `MemberNotAnObject` stands for the `NoMethodError` or
  `TypeError` of `delete_if` or `[]=` on a member that is not a hash.
  Exception classes are not distinguished further.
- Formatter.Normalise: the item hash is mutated in place in the source. The
  model returns the cleaned value, because no caller holds the hash
  afterwards.
- Store.Effect: a request the store reports as failed is taken to have
  changed nothing. An `INSERT DATA` that the server applies but the client
  sees fail (a timeout, say) leaves the graph behind for good, because
  `load_data` runs before the `begin` block and no clear follows. The model
  does not capture that leaked graph.
- Store.TripleStore.InsertData: the store keeps the statements exactly as
  sent. A SPARQL store replaces blank nodes with fresh ones on
  `INSERT DATA`, so the stored graph equals the caller's statements only up
  to a renaming of blank nodes.
- Substitution.AddGraph: rule text is a sequence of characters. A rule file
  holding bytes that are not valid UTF-8 makes `gsub` raise
  `ArgumentError`, and that error path is not modelled.
- The `attr_reader` accessors are not modelled. They only expose fields.
