/**
 * The RDF vocabulary the validator touches: terms, statements, and the
 * in-memory graph object (`RDF::Graph`) whose `<<` keeps set semantics
 * while remembering insertion order (the order its serialisers follow).
 */
module Rdf {

  /** An RDF term: an IRI, a typed literal, or a blank node. */
  datatype Term =
    | Iri(iri: string)
    | Literal(lexical: string, kind: string)
    | Blank(id: string)

  /** A statement (subject, predicate, object). */
  datatype Triple = Triple(subj: Term, pred: Term, obj: Term)

  /** `RDF::DC.issued`, the Dublin Core terms property. */
  const DcIssued: string := "http://purl.org/dc/terms/issued"

  /** Datatype of `RDF::Literal::DateTime`. */
  const XsdDateTime: string := "http://www.w3.org/2001/XMLSchema#dateTime"

  /** The statement `add_timestamp` appends: `<graphName> dc:issued "now"^^xsd:dateTime`. */
  function Timestamp(graphName: string, now: string): Triple {
    Triple(Iri(graphName), Iri(DcIssued), Literal(now, XsdDateTime))
  }

  /** The statements of `s` as a set. */
  function Members(s: seq<Triple>): set<Triple> {
    set x | x in s
  }

  /** A list of statements has no members exactly when it is empty. */
  lemma {:induction false} MembersEmpty(s: seq<Triple>)
    ensures Members(s) == {} <==> s == []
  {
    if s != [] {
      assert s[0] in Members(s);
    }
  }

  ghost predicate NoDuplicates(s: seq<Triple>) {
    forall i, j :: 0 <= i < j < |s| ==> s[i] != s[j]
  }

  /** The statements of a graph after `graph << t`: appended unless already present. */
  function With(s: seq<Triple>, t: Triple): seq<Triple> {
    if t in s then s else s + [t]
  }

  /** The statements of a graph after `graph << ts`, one statement at a time. */
  function WithAll(s: seq<Triple>, ts: seq<Triple>): seq<Triple>
    decreases |ts|
  {
    if ts == [] then s else WithAll(With(s, ts[0]), ts[1..])
  }

  /** Adding one statement adds exactly that statement, keeps the old ones in place and keeps the graph duplicate-free. */
  lemma {:induction false} WithContents(s: seq<Triple>, t: Triple)
    requires NoDuplicates(s)
    ensures NoDuplicates(With(s, t))
    ensures Members(With(s, t)) == Members(s) + {t}
    ensures |With(s, t)| == if t in s then |s| else |s| + 1
    ensures With(s, t)[..|s|] == s
  {
  }

  /** Adding a batch keeps the old statements, in order, at the front. */
  lemma {:induction false} WithAllPrefix(s: seq<Triple>, ts: seq<Triple>)
    ensures |s| <= |WithAll(s, ts)| && WithAll(s, ts)[..|s|] == s
    decreases |ts|
  {
    if ts != [] {
      var s' := With(s, ts[0]);
      assert |s| <= |s'| && s'[..|s|] == s;
      WithAllPrefix(s', ts[1..]);
      var r := WithAll(s, ts);
      assert r == WithAll(s', ts[1..]);
      assert r[..|s'|][..|s|] == r[..|s|];
    }
  }

  /** Adding a batch never duplicates a statement. */
  lemma {:induction false} WithAllNoDuplicates(s: seq<Triple>, ts: seq<Triple>)
    requires NoDuplicates(s)
    ensures NoDuplicates(WithAll(s, ts))
    decreases |ts|
  {
    if ts != [] {
      WithContents(s, ts[0]);
      WithAllNoDuplicates(With(s, ts[0]), ts[1..]);
    }
  }

  /** Adding a batch yields exactly the union of the two statement sets. */
  lemma {:induction false} WithAllMembers(s: seq<Triple>, ts: seq<Triple>)
    ensures Members(WithAll(s, ts)) == Members(s) + Members(ts)
    decreases |ts|
  {
    if ts != [] {
      assert Members(With(s, ts[0])) == Members(s) + {ts[0]};
      WithAllMembers(With(s, ts[0]), ts[1..]);
      assert Members(ts) == {ts[0]} + Members(ts[1..]) by {
        assert ts == [ts[0]] + ts[1..];
      }
    }
  }

  /** Adding a batch yields exactly the union of the statement sets and keeps the graph duplicate-free. */
  lemma {:induction false} WithAllContents(s: seq<Triple>, ts: seq<Triple>)
    requires NoDuplicates(s)
    ensures NoDuplicates(WithAll(s, ts))
    ensures Members(WithAll(s, ts)) == Members(s) + Members(ts)
    ensures |s| <= |WithAll(s, ts)| && WithAll(s, ts)[..|s|] == s
  {
    WithAllPrefix(s, ts);
    WithAllNoDuplicates(s, ts);
    WithAllMembers(s, ts);
  }

  /** A graph built from an empty one by `<<` is empty exactly when nothing was added. */
  lemma {:induction false} WithAllEmpty(ts: seq<Triple>)
    ensures WithAll([], ts) == [] <==> ts == []
  {
    if ts != [] {
      WithAllContents([], ts);
      assert ts[0] in Members(WithAll([], ts));
    }
  }

  /** `RDF::Graph`: an insertion-ordered, duplicate-free collection of statements that callers share by reference. */
  class Graph {
    var statements: seq<Triple>

    ghost predicate Valid()
      reads this
    {
      NoDuplicates(statements)
    }

    /** `RDF::Graph.new` */
    constructor ()
      ensures Valid() && statements == []
    {
      statements := [];
    }

    /** `graph << t` */
    method Insert(t: Triple)
      requires Valid()
      modifies this
      ensures Valid()
      ensures statements == With(old(statements), t)
    {
      WithContents(statements, t);
      if t !in statements {
        statements := statements + [t];
      }
    }

    /** `graph << enumerable`: each statement in turn. */
    method InsertAll(ts: seq<Triple>)
      requires Valid()
      modifies this
      ensures Valid()
      ensures statements == WithAll(old(statements), ts)
    {
      var i := 0;
      while i < |ts|
        invariant 0 <= i <= |ts| && Valid()
        invariant WithAll(statements, ts[i..]) == WithAll(old(statements), ts)
      {
        assert ts[i..][1..] == ts[i + 1..];
        Insert(ts[i]);
        i := i + 1;
      }
    }

    /** `graph.empty?`: the graph holds no statement at all. */
    function IsEmpty(): (b: bool)
      reads this
      ensures b <==> Members(statements) == {}
    {
      MembersEmpty(statements);
      statements == []
    }
  }
}
