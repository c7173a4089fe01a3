/**
 * `add_graph`: textual substitution of the graph placeholder in a rule's
 * query text. Ruby's `query.gsub(/\?validatedGraph/i, "<#{graph_name}>")`
 * scans left to right, replaces every case-insensitive occurrence of the
 * fifteen-character token and copies everything else unchanged.
 */
module Substitution {

  /** The reserved token a rule uses for the graph under validation. */
  const Placeholder: string := "?validatedGraph"

  /** ASCII case folding, as `/i` applies it to the letters of the placeholder. */
  function Lower(c: char): char {
    if 'A' <= c <= 'Z' then (c as int + 32) as char else c
  }

  /** `a` and `b` have the same length and agree letter by letter once case-folded. */
  predicate SameFolded(a: string, b: string)
    decreases |a|
  {
    |a| == |b| && (a == [] || (Lower(a[0]) == Lower(b[0]) && SameFolded(a[1..], b[1..])))
  }

  /** The placeholder occurs, in any letter case, at position `i` of `q`. */
  predicate MatchesAt(q: string, i: nat) {
    i + |Placeholder| <= |q| && SameFolded(q[i..i + |Placeholder|], Placeholder)
  }

  lemma {:induction false} SameFoldedAt(a: string, b: string, k: nat)
    requires SameFolded(a, b) && k < |a|
    ensures Lower(a[k]) == Lower(b[k])
    decreases k
  {
    if k > 0 {
      SameFoldedAt(a[1..], b[1..], k - 1);
    }
  }

  /** An occurrence at `i` fixes each of the fifteen characters there up to case. */
  lemma {:induction false} MatchesChar(q: string, i: nat, k: nat)
    requires k < |Placeholder|
    ensures MatchesAt(q, i) ==> Lower(q[i + k]) == Lower(Placeholder[k])
  {
    if MatchesAt(q, i) {
      SameFoldedAt(q[i..i + |Placeholder|], Placeholder, k);
    }
  }

  /** The characters of the placeholder that the proofs rely on. */
  lemma {:induction false} PlaceholderShape()
    ensures |Placeholder| == 15 && Placeholder[0] == '?'
    ensures forall k :: 0 < k < |Placeholder| ==> Lower(Placeholder[k]) != '?' && Lower(Placeholder[k]) != '<'
    ensures forall k :: 0 <= k < |Placeholder| ==> Lower(Placeholder[k]) != '>'
  {
  }

  lemma {:induction false} LowerKeeps(c: char)
    ensures Lower(c) == '?' <==> c == '?'
    ensures Lower(c) == '<' <==> c == '<'
    ensures Lower(c) == '>' <==> c == '>'
  {
  }

  predicate ContainsPlaceholder(q: string) {
    exists i: nat :: i < |q| && MatchesAt(q, i)
  }

  /** Number of positions at which the placeholder occurs. */
  function Occurrences(q: string): nat
    decreases |q|
  {
    if |q| < |Placeholder| then 0
    else (if MatchesAt(q, 0) then 1 else 0) + Occurrences(q[1..])
  }

  /** The left-to-right replace-all scan of `gsub`. */
  function Replace(q: string, rep: string): string
    decreases |q|
  {
    if q == [] then []
    else if MatchesAt(q, 0) then rep + Replace(q[|Placeholder|..], rep)
    else [q[0]] + Replace(q[1..], rep)
  }

  /** The angle-bracketed IRI form that replaces the placeholder. */
  function Bracketed(graphName: string): string {
    "<" + graphName + ">"
  }

  /** `add_graph(query, graph_name)`: every occurrence becomes `<graph_name>`, so the text grows by the length difference once per occurrence. */
  function AddGraph(query: string, graphName: string): (r: string)
    ensures |r| == |query| + Occurrences(query) * (|Bracketed(graphName)| - |Placeholder|)
  {
    ReplaceLength(query, Bracketed(graphName));
    Replace(query, Bracketed(graphName))
  }

  lemma {:induction false} MatchesShift(q: string, j: nat, i: nat)
    requires j <= |q|
    ensures MatchesAt(q[j..], i) <==> MatchesAt(q, i + j)
  {
    if i + j + |Placeholder| <= |q| {
      assert q[j..][i..i + |Placeholder|] == q[i + j..i + j + |Placeholder|];
    }
  }

  /** Whether the placeholder occurs at `i` depends only on the fifteen characters there. */
  lemma {:induction false} MatchesWindow(q: string, q': string, i: nat)
    requires i + |Placeholder| <= |q| && i + |Placeholder| <= |q'|
    requires q[i..i + |Placeholder|] == q'[i..i + |Placeholder|]
    ensures MatchesAt(q, i) <==> MatchesAt(q', i)
  {
  }

  /** Two occurrences never overlap: the token's only `?` is its first character. */
  lemma {:induction false} NoOverlap(q: string, i: nat, j: nat)
    requires MatchesAt(q, i) && i < j < i + |Placeholder|
    ensures !MatchesAt(q, j)
  {
    PlaceholderShape();
    MatchesChar(q, i, j - i);
    MatchesChar(q, j, 0);
  }

  /** Counting from position `j` loses nothing when no occurrence starts before `j`. */
  lemma {:induction false} OccurrencesSkip(q: string, j: nat)
    requires j <= |q|
    requires forall i: nat :: i < j ==> !MatchesAt(q, i)
    ensures Occurrences(q) == Occurrences(q[j..])
    decreases j
  {
    if j > 0 && |q| >= |Placeholder| {
      forall i: nat | i < j - 1 ensures !MatchesAt(q[1..], i) {
        MatchesShift(q, 1, i);
      }
      OccurrencesSkip(q[1..], j - 1);
      assert q[1..][j - 1..] == q[j..];
    } else if j > 0 {
      assert |q[j..]| < |Placeholder|;
    }
  }

  /** An occurrence at the start accounts for one count; the next can only start after it. */
  lemma {:induction false} OccurrencesAfterMatch(q: string)
    requires MatchesAt(q, 0)
    ensures Occurrences(q) == 1 + Occurrences(q[|Placeholder|..])
  {
    forall i: nat | i < |Placeholder| - 1 ensures !MatchesAt(q[1..], i) {
      NoOverlap(q, 0, i + 1);
      MatchesShift(q, 1, i);
    }
    OccurrencesSkip(q[1..], |Placeholder| - 1);
    assert q[1..][|Placeholder| - 1..] == q[|Placeholder|..];
  }

  lemma {:induction false} Distribute(n: int, d: int)
    ensures (1 + n) * d == d + n * d
  {
  }

  /** The length formula behind `AddGraph`'s contract. */
  lemma {:induction false} ReplaceLength(q: string, rep: string)
    ensures |Replace(q, rep)| == |q| + Occurrences(q) * (|rep| - |Placeholder|)
    decreases |q|
  {
    if q == [] {
    } else if MatchesAt(q, 0) {
      var rest := q[|Placeholder|..];
      OccurrencesAfterMatch(q);
      ReplaceLength(rest, rep);
      assert Replace(q, rep) == rep + Replace(rest, rep);
      Distribute(Occurrences(rest), |rep| - |Placeholder|);
    } else {
      ReplaceLength(q[1..], rep);
      assert Replace(q, rep) == [q[0]] + Replace(q[1..], rep);
    }
  }

  /** Text containing no occurrence comes back unchanged. */
  lemma {:induction false} ReplaceIdentity(q: string, rep: string)
    requires !ContainsPlaceholder(q)
    ensures Replace(q, rep) == q
    decreases |q|
  {
    if q != [] {
      assert !MatchesAt(q, 0);
      forall i: nat | i < |q[1..]| ensures !MatchesAt(q[1..], i) {
        MatchesShift(q, 1, i);
      }
      ReplaceIdentity(q[1..], rep);
    }
  }

  /** Text before the first occurrence is copied as is. */
  lemma {:induction false} ReplaceUnchangedPrefix(q: string, rep: string, j: nat)
    requires j <= |q|
    requires forall i: nat :: i < j ==> !MatchesAt(q, i)
    ensures Replace(q, rep) == q[..j] + Replace(q[j..], rep)
    decreases j
  {
    if j > 0 {
      var t := q[1..];
      assert !MatchesAt(q, 0);
      assert Replace(q, rep) == [q[0]] + Replace(t, rep);
      forall i: nat | i < j - 1 ensures !MatchesAt(t, i) {
        MatchesShift(q, 1, i);
      }
      ReplaceUnchangedPrefix(t, rep, j - 1);
      assert t[j - 1..] == q[j..];
      assert q[..j] == [q[0]] + t[..j - 1];
    }
  }

  /**
   * The `gsub` step: for `q == a + token + b` where the token is the leftmost
   * occurrence, the result is `a`, then the replacement, then the rest processed alike.
   */
  lemma {:induction false} LeftmostReplaced(q: string, rep: string, j: nat)
    requires MatchesAt(q, j)
    requires forall i: nat :: i < j ==> !MatchesAt(q, i)
    ensures Replace(q, rep) == q[..j] + rep + Replace(q[j + |Placeholder|..], rep)
  {
    ReplaceUnchangedPrefix(q, rep, j);
    MatchesShift(q, j, 0);
    assert q[j..][|Placeholder|..] == q[j + |Placeholder|..];
  }

  /** Within the first `n` characters the output either copies the input or shows the start of a replacement. */
  lemma {:induction false} PrefixOrReplacement(q: string, rep: string, n: nat)
    requires rep != [] && n <= |q|
    ensures || (n <= |Replace(q, rep)| && Replace(q, rep)[..n] == q[..n])
            || (exists j: nat :: j < n && j < |Replace(q, rep)| && Replace(q, rep)[j] == rep[0])
    decreases n
  {
    if n > 0 && !MatchesAt(q, 0) {
      PrefixOrReplacement(q[1..], rep, n - 1);
      var r := Replace(q, rep);
      var r' := Replace(q[1..], rep);
      assert r == [q[0]] + r';
      if n - 1 <= |r'| && r'[..n - 1] == q[1..][..n - 1] {
        assert r[..n] == [q[0]] + r'[..n - 1];
        assert q[..n] == [q[0]] + q[1..][..n - 1];
      } else {
        var j: nat :| j < n - 1 && j < |r'| && r'[j] == rep[0];
        assert r[j + 1] == rep[0];
      }
    } else if n > 0 {
      assert Replace(q, rep)[0] == rep[0];
    }
  }

  /**
   * When the replacement is bracketed by `<` and `>` and holds no placeholder
   * itself, no placeholder survives the substitution: none is left over and
   * none is formed across a boundary.
   */
  lemma {:induction false} ReplaceLeavesNoPlaceholder(q: string, rep: string)
    requires rep != [] && rep[0] == '<' && rep[|rep| - 1] == '>' && !ContainsPlaceholder(rep)
    ensures !ContainsPlaceholder(Replace(q, rep))
    decreases |q|
  {
    var r := Replace(q, rep);
    if q == [] {
    } else if MatchesAt(q, 0) {
      var r' := Replace(q[|Placeholder|..], rep);
      ReplaceLeavesNoPlaceholder(q[|Placeholder|..], rep);
      assert r == rep + r';
      forall i: nat | i < |r| ensures !MatchesAt(r, i) {
        if i < |rep| {
          InsideReplacement(r, rep, i);
        } else {
          assert r[|rep|..] == r';
          MatchesShift(r, |rep|, i - |rep|);
        }
      }
    } else {
      var r' := Replace(q[1..], rep);
      ReplaceLeavesNoPlaceholder(q[1..], rep);
      assert r == [q[0]] + r';
      forall i: nat | i < |r| ensures !MatchesAt(r, i) {
        if i > 0 {
          assert r[1..] == r';
          MatchesShift(r, 1, i - 1);
        } else {
          var n := |Placeholder| - 1;
          PrefixOrReplacement(q[1..], rep, if |q[1..]| < n then |q[1..]| else n);
          if |q[1..]| < n {
            forall i: nat | i < |q| ensures !MatchesAt(q, i) { }
            ReplaceIdentity(q, rep);
          } else if n <= |r'| && r'[..n] == q[1..][..n] {
            assert r[..|Placeholder|] == q[..|Placeholder|] by {
              assert r[..|Placeholder|] == [q[0]] + r'[..n];
              assert q[..|Placeholder|] == [q[0]] + q[1..][..n];
            }
            MatchesWindow(r, q, 0);
          } else {
            var j: nat :| j < n && j < |r'| && r'[j] == rep[0];
            PlaceholderShape();
            assert r[j + 1] == '<';
            LowerKeeps(r[j + 1]);
            MatchesChar(r, 0, j + 1);
          }
        }
      }
    }
  }

  /** No occurrence starts inside a placeholder-free replacement that ends with `>`, whatever follows it. */
  lemma {:induction false} InsideReplacement(r: string, rep: string, i: nat)
    requires rep != [] && rep[|rep| - 1] == '>' && !ContainsPlaceholder(rep)
    requires |rep| <= |r| && r[..|rep|] == rep && i < |rep|
    ensures !MatchesAt(r, i)
  {
    if i + |Placeholder| <= |rep| {
      assert r[i..i + |Placeholder|] == rep[i..i + |Placeholder|];
      MatchesWindow(r, rep, i);
    } else {
      PlaceholderShape();
      assert r[|rep| - 1] == '>';
      LowerKeeps(r[|rep| - 1]);
      MatchesChar(r, i, |rep| - 1 - i);
    }
  }

  /** Bracketing a placeholder-free graph name creates no placeholder. */
  lemma {:induction false} BracketedNoPlaceholder(graphName: string)
    requires !ContainsPlaceholder(graphName)
    ensures !ContainsPlaceholder(Bracketed(graphName))
  {
    var b := Bracketed(graphName);
    forall i: nat | i < |b| ensures !MatchesAt(b, i) {
      PlaceholderShape();
      if i == 0 {
        LowerKeeps(b[0]);
        MatchesChar(b, 0, 0);
      } else if i + |Placeholder| <= |graphName| + 1 {
        assert b[i..i + |Placeholder|] == graphName[i - 1..i - 1 + |Placeholder|];
        MatchesShift(b, 1, i - 1);
        assert b[1..][i - 1..i - 1 + |Placeholder|] == graphName[i - 1..i - 1 + |Placeholder|];
        MatchesWindow(b[1..], graphName, i - 1);
      } else {
        LowerKeeps(b[|b| - 1]);
        MatchesChar(b, i, |b| - 1 - i);
      }
    }
  }

  /** With a graph name holding no placeholder, the query after `add_graph` holds none either. */
  lemma {:induction false} AddGraphComplete(query: string, graphName: string)
    requires !ContainsPlaceholder(graphName)
    ensures !ContainsPlaceholder(AddGraph(query, graphName))
  {
    BracketedNoPlaceholder(graphName);
    ReplaceLeavesNoPlaceholder(query, Bracketed(graphName));
  }

  /** A query with no placeholder is sent as written. */
  lemma {:induction false} AddGraphNoPlaceholder(query: string, graphName: string)
    requires !ContainsPlaceholder(query)
    ensures AddGraph(query, graphName) == query
  {
    ReplaceIdentity(query, Bracketed(graphName));
  }

  /** Substituting twice changes nothing more when the graph name holds no placeholder. */
  lemma {:induction false} AddGraphIdempotent(query: string, graphName: string)
    requires !ContainsPlaceholder(graphName)
    ensures AddGraph(AddGraph(query, graphName), graphName) == AddGraph(query, graphName)
  {
    AddGraphComplete(query, graphName);
    AddGraphNoPlaceholder(AddGraph(query, graphName), graphName);
  }
}
