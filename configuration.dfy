/**
 * The argument checks and normalisations of `DataValidator#initialize`.
 * Keyword arguments arrive as a map; required keys are checked in a fixed
 * order, then the endpoint URIs, then the rule directory, and the first
 * failing check raises `ArgumentError`.
 */
module Configuration {
  import opened Wrappers

  /** The keyword names `initialize` looks at; any other keyword is accepted and ignored. */
  datatype Key = BaseUri | Namespace | SparqlEndpoint | SparqlUpdateEndpoint | TestDir | Strict | OtherKey(name: string)

  /** The Ruby values a keyword argument may hold, as far as the checks distinguish them. */
  datatype Value = Str(text: string) | Bool(flag: bool) | Nil

  datatype ConfigError =
    | MissingKey(key: Key)             // "Missing keyword argument ..."
    | InvalidUri(key: Key)             // "Invalid URI provided for ... argument"
    | InvalidTestDir(path: string)     // "Invalid path to test directory: ..."
    | TestDirNotAPath                  // `File.directory?` on a non-string raises TypeError

  /** Checked for presence, in this order. */
  const RequiredKeys: seq<Key> := [BaseUri, Namespace, SparqlEndpoint, SparqlUpdateEndpoint, TestDir]

  /** Checked against `URI::regexp`, in this order. */
  const UriKeys: seq<Key> := [BaseUri, Namespace, SparqlEndpoint, SparqlUpdateEndpoint]

  /** Ruby truthiness: everything but `nil` and `false`. */
  predicate Truthy(v: Value) {
    !(v.Nil? || v == Bool(false))
  }

  /** `value =~ URI::regexp` succeeds; only strings can match. */
  predicate UriValue(v: Value, isUri: string -> bool) {
    v.Str? && isUri(v.text)
  }

  /** The first key of `keys` that `bad` flags, scanning from the front. */
  function FirstFlagged(keys: seq<Key>, bad: Key -> bool): Option<Key> {
    if keys == [] then None
    else if bad(keys[0]) then Some(keys[0])
    else FirstFlagged(keys[1..], bad)
  }

  /** `FirstFlagged` reports exactly the key at the earliest flagged position, and nothing when no key is flagged. */
  lemma {:induction false} FirstFlaggedIsFirst(keys: seq<Key>, bad: Key -> bool)
    ensures FirstFlagged(keys, bad).None? <==> forall j :: 0 <= j < |keys| ==> !bad(keys[j])
    ensures FirstFlagged(keys, bad).Some? ==>
              exists i :: 0 <= i < |keys| && keys[i] == FirstFlagged(keys, bad).value && bad(keys[i]) &&
                          forall j :: 0 <= j < i ==> !bad(keys[j])
  {
    if keys != [] && !bad(keys[0]) {
      FirstFlaggedIsFirst(keys[1..], bad);
      if FirstFlagged(keys, bad).Some? {
        var i :| 0 <= i < |keys[1..]| && keys[1..][i] == FirstFlagged(keys, bad).value && bad(keys[1..][i]) &&
                 forall j :: 0 <= j < i ==> !bad(keys[1..][j]);
        assert keys[i + 1] == keys[1..][i];
        forall j | 0 <= j < i + 1 ensures !bad(keys[j]) {
          if j > 0 { assert keys[j] == keys[1..][j - 1]; }
        }
      } else {
        forall j | 0 <= j < |keys| ensures !bad(keys[j]) {
          if j > 0 { assert keys[j] == keys[1..][j - 1]; }
        }
      }
    }
  }

  /** The error `initialize` raises for `args`, or `None` when every check passes. */
  function ArgumentsError(args: map<Key, Value>, isUri: string -> bool, isDirectory: string -> bool): Option<ConfigError> {
    match FirstFlagged(RequiredKeys, k => k !in args)
    case Some(k) => Some(MissingKey(k))
    case None =>
      match FirstFlagged(UriKeys, k => k in args && !UriValue(args[k], isUri))
      case Some(k) => Some(InvalidUri(k))
      case None =>
        if !args[TestDir].Str? then Some(TestDirNotAPath)
        else if !isDirectory(args[TestDir].text) then Some(InvalidTestDir(args[TestDir].text))
        else None
  }

  /** A missing key is reported before any URI or directory check, naming the first missing key in declaration order. */
  lemma {:induction false} MissingKeyFirst(args: map<Key, Value>, isUri: string -> bool, isDirectory: string -> bool, i: nat)
    requires i < |RequiredKeys| && RequiredKeys[i] !in args
    requires forall j :: 0 <= j < i ==> RequiredKeys[j] in args
    ensures ArgumentsError(args, isUri, isDirectory) == Some(MissingKey(RequiredKeys[i]))
  {
    var bad := k => k !in args;
    FirstFlaggedIsFirst(RequiredKeys, bad);
    var k := FirstFlagged(RequiredKeys, bad).value;
    var i' :| 0 <= i' < |RequiredKeys| && RequiredKeys[i'] == k && bad(RequiredKeys[i']) &&
              forall j :: 0 <= j < i' ==> !bad(RequiredKeys[j]);
    assert i' == i;
  }

  /** When `initialize` accepts its arguments, every required key is present and every endpoint is a URI. */
  lemma {:induction false} AcceptedArguments(args: map<Key, Value>, isUri: string -> bool, isDirectory: string -> bool)
    requires ArgumentsError(args, isUri, isDirectory).None?
    ensures forall k :: k in RequiredKeys ==> k in args
    ensures forall k :: k in UriKeys ==> UriValue(args[k], isUri)
    ensures args[TestDir].Str? && isDirectory(args[TestDir].text)
  {
    var missing := k => k !in args;
    FirstFlaggedIsFirst(RequiredKeys, missing);
    var invalid := k => k in args && !UriValue(args[k], isUri);
    FirstFlaggedIsFirst(UriKeys, invalid);
    forall k | k in UriKeys ensures UriValue(args[k], isUri) {
      var j :| 0 <= j < |UriKeys| && UriKeys[j] == k;
      assert !invalid(UriKeys[j]);
    }
  }

  /** The checks of `initialize`, one loop per kind of check; `None` means no error is raised. */
  method CheckArguments(args: map<Key, Value>, isUri: string -> bool, isDirectory: string -> bool)
    returns (err: Option<ConfigError>)
    ensures err == ArgumentsError(args, isUri, isDirectory)
  {
    var missing := k => k !in args;
    FirstFlaggedIsFirst(RequiredKeys, missing);
    var i := 0;
    while i < |RequiredKeys|
      invariant 0 <= i <= |RequiredKeys|
      invariant forall j :: 0 <= j < i ==> RequiredKeys[j] in args
    {
      if RequiredKeys[i] !in args {
        MissingKeyFirst(args, isUri, isDirectory, i);
        return Some(MissingKey(RequiredKeys[i]));
      }
      i := i + 1;
    }
    var invalid := k => k in args && !UriValue(args[k], isUri);
    FirstFlaggedIsFirst(UriKeys, invalid);
    i := 0;
    while i < |UriKeys|
      invariant 0 <= i <= |UriKeys|
      invariant forall j :: 0 <= j < i ==> UriValue(args[UriKeys[j]], isUri)
    {
      if !UriValue(args[UriKeys[i]], isUri) {
        var k := FirstFlagged(UriKeys, invalid).value;
        var i' :| 0 <= i' < |UriKeys| && UriKeys[i'] == k && invalid(UriKeys[i']) &&
                  forall j :: 0 <= j < i' ==> !invalid(UriKeys[j]);
        assert i' == i;
        return Some(InvalidUri(UriKeys[i]));
      }
      i := i + 1;
    }
    var dir := args[TestDir];
    if !dir.Str? {
      return Some(TestDirNotAPath);
    }
    if !isDirectory(dir.text) {
      return Some(InvalidTestDir(dir.text));
    }
    return None;
  }

  predicate EndsWithSlash(s: string) {
    |s| > 0 && s[|s| - 1] == '/'
  }

  /**
   * The stored `base_uri`: the argument when it already ends with `/`,
   * otherwise the argument with `/` appended.
   */
  function NormaliseBaseUri(s: string): (r: string)
    ensures EndsWithSlash(r)
    ensures |s| <= |r| <= |s| + 1 && r[..|s|] == s
    ensures r == s <==> EndsWithSlash(s)
  {
    if EndsWithSlash(s) then s else s + "/"
  }

  /** Normalising a normalised `base_uri` changes nothing. */
  lemma {:induction false} NormaliseIdempotent(s: string)
    ensures NormaliseBaseUri(NormaliseBaseUri(s)) == NormaliseBaseUri(s)
  {
  }

  /** `args[:strict] || false`: the argument when it is truthy, `false` otherwise (absent, `nil` or `false`). */
  function StrictSetting(args: map<Key, Value>): (v: Value)
    ensures Truthy(v) <==> Strict in args && Truthy(args[Strict])
    ensures !Truthy(v) ==> v == Bool(false)
    ensures Truthy(v) ==> v == args[Strict]
  {
    if Strict in args && Truthy(args[Strict]) then args[Strict] else Bool(false)
  }
}
