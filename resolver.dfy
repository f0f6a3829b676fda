/**
 * `resolveNext` (index.js): the site-relative path a login or logout
 * returns to, taken from the `next` query parameter. A value that names a
 * host (by `UrlType.HasHost`) is refused with a 400 error; anything else is
 * resolved against the site root, so the result starts with a single `/`,
 * has no empty, `.` or `..` segments, and names no host by `UrlType.HasHost`.
 */
module Resolver {
  import opened Wrappers
  import opened Query
  import opened PosixPath
  import opened UrlType

  const NextKey := "next"

  const AbsoluteNextMessage := "Absolute URLs are not allowed in the `next` parameter for security reasons"

  /** The value `resolveNext` acts on; absent and empty both resolve to the root. */
  function ChosenNext(query: Query): string {
    match Last(query, NextKey)
    case Some(v) => v
    case None => ""
  }

  /** Ok(path) or Err(message of the 400 error). */
  function ResolveNext(query: Query): (r: Result<string, string>)
    ensures r.Err? <==> HasHost(ChosenNext(query))
    ensures r.Err? ==> r.error == AbsoluteNextMessage
    ensures r.Ok? ==> IsNormalized(r.value) && !HasHost(r.value)
    ensures r.Ok? ==> |r.value| == 1 || (r.value[1] != '/' && r.value[|r.value| - 1] != '/')
    ensures r.Ok? ==> r.value == ResolveFromRoot(ChosenNext(query))
  {
    var next := ChosenNext(query);
    if HasHost(next) then Err(AbsoluteNextMessage)
    else
      var path := ResolveFromRoot(next);
      NormalizedShape(path);
      RootedPathHasNoHost(path);
      Ok(path)
  }

  // ---------------------------------------------------------------- lemmas

  /** A repeated `next` resolves as its last value given alone would. */
  lemma {:induction false} ResolveNextLastWins(query: Query, values: seq<string>)
    requires values != []
    ensures ResolveNext(query[NextKey := Repeated(values)]) == ResolveNext(map[NextKey := Single(values[|values| - 1])])
  {
    LastWins(query, NextKey, values);
  }

  /** No `next`, an empty one, or an empty list of them, resolve to the root. */
  lemma ResolveNextDefault()
    ensures ResolveNext(map[]) == Ok("/")
    ensures ResolveNext(map[NextKey := Single("")]) == Ok("/")
    ensures ResolveNext(map[NextKey := Repeated([])]) == Ok("/")
  {
    assert Split("") == [[]];
  }

  /** The absolute and protocol-relative targets of the project's tests are refused. */
  lemma ResolveNextRejects()
    ensures ResolveNext(map[NextKey := Single("http://example.com/bah")]) == Err(AbsoluteNextMessage)
    ensures ResolveNext(map[NextKey := Single("//example.com/bah")]) == Err(AbsoluteNextMessage)
  {
    HostExamples();
  }

  /** `bah` and `/bah` both return to `/bah`. */
  lemma ResolveNextBah()
    ensures ResolveNext(map[NextKey := Single("bah")]) == Ok("/bah")
    ensures ResolveNext(map[NextKey := Single("/bah")]) == Ok("/bah")
  {
    HostExamples();
    ResolveBah();
  }

  /** Resolving a resolved target again changes nothing. */
  lemma ResolveNextIdempotent(query: Query)
    requires ResolveNext(query).Ok?
    ensures ResolveNext(map[NextKey := Single(ResolveNext(query).value)]) == ResolveNext(query)
  {
    var p := ResolveNext(query).value;
    ResolveIdempotent(ChosenNext(query));
    assert ChosenNext(map[NextKey := Single(p)]) == p;
  }

  /**
   * For a value that names no host and does not already start with `/`,
   * prefixing a slash leaves the answer unchanged. (A value that names a host
   * through its scheme is another matter: see `ResolveNextLeadingSlashHosted`.)
   */
  lemma ResolveNextLeadingSlash(v: string)
    requires !HasHost(v) && (v == "" || v[0] != '/')
    ensures ResolveNext(map[NextKey := Single("/" + v)]) == ResolveNext(map[NextKey := Single(v)])
  {
    LeadingSlash(v);
    RootedPathHasNoHost("/" + v);
  }

  /**
   * A value that names a host through its scheme is refused, but with a `/`
   * prefixed it is accepted and resolves as the bare value would.
   */
  lemma ResolveNextLeadingSlashHosted(v: string)
    requires HasHost(v) && v[0] != '/'
    ensures ResolveNext(map[NextKey := Single(v)]) == Err(AbsoluteNextMessage)
    ensures ResolveNext(map[NextKey := Single("/" + v)]) == Ok(ResolveFromRoot(v))
  {
    LeadingSlash(v);
    RootedPathHasNoHost("/" + v);
  }
}
