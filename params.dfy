/**
 * `defaultParams` (index.js): the extra authorisation parameters sent to
 * the identity provider when the plugin's options give no `providerParams`.
 * A `screen` query parameter is forwarded; repeated, its last value is.
 */
module Params {
  import opened Wrappers
  import opened Query

  const ScreenKey := "screen"

  function DefaultParams(query: Query): (r: map<string, string>)
    ensures r.Keys <= {ScreenKey}
    ensures ScreenKey in r <==> Last(query, ScreenKey).Some? && Last(query, ScreenKey).value != ""
    ensures ScreenKey in r ==> r[ScreenKey] == Last(query, ScreenKey).value
  {
    match Last(query, ScreenKey)
    case Some(screen) => if screen != "" then map[ScreenKey := screen] else map[]
    case None => map[]
  }

  /** Forwarding depends only on the last `screen` value. */
  lemma {:induction false} DefaultParamsLastWins(query: Query, screens: seq<string>)
    requires screens != []
    ensures DefaultParams(query[ScreenKey := Repeated(screens)])
         == DefaultParams(map[ScreenKey := Single(screens[|screens| - 1])])
  {
    LastWins(query, ScreenKey, screens);
  }

  lemma DefaultParamsExamples()
    ensures DefaultParams(map[]) == map[]
    ensures DefaultParams(map[ScreenKey := Single("")]) == map[]
    ensures DefaultParams(map[ScreenKey := Repeated(["login", "signup"])]) == map[ScreenKey := "signup"]
  {
  }
}
