/**
 * `redirectTo` (index.js): the session strategy's choice, for a request
 * that lacks a valid session, between a redirect to `/login` (for browsers)
 * and a plain 401 (for everything else). The media types the client accepts
 * are given most preferred first, as `@hapi/accept` orders them.
 */
module Negotiation {
  import opened Wrappers

  const LoginPath := "/login"

  predicate PrefersHtml(preferred: seq<string>) {
    preferred != [] && (preferred[0] == "text/html" || preferred[0] == "text/*")
  }

  /** None stands for the `false` the source returns to mean "do not redirect". */
  function RedirectTo(preferred: seq<string>): (r: Option<string>)
    ensures r.Some? <==> PrefersHtml(preferred)
    ensures r.Some? ==> r.value == LoginPath
  {
    if preferred != [] && preferred[0] in ["text/html", "text/*"] then Some(LoginPath) else None
  }

  // The Accept headers of the project's tests, parsed: none at all (either
  // an empty list or the `*/*` default), `*/*`, `text/html;q=0.9,
  // application/json` (JSON first by quality) and `text/html`.
  lemma RedirectToExamples()
    ensures RedirectTo([]) == None
    ensures RedirectTo(["*/*"]) == None
    ensures RedirectTo(["application/json", "text/html"]) == None
    ensures RedirectTo(["text/html"]) == Some(LoginPath)
    ensures RedirectTo(["text/*", "application/json"]) == Some(LoginPath)
  {
  }
}
