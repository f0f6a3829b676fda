# hapi-doorkeeper, modelled in Dafny

hapi-doorkeeper is a hapi plugin that adds Auth0 login and logout to a
server. It registers two authentication strategies: a signed session cookie
named `sid`, and bell's OAuth exchange with Auth0. It also adds two routes.
`GET /login` runs the provider exchange. On success it stores the user's
profile in the session and redirects to the `next` target. `GET /logout`
clears the session and sends the user through Auth0's logout endpoint back
to `next`.

This project models the decisions `index.js` makes on top of those
libraries:

- `resolveNext`: the open-redirect guard. A `next` value that names a host is
  refused with a 400 error. Anything else is resolved against the site root
  the way `path.posix.resolve('/', v)` does (modules `Resolver`,
  `PosixPath`, `UrlType`, `Query`).
- `redirectTo`: browsers that lack a session are redirected to the login page
  and other clients are not (module `Negotiation`).
- `defaultParams`: the `screen` parameter forwarded to Auth0 (module
  `Params`).
- The option schema of `register`, read as a total validator (module
  `Config`).
- The `/login` and `/logout` handlers. They work on a class `Routes` whose
  `session` field is the session cookie of the request being handled
  (module `Handlers`). `encodeURIComponent`, which builds the `returnTo`
  address, is in module `UriComponent`, together with a reference decoder;
  the proofs show that decoding undoes encoding.

`wrappers.dfy` holds `Option` and `Result`. Every file is given to Dafny
in one command; the modules import one another.

Modelling choices:

- The url-type package's `hasHost` is not part of this model. `UrlType.HasHost` stands in for it, using RFC 3986, section 3: a reference names a host when it begins with `//`, or with a scheme (a letter, then letters, digits, `+`, `-` or `.`) followed by `://`. It agrees with the shapes the tests check.
- joi's `hostname()` is the parameter `isHostname` of `Config.Validate`, left uninterpreted. `token()` is modelled as joi documents it: letters, digits and `_`. The secret-key pattern `^[A-Za-z\d_-]+$` and the minimum lengths are modelled exactly.
- The validator checks the schema's keys in the order they are declared. For each string it checks presence, then type, then emptiness (joi refuses `""`), then the rules in the order written. Unknown keys are checked last. The first violation is the error.
- `@hapi/accept` is not modelled: `Negotiation.RedirectTo` receives the media types the client accepts, most preferred first.
- Query values come already percent-decoded, as hapi hands them over. This is why the tests' percent-encoded targets `%2Fbah` and `http%3A%2F%2F…` are covered by the plain ones.
- Where the code and the older test at test.js:144-151 disagree, the model follows the code. Logout always goes through `https://<auth0Domain>/v2/logout?returnTo=…` (index.js:112-113), never straight to `next`. The session cookie is `SameSite=Strict` (index.js:38). That test expects a redirect to `/` and `SameSite=Lax`; the code does neither.
- On `/login`, `request.cookieAuth.set` runs before `resolveNext` (index.js:88-89). A user who authenticates with an absolute `next` therefore gets the 400 answer, but the session has already been set. `Routes.Login` keeps that order.

## Model

| member | source | states |
|---|---|---|
| `Query.LastWins` | index.js:64-65 | a repeated parameter acts as its last value given alone; other parameters do not matter |
| `PosixPath.Collapse` | index.js:69 | walking the segments over a stack keeps only real segments (non-empty, not `.` or `..`, slash-free), never more than it was given (how `..` at the root and each kind of segment is treated is stated by the four lemmas below) |
| `PosixPath.CollapseParent` | index.js:69 | whatever follows, a real segment followed by `..` leaves the result as if neither were there |
| `PosixPath.CollapseParentAtRoot` | index.js:69 | whatever follows, `..` at the root is ignored |
| `PosixPath.CollapseSkips` | index.js:69 | whatever follows, `.` and empty segments are dropped |
| `PosixPath.CollapsePush` | index.js:69 | a real segment is pushed onto the stack of kept segments |
| `PosixPath.ResolveFromRoot` | index.js:69 | resolving against `/` always yields a normalised absolute path: `/` alone or `/` followed by real segments |
| `PosixPath.ResolveIdempotent` | index.js:69 | resolving an already resolved path gives it back unchanged |
| `PosixPath.ResolveNormalized` | index.js:69 | every normalised absolute path is its own resolution |
| `PosixPath.LeadingSlash` | index.js:69 | a leading `/` makes no difference to the resolved path |
| `PosixPath.NormalizedShape` | index.js:69 | a normalised path other than `/` neither starts with `//` nor ends with `/` |
| `PosixPath.SplitJoin` | index.js:69 | splitting at `/` undoes joining with `/` for slash-free pieces |
| `PosixPath.JoinSplit` | index.js:69 | joining the pieces of a string gives back the string |
| `PosixPath.ResolveBah` | test.js:154-173 | `bah` and `/bah` resolve to `/bah` |
| `PosixPath.ResolveAboveRoot` | index.js:69 | `../b` resolves to `/b`: `..` cannot climb above the root |
| `PosixPath.ResolveParent` | index.js:69 | `a/..` resolves to `/` |
| `UrlType.RootedPathHasNoHost` | index.js:66 | a path that starts with a single `/` names no host |
| `UrlType.HostExamples` | test.js:175-200 | `http://example.com/bah` and `//example.com/bah` name a host; `bah` and `/bah` do not |
| `Query.Last` | index.js:65 | the value acted on is the parameter's own value, or the last of its repeated values; none when it is absent or the list is empty (the same selection as `screen` at index.js:12) |
| `UrlType.HasHost` | index.js:66 | stands in for url-type's `hasHost` (see "Left out"): a value names a host exactly when it starts with `//`, or with a letter followed by scheme characters and then `://` |
| `UrlType.SchemeThenAuthorityIff` | index.js:66 | the character scan agrees with the declarative reading: scheme characters from the given position up to a `://` |
| `Resolver.ResolveNext` | index.js:63-70 | refused exactly when the chosen `next` names a host, with the fixed 400 message; otherwise the target is a normalised absolute path that names no host, does not start with `//` and has no trailing `/`, and it is exactly `ResolveFromRoot` of the chosen value, so the idempotence, leading-slash and stack-walk lemmas about `PosixPath.ResolveFromRoot` hold of it |
| `Resolver.ResolveNextLastWins` | index.js:64-65 | a repeated `next` resolves as its last value given alone would |
| `Resolver.ResolveNextDefault` | index.js:69 | no `next`, an empty one, or an empty list all resolve to `/` |
| `Resolver.ResolveNextRejects` | test.js:175-200 | the absolute and protocol-relative targets of the tests are refused with the fixed message |
| `Resolver.ResolveNextBah` | test.js:154-173 | `next=bah` and `next=/bah` both give `/bah` |
| `Resolver.ResolveNextIdempotent` | index.js:69 | feeding a resolved target back as `next` resolves to the same target |
| `Resolver.ResolveNextLeadingSlash` | index.js:69 | for a value that names no host and does not start with `/`, prefixing `/` changes nothing |
| `Resolver.ResolveNextLeadingSlashHosted` | index.js:66-69 | a value that names a host through its scheme (`http://example.com`) is refused, but with `/` prefixed it is accepted and resolves as the bare value would (`/http:/example.com`) |
| `Negotiation.RedirectTo` | index.js:16-19 | redirects, and only to `/login`, exactly when the most preferred media type is `text/html` or `text/*` |
| `Negotiation.RedirectToExamples` | test.js:63-127 | no Accept header, `*/*` and `text/html;q=0.9, application/json` do not redirect; `text/html` does |
| `Params.DefaultParams` | index.js:10-14 | forwards only `screen`, and does so exactly when its last value is non-empty, with that value |
| `Params.DefaultParamsLastWins` | index.js:12 | a repeated `screen` is forwarded as its last value given alone would be |
| `Params.DefaultParamsExamples` | index.js:13 | no `screen` or an empty one forwards nothing; `[login, signup]` forwards `signup` |
| `Config.FirstBroken` | index.js:23-29 | reports no error exactly when a string keeps every rule of its option; otherwise reports the first rule that it breaks, all earlier rules holding |
| `Config.CheckString` | index.js:23-29 | a string option passes exactly when it is present, a string, non-empty and keeps its rules; it then yields that string; otherwise the error names the option |
| `Config.CheckFunction` | index.js:26-30 | an optional function option passes exactly when it is absent or a function, and it yields the function when present |
| `Config.Validate` | index.js:22-31 | accepts exactly the option sets that meet every constraint of the schema; an accepted configuration keeps the given strings, meets the length and charset rules, defaults `providerParams` when absent, and carries the given `validateFunc` when present; a "required" error names a missing option; a "not allowed" error lists exactly the unknown keys |
| `Config.MissingRequired` | index.js:23-29 | leaving out any of the four required options is refused |
| `Config.ShortSessionSecret` | index.js:29 | a session secret shorter than 32 characters is refused |
| `Config.ValidateMissing` | test.js:47-52 | registering with no options is refused as `auth0Domain` (or the options themselves) being required |
| `Config.ValidateTestOptions` | test.js:18-28 | the options the tests register with are accepted, with the default `providerParams` |
| `UriComponent.Encode` | index.js:112 | the encoded `returnTo` consists of unreserved characters and `%` escapes only |
| `UriComponent.Utf8RoundTrip` | index.js:112 | the UTF-8 bytes written for a character decode back to it |
| `UriComponent.RoundTrip` | index.js:112 | decoding the encoded `returnTo` gives back the original address |
| `Handlers.LoginResponse` | index.js:83-99 | a successful exchange redirects to the resolved `next` or answers its 400 error; a consent rejection (message starting `App rejected`) redirects to `/login`; any other failure is Unauthorized with the provider's message unchanged; a redirect location starts with a single `/`, contains no empty, `.` or `..` segments, and names no host under `UrlType.HasHost` |
| `Handlers.LogoutLocation` | index.js:112-113 | the location starts `https://<domain>/v2/logout?returnTo=`, its `returnTo` decodes to `https://` + host + path and is percent-encoded: every character after the prefix is an unreserved one or the `%` of an escape, so none is `&`, `#`, `?` or `+` |
| `Handlers.LogoutResponse` | index.js:110-114 | logout answers 400 exactly when `next` names a host, never Unauthorized; otherwise it redirects through the provider, the location is exactly `LogoutLocation` of the resolved target (so `returnTo` is percent-encoded, free of `&` and `#`), and it decodes to `https://` + host followed by that target |
| `Handlers.LogoutWithoutNext` | index.js:112-113 | without `next`, logout goes through the provider back to `https://<host>/` |
| `Handlers.Routes.Login` | index.js:83-99 | answers `LoginResponse`; a successful exchange sets the session to exactly `{user: profile}`, and a failed one leaves the session as it was |
| `Handlers.Routes.Logout` | index.js:110-114 | the session is cleared whatever the answer, and the answer is `LogoutResponse` for the plugin's Auth0 domain |

## Left out

- Server plumbing: plugin registration, the route table, `server.auth.strategy` calls and the dependency list (index.js:33-61, 72-82, 102-109, 118-127). These are calls into hapi. The only value recorded is bell's one-day cookie lifetime, as `Handlers.ProviderCookieTtl`.
- The session strategy's own behaviour: how hapi-cookie acts on `redirectTo`, adding `?next=` and the 401 `Missing authentication` body; the cookie attributes; signing and encryption; `clearInvalid`; and calling `validateFunc`. This is library code. `Negotiation.RedirectTo` covers the decision index.js makes.
- The bell OAuth authorisation-code exchange and the redirect to `/authorize`. This is library code; its outcome is the input `AuthState` of `Routes.Login`.
- Calling `providerParams` and `validateFunc`. Functions are opaque identifiers in the model, which checks only that an option is a function and fills in the `defaultParams` default.
- Config.Validate: `min()` counts characters, whereas joi counts UTF-16 code units; the two differ only for characters outside the Basic Multilingual Plane.
- Config.Validate: options can be strings, functions or other values, and a missing options object is modelled. An options argument that is not an object (a number, say) is not modelled. The `NotAllowed` error carries every unknown key, because a Dafny map has no key order; joi names the first unknown key.
- UrlType.HasHost stands in for url-type's `hasHost` on the rule described above. It is not that package's code. Every safety statement about redirect targets ("names no host") is relative to this stand-in.
- Percent-decoding of the query string, which hapi does first. A backslash is an ordinary character to the POSIX resolver and to `UrlType.HasHost`, so `next=/\evil.com` is accepted and redirects to `/\evil.com`. Some browsers read that location as host `evil.com`; the model does not describe how a browser reads a `Location`.
- Credentials' `token`, `refreshToken` and `expiresIn`, which the handlers never read.
