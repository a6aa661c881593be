# GitHub latest-release resolver, modelled in Dafny

This project models the upstream-version lookup for projects hosted on GitHub
(`upstream/github.go`). A repository is an owner/repository pair. The resolver:

1. asks `https://api.github.com/repos/<owner>/<repository>/releases/latest` with a
   GET request, adding `Authorization: token <value>` when a `GITHUB_TOKEN` is set
   and non-empty;
2. sorts the reply by HTTP status. 403 Forbidden comes first (RFC 9110, section
   15.5.4), then 404 Not Found (section 15.5.5), and every other status decodes the
   body as a release;
3. checks the release in a fixed order, where the first rule that applies decides:
   a pre-release is refused, a draft is refused, then the name is used, then the
   tag name, and otherwise the result is "not found". The chosen field has its
   leading `v`s trimmed and is returned as the version.

Everything is pure. `strings.dfy` (module `GoStrings`) holds the `strings`
helpers the model needs: `HasPrefix`, `HasSuffix`, `Contains` and the cutset trim
`TrimLeft`. `github.dfy` (module `GitHub`) holds the identifier and URL rendering,
the error datatype `Err` with its rendering `Render`, the request `NewRequest`, and
the decision functions `Select` (release rules), `Decide` (status classification)
and `LatestVersion` (`latestVersion` from request to result, with the 403 error
corrected as described under Findings).

Inputs that the source takes from the outside world become parameters:

- the token is an `Option<string>`; `None` means the variable is unset;
- a failure of `http.NewRequest` is an `Option<string>` reason;
- `http.DefaultClient.Do` is a function `send: Request -> Reply`, which gives a
  transport failure or a `Response`;
- a `Response` has a status code and says what the body decodes to, once as the
  `gitHubMessage` shape and once as the `gitHubRelease` shape. Each one is
  `Decoded(record)` or `Undecodable(reason)`.

Behaviour of the code worth knowing:

- Only lower-case `v` is trimmed (`strings.TrimLeft(s, "v")`). `"V1.0"` stays
  `"V1.0"` and `"version1.0"` becomes `"ersion1.0"` (`GoStrings.TrimLeftExamples`).
- A release named `"v"` resolves to the empty version. No check ensures a version
  is non-empty (`GitHub.LoneVMeansEmptyVersion`).
- The pre-release and draft errors name the release and the repository, but not
  the URL.
- A 200 reply whose body has the error-message shape decodes as a release with
  every field empty, which leads to "not found" rather than a decode error. In the
  model, the body's decoding is an input, so this depends on the `asRelease` the
  caller gives.

## Model

| member | source | states |
|---|---|---|
| `GitHub.String` | upstream/github.go:19-21 | the identifier is the owner, then one `/`, then the repository, and is exactly that long |
| `GitHub.StringInjective` | upstream/github.go:19-21 | when owners contain no `/`, two repositories with the same identifier are the same repository |
| `GitHub.ReleasesURL` | upstream/github.go:23-26 | the URL is `https://api.github.com/repos/` + identifier + `/releases/latest` |
| `GitHub.ReleasesURLInjective` | upstream/github.go:23-26 | different repositories (owners without `/`) are looked up at different URLs |
| `GitHub.CauseText` | upstream/github.go:28-30 | no contract of its own: the text of the wrapped error, characterised by `GitHub.RenderWrapped` and `GitHub.ForbiddenErrorText` |
| `GitHub.WrapPrefix` | upstream/github.go:28-30 | no contract of its own: the errorWrap prefix, characterised by `GitHub.RenderWrapped`, `GitHub.RenderNamesRepository` and `GitHub.RenderNamesURL` |
| `GitHub.Render` | upstream/github.go:28-34 | no contract of its own: the errorWrap, errorNotFound and pre-release/draft (lines 85, 87) texts, characterised by `GitHub.RenderWrapped` and the `GitHub.RenderNames*` lemmas |
| `GitHub.RenderWrapped` | upstream/github.go:28-30 | an errorWrap error starts with `Failed to obtain GitHub release for <owner/repo> from <url>` and ends with the wrapped error's text |
| `GitHub.RenderNamesRepository` | upstream/github.go:28-34 | every error text contains `owner/repository` |
| `GitHub.RenderNamesURL` | upstream/github.go:28-34 | the errorWrap and errorNotFound texts contain the lookup URL |
| `GitHub.RenderNamesRelease` | upstream/github.go:84-87 | the pre-release and draft errors contain the release name |
| `GitHub.SetHeader` | upstream/github.go:56 | after Header.Set the key has exactly the one value and every other key is unchanged |
| `GitHub.NewRequest` | upstream/github.go:50-57 | a GET to the releases URL; an `Authorization` header is present iff the token is set and non-empty, its value is `token <value>`, and there is no other header |
| `GitHub.EmptyTokenIsNoToken` | upstream/github.go:54-57 | an empty token and an unset one send the same request, with no header |
| `GitHub.AuthorizationCarriesToken` | upstream/github.go:55-56 | the Authorization value contains the token |
| `GitHub.ForbiddenErrorAsWritten` | upstream/github.go:69-75 | as written: on a 403 the error has no text exactly when the body decodes with an empty message; an undecodable body gives the wrapped decode error, and a non-empty message gives the wrapped service message |
| `GitHub.ForbiddenEmptyMessageHasNoText` | upstream/github.go:71-75 | a 403 body `{}` leaves the source's error with no text |
| `GitHub.ForbiddenError` | upstream/github.go:69-75 | a 403 error is always a wrapped error for the repository: it carries the service message if non-empty, else the decode error, else the absence of a message; it agrees with the source wherever the source's error has text |
| `GitHub.ForbiddenErrorText` | upstream/github.go:69-75 | every 403 error starts with the errorWrap prefix and contains a non-empty service message |
| `GitHub.Select` | upstream/github.go:84-95 | success iff not a pre-release, not a draft, and a name or tag is present; the version is the trimmed name, or the trimmed tag when the name is empty; a pre-release fails with the pre-release error even when it is a draft; a non-pre-release draft fails with the draft error; any other failure is not-found |
| `GitHub.Decide` | upstream/github.go:68-95 | 403 gives the forbidden error, 404 the not-found error, and an undecodable release body a wrapped decode error; success iff the status is neither, the body decodes and Select succeeds, and then the result is Select's |
| `GitHub.LatestVersion` | upstream/github.go:50-96 | a request-build failure and a transport failure each give the wrapped error; otherwise the result, success or error, is exactly Decide's on the reply to the request NewRequest builds; success iff neither failure happens and Decide succeeds |
| `GitHub.ForbiddenNeverParsesRelease` | upstream/github.go:69-78 | a 403 always fails with a wrapped error, whatever the body decodes to as a release |
| `GitHub.NotFoundIgnoresBody` | upstream/github.go:76-77 | a 404 fails with the not-found error whatever the body |
| `GitHub.OtherStatusDecodesRelease` | upstream/github.go:80-83 | for other statuses the message shape is never used; an undecodable release gives a wrapped decode error, and a decoded one goes to Select |
| `GitHub.PreReleaseRefusedFirst` | upstream/github.go:84-87 | a pre-release is refused with the pre-release error, and its draft flag does not change the result |
| `GitHub.DraftRefused` | upstream/github.go:86-87 | a draft that is not a pre-release is refused with the draft error |
| `GitHub.NameBeforeTag` | upstream/github.go:88-95 | the name wins over the tag; the tag is used only when the name is empty; with neither, the result equals the result for a 404 |
| `GitHub.VersionIsTrimmedField` | upstream/github.go:88-93 | a successful version is a suffix of the chosen field, does not start with `v`, and only `v`s were removed before it |
| `GitHub.LoneVMeansEmptyVersion` | upstream/github.go:88-90 | a release named `v` resolves successfully to the empty version |
| `GitHub.SelectExamples` | upstream/github.go:88-95 | name `v2.3.1` with tag `v2.3.0` gives `2.3.1`; an empty name with tag `v1.0.0` gives `1.0.0`; both empty gives not-found |
| `GitHub.TokenOnlyShapesRequest` | upstream/github.go:53-62 | the token affects the outcome only through the request it shapes |
| `GitHub.FailuresNameRepository` | upstream/github.go:50-96 | every failure of the corrected resolver has a text that contains `owner/repository` |
| `GoStrings.TrimLeft` | upstream/github.go:89-92 | no contract of its own: `strings.TrimLeft`, characterised by `GoStrings.TrimLeftSpec` and `GoStrings.TrimLeftUnique` |
| `GoStrings.TrimLeftSpec` | upstream/github.go:89-92 | TrimLeft's result is a suffix of the input, is empty or starts outside the cutset, and every removed character is in the cutset |
| `GoStrings.TrimLeftUnique` | upstream/github.go:89-92 | those three facts determine the trim uniquely: any suffix with them is that result |
| `GoStrings.TrimLeftIdempotent` | upstream/github.go:89-92 | trimming twice equals trimming once |
| `GoStrings.TrimLeftUnchanged` | upstream/github.go:89-92 | a string that does not start with a cutset character is returned unchanged |
| `GoStrings.TrimLeftDropsLeading` | upstream/github.go:89-92 | a leading cutset character is dropped, and trimming continues on the rest |
| `GoStrings.TrimLeftExamples` | upstream/github.go:89-92 | `vv1.0` gives `1.0`, `version1.0` gives `ersion1.0`, `v` gives the empty string, `V1.0` and `1.2.3` are unchanged |

## Left out

- Network I/O (`http.NewRequest`, `http.DefaultClient.Do`): their failures and
  the reply are inputs. No timeouts, retries or response-body closing are modelled.
- `os.Getenv("GITHUB_TOKEN")`: the token is a parameter.
- JSON decoding (`encoding/json`): what the body decodes to, as each record shape,
  is an input.
- `PublishedAt` is not modelled: the `Release` datatype has no such field, as the
  decision never consults it. The release's `URL` and the message's
  `DocumentationURL` are fields of the records but are never consulted either.
- go-errors stack traces: errors are a datatype, and `Render` gives their text.
- `req.Header.Set` changes net/http's header object in place. The model builds the
  request as a value and updates its header map with `SetHeader`.
- When `http.NewRequest` fails with a token set, the source calls `Header.Set` on a
  nil request before checking the error and would panic. The model reports the
  wrapped request error in that case.
- GitHub.Decide follows the corrected 403 error: on a 403 whose body decodes with
  an empty message it returns `Wrapped(g, NoServiceMessage)`, where the source
  returns a text-less nil error (see Findings).
- GitHub.LatestVersion follows the corrected 403 error through `Decide`, so in that
  one case it does not return the source's text-less error; the as-written
  behaviour is `GitHub.ForbiddenErrorAsWritten`.
- The text `403 Forbidden`, which the corrected 403 error (cause `NoServiceMessage`)
  gives for a body without a message, is the model's choice. The source has no
  text for this case (see Findings).

## Findings

| source | as written | input that shows it | evidently intended | confidence | as-written member | corrected member |
|---|---|---|---|---|---|---|
| upstream/github.go:71-75 | on a 403 whose body decodes with an empty `message`, `err` stays nil and `errorWrap(nil)` is returned; go-errors' `WrapPrefix` returns a nil `*errors.Error` for a nil error, so the caller gets a non-nil error with no prefix, repository, URL or text (calling `Error()` on it dereferences nil) | status 403 with body `{}` | a wrapped error with the `Failed to obtain GitHub release for <owner/repo> from <url>` prefix, like every other 403 | medium; not executed; relies on go-errors returning nil from `WrapPrefix(nil, …)` | `GitHub.ForbiddenErrorAsWritten` (shown by `GitHub.ForbiddenEmptyMessageHasNoText`) | `GitHub.ForbiddenError` (proved by `GitHub.ForbiddenErrorText`) |
