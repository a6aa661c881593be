/** The GitHub "latest release" resolver of upstream/github.go: the
    identifier and URL it renders, the request it sends, and the decision
    that turns the service's reply into a version or a classified error.
    The network, the process environment and JSON decoding are inputs. */
module GitHub {
  import opened GoStrings

  datatype Option<+T> = None | Some(value: T)

  datatype Result<+T, +E> = Success(value: T) | Failure(error: E)

  /** A repository on GitHub (the `gitHub` record). */
  datatype Repo = Repo(owner: string, repository: string)

  /** The version string handed back to the caller. */
  type Version = string

  const ApiRepos: string := "https://api.github.com/repos/"
  const LatestSuffix: string := "/releases/latest"

  /** HTTP status codes that the resolver tells apart (RFC 9110, sections
      15.5.4 and 15.5.5). */
  const StatusForbidden: int := 403
  const StatusNotFound: int := 404

  // ---------------------------------------------------------------------------
  // Identifier rendering

  /** gitHub.String: "owner/repository". */
  function String(g: Repo): (r: string)
    ensures |r| == |g.owner| + 1 + |g.repository|
    ensures HasPrefix(r, g.owner) && r[|g.owner|] == '/' && HasSuffix(r, g.repository)
  {
    g.owner + "/" + g.repository
  }

  /** gitHub.releasesURL: the "latest release" endpoint of the repository. */
  function ReleasesURL(g: Repo): (r: string)
    ensures r == ApiRepos + String(g) + LatestSuffix
  {
    "https://api.github.com/repos/" + g.owner + "/" + g.repository + "/releases/latest"
  }

  /** Owners never contain '/', so "owner/repository" names one repository. */
  lemma StringInjective(a: Repo, b: Repo)
    requires '/' !in a.owner && '/' !in b.owner
    requires String(a) == String(b)
    ensures a == b
  {
  }

  /** Different repositories are looked up at different URLs. */
  lemma ReleasesURLInjective(a: Repo, b: Repo)
    requires '/' !in a.owner && '/' !in b.owner
    requires ReleasesURL(a) == ReleasesURL(b)
    ensures a == b
  {
    var u := ReleasesURL(a);
    assert String(a) == u[|ApiRepos|..|u| - |LatestSuffix|];
    assert String(b) == u[|ApiRepos|..|u| - |LatestSuffix|];
    StringInjective(a, b);
  }

  // ---------------------------------------------------------------------------
  // Errors

  /** What a wrapped error wraps. */
  datatype Cause =
    | RequestError(reason: string)     // http.NewRequest refused the request
    | TransportError(reason: string)   // http.DefaultClient.Do failed
    | DecodeError(reason: string)      // the body did not decode as JSON of the expected shape
    | ServiceMessage(message: string)  // the non-empty `message` of a 403 body
    | NoServiceMessage                 // a 403 body that decoded with an empty `message`

  /** The errors latestVersion returns, with the context each message names. */
  datatype Err =
    | Wrapped(repo: Repo, cause: Cause)            // gitHub.errorWrap
    | NotFound(repo: Repo)                         // gitHub.errorNotFound
    | PreReleaseIgnored(name: string, repo: Repo)
    | DraftIgnored(name: string, repo: Repo)

  /** The text of the wrapped error (its Error()). */
  function CauseText(c: Cause): string {
    match c
    case RequestError(reason) => reason
    case TransportError(reason) => reason
    case DecodeError(reason) => reason
    case ServiceMessage(message) => message
    case NoServiceMessage => "403 Forbidden"
  }

  /** The prefix errorWrap puts in front of the wrapped error. */
  function WrapPrefix(g: Repo): string {
    "Failed to obtain GitHub release for " + String(g) + " from " + ReleasesURL(g)
  }

  /** The error text, as go-errors renders it ("prefix: wrapped"). */
  function Render(e: Err): string {
    match e
    case Wrapped(g, c) => WrapPrefix(g) + ": " + CauseText(c)
    case NotFound(g) => "No GitHub release found for " + String(g) + " on " + ReleasesURL(g)
    case PreReleaseIgnored(name, g) => "Ignoring GitHub pre-release " + name + " for " + String(g)
    case DraftIgnored(name, g) => "Ignoring GitHub release draft " + name + " for " + String(g)
  }

  /** A wrapped error starts with the repository-and-URL prefix and ends with
      the text of what it wraps. */
  lemma RenderWrapped(g: Repo, c: Cause)
    ensures HasPrefix(Render(Wrapped(g, c)), WrapPrefix(g))
    ensures HasSuffix(Render(Wrapped(g, c)), CauseText(c))
    ensures Contains(Render(Wrapped(g, c)), CauseText(c))
  {
    var s := Render(Wrapped(g, c));
    assert s[..|WrapPrefix(g)|] == WrapPrefix(g);
    assert s[|s| - |CauseText(c)|..] == CauseText(c);
    SuffixContained(s, CauseText(c));
  }

  /** Every error names the repository as "owner/repository". */
  lemma RenderNamesRepository(e: Err)
    ensures Contains(Render(e), String(e.repo))
  {
    var id := String(e.repo);
    match e
    case Wrapped(g, c) =>
      var p := "Failed to obtain GitHub release for ";
      ContainsEnd(p, id);
      ContainsExtend(p + id, id, " from ");
      ContainsExtend(p + id + " from ", id, ReleasesURL(g));
      ContainsExtend(WrapPrefix(g), id, ": ");
      ContainsExtend(WrapPrefix(g) + ": ", id, CauseText(c));
    case NotFound(g) =>
      var p := "No GitHub release found for ";
      ContainsEnd(p, id);
      ContainsExtend(p + id, id, " on ");
      ContainsExtend(p + id + " on ", id, ReleasesURL(g));
    case PreReleaseIgnored(name, g) =>
      ContainsEnd("Ignoring GitHub pre-release " + name + " for ", id);
    case DraftIgnored(name, g) =>
      ContainsEnd("Ignoring GitHub release draft " + name + " for ", id);
  }

  /** The errors built by errorWrap and errorNotFound also name the URL. */
  lemma RenderNamesURL(e: Err)
    requires e.Wrapped? || e.NotFound?
    ensures Contains(Render(e), ReleasesURL(e.repo))
  {
    var url := ReleasesURL(e.repo);
    match e
    case Wrapped(g, c) =>
      ContainsEnd("Failed to obtain GitHub release for " + String(g) + " from ", url);
      ContainsExtend(WrapPrefix(g), url, ": ");
      ContainsExtend(WrapPrefix(g) + ": ", url, CauseText(c));
    case NotFound(g) =>
      ContainsEnd("No GitHub release found for " + String(g) + " on ", url);
  }

  /** The pre-release and draft errors name the release. */
  lemma RenderNamesRelease(e: Err)
    requires e.PreReleaseIgnored? || e.DraftIgnored?
    ensures Contains(Render(e), e.name)
  {
    match e
    case PreReleaseIgnored(name, g) =>
      ContainsEnd("Ignoring GitHub pre-release ", name);
      ContainsExtend("Ignoring GitHub pre-release " + name, name, " for ");
      ContainsExtend("Ignoring GitHub pre-release " + name + " for ", name, String(g));
    case DraftIgnored(name, g) =>
      ContainsEnd("Ignoring GitHub release draft ", name);
      ContainsExtend("Ignoring GitHub release draft " + name, name, " for ");
      ContainsExtend("Ignoring GitHub release draft " + name + " for ", name, String(g));
  }

  // ---------------------------------------------------------------------------
  // The request

  /** net/http's Header: canonical key to values. */
  type Header = map<string, seq<string>>

  datatype Request = Request(verb: string, url: string, header: Header)

  /** Header.Set: the key now has exactly the one value. Go's Header.Set
      first puts the key in canonical MIME form; the model leaves that out,
      as the one key the resolver sets, "Authorization", is already canonical. */
  function SetHeader(h: Header, key: string, value: string): (r: Header)
    ensures key in r && r[key] == [value]
    ensures forall k :: k in r && k != key ==> k in h && r[k] == h[k]
    ensures forall k :: k in h ==> k in r
  {
    h[key := [value]]
  }

  /** The GET request latestVersion sends, with the GITHUB_TOKEN value
      (None when the variable is unset) attached only when it is non-empty. */
  function NewRequest(g: Repo, token: Option<string>): (req: Request)
    ensures req.verb == "GET" && req.url == ReleasesURL(g)
    ensures "Authorization" in req.header <==> token.Some? && token.value != ""
    ensures "Authorization" in req.header ==> req.header["Authorization"] == ["token " + token.value]
    ensures forall k :: k in req.header ==> k == "Authorization"
  {
    var req := Request("GET", ReleasesURL(g), map[]);
    var t := if token.Some? then token.value else "";
    if t != "" then req.(header := SetHeader(req.header, "Authorization", "token " + t)) else req
  }

  /** An unset token and an empty one both send an unauthenticated request. */
  lemma EmptyTokenIsNoToken(g: Repo)
    ensures NewRequest(g, Some("")) == NewRequest(g, None)
    ensures NewRequest(g, None).header == map[]
  {
  }

  /** The Authorization header carries the token itself. */
  lemma AuthorizationCarriesToken(g: Repo, t: string)
    requires t != ""
    ensures Contains(NewRequest(g, Some(t)).header["Authorization"][0], t)
  {
    ContainsEnd("token ", t);
  }

  // ---------------------------------------------------------------------------
  // The reply

  /** The `gitHubMessage` record of a 403 body. */
  datatype Message = Message(message: string, documentationURL: string)

  /** The `gitHubRelease` record (its `published_at` is never consulted). */
  datatype Release = Release(url: string, name: string, tagName: string, prerelease: bool, draft: bool)

  /** How a body decodes as one JSON shape: to a value, or with a decode error. */
  datatype Decoded<+T> = Decoded(value: T) | Undecodable(reason: string)

  /** A response: its status, and what its body decodes to as either record
      shape. The resolver decodes the body as at most one of the two. */
  datatype Response = Response(status: int, asMessage: Decoded<Message>, asRelease: Decoded<Release>)

  /** What http.DefaultClient.Do gives back. */
  datatype Reply = TransportFailed(reason: string) | Replied(response: Response)

  // ---------------------------------------------------------------------------
  // The decision

  /** The error for a 403 response as the source builds it. None stands for
      the nil *errors.Error that errorWrap(nil) returns when the body decodes
      with an empty message: a non-nil error that has no text at all. */
  function ForbiddenErrorAsWritten(g: Repo, body: Decoded<Message>): (e: Option<Err>)
    ensures e.None? <==> body.Decoded? && body.value.message == ""
    ensures e.Some? ==> e.value.Wrapped? && e.value.repo == g
    ensures body.Undecodable? ==> e == Some(Wrapped(g, DecodeError(body.reason)))
    ensures body.Decoded? && body.value.message != "" ==>
      e == Some(Wrapped(g, ServiceMessage(body.value.message)))
  {
    match body
    case Undecodable(reason) => Some(Wrapped(g, DecodeError(reason)))
    case Decoded(m) => if m.message != "" then Some(Wrapped(g, ServiceMessage(m.message))) else None
  }

  /** A body that decodes with an empty message, e.g. `{}`, leaves the 403
      error of the source without text, prefix or repository. */
  lemma ForbiddenEmptyMessageHasNoText(g: Repo)
    ensures ForbiddenErrorAsWritten(g, Decoded(Message("", ""))).None?
  {
  }

  /** The error for a 403 response: always the wrapped form with the
      repository-and-URL prefix, carrying the service message when there is
      one, else the decode error, else the fact that there was no message. */
  function ForbiddenError(g: Repo, body: Decoded<Message>): (e: Err)
    ensures e.Wrapped? && e.repo == g
    ensures body.Undecodable? ==> e.cause == DecodeError(body.reason)
    ensures body.Decoded? && body.value.message != "" ==> e.cause == ServiceMessage(body.value.message)
    ensures body.Decoded? && body.value.message == "" ==> e.cause == NoServiceMessage
    ensures ForbiddenErrorAsWritten(g, body).Some? ==> ForbiddenErrorAsWritten(g, body).value == e
  {
    match body
    case Undecodable(reason) => Wrapped(g, DecodeError(reason))
    case Decoded(m) => Wrapped(g, if m.message != "" then ServiceMessage(m.message) else NoServiceMessage)
  }

  /** Every 403 error starts with the prefix and contains what it wraps:
      the service's message whenever that is non-empty. */
  lemma ForbiddenErrorText(g: Repo, body: Decoded<Message>)
    ensures HasPrefix(Render(ForbiddenError(g, body)),
      "Failed to obtain GitHub release for " + String(g) + " from " + ReleasesURL(g))
    ensures body.Decoded? && body.value.message != "" ==>
      Contains(Render(ForbiddenError(g, body)), body.value.message)
  {
    RenderWrapped(g, ForbiddenError(g, body).cause);
  }

  /** The last selection rules, applied to a decoded release: pre-releases,
      then drafts are refused; otherwise the name, else the tag, with leading
      'v's trimmed; a release with neither is reported as not found. */
  function Select(g: Repo, rel: Release): (r: Result<Version, Err>)
    ensures r.Success? <==> !rel.prerelease && !rel.draft && (rel.name != "" || rel.tagName != "")
    ensures r.Success? && rel.name != "" ==> r.value == TrimLeft(rel.name, "v")
    ensures r.Success? && rel.name == "" ==> r.value == TrimLeft(rel.tagName, "v")
    ensures rel.prerelease ==> r == Failure(PreReleaseIgnored(rel.name, g))
    ensures !rel.prerelease && rel.draft ==> r == Failure(DraftIgnored(rel.name, g))
    ensures !rel.prerelease && !rel.draft && r.Failure? ==> r.error == NotFound(g)
  {
    if rel.prerelease then Failure(PreReleaseIgnored(rel.name, g))
    else if rel.draft then Failure(DraftIgnored(rel.name, g))
    else if rel.name != "" then Success(TrimLeft(rel.name, "v"))
    else if rel.tagName != "" then Success(TrimLeft(rel.tagName, "v"))
    else Failure(NotFound(g))
  }

  /** The classification of a response by its status: 403 first, then 404,
      then every other status decodes the body as a release. */
  function Decide(g: Repo, resp: Response): (r: Result<Version, Err>)
    ensures resp.status == StatusForbidden ==> r == Failure(ForbiddenError(g, resp.asMessage))
    ensures resp.status == StatusNotFound ==> r == Failure(NotFound(g))
    ensures resp.status != StatusForbidden && resp.status != StatusNotFound && resp.asRelease.Undecodable? ==>
      r == Failure(Wrapped(g, DecodeError(resp.asRelease.reason)))
    ensures r.Success? <==> (resp.status != StatusForbidden && resp.status != StatusNotFound
      && resp.asRelease.Decoded? && Select(g, resp.asRelease.value).Success?)
    ensures r.Success? ==> r == Select(g, resp.asRelease.value)
  {
    if resp.status == StatusForbidden then
      Failure(ForbiddenError(g, resp.asMessage))
    else if resp.status == StatusNotFound then
      Failure(NotFound(g))
    else
      match resp.asRelease
      case Undecodable(reason) => Failure(Wrapped(g, DecodeError(reason)))
      case Decoded(rel) => Select(g, rel)
  }

  /** gitHub.latestVersion: build the request (which may fail with
      `requestError`), send it, and decide on the reply. */
  function LatestVersion(g: Repo, token: Option<string>, requestError: Option<string>,
                         send: Request -> Reply): (r: Result<Version, Err>)
    ensures requestError.Some? ==> r == Failure(Wrapped(g, RequestError(requestError.value)))
    ensures requestError.None? && send(NewRequest(g, token)).TransportFailed? ==>
      r == Failure(Wrapped(g, TransportError(send(NewRequest(g, token)).reason)))
    ensures r.Success? <==> (requestError.None? && send(NewRequest(g, token)).Replied?
      && Decide(g, send(NewRequest(g, token)).response).Success?)
    ensures requestError.None? && send(NewRequest(g, token)).Replied? ==>
      r == Decide(g, send(NewRequest(g, token)).response)
  {
    if requestError.Some? then
      Failure(Wrapped(g, RequestError(requestError.value)))
    else
      match send(NewRequest(g, token))
      case TransportFailed(reason) => Failure(Wrapped(g, TransportError(reason)))
      case Replied(resp) => Decide(g, resp)
  }

  // ---------------------------------------------------------------------------
  // Properties of the decision

  /** A 403 always fails, and the release shape of its body is never looked at. */
  lemma ForbiddenNeverParsesRelease(g: Repo, resp: Response, other: Decoded<Release>)
    requires resp.status == StatusForbidden
    ensures Decide(g, resp).Failure? && Decide(g, resp).error.Wrapped?
    ensures Decide(g, resp.(asRelease := other)) == Decide(g, resp)
  {
  }

  /** A 404 fails with the not-found error whatever its body. */
  lemma NotFoundIgnoresBody(g: Repo, resp: Response)
    requires resp.status == StatusNotFound
    ensures Decide(g, resp) == Failure(NotFound(g))
  {
  }

  /** Any other status never looks at the message shape, and a release body
      that does not decode is a wrapped decode error. */
  lemma OtherStatusDecodesRelease(g: Repo, resp: Response, other: Decoded<Message>)
    requires resp.status != StatusForbidden && resp.status != StatusNotFound
    ensures Decide(g, resp.(asMessage := other)) == Decide(g, resp)
    ensures resp.asRelease.Undecodable? ==>
      Decide(g, resp) == Failure(Wrapped(g, DecodeError(resp.asRelease.reason)))
    ensures resp.asRelease.Decoded? ==> Decide(g, resp) == Select(g, resp.asRelease.value)
  {
  }

  /** A pre-release is refused however well-formed its name and tag, and
      before its draft flag is looked at. */
  lemma PreReleaseRefusedFirst(g: Repo, rel: Release)
    requires rel.prerelease
    ensures Select(g, rel) == Failure(PreReleaseIgnored(rel.name, g))
    ensures Select(g, rel.(draft := !rel.draft)) == Select(g, rel)
  {
  }

  /** A draft that is not a pre-release is refused. */
  lemma DraftRefused(g: Repo, rel: Release)
    requires !rel.prerelease && rel.draft
    ensures Select(g, rel) == Failure(DraftIgnored(rel.name, g))
  {
  }

  /** The name wins over the tag; a release with neither is reported exactly
      as a 404 is. */
  lemma NameBeforeTag(g: Repo, rel: Release, resp404: Response)
    requires !rel.prerelease && !rel.draft
    requires resp404.status == StatusNotFound
    ensures rel.name != "" ==> Select(g, rel) == Success(TrimLeft(rel.name, "v"))
    ensures rel.name == "" && rel.tagName != "" ==> Select(g, rel) == Success(TrimLeft(rel.tagName, "v"))
    ensures rel.name == "" && rel.tagName == "" ==> Select(g, rel) == Decide(g, resp404)
  {
  }

  /** A version is the chosen field with its leading 'v's gone: a suffix of
      that field that does not itself start with 'v'. */
  lemma VersionIsTrimmedField(g: Repo, rel: Release)
    requires Select(g, rel).Success?
    ensures var field := if rel.name != "" then rel.name else rel.tagName;
      var v := Select(g, rel).value;
      HasSuffix(field, v) && (v == [] || v[0] != 'v')
      && (forall i :: 0 <= i < |field| - |v| ==> field[i] == 'v')
  {
    TrimLeftSpec(if rel.name != "" then rel.name else rel.tagName, "v");
  }

  /** A release named "v" resolves successfully to the empty version. */
  lemma LoneVMeansEmptyVersion(g: Repo, tag: string)
    ensures Select(g, Release("", "v", tag, false, false)) == Success("")
  {
    assert "v"[1..] == "";
  }

  /** The concrete cases: name wins, the tag is the fallback, 'V' is kept. */
  lemma SelectExamples(g: Repo)
    ensures Select(g, Release("", "v2.3.1", "v2.3.0", false, false)) == Success("2.3.1")
    ensures Select(g, Release("", "", "v1.0.0", false, false)) == Success("1.0.0")
    ensures Select(g, Release("", "", "", false, false)) == Failure(NotFound(g))
  {
    assert "v2.3.1"[1..] == "2.3.1";
    assert "v1.0.0"[1..] == "1.0.0";
  }

  /** The token decides only the request: if the service answers both
      requests alike, the outcome is the same. */
  lemma TokenOnlyShapesRequest(g: Repo, t1: Option<string>, t2: Option<string>,
                               requestError: Option<string>, send: Request -> Reply)
    requires send(NewRequest(g, t1)) == send(NewRequest(g, t2))
    ensures LatestVersion(g, t1, requestError, send) == LatestVersion(g, t2, requestError, send)
  {
  }

  /** Every failure of latestVersion names the repository. */
  lemma FailuresNameRepository(g: Repo, token: Option<string>, requestError: Option<string>,
                               send: Request -> Reply)
    requires LatestVersion(g, token, requestError, send).Failure?
    ensures Contains(Render(LatestVersion(g, token, requestError, send).error), String(g))
  {
    var e := LatestVersion(g, token, requestError, send).error;
    assert e.repo == g;
    RenderNamesRepository(e);
  }
}
