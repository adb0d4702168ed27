/**
 Redirect chains: the policy of src/redirect.rs driven by the response future of
 src/client/layer/redirect/future.rs.
 */
module Redirect {
  import opened Wrappers
  import opened Text
  import opened Uris
  import R = Referrer

  /** The Referrer-Policy values and the resolved location are read off the headers. */
  datatype Response = Response(
    status: nat,
    policyValues: seq<Option<string>>,
    location: Option<Uri>,
    headers: map<string, seq<string>>
  )

  datatype Verdict = Follow | Stop | Fail(reason: string)

  /** `Later` is a pending action with the verdict its future comes to. */
  datatype Action = Now(verdict: Verdict) | Later(verdict: Verdict)

  /** `Custom` policies decide from the response, the next URI and the URIs so far. */
  datatype Policy = Limit(max: nat) | NoRedirect | Custom(decide: (Response, Uri, seq<Uri>) -> Action)

  /** `Raw` is the error of an awaited verdict, passed on as it is. */
  datatype RedirectError = TooManyRedirects | Rejected(reason: string) | BadScheme | Raw(reason: string)

  datatype Decision = Proceed | Return | Error(error: RedirectError) | Await(verdict: Verdict)

  datatype HistoryEntry = HistoryEntry(status: nat, uri: Uri, previous: Uri, headers: map<string, seq<string>>)

  datatype Verb = Get | Head | Post | OtherVerb(name: string)

  /** The Referer field is kept apart from the other headers. */
  datatype Request = Request(verb: Verb, uri: Uri, headers: map<string, seq<string>>, referer: Option<R.Value>)

  const SENSITIVE: set<string> := {"authorization", "cookie", "cookie2", "proxy-authorization", "www-authenticate"}
  const PAYLOAD: set<string> := {"content-type", "content-length", "content-encoding", "transfer-encoding"}

  predicate SameOrigin(left: Uri, right: Uri) {
    && (match (left.host, right.host)
        case (Some(a), Some(b)) => EqIgnoreAsciiCase(a, b)
        case (None, None) => true
        case _ => false)
    && left.scheme == right.scheme
    && left.PortOrDefault() == right.PortOrDefault()
  }

  lemma SameOriginIsEquivalence(a: Uri, b: Uri, c: Uri)
    ensures SameOrigin(a, a)
    ensures SameOrigin(a, b) ==> SameOrigin(b, a)
    ensures SameOrigin(a, b) && SameOrigin(b, c) ==> SameOrigin(a, c)
  {
  }

  /** The request carries credentials or cookies. */
  predicate HasSensitive(request: Request) {
    || "authorization" in request.headers || "cookie" in request.headers || "cookie2" in request.headers
    || "proxy-authorization" in request.headers || "www-authenticate" in request.headers
  }

  // ---------- the policy object ----------

  datatype PolicyState = PolicyState(
    policy: Policy,
    httpsOnly: bool,
    referrer: Option<R.State>,
    uris: seq<Uri>,
    history: seq<HistoryEntry>
  )

  /** The answer of the configured policy. */
  function Check(policy: Policy, response: Response, next: Uri, previous: seq<Uri>): Action {
    match policy
    case Custom(decide) => decide(response, next, previous)
    case Limit(max) => Now(if |previous| > max then Fail("too many redirects") else Follow)
    case NoRedirect => Now(Stop)
  }

  function OnRedirect(s: PolicyState, response: Response, next: Uri, previous: Uri): (PolicyState, Decision) {
    var seen := s.(uris := s.uris + [previous],
                   referrer := if s.referrer.Some? then Some(R.Redirected(s.referrer.value, response.policyValues)) else None);
    match Check(s.policy, response, next, seen.uris)
    case Later(verdict) => (seen, Await(verdict))
    case Now(Fail(reason)) => (seen, Error(if s.policy.Limit? then TooManyRedirects else Rejected(reason)))
    case Now(Stop) => (seen, Return)
    case Now(Follow) =>
      if !(next.IsHttp() || next.IsHttps()) || (s.httpsOnly && !next.IsHttps()) then (seen, Error(BadScheme))
      else (seen.(history := s.history + [HistoryEntry(response.status, next, previous, response.headers)]), Proceed)
  }

  function WithoutSensitive(request: Request, previous: seq<Uri>): Request {
    if previous != [] && !SameOrigin(request.uri, previous[|previous| - 1]) then
      request.(headers := request.headers - SENSITIVE)
    else request
  }

  function OnRequest(syntax: R.UrlSyntax, s: PolicyState, request: Request): (PolicyState, Request) {
    var cleaned := WithoutSensitive(request, s.uris);
    if s.uris != [] && s.referrer.Some? then
      var (carried, field) := R.Applied(syntax, s.referrer.value, request.referer, request.uri);
      (s.(referrer := Some(carried)), cleaned.(referer := field))
    else (s, cleaned)
  }

  class FollowRedirectPolicy {
    const policy: Policy
    const httpsOnly: bool
    const syntax: R.UrlSyntax
    const referrer: R.Carrier?
    var uris: seq<Uri>
    var history: seq<HistoryEntry>

    ghost predicate Valid() {
      referrer != null ==> referrer.syntax == syntax
    }

    ghost function View(): PolicyState
      reads this, referrer
    {
      PolicyState(policy, httpsOnly, if referrer == null then None else Some(referrer.View()), uris, history)
    }

    /** The policy of one request: `referrer` holds the captured Referer when automatic Referer is on. */
    constructor (policy: Policy, httpsOnly: bool, syntax: R.UrlSyntax, referrer: R.Carrier?)
      requires referrer != null ==> referrer.syntax == syntax
      ensures Valid() && this.policy == policy && this.syntax == syntax && this.referrer == referrer
      ensures View() == PolicyState(policy, httpsOnly, if referrer == null then None else Some(referrer.View()), [], [])
    {
      this.policy, this.httpsOnly, this.syntax, this.referrer := policy, httpsOnly, syntax, referrer;
      uris, history := [], [];
    }

    method Redirect(response: Response, next: Uri, previous: Uri) returns (decision: Decision)
      requires Valid()
      modifies this, referrer
      ensures (View(), decision) == OnRedirect(old(View()), response, next, previous)
    {
      uris := uris + [previous];
      if referrer != null {
        referrer.OnRedirect(response.policyValues);
      }
      var action := Check(policy, response, next, uris);
      match action {
        case Later(verdict) => return Await(verdict);
        case Now(Fail(reason)) => return Error(if policy.Limit? then TooManyRedirects else Rejected(reason));
        case Now(Stop) => return Return;
        case Now(Follow) =>
          if !(next.IsHttp() || next.IsHttps()) {
            return Error(BadScheme);
          }
          if httpsOnly && !next.IsHttps() {
            return Error(BadScheme);
          }
          if !policy.NoRedirect? {
            history := history + [HistoryEntry(response.status, next, previous, response.headers)];
          }
          return Proceed;
      }
    }

    method PrepareRequest(request: Request) returns (prepared: Request)
      requires Valid()
      modifies this, referrer
      ensures (View(), prepared) == OnRequest(syntax, old(View()), request)
    {
      prepared := RemoveSensitiveHeaders(request, uris);
      if uris != [] && referrer != null {
        var field := referrer.Apply(request.referer, request.uri);
        prepared := prepared.(referer := field);
      }
    }

    /** The history goes with the response it is attached to. */
    method TakeHistory() returns (taken: seq<HistoryEntry>)
      modifies this`history
      ensures View() == old(View()).(history := []) && taken == old(history)
    {
      taken := history;
      history := [];
    }

    static method RemoveSensitiveHeaders(request: Request, previous: seq<Uri>) returns (cleaned: Request)
      ensures cleaned == WithoutSensitive(request, previous)
    {
      cleaned := request;
      if previous != [] && !SameOrigin(request.uri, previous[|previous| - 1]) {
        var headers := request.headers;
        headers := headers - {"authorization"};
        headers := headers - {"cookie"};
        headers := headers - {"cookie2"};
        headers := headers - {"proxy-authorization"};
        headers := headers - {"www-authenticate"};
        assert headers == request.headers - SENSITIVE;
        cleaned := request.(headers := headers);
      }
    }
  }

  // ---------- the chain ----------

  /** `Streaming` bodies cannot be cloned; `exactlyEmpty` ones report a size of zero. */
  datatype Body = Bytes(data: seq<int>) | Streaming(source: nat, exactlyEmpty: bool)

  const EMPTY_BODY := Bytes([])

  datatype BodyRepr = Kept(body: Body) | Empty | Gone {
    function Taken(): (Option<Body>, BodyRepr) {
      match this
      case Kept(body) => (Some(body), Gone)
      case Empty => (Some(EMPTY_BODY), Empty)
      case Gone => (None, Gone)
    }

    function CloneFrom(body: Body): BodyRepr {
      if !Gone? then this
      else if body == EMPTY_BODY || (body.Streaming? && body.exactlyEmpty) then Kept(EMPTY_BODY)
      else if body.Bytes? then Kept(body)
      else this
    }
  }

  /** `awaited` requests were followed on a pending verdict. */
  datatype Sent = Sent(request: Request, body: Body, awaited: bool)

  /** An answer carries the history if it is handed out with it. */
  datatype End = Answered(status: nat, history: seq<HistoryEntry>) | Refused(error: RedirectError)

  datatype Chain = Chain(policy: PolicyState, request: Request, body: BodyRepr, sent: seq<Sent>, end: Option<End>)

  /** The first request goes out as the caller made it. */
  function Start(policy: Policy, httpsOnly: bool, referrer: Option<R.State>, request: Request, body: Body): Chain {
    Chain(PolicyState(policy, httpsOnly, referrer, [], []), request, Gone.CloneFrom(body), [Sent(request, body, false)], None)
  }

  function DropPayload(request: Request): Request {
    request.(headers := request.headers - PAYLOAD)
  }

  predicate IsRedirect(status: nat) {
    status in {301, 302, 303, 307, 308}
  }

  /** The method, headers and body that a redirect status asks for. */
  function Rewritten(c: Chain, status: nat): (Request, BodyRepr) {
    if status == 301 || status == 302 then
      if c.request.verb.Post? then (DropPayload(c.request).(verb := Get), Empty) else (c.request, c.body)
    else if status == 303 then
      (DropPayload(c.request).(verb := if c.request.verb.Head? then Head else Get), Empty)
    else (c.request, c.body)
  }

  function Step(syntax: R.UrlSyntax, c: Chain, response: Response): Chain {
    if c.end.Some? then c
    else if !IsRedirect(response.status) then
      c.(policy := c.policy.(history := []), end := Some(Answered(response.status, c.policy.history)))
    else
      var (request, repr) := Rewritten(c, response.status);
      var (taken, left) := repr.Taken();
      if taken.None? || response.location.None? then
        c.(request := request, body := left, end := Some(Answered(response.status, [])))
      else
        var (policy, decision) := OnRedirect(c.policy, response, response.location.value, request.uri);
        Decided(syntax, Chain(policy, request, left, c.sent, None), response.status, response.location.value, taken.value, decision)
  }

  /** What a decision comes to, awaited where it is pending. */
  function Decided(syntax: R.UrlSyntax, c: Chain, status: nat, location: Uri, body: Body, decision: Decision): Chain {
    match decision
    case Error(error) => c.(end := Some(Refused(error)))
    case Return => c.(end := Some(Answered(status, [])))
    case Proceed => Followed(syntax, c, location, body, false)
    case Await(Fail(reason)) => c.(end := Some(Refused(Raw(reason))))
    case Await(Stop) => c.(end := Some(Answered(status, [])))
    case Await(Follow) => Followed(syntax, c, location, body, true)
  }

  /** The next request goes to the location with the body taken. */
  function Followed(syntax: R.UrlSyntax, c: Chain, location: Uri, body: Body, awaited: bool): Chain {
    var (policy, request) := OnRequest(syntax, c.policy, c.request.(uri := location));
    Chain(policy, request, c.body.CloneFrom(body), c.sent + [Sent(request, body, awaited)], None)
  }

  function Run(syntax: R.UrlSyntax, c: Chain, responses: seq<Response>): Chain
    decreases |responses|
  {
    if responses == [] then c
    else Step(syntax, Run(syntax, c, responses[..|responses| - 1]), responses[|responses| - 1])
  }

  /** The response future: it owns the policy, the request template and the body. */
  class ResponseFuture {
    const policy: FollowRedirectPolicy
    var request: Request
    var body: BodyRepr
    var sent: seq<Sent>
    var end: Option<End>

    ghost predicate Valid()
      reads policy
    {
      policy.Valid()
    }

    ghost function View(): Chain
      reads this, policy, policy.referrer
    {
      Chain(policy.View(), request, body, sent, end)
    }

    constructor (policy: FollowRedirectPolicy, request: Request, body: Body)
      requires policy.Valid() && policy.uris == [] && policy.history == []
      modifies policy, policy.referrer
      ensures Valid() && this.policy == policy
      ensures View() == Start(policy.policy, policy.httpsOnly, old(policy.View()).referrer, request, body)
    {
      this.policy := policy;
      this.body := Gone.CloneFrom(body);
      end := None;
      this.request := request;
      sent := [];
      new;
      var prepared := policy.PrepareRequest(request);
      this.request := prepared;
      sent := [Sent(prepared, body, false)];
    }

    /** Changes method, headers and body as a redirect status asks. */
    method Rewrite(status: nat)
      requires IsRedirect(status)
      modifies this`request, this`body
      ensures (request, body) == Rewritten(old(View()), status)
    {
      hide DropPayload;
      if status == 301 || status == 302 {
        if request.verb.Post? {
          request := DropPayload(request).(verb := Get);
          body := Empty;
        }
      } else if status == 303 {
        request := DropPayload(request).(verb := if request.verb.Head? then Head else Get);
        body := Empty;
      }
    }

    method OnResponse(response: Response)
      requires Valid() && end.None?
      modifies this, policy, policy.referrer
      ensures Valid()
      ensures View() == Step(policy.syntax, old(View()), response)
    {
      hide OnRequest, OnRedirect, Rewritten, FollowRedirectPolicy.Valid;
      var status := response.status;
      if !IsRedirect(status) {
        var history := policy.TakeHistory();
        end := Some(Answered(status, history));
        return;
      }
      Rewrite(status);
      var (taken, left) := body.Taken();
      body := left;
      if taken.None? || response.location.None? {
        end := Some(Answered(status, []));
        return;
      }
      var decision := policy.Redirect(response, response.location.value, request.uri);
      match decision {
        case Error(error) => end := Some(Refused(error));
        case Return => end := Some(Answered(status, []));
        case Proceed => FollowTo(response.location.value, taken.value, false);
        case Await(Fail(reason)) => end := Some(Refused(Raw(reason)));
        case Await(Stop) => end := Some(Answered(status, []));
        case Await(Follow) => FollowTo(response.location.value, taken.value, true);
      }
    }

    /** What following comes to, awaited or not. */
    method FollowTo(location: Uri, taken: Body, awaited: bool)
      requires Valid() && end.None?
      modifies this`request, this`body, this`sent, policy, policy.referrer
      ensures Valid()
      ensures View() == Followed(policy.syntax, old(View()), location, taken, awaited)
    {
      hide OnRequest, FollowRedirectPolicy.Valid;
      body := body.CloneFrom(taken);
      var prepared := policy.PrepareRequest(request.(uri := location));
      request := prepared;
      sent := sent + [Sent(prepared, taken, awaited)];
    }
  }

  // ---------- invariants of every chain ----------

  /** The hops that were followed at once, each with where it came from. */
  function Recorded(sent: seq<Sent>): seq<(Uri, Uri)> {
    if |sent| <= 1 then []
    else
      var n := |sent| - 1;
      Recorded(sent[..n]) + if sent[n].awaited then [] else [(sent[n - 1].request.uri, sent[n].request.uri)]
  }

  function Links(history: seq<HistoryEntry>): (links: seq<(Uri, Uri)>)
    ensures |links| == |history|
    ensures forall i :: 0 <= i < |history| ==> links[i] == (history[i].previous, history[i].uri)
  {
    seq(|history|, i requires 0 <= i < |history| => (history[i].previous, history[i].uri))
  }

  /** The history of a chain, handed out or not. */
  function HistoryOf(c: Chain): seq<HistoryEntry> {
    match c.end
    case Some(Answered(_, history)) => if history != [] then history else c.policy.history
    case _ => c.policy.history
  }

  /** The history links exactly the requests that were followed at once. */
  ghost predicate LinkInv(c: Chain) {
    && c.sent != []
    && (c.end.None? ==>
          && c.request == c.sent[|c.sent| - 1].request
          && |c.policy.uris| == |c.sent| - 1
          && forall i :: 0 <= i < |c.policy.uris| ==> c.policy.uris[i] == c.sent[i].request.uri)
    && Links(HistoryOf(c)) == Recorded(c.sent)
  }

  lemma RecordedSnoc(sent: seq<Sent>, next: Sent)
    requires sent != []
    ensures Recorded(sent + [next]) ==
            Recorded(sent) + if next.awaited then [] else [(sent[|sent| - 1].request.uri, next.request.uri)]
  {
    assert (sent + [next])[..|sent|] == sent;
  }

  lemma LinksSnoc(history: seq<HistoryEntry>, e: HistoryEntry)
    ensures Links(history + [e]) == Links(history) + [(e.previous, e.uri)]
  {
  }

  /** Without awaited hops the history links each request to the next. */
  lemma {:induction false} RecordedIsComplete(sent: seq<Sent>)
    requires sent != [] && AllAtOnce(sent)
    ensures |Recorded(sent)| == |sent| - 1
    ensures forall i :: 0 <= i < |sent| - 1 ==> Recorded(sent)[i] == (sent[i].request.uri, sent[i + 1].request.uri)
  {
    if |sent| > 1 {
      RecordedIsComplete(sent[..|sent| - 1]);
    }
  }

  /** A request that carries a sensitive header goes to the origin of all requests before it. */
  ghost predicate SensitiveInv(c: Chain) {
    forall i, k :: 0 <= i <= k < |c.sent| && HasSensitive(c.sent[k].request) ==>
      SameOrigin(c.sent[i].request.uri, c.sent[k].request.uri)
  }

  /** What was followed at once passed the scheme checks; an awaited verdict is not checked again. */
  ghost predicate SchemeInv(c: Chain) {
    forall i :: 0 < i < |c.sent| && !c.sent[i].awaited ==> Allowed(c.sent[i].request.uri, c.policy.httpsOnly)
  }

  /** What the scheme checks let through. */
  predicate Allowed(uri: Uri, httpsOnly: bool) {
    (uri.IsHttp() || uri.IsHttps()) && (httpsOnly ==> uri.IsHttps())
  }

  /** Later requests carry the original bytes or nothing; a stream goes out once. */
  ghost predicate BodyInv(c: Chain) {
    && c.sent != []
    && (forall i :: 0 < i < |c.sent| ==> c.sent[i].body.Bytes? && (c.sent[i].body == EMPTY_BODY || c.sent[i].body == c.sent[0].body))
    && (c.body.Kept? ==> c.body.body.Bytes? && (c.body.body == EMPTY_BODY || c.body.body == c.sent[0].body))
  }

  /** One more request sent, and recorded unless it was awaited. */
  predicate OneHop(c: Chain, c': Chain, response: Response, body: Body, awaited: bool) {
    && c'.sent == c.sent + [Sent(c'.request, body, awaited)]
    && c'.policy.history == c.policy.history + if awaited then [] else [HistoryEntry(response.status, c'.request.uri, c.request.uri, response.headers)]
  }

  /** A step ends the chain with nothing more sent, or sends one more request and records the hop. */
  lemma StepShape(syntax: R.UrlSyntax, c: Chain, response: Response)
    ensures var c' := Step(syntax, c, response);
            if c'.end.Some? then c'.sent == c.sent && HistoryOf(c') == HistoryOf(c)
            else
              && c.end.None?
              && c'.policy.uris == c.policy.uris + [c.request.uri]
              && exists body, awaited :: OneHop(c, c', response, body, awaited)
  {
    hide Decided, OnRedirect, Rewritten, BodyRepr.Taken;
    var c' := Step(syntax, c, response);
    RewritingAddsNothing(c, response.status);
    if c.end.None? && IsRedirect(response.status) && response.location.Some? {
      var (rewritten, repr) := Rewritten(c, response.status);
      var (taken, left) := repr.Taken();
      if taken.Some? {
        var location := response.location.value;
        var (policy, decision) := OnRedirect(c.policy, response, location, rewritten.uri);
        TrailGrows(c.policy, response, location, rewritten.uri);
        DecidedShape(syntax, Chain(policy, rewritten, left, c.sent, None), response.status, location, taken.value, decision);
        assert c'.end.None? ==> OneHop(c, c', response, taken.value, decision.Await?);
      }
    }
  }

  /** One response adds the URI it came from to the trail, and a hop to the history if it is followed at once. */
  lemma TrailGrows(s: PolicyState, response: Response, next: Uri, previous: Uri)
    ensures var (s', decision) := OnRedirect(s, response, next, previous);
            && s'.uris == s.uris + [previous]
            && s'.history == if decision.Proceed? then s.history + [HistoryEntry(response.status, next, previous, response.headers)] else s.history
  {
    hide Check, R.Redirected;
  }

  lemma DecidedShape(syntax: R.UrlSyntax, c: Chain, status: nat, location: Uri, body: Body, decision: Decision)
    requires c.end.None?
    ensures var c' := Decided(syntax, c, status, location, body, decision);
            && c'.policy.uris == c.policy.uris && c'.policy.history == c.policy.history
            && (c'.end.None? <==> decision.Proceed? || decision == Await(Follow))
            && (c'.end.None? ==> c'.request.uri == location && c'.sent == c.sent + [Sent(c'.request, body, decision.Await?)])
            && (c'.end.Some? ==> c'.sent == c.sent && !decision.Proceed? && HistoryOf(c') == c'.policy.history)
  {
    hide Followed;
    FollowedShape(syntax, c, location, body, false);
    FollowedShape(syntax, c, location, body, true);
  }

  /** Following keeps the trail so far and goes to the location. */
  lemma FollowedShape(syntax: R.UrlSyntax, c: Chain, location: Uri, body: Body, awaited: bool)
    ensures var c' := Followed(syntax, c, location, body, awaited);
            && c'.end.None? && c'.request.uri == location && c'.policy.uris == c.policy.uris && c'.policy.history == c.policy.history
            && c'.sent == c.sent + [Sent(c'.request, body, awaited)]
  {
    hide R.Applied, SameOrigin, BodyRepr.CloneFrom;
  }

  lemma StepKeepsLinks(syntax: R.UrlSyntax, c: Chain, response: Response)
    requires LinkInv(c)
    ensures LinkInv(Step(syntax, c, response))
  {
    StepShape(syntax, c, response);
    var c' := Step(syntax, c, response);
    hide Step, Links, Recorded;
    if c'.end.None? {
      var body, awaited :| OneHop(c, c', response, body, awaited);
      RecordedSnoc(c.sent, Sent(c'.request, body, awaited));
      if awaited {
        assert c'.policy.history == c.policy.history;
      } else {
        LinksSnoc(c.policy.history, HistoryEntry(response.status, c'.request.uri, c.request.uri, response.headers));
      }
    }
  }

  lemma StepKeepsSensitive(syntax: R.UrlSyntax, c: Chain, response: Response)
    requires LinkInv(c) && SensitiveInv(c)
    ensures SensitiveInv(Step(syntax, c, response))
  {
    var c' := Step(syntax, c, response);
    StepShape(syntax, c, response);
    NewRequestIsClean(syntax, c, response);
    var n := |c.sent|;
    hide Step, HasSensitive, SameOrigin;
    if |c'.sent| > n {
      forall i | 0 <= i <= n && HasSensitive(c'.sent[n].request)
        ensures SameOrigin(c'.sent[i].request.uri, c'.sent[n].request.uri)
      {
        if i < n {
          assert SameOrigin(c.sent[i].request.uri, c.sent[n - 1].request.uri);
          SameOriginIsEquivalence(c.sent[n - 1].request.uri, c'.sent[n].request.uri, c.sent[i].request.uri);
          SameOriginIsEquivalence(c'.sent[n].request.uri, c.sent[n - 1].request.uri, c.sent[i].request.uri);
          SameOriginIsEquivalence(c.sent[i].request.uri, c.sent[n - 1].request.uri, c'.sent[n].request.uri);
        } else {
          SameOriginIsEquivalence(c'.sent[n].request.uri, c'.sent[n].request.uri, c'.sent[n].request.uri);
        }
      }
    }
  }

  /** A sensitive header survives a hop only within one origin, and only if it was there before. */
  lemma NewRequestIsClean(syntax: R.UrlSyntax, c: Chain, response: Response)
    requires LinkInv(c)
    ensures var c' := Step(syntax, c, response);
            var n := |c.sent|;
            |c'.sent| > n && HasSensitive(c'.sent[n].request) ==>
              HasSensitive(c.sent[n - 1].request) && SameOrigin(c'.sent[n].request.uri, c.sent[n - 1].request.uri)
  {
    var (rewritten, _) := Rewritten(c, response.status);
    RewritingAddsNothing(c, response.status);
    var c' := Step(syntax, c, response);
    if |c'.sent| > |c.sent| {
      var location := rewritten.(uri := response.location.value);
      var policy := OnRedirect(c.policy, response, response.location.value, rewritten.uri).0;
      CleaningKeepsOrigin(syntax, policy, location);
      assert c'.sent[|c.sent|].request == OnRequest(syntax, policy, location).1;
    }
    hide HasSensitive, SameOrigin, OnRequest, Rewritten, Check, R.Redirected;
  }

  lemma RewritingAddsNothing(c: Chain, status: nat)
    ensures Rewritten(c, status).0.uri == c.request.uri
    ensures HasSensitive(Rewritten(c, status).0) ==> HasSensitive(c.request)
  {
  }

  /** A sensitive header passes only on a request to the origin of the last URI. */
  lemma CleaningKeepsOrigin(syntax: R.UrlSyntax, s: PolicyState, request: Request)
    ensures var prepared := OnRequest(syntax, s, request).1;
            && prepared.uri == request.uri
            && (HasSensitive(prepared) ==> HasSensitive(request) && (s.uris != [] ==> SameOrigin(request.uri, s.uris[|s.uris| - 1])))
  {
    hide SameOrigin, R.Applied;
  }

  lemma StepKeepsSchemes(syntax: R.UrlSyntax, c: Chain, response: Response)
    requires SchemeInv(c)
    ensures SchemeInv(Step(syntax, c, response))
    ensures Step(syntax, c, response).policy.httpsOnly == c.policy.httpsOnly
    ensures Step(syntax, c, response).policy.policy == c.policy.policy
  {
    hide R.Applied, R.Redirected, SameOrigin, BodyRepr.CloneFrom, BodyRepr.Taken;
  }

  lemma RewritingKeepsBody(c: Chain, status: nat)
    ensures Rewritten(c, status).1 == Empty || Rewritten(c, status).1 == c.body
  {
  }

  lemma StepKeepsBody(syntax: R.UrlSyntax, c: Chain, response: Response)
    requires BodyInv(c)
    ensures BodyInv(Step(syntax, c, response))
    ensures Step(syntax, c, response).sent[0] == c.sent[0]
  {
    RewritingKeepsBody(c, response.status);
    hide OnRequest, OnRedirect, Rewritten;
  }

  /**
   Over every chain of responses: a sensitive header reaches only the origin that all earlier requests
   of the chain went to, even if the chain comes back later; URIs followed at once are http or https, and
   https where that is required; the history links exactly those requests; a body is resent intact or
   empty, and a stream is never sent twice.
   */
  lemma {:induction false} ChainIsSafe(syntax: R.UrlSyntax, policy: Policy, httpsOnly: bool, referrer: Option<R.State>,
                                       request: Request, body: Body, responses: seq<Response>)
    ensures var c := Run(syntax, Start(policy, httpsOnly, referrer, request, body), responses);
            && LinkInv(c) && SensitiveInv(c) && SchemeInv(c) && BodyInv(c)
            && c.sent[0] == Sent(request, body, false) && c.policy.httpsOnly == httpsOnly && c.policy.policy == policy
  {
    if responses != [] {
      var init, last := responses[..|responses| - 1], responses[|responses| - 1];
      var c := Run(syntax, Start(policy, httpsOnly, referrer, request, body), init);
      ChainIsSafe(syntax, policy, httpsOnly, referrer, request, body, init);
      StepKeepsLinks(syntax, c, last);
      StepKeepsSensitive(syntax, c, last);
      StepKeepsSchemes(syntax, c, last);
      StepKeepsBody(syntax, c, last);
    } else {
      SameOriginIsEquivalence(request.uri, request.uri, request.uri);
    }
  }

  // ---------- when a hop goes unchecked and unrecorded ----------

  /** A redirect with a location and a body at hand that a pending verdict says to follow. */
  predicate Awaits(c: Chain, response: Response) {
    && c.end.None? && IsRedirect(response.status) && response.location.Some? && !Rewritten(c, response.status).1.Gone?
    && Check(c.policy.policy, response, response.location.value, c.policy.uris + [c.request.uri]) == Later(Follow)
  }

  /** Such a redirect to a location that the scheme checks would have stopped. */
  predicate Escapes(c: Chain, response: Response) {
    Awaits(c, response) && !Allowed(response.location.value, c.policy.httpsOnly)
  }

  /** The next request is an awaited one exactly under `Awaits`. */
  lemma HopAwaitedIff(syntax: R.UrlSyntax, c: Chain, response: Response)
    requires c.end.None?
    ensures var c' := Step(syntax, c, response);
            |c'.sent| > |c.sent| && c'.sent[|c.sent|].awaited <==> Awaits(c, response)
  {
    RewritingAddsNothing(c, response.status);
    hide OnRequest, Rewritten, Check, R.Redirected, BodyRepr.CloneFrom;
  }

  /** The next request goes where the scheme checks would not let it exactly under `Escapes`. */
  lemma HopEscapesIff(syntax: R.UrlSyntax, c: Chain, response: Response)
    requires c.end.None?
    ensures var c' := Step(syntax, c, response);
            |c'.sent| > |c.sent| && !Allowed(c'.sent[|c.sent|].request.uri, c.policy.httpsOnly) <==> Escapes(c, response)
  {
    var c' := Step(syntax, c, response);
    StepShape(syntax, c, response);
    HopAwaitedIff(syntax, c, response);
    HopGoesToLocation(syntax, c, response);
    hide Step, Awaits, Allowed;
  }

  /** A hop goes to the location of the response, and one followed at once only where the checks allow. */
  lemma HopGoesToLocation(syntax: R.UrlSyntax, c: Chain, response: Response)
    ensures var c' := Step(syntax, c, response);
            |c'.sent| > |c.sent| ==>
              && response.location.Some? && c'.sent[|c.sent|].request.uri == response.location.value
              && (!c'.sent[|c.sent|].awaited ==> Allowed(response.location.value, c.policy.httpsOnly))
  {
    hide Rewritten, Check, R.Redirected, R.Applied, SameOrigin, BodyRepr.CloneFrom;
  }

  /** No response of the run met `Escapes`. */
  predicate NoneEscapes(syntax: R.UrlSyntax, start: Chain, responses: seq<Response>) {
    responses == [] ||
    (&& NoneEscapes(syntax, start, responses[..|responses| - 1])
     && !Escapes(Run(syntax, start, responses[..|responses| - 1]), responses[|responses| - 1]))
  }

  /** No response of the run met `Awaits`. */
  predicate NoneAwaits(syntax: R.UrlSyntax, start: Chain, responses: seq<Response>) {
    responses == [] ||
    (&& NoneAwaits(syntax, start, responses[..|responses| - 1])
     && !Awaits(Run(syntax, start, responses[..|responses| - 1]), responses[|responses| - 1]))
  }

  /** Every request after the first passes the scheme checks. */
  predicate AllChecked(sent: seq<Sent>, httpsOnly: bool) {
    forall i :: 0 < i < |sent| ==> Allowed(sent[i].request.uri, httpsOnly)
  }

  /** Every request after the first was followed at once. */
  predicate AllAtOnce(sent: seq<Sent>) {
    forall i :: 0 < i < |sent| ==> !sent[i].awaited
  }

  /** What a step adds to the requests sent: nothing, or one. */
  lemma StepSends(syntax: R.UrlSyntax, c: Chain, response: Response)
    requires c.sent != []
    ensures var c' := Step(syntax, c, response);
            && (c.end.Some? ==> c'.sent == c.sent)
            && (c'.sent == c.sent || (|c'.sent| == |c.sent| + 1 && c'.sent == c.sent + [c'.sent[|c.sent|]]))
            && (AllChecked(c'.sent, c.policy.httpsOnly) <==>
                  && AllChecked(c.sent, c.policy.httpsOnly)
                  && (|c'.sent| > |c.sent| ==> Allowed(c'.sent[|c.sent|].request.uri, c.policy.httpsOnly)))
            && (AllAtOnce(c'.sent) <==> AllAtOnce(c.sent) && (|c'.sent| > |c.sent| ==> !c'.sent[|c.sent|].awaited))
  {
    StepShape(syntax, c, response);
    var c' := Step(syntax, c, response);
    assert c.end.Some? ==> c' == c;
    hide Step, Allowed;
    if c'.end.None? {
      var body, awaited :| OneHop(c, c', response, body, awaited);
      assert c'.sent[|c.sent|] == Sent(c'.request, body, awaited);
    }
    assert forall i :: 0 <= i < |c.sent| ==> c'.sent[i] == c.sent[i];
  }

  /** Over every chain: all followed URIs pass the checks exactly if no response met `Escapes`. */
  lemma {:induction false} ChainIsCheckedIff(syntax: R.UrlSyntax, policy: Policy, httpsOnly: bool, referrer: Option<R.State>,
                                             request: Request, body: Body, responses: seq<Response>)
    ensures var start := Start(policy, httpsOnly, referrer, request, body);
            AllChecked(Run(syntax, start, responses).sent, httpsOnly) <==> NoneEscapes(syntax, start, responses)
  {
    if responses != [] {
      var init, last := responses[..|responses| - 1], responses[|responses| - 1];
      var c := Run(syntax, Start(policy, httpsOnly, referrer, request, body), init);
      ChainIsCheckedIff(syntax, policy, httpsOnly, referrer, request, body, init);
      ChainIsSafe(syntax, policy, httpsOnly, referrer, request, body, init);
      hide Start, Step, AllChecked, AllAtOnce, SensitiveInv, SchemeInv, BodyInv;
      StepSends(syntax, c, last);
      if c.end.None? {
        hide Escapes;
        HopEscapesIff(syntax, c, last);
      }
    }
  }

  /** Over every chain: each hop is followed at once exactly if no response met `Awaits`. */
  lemma {:induction false} ChainIsAtOnceIff(syntax: R.UrlSyntax, policy: Policy, httpsOnly: bool, referrer: Option<R.State>,
                                            request: Request, body: Body, responses: seq<Response>)
    ensures var start := Start(policy, httpsOnly, referrer, request, body);
            AllAtOnce(Run(syntax, start, responses).sent) <==> NoneAwaits(syntax, start, responses)
  {
    if responses != [] {
      var init, last := responses[..|responses| - 1], responses[|responses| - 1];
      var c := Run(syntax, Start(policy, httpsOnly, referrer, request, body), init);
      ChainIsAtOnceIff(syntax, policy, httpsOnly, referrer, request, body, init);
      ChainIsSafe(syntax, policy, httpsOnly, referrer, request, body, init);
      hide Start, Step, AllChecked, AllAtOnce, SensitiveInv, SchemeInv, BodyInv;
      StepSends(syntax, c, last);
      if c.end.None? {
        hide Awaits;
        HopAwaitedIff(syntax, c, last);
      }
    }
  }

  lemma {:induction false} RecordedSize(sent: seq<Sent>)
    requires sent != []
    ensures |Recorded(sent)| <= |sent| - 1
    ensures |Recorded(sent)| == |sent| - 1 <==> AllAtOnce(sent)
  {
    if |sent| > 1 {
      var init := sent[..|sent| - 1];
      assert forall i :: 0 <= i < |init| ==> init[i] == sent[i];
      RecordedSize(init);
    }
  }

  /** Over every chain: the history has an entry for each hop exactly if no response met `Awaits`. */
  lemma HistoryIsCompleteIff(syntax: R.UrlSyntax, policy: Policy, httpsOnly: bool, referrer: Option<R.State>,
                             request: Request, body: Body, responses: seq<Response>)
    ensures var start := Start(policy, httpsOnly, referrer, request, body);
            var c := Run(syntax, start, responses);
            && (|HistoryOf(c)| == |c.sent| - 1 <==> AllAtOnce(c.sent))
            && (|HistoryOf(c)| == |c.sent| - 1 <==> NoneAwaits(syntax, start, responses))
  {
    var c := Run(syntax, Start(policy, httpsOnly, referrer, request, body), responses);
    hide Run, Start, Recorded, NoneAwaits, AllAtOnce, SensitiveInv, SchemeInv, BodyInv;
    ChainIsSafe(syntax, policy, httpsOnly, referrer, request, body, responses);
    RecordedSize(c.sent);
    assert |Links(HistoryOf(c))| == |HistoryOf(c)|;
    ChainIsAtOnceIff(syntax, policy, httpsOnly, referrer, request, body, responses);
  }

  /** The history goes out with an answer that is no redirect, and with no other. */
  lemma HistoryIsHandedOutIff(syntax: R.UrlSyntax, c: Chain, response: Response)
    requires c.end.None? && c.policy.history != []
    ensures var end := Step(syntax, c, response).end;
            && (end == Some(Answered(response.status, c.policy.history)) <==> !IsRedirect(response.status))
            && (IsRedirect(response.status) && end.Some? && end.value.Answered? ==> end.value.history == [])
  {
    hide OnRequest, Rewritten, Check, R.Redirected, BodyRepr.CloneFrom, BodyRepr.Taken;
  }

  /** The policy never answers with a pending action. */
  ghost predicate AtOnce(policy: Policy) {
    forall response, next, previous :: Check(policy, response, next, previous).Now?
  }

  lemma StepAtOnce(syntax: R.UrlSyntax, c: Chain, response: Response)
    requires AtOnce(c.policy.policy) && AllAtOnce(c.sent)
    requires c.sent != []
    ensures AllAtOnce(Step(syntax, c, response).sent)
  {
    hide R.Applied, R.Redirected, SameOrigin, BodyRepr.CloneFrom, BodyRepr.Taken;
  }

  /** A policy without pending actions: every followed URI is checked, and the history is complete. */
  lemma ChainAtOnceIsChecked(syntax: R.UrlSyntax, policy: Policy, httpsOnly: bool, referrer: Option<R.State>,
                             request: Request, body: Body, responses: seq<Response>)
    requires AtOnce(policy)
    ensures var c := Run(syntax, Start(policy, httpsOnly, referrer, request, body), responses);
            && AllAtOnce(c.sent)
            && |HistoryOf(c)| == |c.sent| - 1
            && (forall i :: 0 <= i < |HistoryOf(c)| ==>
                  && HistoryOf(c)[i].previous == c.sent[i].request.uri
                  && HistoryOf(c)[i].uri == c.sent[i + 1].request.uri)
            && AllChecked(c.sent, httpsOnly)
  {
    var c := Run(syntax, Start(policy, httpsOnly, referrer, request, body), responses);
    hide Run, AtOnce, SensitiveInv, BodyInv, Recorded, Links, Start;
    RunAtOnce(syntax, policy, httpsOnly, referrer, request, body, responses);
    ChainIsSafe(syntax, policy, httpsOnly, referrer, request, body, responses);
    RecordedIsComplete(c.sent);
    forall i | 0 <= i < |HistoryOf(c)|
      ensures HistoryOf(c)[i].previous == c.sent[i].request.uri && HistoryOf(c)[i].uri == c.sent[i + 1].request.uri
    {
      assert Links(HistoryOf(c))[i] == (HistoryOf(c)[i].previous, HistoryOf(c)[i].uri);
      assert Recorded(c.sent)[i] == (c.sent[i].request.uri, c.sent[i + 1].request.uri);
    }
    forall i | 0 < i < |c.sent|
      ensures Allowed(c.sent[i].request.uri, httpsOnly)
    {
      assert !c.sent[i].awaited;
    }
  }

  lemma {:induction false} RunAtOnce(syntax: R.UrlSyntax, policy: Policy, httpsOnly: bool, referrer: Option<R.State>,
                                     request: Request, body: Body, responses: seq<Response>)
    requires AtOnce(policy)
    ensures AllAtOnce(Run(syntax, Start(policy, httpsOnly, referrer, request, body), responses).sent)
  {
    if responses != [] {
      var init := responses[..|responses| - 1];
      RunAtOnce(syntax, policy, httpsOnly, referrer, request, body, init);
      ChainIsSafe(syntax, policy, httpsOnly, referrer, request, body, init);
      hide Step, AtOnce, SensitiveInv, BodyInv, SchemeInv, Start;
      StepAtOnce(syntax, Run(syntax, Start(policy, httpsOnly, referrer, request, body), init), responses[|responses| - 1]);
    }
  }

  /** Where it fails: a pending verdict to follow goes to any URI, even where only https is allowed. */
  lemma AwaitedFollowIsNotChecked(syntax: R.UrlSyntax, request: Request, data: seq<int>, location: Uri)
    ensures var policy := Custom((_, _, _) => Later(Follow));
            var c := Run(syntax, Start(policy, true, None, request, Bytes(data)), [Response(307, [], Some(location), map[])]);
            |c.sent| == 2 && c.sent[1].request.uri == location && HistoryOf(c) == []
  {
    var responses := [Response(307, [], Some(location), map[])];
    assert responses[..|responses| - 1] == [];
    hide SameOrigin;
  }

  /** A policy that follows nothing hands out the first response, as the direct path does. */
  lemma {:induction false} NoRedirectIsDirect(syntax: R.UrlSyntax, httpsOnly: bool, referrer: Option<R.State>,
                                              request: Request, body: Body, responses: seq<Response>)
    ensures var c := Run(syntax, Start(NoRedirect, httpsOnly, referrer, request, body), responses);
            && c.sent == [Sent(request, body, false)] && c.policy.policy == NoRedirect
            && c.end == if responses == [] then None else Some(Answered(responses[0].status, []))
  {
    if responses != [] {
      NoRedirectIsDirect(syntax, httpsOnly, referrer, request, body, responses[..|responses| - 1]);
      hide Followed, R.Redirected, BodyRepr.CloneFrom, BodyRepr.Taken, Rewritten;
    }
  }

  /** All URIs visited up to a request with a sensitive header share one origin. */
  lemma OneOriginSoFar(syntax: R.UrlSyntax, policy: Policy, httpsOnly: bool, referrer: Option<R.State>,
                       request: Request, body: Body, responses: seq<Response>, i: nat, j: nat, k: nat)
    requires var c := Run(syntax, Start(policy, httpsOnly, referrer, request, body), responses);
             i <= k && j <= k < |c.sent| && HasSensitive(c.sent[k].request)
    ensures var c := Run(syntax, Start(policy, httpsOnly, referrer, request, body), responses);
            SameOrigin(c.sent[i].request.uri, c.sent[j].request.uri)
  {
    ChainIsSafe(syntax, policy, httpsOnly, referrer, request, body, responses);
    var c := Run(syntax, Start(policy, httpsOnly, referrer, request, body), responses);
    var a, b, o := c.sent[i].request.uri, c.sent[j].request.uri, c.sent[k].request.uri;
    SameOriginIsEquivalence(a, o, b);
    SameOriginIsEquivalence(b, o, a);
  }

  // ---------- what one hop sends ----------

  /** The standard's origin: scheme, host in lower case, and the port with its default filled in. */
  function OriginOf(uri: Uri): (Option<Scheme>, Option<string>, nat) {
    (uri.scheme,
     match uri.host case Some(host) => Some(Lower(host)) case None => None,
     match uri.port case Some(port) => port case None => if uri.scheme == Some(Https) then 443 else 80)
  }

  lemma SameOriginIsOrigin(left: Uri, right: Uri)
    ensures SameOrigin(left, right) <==> OriginOf(left) == OriginOf(right)
  {
  }

  /** The redirect statuses that turn this request into one without a body. */
  predicate Rewrites(status: nat, verb: Verb) {
    status == 303 || ((status == 301 || status == 302) && verb.Post?)
  }

  /** Section 15.4 of RFC 9110 and the rewriting that clients do: the method of the next request. */
  function NextVerb(status: nat, verb: Verb): Verb {
    if status == 303 then (if verb.Head? then Head else Get)
    else if (status == 301 || status == 302) && verb.Post? then Get
    else verb
  }

  /** The body a chain has at hand for its next request. */
  function Offered(c: Chain): Option<Body> {
    match c.body
    case Kept(body) => Some(body)
    case Empty => Some(Bytes([]))
    case Gone => None
  }

  /** A header field that does not survive the hop. */
  predicate Dropped(name: string, rewritten: bool, sameOrigin: bool) {
    || (rewritten && (name == "content-type" || name == "content-length" || name == "content-encoding" || name == "transfer-encoding"))
    || (!sameOrigin && (name == "authorization" || name == "cookie" || name == "cookie2" || name == "proxy-authorization" || name == "www-authenticate"))
  }

  /** What following keeps of the template: the method, all but the dropped fields, and the body for another time. */
  lemma FollowedKeeps(syntax: R.UrlSyntax, c: Chain, location: Uri, body: Body, awaited: bool)
    requires c.policy.uris != []
    ensures var c' := Followed(syntax, c, location, body, awaited);
            && c'.request.verb == c.request.verb && c'.request.uri == location
            && (forall name :: name in c'.request.headers <==>
                  name in c.request.headers && !Dropped(name, false, OriginOf(location) == OriginOf(c.policy.uris[|c.policy.uris| - 1])))
            && (forall name :: name in c'.request.headers ==> c'.request.headers[name] == c.request.headers[name])
            && (body.Bytes? && (c.body.Gone? || (c.body == Empty && body == Bytes([]))) ==> Offered(c') == Some(body))
  {
    SameOriginIsOrigin(location, c.policy.uris[|c.policy.uris| - 1]);
    hide R.Applied, SameOrigin, OriginOf;
  }

  /** What the rewriting makes of method, fields and body. */
  lemma RewritingExactly(c: Chain, status: nat)
    requires status == 301 || status == 302 || status == 303 || status == 307 || status == 308
    ensures var (request, repr) := Rewritten(c, status);
            && request.uri == c.request.uri && request.verb == NextVerb(status, c.request.verb) && request.referer == c.request.referer
            && (forall name :: name in request.headers <==>
                  name in c.request.headers && !Dropped(name, Rewrites(status, c.request.verb), true))
            && (forall name :: name in request.headers ==> request.headers[name] == c.request.headers[name])
            && repr == if Rewrites(status, c.request.verb) then Empty else c.body
  {
  }

  /**
   A followed hop: the request that goes out next has the location of the response, the method the
   status asks for, exactly the fields of the last one without those that describe a dropped body or
   belong to another origin, and the body that was kept or none; and that body stays at hand.
   */
  lemma HopSendsExactly(syntax: R.UrlSyntax, c: Chain, response: Response)
    requires LinkInv(c) && c.end.None? && |Step(syntax, c, response).sent| > |c.sent|
    ensures var c' := Step(syntax, c, response);
            var last, next := c.sent[|c.sent| - 1].request, c'.sent[|c.sent|];
            var rewritten := Rewrites(response.status, last.verb);
            && response.location.Some? && next.request.uri == response.location.value
            && next.request.verb == NextVerb(response.status, last.verb)
            && (forall name :: name in next.request.headers <==>
                  name in last.headers && !Dropped(name, rewritten, OriginOf(next.request.uri) == OriginOf(last.uri)))
            && (forall name :: name in next.request.headers ==> next.request.headers[name] == last.headers[name])
            && Some(next.body) == (if rewritten then Some(Bytes([])) else Offered(c))
            && (next.body.Bytes? ==> Offered(c') == Some(next.body))
  {
    var (request, repr) := Rewritten(c, response.status);
    var (taken, left) := repr.Taken();
    var location := response.location.value;
    var (policy, decision) := OnRedirect(c.policy, response, location, request.uri);
    var before := Chain(policy, request, left, c.sent, None);
    RewritingExactly(c, response.status);
    TrailGrows(c.policy, response, location, request.uri);
    FollowedKeeps(syntax, before, location, taken.value, decision.Await?);
    assert Step(syntax, c, response) == Followed(syntax, before, location, taken.value, decision.Await?);
    FollowedShape(syntax, before, location, taken.value, decision.Await?);
    hide Followed, Step, Rewritten, OnRedirect, OriginOf, Dropped;
  }

  /** When a hop is followed at all. */
  lemma HopIsFollowedIff(syntax: R.UrlSyntax, c: Chain, response: Response)
    requires c.end.None?
    ensures |Step(syntax, c, response).sent| > |c.sent| <==>
            && (response.status == 301 || response.status == 302 || response.status == 303 || response.status == 307 || response.status == 308)
            && response.location.Some?
            && (Rewrites(response.status, c.request.verb) || Offered(c).Some?)
            && var answer := Check(c.policy.policy, response, response.location.value, c.policy.uris + [c.request.uri]);
               answer == Later(Follow) || (answer == Now(Follow) && Allowed(response.location.value, c.policy.httpsOnly))
  {
    hide OnRequest, Check, R.Redirected, BodyRepr.CloneFrom;
  }

  /** The body of the first request stays at hand if it can be sent again: bytes, or a stream known to be empty. */
  lemma FirstBodyOffered(policy: Policy, httpsOnly: bool, referrer: Option<R.State>, request: Request, body: Body)
    ensures Offered(Start(policy, httpsOnly, referrer, request, body)) ==
            match body
            case Bytes(_) => Some(body)
            case Streaming(_, exactlyEmpty) => if exactlyEmpty then Some(Bytes([])) else None
  {
  }

  // ---------- limits ----------

  /** A response that nothing but the policy can stop a chain from following. */
  predicate Followable(response: Response, httpsOnly: bool) {
    && IsRedirect(response.status) && response.location.Some?
    && (response.location.value.IsHttps() || (response.location.value.IsHttp() && !httpsOnly))
  }

  /** However long the chain of responses, at most `max` redirects are followed. */
  lemma {:induction false} AtMostMax(syntax: R.UrlSyntax, max: nat, httpsOnly: bool, referrer: Option<R.State>,
                                     request: Request, body: Body, responses: seq<Response>)
    ensures |Run(syntax, Start(Limit(max), httpsOnly, referrer, request, body), responses).sent| <= max + 1
  {
    if responses != [] {
      var init := responses[..|responses| - 1];
      AtMostMax(syntax, max, httpsOnly, referrer, request, body, init);
      ChainIsSafe(syntax, Limit(max), httpsOnly, referrer, request, body, init);
      hide Step, Start, SensitiveInv, SchemeInv, BodyInv, Recorded, Links;
      LimitHolds(syntax, Run(syntax, Start(Limit(max), httpsOnly, referrer, request, body), init), responses[|responses| - 1]);
    }
  }

  /** Under a limit one more request goes out only while there are fewer URIs behind the chain. */
  lemma LimitHolds(syntax: R.UrlSyntax, c: Chain, response: Response)
    requires c.policy.policy.Limit?
    ensures var c' := Step(syntax, c, response);
            |c'.sent| == |c.sent| || (c.end.None? && |c'.sent| == |c.sent| + 1 && |c.policy.uris| < c.policy.policy.max)
  {
    hide OnRequest, Rewritten, R.Redirected, BodyRepr.Taken, BodyRepr.CloneFrom;
  }

  /** A live chain with a body at hand answers a followable response as its limit says. */
  lemma LimitDecides(syntax: R.UrlSyntax, c: Chain, response: Response)
    requires c.end.None? && c.policy.policy.Limit? && Followable(response, c.policy.httpsOnly)
    requires !c.body.Gone? && (c.body.Kept? ==> c.body.body.Bytes?)
    ensures var c' := Step(syntax, c, response);
            if |c.policy.uris| < c.policy.policy.max then c'.end.None? && |c'.sent| == |c.sent| + 1 && !c'.body.Gone?
            else c'.end == Some(Refused(TooManyRedirects)) && c'.sent == c.sent
  {
    hide R.Applied, R.Redirected, WithoutSensitive;
  }

  /** A resendable body and followable responses: exactly `max` are followed, the next one is refused. */
  lemma {:induction false} ExactlyMax(syntax: R.UrlSyntax, max: nat, httpsOnly: bool, referrer: Option<R.State>,
                                      request: Request, body: Body, responses: seq<Response>)
    requires body.Bytes?
    requires forall i :: 0 <= i < |responses| ==> Followable(responses[i], httpsOnly)
    ensures var c := Run(syntax, Start(Limit(max), httpsOnly, referrer, request, body), responses);
            && |c.sent| - 1 == (if |responses| <= max then |responses| else max)
            && c.end == (if |responses| <= max then None else Some(Refused(TooManyRedirects)))
            && (c.end.None? ==> !c.body.Gone?)
  {
    if responses != [] {
      var init := responses[..|responses| - 1];
      ExactlyMax(syntax, max, httpsOnly, referrer, request, body, init);
      ChainIsSafe(syntax, Limit(max), httpsOnly, referrer, request, body, init);
      var c := Run(syntax, Start(Limit(max), httpsOnly, referrer, request, body), init);
      if c.end.None? {
        hide Start, Step, Followable, SensitiveInv, SchemeInv;
        LimitDecides(syntax, c, responses[|responses| - 1]);
      }
    }
  }

  // ---------- the Referer of a chain ----------

  function Hops(responses: seq<Response>): seq<R.Hop> {
    if responses == [] then []
    else
      var last := responses[|responses| - 1];
      Hops(responses[..|responses| - 1])
      + [R.Hop(last.policyValues, match last.location case Some(uri) => uri case None => Uri(None, None, None, "", None))]
  }

  lemma StepCarriesReferrer(syntax: R.UrlSyntax, c: Chain, response: Response)
    requires c.end.None? && Step(syntax, c, response).end.None? && c.policy.referrer.Some?
    ensures var c' := Step(syntax, c, response);
            && response.location.Some? && |c'.sent| == |c.sent| + 1 && c'.policy.referrer.Some?
            && (c'.policy.referrer.value, c'.request.referer)
               == R.Applied(syntax, R.Redirected(c.policy.referrer.value, response.policyValues), c.request.referer, response.location.value)
  {
    hide Check, SameOrigin, R.Applied, R.Redirected, BodyRepr.CloneFrom;
  }

  /** While a chain goes on, its Referer fields are those of the Referrer module. */
  lemma {:induction false} ChainCarriesReferrer(syntax: R.UrlSyntax, policy: Policy, httpsOnly: bool, start: R.State,
                                                request: Request, body: Body, responses: seq<Response>)
    requires Run(syntax, Start(policy, httpsOnly, Some(start), request, body), responses).end.None?
    ensures var c := Run(syntax, Start(policy, httpsOnly, Some(start), request, body), responses);
            && |c.sent| == |responses| + 1
            && c.policy.referrer.Some?
            && (c.policy.referrer.value, c.request.referer) == R.After(syntax, start, request.referer, Hops(responses))
  {
    if responses != [] {
      var init := responses[..|responses| - 1];
      ChainCarriesReferrer(syntax, policy, httpsOnly, start, request, body, init);
      StepCarriesReferrer(syntax, Run(syntax, Start(policy, httpsOnly, Some(start), request, body), init), responses[|responses| - 1]);
      var hops := Hops(responses);
      assert hops[..|hops| - 1] == Hops(init);
    }
  }
}
