/**
 The Referer header across a redirect chain: module `referrer` of src/redirect.rs.
 */
module Referrer {
  import opened Wrappers
  import opened Text
  import opened Uris

  /** A parsed absolute URL as the `url` crate keeps it: default ports are stored as absent. */
  datatype Url = Url(
    scheme: Scheme,
    username: string,
    password: Option<string>,
    host: Option<string>,
    port: Option<nat>,
    path: string,
    query: Option<string>,
    fragment: Option<string>
  ) {
    function PortOrKnownDefault(): Option<nat> {
      match port
      case Some(p) => Some(p)
      case None => if scheme.Http? then Some(80) else if scheme.Https? then Some(443) else None
    }

    /** The path of an http or https URL is never empty. */
    function StripToOrigin(): Url {
      this.(path := "/", query := None, fragment := None)
    }
  }

  /** The URL library's parser and printer, as parameters of the model. */
  datatype UrlSyntax = UrlSyntax(parse: string -> Option<Url>, show: Url -> string)

  /** A field value, and whether it was marked sensitive. */
  datatype Value = Value(text: string, sensitive: bool)

  datatype ReferrerPolicy =
    | Unset
    | NoReferrer
    | NoReferrerWhenDowngrade
    | SameOrigin
    | Origin
    | StrictOrigin
    | OriginWhenCrossOrigin
    | StrictOriginWhenCrossOrigin
    | UnsafeUrl

  const MAX_REFERRER := 4096

  datatype State = State(source: Option<Url>, policy: ReferrerPolicy)

  // ---------- parsing policies ----------

  const TOKENS: seq<(string, ReferrerPolicy)> := [
    ("no-referrer", NoReferrer),
    ("no-referrer-when-downgrade", NoReferrerWhenDowngrade),
    ("same-origin", SameOrigin),
    ("origin", Origin),
    ("strict-origin", StrictOrigin),
    ("origin-when-cross-origin", OriginWhenCrossOrigin),
    ("strict-origin-when-cross-origin", StrictOriginWhenCrossOrigin),
    ("unsafe-url", UnsafeUrl)
  ]

  function FindToken(token: string, table: seq<(string, ReferrerPolicy)>): ReferrerPolicy {
    if table == [] then Unset
    else if EqIgnoreAsciiCase(token, table[0].0) then table[0].1
    else FindToken(token, table[1..])
  }

  function PolicyOf(token: string): ReferrerPolicy {
    FindToken(token, TOKENS)
  }

  /** The policy a token names, white space around it aside. */
  function Meaning(token: string): ReferrerPolicy {
    PolicyOf(Trim(token))
  }

  /** The last recognized token wins; unknown tokens are skipped. */
  function LastRecognized(tokens: seq<string>): ReferrerPolicy {
    if tokens == [] then Unset
    else
      var last := Meaning(tokens[|tokens| - 1]);
      if last != Unset then last else LastRecognized(tokens[..|tokens| - 1])
  }

  /** All tokens of all readable field values, in order. `None` is a value that is not text. */
  function AllTokens(values: seq<Option<string>>): seq<string> {
    if values == [] then []
    else AllTokens(values[..|values| - 1]) + (match values[|values| - 1] case Some(v) => Split(v, ',') case None => [])
  }

  method ParsePolicy(values: seq<Option<string>>) returns (policy: ReferrerPolicy)
    ensures policy == LastRecognized(AllTokens(values))
  {
    hide Meaning, Split;
    policy := Unset;
    for i := 0 to |values|
      invariant policy == LastRecognized(AllTokens(values[..i]))
    {
      assert values[..i + 1][..i] == values[..i];
      if values[i].Some? {
        var tokens := Split(values[i].value, ',');
        ghost var before := AllTokens(values[..i]);
        assert before + tokens[..0] == before;
        for j := 0 to |tokens|
          invariant policy == LastRecognized(before + tokens[..j])
        {
          assert (before + tokens[..j + 1])[..|before| + j] == before + tokens[..j];
          var parsed := Meaning(tokens[j]);
          if parsed != Unset {
            policy := parsed;
          }
        }
        assert tokens[..|tokens|] == tokens;
      } else {
        assert AllTokens(values[..i]) + [] == AllTokens(values[..i]);
      }
    }
    assert values[..|values|] == values;
  }

  /** What the loop computes: some token is recognized and every later one is not. */
  lemma {:induction false} LastRecognizedSpec(tokens: seq<string>)
    ensures LastRecognized(tokens) == Unset <==> forall i :: 0 <= i < |tokens| ==> Meaning(tokens[i]) == Unset
    ensures LastRecognized(tokens) != Unset ==>
              exists i :: 0 <= i < |tokens| && Meaning(tokens[i]) == LastRecognized(tokens)
                && forall j :: i < j < |tokens| ==> Meaning(tokens[j]) == Unset
  {
    hide Meaning;
    if tokens != [] {
      var n := |tokens| - 1;
      LastRecognizedSpec(tokens[..n]);
      assert forall i :: 0 <= i < n ==> tokens[..n][i] == tokens[i];
      if Meaning(tokens[n]) == Unset && LastRecognized(tokens) != Unset {
        var i :| 0 <= i < n && Meaning(tokens[..n][i]) == LastRecognized(tokens)
          && forall j :: i < j < n ==> Meaning(tokens[..n][j]) == Unset;
      }
    }
  }

  // ---------- capturing and applying ----------

  /** `HeaderValue::to_str` accepts visible ASCII and tabs. */
  predicate IsText(s: string) {
    forall c :: c in s ==> (' ' <= c <= '~') || c == '\t'
  }

  predicate SameOriginAs(source: Url, destination: Uri) {
    && (match (source.host, destination.host)
        case (Some(a), Some(b)) => EqIgnoreAsciiCase(a, b)
        case (None, None) => true
        case _ => false)
    && destination.scheme == Some(source.scheme)
    && source.PortOrKnownDefault() == Some(destination.PortOrDefault())
  }

  predicate Downgrades(source: Url, destination: Uri) {
    source.scheme.Https? && destination.IsHttp()
  }

  datatype Verdict = Nothing | OriginOnly | FullUrl

  /** Section 8.3 of the W3C Referrer Policy; an unset policy is the default one. */
  function Determine(policy: ReferrerPolicy, sameOrigin: bool, downgrade: bool): Verdict {
    match policy
    case NoReferrer => Nothing
    case Origin => OriginOnly
    case UnsafeUrl => FullUrl
    case StrictOrigin => if downgrade then Nothing else OriginOnly
    case StrictOriginWhenCrossOrigin => if sameOrigin then FullUrl else if downgrade then Nothing else OriginOnly
    case SameOrigin => if sameOrigin then FullUrl else Nothing
    case OriginWhenCrossOrigin => if sameOrigin then FullUrl else OriginOnly
    case NoReferrerWhenDowngrade => if downgrade then Nothing else FullUrl
    case Unset => if sameOrigin then FullUrl else if downgrade then Nothing else OriginOnly
  }

  function Reduced(url: Url, verdict: Verdict): Option<Url> {
    match verdict
    case Nothing => None
    case OriginOnly => Some(url.StripToOrigin())
    case FullUrl => Some(url)
  }

  /** The state and the Referer field of the next request. */
  function Applied(syntax: UrlSyntax, s: State, referer: Option<Value>, destination: Uri): (State, Option<Value>) {
    var reduced :=
      match s.source
      case None => None
      case Some(url) => Reduced(url, Determine(s.policy, SameOriginAs(url, destination), Downgrades(url, destination)));
    if reduced.Some? && ValidHeaderValue(syntax.show(reduced.value)) then
      (s.(source := reduced), Some(Value(syntax.show(reduced.value), referer.Some? && referer.value.sensitive)))
    else (s.(source := None), None)
  }

  function Redirected(s: State, values: seq<Option<string>>): State {
    var policy := LastRecognized(AllTokens(values));
    if policy == Unset then s else s.(policy := policy)
  }

  /** Credentials and fragments go; a long URL is cut down to its origin. */
  function ParseReferrer(syntax: UrlSyntax, value: Value): (source: Option<Url>)
    ensures source.Some? ==>
              && source.value.username == "" && source.value.password.None? && source.value.fragment.None?
              && (source.value.scheme.Http? || source.value.scheme.Https?)
              && (|syntax.show(source.value)| <= 4096 || source.value == source.value.StripToOrigin())
  {
    if !IsText(value.text) then None
    else match syntax.parse(value.text)
      case None => None
      case Some(url) =>
        if !(url.scheme.Http? || url.scheme.Https?) || url.host.None? then None
        else
          var stripped := url.(username := "", password := None, fragment := None);
          Some(if |syntax.show(stripped)| > MAX_REFERRER then stripped.StripToOrigin() else stripped)
  }

  /** Which URLs are captured, and what of them. */
  lemma CapturedExactly(syntax: UrlSyntax, value: Value)
    ensures ParseReferrer(syntax, value).Some? <==>
              && IsText(value.text) && syntax.parse(value.text).Some?
              && var url := syntax.parse(value.text).value; (url.scheme == Http || url.scheme == Https) && url.host.Some?
    ensures ParseReferrer(syntax, value).Some? ==>
              var url, source := syntax.parse(value.text).value, ParseReferrer(syntax, value).value;
              && source.scheme == url.scheme && source.host == url.host && source.port == url.port
              && (|syntax.show(url.(username := "", password := None, fragment := None))| <= 4096 ==>
                    source.path == url.path && source.query == url.query)
  {
  }

  class Carrier {
    const syntax: UrlSyntax
    var source: Option<Url>
    var policy: ReferrerPolicy

    function View(): State
      reads this
    {
      State(source, policy)
    }

    /** Captures the caller's Referer without changing the first request. */
    constructor (syntax: UrlSyntax, referer: Option<Value>)
      ensures this.syntax == syntax
      ensures View() == State(if referer.Some? then ParseReferrer(syntax, referer.value) else None, StrictOriginWhenCrossOrigin)
    {
      this.syntax := syntax;
      source := if referer.Some? then ParseReferrer(syntax, referer.value) else None;
      policy := StrictOriginWhenCrossOrigin;
    }

    method OnRedirect(values: seq<Option<string>>)
      modifies this
      ensures View() == Redirected(old(View()), values)
    {
      var parsed := ParsePolicy(values);
      if parsed != Unset {
        policy := parsed;
      }
    }

    /** The chain of guarded arms of the source, proved against the table of the standard. */
    method Apply(referer: Option<Value>, destination: Uri) returns (next: Option<Value>)
      modifies this
      ensures (View(), next) == Applied(syntax, old(View()), referer, destination)
    {
      if source.None? {
        return None;
      }
      var url := source.value;
      source := None;
      var sensitive := referer.Some? && referer.value.sensitive;
      var sameOrigin := SameOriginAs(url, destination);
      var downgrade := Downgrades(url, destination);
      var stripToOrigin := false;
      if policy.NoReferrer? {
        return None;
      } else if policy.NoReferrerWhenDowngrade? && downgrade {
        return None;
      } else if policy.SameOrigin? && !sameOrigin {
        return None;
      } else if policy.StrictOrigin? && downgrade {
        return None;
      } else if (policy.StrictOriginWhenCrossOrigin? || policy.Unset?) && !sameOrigin && downgrade {
        return None;
      } else if policy.Origin? || policy.StrictOrigin? {
        stripToOrigin := true;
      } else if policy.OriginWhenCrossOrigin? || policy.StrictOriginWhenCrossOrigin? || policy.Unset? {
        stripToOrigin := !sameOrigin;
      }
      if stripToOrigin {
        url := url.StripToOrigin();
      }
      if !ValidHeaderValue(syntax.show(url)) {
        return None;
      }
      next := Some(Value(syntax.show(url), sensitive));
      source := Some(url);
    }
  }

  // ---------- chains ----------

  /** One followed redirect: the Referrer-Policy values of the response and the next URI. */
  datatype Hop = Hop(values: seq<Option<string>>, destination: Uri)

  /** State and Referer field after all hops, from what was captured. */
  function After(syntax: UrlSyntax, start: State, referer: Option<Value>, hops: seq<Hop>): (State, Option<Value>) {
    if hops == [] then (start, referer)
    else
      var (s, field) := After(syntax, start, referer, hops[..|hops| - 1]);
      var hop := hops[|hops| - 1];
      Applied(syntax, Redirected(s, hop.values), field, hop.destination)
  }

  /** Every Referer sent is nothing, the captured URL, or its origin, and is what the chain carries. */
  lemma {:induction false} SentIsInitialOrOrigin(syntax: UrlSyntax, start: State, referer: Option<Value>, hops: seq<Hop>)
    requires hops != []
    ensures var (s, field) := After(syntax, start, referer, hops);
            && (s.source.None? <==> field.None?)
            && (s.source.Some? ==>
                  && start.source.Some? && field.value.text == syntax.show(s.source.value)
                  && (s.source == start.source || s.source == Some(start.source.value.StripToOrigin())))
  {
    if |hops| > 1 {
      SentIsInitialOrOrigin(syntax, start, referer, hops[..|hops| - 1]);
    }
  }

  /** One hop keeps what is carried, cuts it down to its origin, or drops it. */
  predicate Shrinks(before: Option<Url>, after: Option<Url>) {
    after.Some? ==> before.Some? && (after == before || after.value == before.value.StripToOrigin())
  }

  lemma HopShrinks(syntax: UrlSyntax, s: State, field: Option<Value>, hop: Hop)
    ensures Shrinks(s.source, Applied(syntax, Redirected(s, hop.values), field, hop.destination).0.source)
  {
    hide Determine, SameOriginAs, Downgrades, ValidHeaderValue, LastRecognized, AllTokens;
  }

  /** What was given up is never regained: absent stays absent, the origin never becomes the full URL. */
  lemma {:induction false} ReferrerOnlyShrinks(syntax: UrlSyntax, start: State, referer: Option<Value>, hops: seq<Hop>, more: seq<Hop>)
    ensures var before, after := After(syntax, start, referer, hops).0.source, After(syntax, start, referer, hops + more).0.source;
            && Shrinks(before, after)
            && (before.None? ==> after.None?)
            && (before.Some? && before.value == before.value.StripToOrigin() ==> after.None? || after == before)
            && (before.Some? && after.Some? ==> after == before || after.value == before.value.StripToOrigin())
  {
    if more == [] {
      assert hops + more == hops;
    } else {
      var init := hops + more[..|more| - 1];
      assert (hops + more)[..|hops + more| - 1] == init && (hops + more)[|hops + more| - 1] == more[|more| - 1];
      ReferrerOnlyShrinks(syntax, start, referer, hops, more[..|more| - 1]);
      hide Applied, Redirected;
      var (s, field) := After(syntax, start, referer, init);
      HopShrinks(syntax, s, field, more[|more| - 1]);
    }
  }

  predicate NoPolicy(hop: Hop) {
    LastRecognized(AllTokens(hop.values)) == Unset
  }

  /** What the default policy keeps of a captured URL: all of it within its origin, and nothing after a downgrade. */
  predicate KeptByDefault(url: Url, source: Option<Url>, stayed: bool, safe: bool) {
    match source
    case None => true
    case Some(kept) => safe && (kept == url.StripToOrigin() || (kept == url && stayed))
  }

  /** One hop under the default policy. */
  lemma DefaultHop(syntax: UrlSyntax, url: Url, s: State, field: Option<Value>, hop: Hop, stayed: bool, safe: bool)
    requires s.policy == StrictOriginWhenCrossOrigin && NoPolicy(hop)
    requires KeptByDefault(url, s.source, stayed, safe)
    ensures var (s', _) := Applied(syntax, Redirected(s, hop.values), field, hop.destination);
            && s'.policy == s.policy
            && KeptByDefault(url, s'.source, stayed && SameOriginAs(url, hop.destination), safe && !Downgrades(url, hop.destination))
  {
    hide LastRecognized, AllTokens, ValidHeaderValue, EqIgnoreAsciiCase;
  }

  predicate Stayed(url: Url, hops: seq<Hop>) {
    forall i :: 0 <= i < |hops| ==> SameOriginAs(url, hops[i].destination)
  }

  predicate NeverDowngraded(url: Url, hops: seq<Hop>) {
    forall i :: 0 <= i < |hops| ==> !Downgrades(url, hops[i].destination)
  }

  lemma HopsSplit(url: Url, hops: seq<Hop>)
    requires hops != []
    ensures var init, hop := hops[..|hops| - 1], hops[|hops| - 1];
            && (Stayed(url, hops) <==> Stayed(url, init) && SameOriginAs(url, hop.destination))
            && (NeverDowngraded(url, hops) <==> NeverDowngraded(url, init) && !Downgrades(url, hop.destination))
  {
    hide SameOriginAs, Downgrades;
    var init := hops[..|hops| - 1];
    assert forall i :: 0 <= i < |init| ==> hops[i] == init[i];
  }

  /**
   Under the default policy the full URL survives only on chains that never left its origin, and
   nothing at all survives a downgrade to http.
   */
  lemma {:induction false} DefaultPolicyStaysInOrigin(syntax: UrlSyntax, start: State, referer: Option<Value>, hops: seq<Hop>)
    requires start.policy == StrictOriginWhenCrossOrigin && start.source.Some?
    requires forall i :: 0 <= i < |hops| ==> NoPolicy(hops[i])
    ensures var s, url := After(syntax, start, referer, hops).0, start.source.value;
            && s.policy == start.policy
            && (s.source.Some? ==>
                  && NeverDowngraded(url, hops)
                  && (s.source.value == url.StripToOrigin() || (s.source.value == url && Stayed(url, hops))))
  {
    var url := start.source.value;
    if hops != [] {
      var init, hop := hops[..|hops| - 1], hops[|hops| - 1];
      hide Applied, Redirected, NoPolicy, Stayed, NeverDowngraded;
      DefaultPolicyStaysInOrigin(syntax, start, referer, init);
      var (s, field) := After(syntax, start, referer, init);
      HopsSplit(url, hops);
      DefaultHop(syntax, url, s, field, hop, Stayed(url, init), NeverDowngraded(url, init));
    }
  }

  // ---------- what each policy sends ----------

  /** Scheme, host in lower case, and the port with its default filled in, of a URL and of a request URI. */
  function OriginOfUrl(url: Url): (Scheme, Option<string>, Option<nat>) {
    (url.scheme,
     match url.host case Some(host) => Some(Lower(host)) case None => None,
     match url.port case Some(port) => Some(port) case None => if url.scheme.Http? then Some(80) else if url.scheme.Https? then Some(443) else None)
  }

  function OriginOfUri(uri: Uri): (Option<Scheme>, Option<string>, Option<nat>) {
    (uri.scheme,
     match uri.host case Some(host) => Some(Lower(host)) case None => None,
     Some(match uri.port case Some(port) => port case None => if uri.scheme == Some(Https) then 443 else 80))
  }

  lemma SameOriginIsOrigin(url: Url, uri: Uri)
    ensures SameOriginAs(url, uri) <==> (Some(OriginOfUrl(url).0), OriginOfUrl(url).1, OriginOfUrl(url).2) == OriginOfUri(uri)
    ensures Downgrades(url, uri) <==> url.scheme == Https && uri.scheme == Some(Http)
  {
  }

  /** The tokens of the standard, in any letter case. */
  lemma TokensMean(token: string)
    ensures PolicyOf(token) ==
            var t := Lower(token);
            if t == "no-referrer" then NoReferrer
            else if t == "no-referrer-when-downgrade" then NoReferrerWhenDowngrade
            else if t == "same-origin" then SameOrigin
            else if t == "origin" then Origin
            else if t == "strict-origin" then StrictOrigin
            else if t == "origin-when-cross-origin" then OriginWhenCrossOrigin
            else if t == "strict-origin-when-cross-origin" then StrictOriginWhenCrossOrigin
            else if t == "unsafe-url" then UnsafeUrl
            else Unset
  {
    FirstTokensAreLower();
    LastTokensAreLower();
    hide Lower, FindToken;
    FindFrom(token, 0);
    FindFrom(token, 1);
    FindFrom(token, 2);
    FindFrom(token, 3);
    FindFrom(token, 4);
    FindFrom(token, 5);
    FindFrom(token, 6);
    FindFrom(token, 7);
    assert TOKENS[0..] == TOKENS && TOKENS[8..] == [];
    NothingFound(token);
  }

  lemma NothingFound(token: string)
    ensures FindToken(token, []) == Unset
  {
  }

  lemma FirstTokensAreLower()
    ensures forall i :: 0 <= i < 4 ==> Lower(TOKENS[i].0) == TOKENS[i].0
  {
    hide Lower;
    StaysLower("no-referrer");
    StaysLower("no-referrer-when-downgrade");
    StaysLower("same-origin");
    StaysLower("origin");
  }

  lemma LastTokensAreLower()
    ensures forall i :: 4 <= i < 8 ==> Lower(TOKENS[i].0) == TOKENS[i].0
  {
    hide Lower;
    StaysLower("strict-origin");
    StaysLower("origin-when-cross-origin");
    StaysLower("strict-origin-when-cross-origin");
    StaysLower("unsafe-url");
  }

  lemma StaysLower(s: string)
    requires forall i :: 0 <= i < |s| ==> !('A' <= s[i] <= 'Z')
    ensures Lower(s) == s
  {
  }

  /** One turn of the table lookup. */
  lemma FindFrom(token: string, i: nat)
    requires i < |TOKENS|
    ensures FindToken(token, TOKENS[i..]) ==
            if Lower(token) == Lower(TOKENS[i].0) then TOKENS[i].1 else FindToken(token, TOKENS[i + 1..])
  {
    hide Lower;
    assert TOKENS[i..][0] == TOKENS[i] && TOKENS[i..][1..] == TOKENS[i + 1..];
  }

  /** The policy in force after these hops: the last one that some response recognizably set. */
  function InForce(first: ReferrerPolicy, hops: seq<Hop>): ReferrerPolicy {
    if hops == [] then first
    else
      var last := LastRecognized(AllTokens(hops[|hops| - 1].values));
      if last != Unset then last else InForce(first, hops[..|hops| - 1])
  }

  /** One policy is in force at every hop. */
  predicate Throughout(first: ReferrerPolicy, hops: seq<Hop>, policy: ReferrerPolicy) {
    hops == [] || (Throughout(first, hops[..|hops| - 1], policy) && InForce(first, hops) == policy)
  }

  lemma {:induction false} PolicyIsInForce(syntax: UrlSyntax, start: State, referer: Option<Value>, hops: seq<Hop>)
    ensures After(syntax, start, referer, hops).0.policy == InForce(start.policy, hops)
  {
    if hops != [] {
      PolicyIsInForce(syntax, start, referer, hops[..|hops| - 1]);
      hide LastRecognized, AllTokens, Determine, SameOriginAs, Downgrades;
    }
  }

  /** The full URL, its origin, or nothing, as the next Referer field. */
  function Shown(syntax: UrlSyntax, source: Option<Url>, sensitive: bool): Option<Value> {
    match source
    case Some(url) => Some(Value(syntax.show(url), sensitive))
    case None => None
  }

  predicate Printable(syntax: UrlSyntax, url: Url) {
    ValidHeaderValue(syntax.show(url)) && ValidHeaderValue(syntax.show(url.StripToOrigin()))
  }

  /**
   Section 8.3 of the W3C Referrer Policy over whole chains: what is left of a captured URL under one
   policy, from whether the chain stayed in the URL's origin and was never downgraded to http.
   */
  function Left(policy: ReferrerPolicy, url: Url, stayed: bool, safe: bool): Option<Url> {
    var full, origin := Some(url), Some(url.(path := "/", query := None, fragment := None));
    match policy
    case NoReferrer => None
    case Origin => origin
    case UnsafeUrl => full
    case SameOrigin => if stayed then full else None
    case StrictOrigin => if safe then origin else None
    case NoReferrerWhenDowngrade => if safe then full else None
    case OriginWhenCrossOrigin => if stayed then full else origin
    case StrictOriginWhenCrossOrigin => if stayed then full else if safe then origin else None
    case Unset => if stayed then full else if safe then origin else None
  }

  lemma HopUnderPolicy(syntax: UrlSyntax, url: Url, s: State, field: Option<Value>, hop: Hop, policy: ReferrerPolicy,
                       stayed: bool, safe: bool, sensitive: bool)
    requires Printable(syntax, url) && Redirected(s, hop.values).policy == policy && (stayed ==> safe)
    requires s.source == Left(policy, url, stayed, safe) || (s.source == Some(url) && stayed && safe)
    requires s.source.Some? ==> (field.Some? && field.value.sensitive) == sensitive
    ensures var (s', field') := Applied(syntax, Redirected(s, hop.values), field, hop.destination);
            && s'.source == Left(policy, url, stayed && SameOriginAs(url, hop.destination), safe && !Downgrades(url, hop.destination))
            && field' == Shown(syntax, s'.source, sensitive)
  {
    hide LastRecognized, AllTokens, ValidHeaderValue, EqIgnoreAsciiCase;
  }

  lemma StayedIsSafe(url: Url, hops: seq<Hop>)
    requires Stayed(url, hops)
    ensures NeverDowngraded(url, hops)
  {
    forall i | 0 <= i < |hops|
      ensures !Downgrades(url, hops[i].destination)
    {
      assert SameOriginAs(url, hops[i].destination);
    }
  }

  /** What every hop carries and sends while one policy is in force: the text, and whether it is marked sensitive. */
  lemma {:induction false} SentUnderPolicy(syntax: UrlSyntax, start: State, referer: Option<Value>, hops: seq<Hop>, policy: ReferrerPolicy)
    requires start.source.Some? && Printable(syntax, start.source.value)
    requires hops != [] && Throughout(start.policy, hops, policy)
    ensures var url := start.source.value;
            var (s, field) := After(syntax, start, referer, hops);
            && s.source == Left(policy, url, Stayed(url, hops), NeverDowngraded(url, hops))
            && field == Shown(syntax, s.source, referer.Some? && referer.value.sensitive)
  {
    var url, init, hop := start.source.value, hops[..|hops| - 1], hops[|hops| - 1];
    HopsSplit(url, hops);
    PolicyIsInForce(syntax, start, referer, hops);
    if init != [] {
      SentUnderPolicy(syntax, start, referer, init, policy);
    }
    var stayed, safe := Stayed(url, init), NeverDowngraded(url, init);
    if stayed {
      StayedIsSafe(url, init);
    }
    var (s, field) := After(syntax, start, referer, init);
    assert Redirected(s, hop.values).policy == policy by {
      hide LastRecognized, AllTokens;
      AppliedKeepsPolicy(syntax, Redirected(s, hop.values), field, hop.destination);
    }
    hide Throughout, InForce, Stayed, NeverDowngraded, Applied, Redirected, Left;
    HopUnderPolicy(syntax, url, s, field, hop, policy, stayed, safe, referer.Some? && referer.value.sensitive);
  }

  lemma AppliedKeepsPolicy(syntax: UrlSyntax, s: State, field: Option<Value>, destination: Uri)
    ensures Applied(syntax, s, field, destination).0.policy == s.policy
  {
  }

  /** A Referer that was not captured is never sent on a redirected request. */
  lemma NothingCapturedNothingSent(syntax: UrlSyntax, start: State, referer: Option<Value>, hops: seq<Hop>)
    requires start.source.None? && hops != []
    ensures After(syntax, start, referer, hops).1.None?
  {
    SentIsInitialOrOrigin(syntax, start, referer, hops);
  }
}
