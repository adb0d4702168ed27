/**
 The domain half of the no-proxy matcher of src/proxy/matcher.rs.
 */
module NoProxy {
  import opened Wrappers
  import opened Text

  // ---------- the rule ----------

  function WithoutDot(entry: string): string {
    if StartsWith(entry, ".") then entry[1..] else entry
  }

  /** The host is the entry's domain or below it, in any letter case. */
  predicate Covers(entry: string, host: string) {
    var domain := Lower(WithoutDot(entry));
    Lower(host) == domain || EndsWith(Lower(host), "." + domain)
  }

  /** The documented rule: a lone star covers everything, any other entry its domain. */
  predicate Rule(entries: seq<string>, host: string) {
    exists i :: 0 <= i < |entries| && (entries[i] == "*" || Covers(entries[i], host))
  }

  /** A byte that continues a character of UTF-8 text (section 3 of RFC 3629). */
  predicate IsContinuation(c: char) {
    '\U{80}' <= c <= '\U{bf}'
  }

  /** What UTF-8 text promises of its first byte. */
  predicate StartsCharacter(s: string) {
    s != "" ==> !IsContinuation(s[0])
  }

  /** A host that ends in a star behind something other than a dot. */
  predicate StarTail(host: string) {
    |host| >= 2 && host[|host| - 1] == '*' && host[|host| - 2] != '.'
  }

  /** What the matcher answers: as the rule, but a star does not count against a starred host. */
  predicate Found(entries: seq<string>, host: string) {
    exists i :: 0 <= i < |entries| && (Covers(entries[i], host) || (entries[i] == "*" && !StarTail(host)))
  }

  // ---------- the matcher ----------

  function SaturatingSub(a: nat, b: nat): nat {
    if a >= b then a - b else 0
  }

  /** `str::get(from..)` compared with `d`; an offset inside a character gives nothing to compare. */
  predicate TailEquals(domain: string, from: nat, d: string)
    requires from <= |domain|
  {
    (from < |domain| ==> !IsContinuation(domain[from])) && EqIgnoreAsciiCase(domain[from..], d)
  }

  /** What the index arithmetic makes of one entry. */
  predicate EntryMatches(d: string, domain: string) {
    if EqIgnoreAsciiCase(d, domain) || (StartsWith(d, ".") && EqIgnoreAsciiCase(d[1..], domain)) then true
    else if TailEquals(domain, SaturatingSub(|domain|, |d|), d) then
      if StartsWith(d, ".") then true
      else
        var at := SaturatingSub(|domain|, |d| + 1);
        at < |domain| && domain[at] == '.'
    else d == "*"
  }

  class DomainMatcher {
    const domains: seq<string>

    constructor (domains: seq<string>)
      ensures this.domains == domains
    {
      this.domains := domains;
    }

    /** Early return at the first entry whose arithmetic says yes. */
    method Contains(domain: string) returns (found: bool)
      requires forall i :: 0 <= i < |domains| ==> StartsCharacter(domains[i])
      ensures found <==> Found(domains, domain)
    {
      hide Covers, EqIgnoreAsciiCase, TailEquals, StarTail, StartsCharacter, Lower;
      var domainLen := |domain|;
      for i := 0 to |domains|
        invariant forall j :: 0 <= j < i ==> !(Covers(domains[j], domain) || (domains[j] == "*" && !StarTail(domain)))
      {
        var d := domains[i];
        ArithmeticIsCover(d, domain);
        if EqIgnoreAsciiCase(d, domain) || (StartsWith(d, ".") && EqIgnoreAsciiCase(d[1..], domain)) {
          return true;
        } else if TailEquals(domain, SaturatingSub(domainLen, |d|), d) {
          if StartsWith(d, ".") {
            return true;
          } else {
            var at := SaturatingSub(domainLen, |d| + 1);
            if at < domainLen && domain[at] == '.' {
              return true;
            }
          }
        } else if d == "*" {
          return true;
        }
      }
      found := false;
    }
  }

  lemma LowerSlice(s: string, from: nat, to: nat)
    requires from <= to <= |s|
    ensures Lower(s[from..to]) == Lower(s)[from..to]
  {
  }

  lemma LowerDot(s: string)
    ensures Lower("." + s) == "." + Lower(s)
    ensures StartsWith(Lower(s), ".") <==> StartsWith(s, ".")
  {
    if s != "" {
      assert Lower(s)[..1] == [Lower(s)[0]] && s[..1] == [s[0]];
    }
  }

  /** The arithmetic on one entry decides the rule for it, except for a star against a starred host. */
  lemma ArithmeticIsCover(d: string, domain: string)
    requires StartsCharacter(d)
    ensures EntryMatches(d, domain) <==> Covers(d, domain) || (d == "*" && !StarTail(domain))
  {
    hide Covers, EntryMatches, StarTail, Lower;
    if d == "*" {
      StarIsSpecial(domain);
    } else if StartsWith(d, ".") {
      DottedEntry(d, domain);
    } else {
      PlainEntry(d, domain);
    }
  }

  /** Comparing from the middle of a character could never have succeeded. */
  lemma TailEqualsIsEqual(domain: string, from: nat, d: string)
    requires from <= |domain| && StartsCharacter(d)
    ensures TailEquals(domain, from, d) <==> Lower(domain[from..]) == Lower(d)
  {
    if from < |domain| {
      assert Lower(domain[from..])[0] == LowerChar(domain[from]);
    }
    if d != "" {
      assert Lower(d)[0] == LowerChar(d[0]) && !IsContinuation(LowerChar(d[0]));
    }
  }

  lemma StarIsSpecial(domain: string)
    ensures EntryMatches("*", domain) <==> Covers("*", domain) || !StarTail(domain)
  {
    var n := |domain|;
    TailEqualsIsEqual(domain, SaturatingSub(n, 1), "*");
    assert WithoutDot("*") == "*" && Lower("*") == "*" by { assert "*"[0] == '*'; }
    if n >= 2 {
      var tail := domain[n - 1..];
      assert tail == [domain[n - 1]];
      assert Lower(tail) == [LowerChar(domain[n - 1])];
      assert EqIgnoreAsciiCase(tail, "*") <==> domain[n - 1] == '*';
      assert EndsWith(Lower(domain), ".*") <==> domain[n - 1] == '*' && domain[n - 2] == '.' by {
        assert Lower(domain)[n - 2..] == [LowerChar(domain[n - 2]), LowerChar(domain[n - 1])];
      }
    } else if n == 1 {
      assert domain[0..] == domain;
    }
  }

  lemma DottedEntry(d: string, domain: string)
    requires StartsWith(d, ".") && StartsCharacter(d)
    ensures EntryMatches(d, domain) <==> Covers(d, domain)
  {
    var n, k := |domain|, |d|;
    assert d == "." + d[1..];
    LowerDot(d[1..]);
    assert d[..1] == [d[0]];
    assert d != "*";
    TailEqualsIsEqual(domain, SaturatingSub(n, k), d);
    if k <= n {
      LowerSlice(domain, n - k, n);
      assert domain[n - k..n] == domain[n - k..];
    } else {
      assert domain[0..] == domain;
    }
  }

  lemma EndsBehindDot(s: string, tail: string)
    requires |tail| < |s|
    ensures EndsWith(s, "." + tail) <==> s[|s| - |tail| - 1] == '.' && s[|s| - |tail|..] == tail
  {
    var at := |s| - |tail| - 1;
    assert s[at..] == [s[at]] + s[at + 1..];
  }

  lemma PlainEntry(d: string, domain: string)
    requires !StartsWith(d, ".") && d != "*" && StartsCharacter(d)
    ensures EntryMatches(d, domain) <==> Covers(d, domain)
  {
    var n, k := |domain|, |d|;
    TailEqualsIsEqual(domain, SaturatingSub(n, k), d);
    if k < n {
      LowerSlice(domain, n - k, n);
      assert domain[n - k..n] == domain[n - k..];
      EndsBehindDot(Lower(domain), Lower(d));
      assert Lower(domain)[n - k - 1] == '.' <==> domain[n - k - 1] == '.';
    } else {
      assert domain[0..] == domain;
    }
  }

  /**
   The matcher follows the documented rule for a host exactly unless only a lone star could cover the
   host and the host itself ends in a star behind something other than a dot.
   */
  lemma RuleIsMetExactly(entries: seq<string>, host: string)
    ensures Found(entries, host) == Rule(entries, host)
       <==> !("*" in entries && StarTail(host) && forall i :: 0 <= i < |entries| ==> !Covers(entries[i], host))
  {
  }

  /** Where they differ: a lone star covers every host, but the matcher does not find `a*`. */
  lemma StarredHostIsMissed(host: string)
    requires StarTail(host)
    ensures Rule(["*"], host) && !Found(["*"], host)
    ensures StarTail("a*")
  {
    StarDoesNotCover(host);
    assert ["*"][0] == "*";
    hide Covers;
  }

  lemma StarDoesNotCover(host: string)
    requires StarTail(host)
    ensures !Covers("*", host)
  {
    assert WithoutDot("*") == "*" && Lower("*") == "*" by { assert "*"[0] == '*'; }
    EndsBehindDot(Lower(host), "*");
  }

  /** Hosts without a star always get the rule's answer. */
  lemma StarlessHosts(entries: seq<string>, host: string)
    requires '*' !in host
    ensures Found(entries, host) == Rule(entries, host)
  {
    RuleIsMetExactly(entries, host);
  }

  /** In terms of labels: the host's labels are those of the entry, or end in them. */
  lemma CoversIsLabelSuffix(entry: string, host: string)
    ensures Covers(entry, host) <==>
            var domain := Lower(WithoutDot(entry));
            Lower(host) == domain || ProperLabelSuffix(Split(Lower(host), '.'), Split(domain, '.'))
  {
    DottedSuffixIsLabelSuffix(Lower(host), Lower(WithoutDot(entry)));
  }

  lemma CoversIgnoresCase(a: string, b: string, host: string, host': string)
    requires EqIgnoreAsciiCase(a, b) && EqIgnoreAsciiCase(host, host')
    ensures Covers(a, host) == Covers(b, host') && (a == "*" <==> b == "*")
  {
    LowerDot(a);
    LowerDot(b);
    if StartsWith(a, ".") {
      LowerSlice(a, 1, |a|);
      LowerSlice(b, 1, |b|);
      assert a[1..|a|] == a[1..] && b[1..|b|] == b[1..];
    }
    StarLower(a);
    StarLower(b);
  }

  lemma StarLower(s: string)
    ensures Lower(s) == "*" <==> s == "*"
  {
    if |s| == 1 {
      assert Lower(s)[0] == LowerChar(s[0]);
    }
  }

  predicate Listed(entry: string, entries: seq<string>) {
    exists i :: 0 <= i < |entries| && EqIgnoreAsciiCase(entry, entries[i])
  }

  /** Every entry of `a` is one of `b`, up to letter case. */
  predicate Within(a: seq<string>, b: seq<string>) {
    forall i :: 0 <= i < |a| ==> Listed(a[i], b)
  }

  lemma StarTailIgnoresCase(host: string, host': string)
    requires EqIgnoreAsciiCase(host, host')
    ensures StarTail(host) == StarTail(host')
  {
    assert forall i :: 0 <= i < |host| ==> LowerChar(host[i]) == Lower(host)[i] == Lower(host')[i] == LowerChar(host'[i]);
  }

  lemma FoundCarriesOver(a: seq<string>, b: seq<string>, host: string, host': string)
    requires EqIgnoreAsciiCase(host, host') && Within(a, b)
    ensures Found(a, host) ==> Found(b, host')
  {
    StarTailIgnoresCase(host, host');
    hide Covers, EqIgnoreAsciiCase, Lower, StarTail;
    if Found(a, host) {
      var i :| 0 <= i < |a| && (Covers(a[i], host) || (a[i] == "*" && !StarTail(host)));
      assert Listed(a[i], b);
      var j :| 0 <= j < |b| && EqIgnoreAsciiCase(a[i], b[j]);
      CoversIgnoresCase(a[i], b[j], host, host');
    }
  }

  lemma RuleCarriesOver(a: seq<string>, b: seq<string>, host: string, host': string)
    requires EqIgnoreAsciiCase(host, host') && Within(a, b)
    ensures Rule(a, host) ==> Rule(b, host')
  {
    hide Covers, EqIgnoreAsciiCase, Lower;
    if Rule(a, host) {
      var i :| 0 <= i < |a| && (a[i] == "*" || Covers(a[i], host));
      assert Listed(a[i], b);
      var j :| 0 <= j < |b| && EqIgnoreAsciiCase(a[i], b[j]);
      CoversIgnoresCase(a[i], b[j], host, host');
    }
  }

  /** The matcher and the rule depend on neither the order of the entries nor any letter case. */
  lemma AnswerIgnoresOrderAndCase(a: seq<string>, b: seq<string>, host: string, host': string)
    requires EqIgnoreAsciiCase(host, host') && Within(a, b) && Within(b, a)
    ensures Found(a, host) == Found(b, host')
    ensures Rule(a, host) == Rule(b, host')
  {
    assert EqIgnoreAsciiCase(host', host);
    hide *;
    FoundCarriesOver(a, b, host, host');
    FoundCarriesOver(b, a, host', host);
    RuleCarriesOver(a, b, host, host');
    RuleCarriesOver(b, a, host', host);
  }

  // ---------- the list ----------

  /** The pieces that are neither empty nor an address, trimmed; `isAddress` is the address parser. */
  function DomainsOf(isAddress: string -> bool, parts: seq<string>): seq<string> {
    if parts == [] then []
    else
      var part := Trim(parts[|parts| - 1]);
      DomainsOf(isAddress, parts[..|parts| - 1]) + if !isAddress(part) && Trim(part) != "" then [part] else []
  }

  method FromString(list: string, isAddress: string -> bool) returns (matcher: DomainMatcher)
    ensures matcher.domains == DomainsOf(isAddress, Split(list, ','))
  {
    hide Trim, Split;
    var parts := Split(list, ',');
    var domains := [];
    for i := 0 to |parts|
      invariant domains == DomainsOf(isAddress, parts[..i])
    {
      assert parts[..i + 1][..i] == parts[..i];
      var part := Trim(parts[i]);
      if !isAddress(part) && Trim(part) != "" {
        domains := domains + [part];
      }
    }
    assert parts[..|parts|] == parts;
    matcher := new DomainMatcher(domains);
  }
}
