/**
 Host and path rules of cookie storage and retrieval: the pure functions of src/cookie/store.rs.
 */
module CookieMatching {
  import opened Wrappers
  import opened Text

  /** A canonical host. Address literals compare as numbers, never by suffix. */
  datatype Host = Domain(name: string) | Ipv4(address: nat) | Ipv6(address: nat)

  const DEFAULT_PATH := "/"

  predicate DomainMatch(host: Host, domain: Host) {
    || host == domain
    || (&& host.Domain? && domain.Domain?
        && |host.name| > |domain.name|
        && host.name[|host.name| - |domain.name| - 1] == '.'
        && EndsWith(host.name, domain.name))
  }

  predicate PathMatch(requestPath: string, cookiePath: string) {
    || requestPath == cookiePath
    || (&& StartsWith(requestPath, cookiePath)
        && (EndsWith(cookiePath, DEFAULT_PATH) || StartsWith(requestPath[|cookiePath|..], DEFAULT_PATH)))
  }

  function NormalizePath(path: string): string {
    if !StartsWith(path, DEFAULT_PATH) then DEFAULT_PATH
    else match RFind(path, '/')
      case Some(position) => if position == 0 then DEFAULT_PATH else path[..position]
      case None => DEFAULT_PATH
  }

  /** Section 5.1.3 of RFC 6265 in terms of labels instead of byte offsets. */
  lemma DomainMatchIsLabelSuffix(host: Host, domain: Host)
    ensures DomainMatch(host, domain) <==>
            || host == domain
            || (&& host.Domain? && domain.Domain?
                && ProperLabelSuffix(Split(host.name, '.'), Split(domain.name, '.')))
  {
    if host.Domain? && domain.Domain? {
      DottedSuffixIsLabelSuffix(host.name, domain.name);
      var long, short := host.name, domain.name;
      if |long| > |short| {
        assert long[|long| - |short| - 1..] == [long[|long| - |short| - 1]] + long[|long| - |short|..];
      }
    }
  }

  lemma DomainMatchPartialOrder(a: Host, b: Host, c: Host)
    ensures DomainMatch(a, a)
    ensures DomainMatch(a, b) && DomainMatch(b, a) ==> a == b
    ensures DomainMatch(a, b) && DomainMatch(b, c) ==> DomainMatch(a, c)
  {
    if a != b && b != c && DomainMatch(a, b) && DomainMatch(b, c) {
      assert a.name[|a.name| - |c.name|..] == b.name[|b.name| - |c.name|..];
      assert a.name[|a.name| - |c.name| - 1] == b.name[|b.name| - |c.name| - 1];
    }
  }

  lemma PathMatchPartialOrder(a: string, b: string, c: string)
    ensures PathMatch(a, a)
    ensures PathMatch(a, b) && PathMatch(b, a) ==> a == b
    ensures PathMatch(a, b) && PathMatch(b, c) ==> PathMatch(a, c)
  {
    if a != b && b != c && PathMatch(a, b) && PathMatch(b, c) {
      assert a[..|c|] == b[..|c|];
      assert a[|c|] == b[|c|];
    }
  }

  /** The segments of a path, without the empty one behind a trailing slash. */
  function Segments(path: string): seq<string> {
    var all := Split(path, '/');
    if EndsWith(path, DEFAULT_PATH) then all[..|all| - 1] else all
  }

  /** Section 5.1.4 of RFC 6265 in terms of segments instead of byte offsets. */
  lemma PathMatchIsSegmentPrefix(requestPath: string, cookiePath: string)
    ensures PathMatch(requestPath, cookiePath) <==>
            requestPath == cookiePath || ProperPiecePrefix(Split(requestPath, '/'), Segments(cookiePath))
  {
    hide Split;
    if EndsWith(cookiePath, DEFAULT_PATH) {
      var front := cookiePath[..|cookiePath| - 1];
      assert cookiePath == front + ['/'] + "";
      SplitAtSeparator(front, "", '/');
      SplitNothing("", '/');
      assert Segments(cookiePath) == Split(front, '/');
      PrefixIsPiecePrefix(requestPath, front, '/');
    } else {
      PrefixIsPiecePrefix(requestPath, cookiePath, '/');
      if StartsWith(requestPath, cookiePath) {
        assert requestPath == cookiePath + requestPath[|cookiePath|..];
      }
      assert StartsWith(requestPath, cookiePath + ['/']) <==>
             StartsWith(requestPath, cookiePath) && StartsWith(requestPath[|cookiePath|..], "/") by {
        PrefixThenSlash(requestPath, cookiePath);
      }
    }
  }

  lemma PrefixThenSlash(s: string, front: string)
    ensures StartsWith(s, front + ['/']) <==> StartsWith(s, front) && StartsWith(s[|front|..], "/")
  {
    var n := |front|;
    if |s| > n {
      assert s[..n + 1] == s[..n] + [s[n]];
      assert s[n..][..1] == [s[n]];
    }
  }

  /** The default path is the request path without its last segment. */
  lemma DefaultPathIsDirectory(path: string)
    requires StartsWith(path, DEFAULT_PATH)
    ensures var pieces := Split(path, '/');
            var directory := Join(pieces[..|pieces| - 1], "/");
            NormalizePath(path) == if directory == "" then DEFAULT_PATH else directory
  {
    hide Split, Join;
    assert path[0] == '/';
    var r := RFind(path, '/').value;
    var front, back := path[..r], path[r + 1..];
    assert path == front + ['/'] + back;
    SplitAtSeparator(front, back, '/');
    SplitNothing(back, '/');
    JoinSplit(front, '/');
    var pieces := Split(path, '/');
    assert pieces[..|pieces| - 1] == Split(front, '/');
  }

  /** Two cookie paths that apply to one request path never disagree on which is more specific. */
  lemma MatchingPathsAreComparable(request: string, p: string, q: string)
    requires PathMatch(request, p) && PathMatch(request, q)
    ensures |p| > |q| ==> PathMatch(p, q)
    ensures |p| == |q| ==> p == q
    ensures PathMatch(p, q) || PathMatch(q, p)
  {
    assert p == request[..|p|] && q == request[..|q|];
    if |p| > |q| {
      assert p[..|q|] == q && p[|q|] == request[|q|];
    } else if |q| > |p| {
      assert q[..|p|] == p && q[|p|] == request[|p|];
    }
  }

  /** A cookie that falls back to the default path is sent back to the path that set it. */
  lemma DefaultPathCoversItsRequest(path: string)
    ensures StartsWith(NormalizePath(path), DEFAULT_PATH)
    ensures StartsWith(path, DEFAULT_PATH) ==> PathMatch(path, NormalizePath(path))
  {
    if StartsWith(path, DEFAULT_PATH) {
      var r := RFind(path, '/');
      assert path[0] == '/';
      if r.Some? && r.value > 0 {
        var p := path[..r.value];
        assert p[0] == path[0];
        assert path[|p|..][0] == '/';
        assert p[..1] == "/";
      }
    }
  }
}
