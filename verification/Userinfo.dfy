/**
 Credentials in a URI: writing them (`set_userinfo` of src/ext.rs) and taking them out again
 (`extract_authority` of src/client/request.rs).
 */
module Userinfo {
  import opened Wrappers
  import opened Text
  import P = PercentEncoding

  type Credentials = (Option<string>, Option<string>)

  /** Splits at the last `@`, then what is before it at the first `:`. Empty parts read as absent. */
  function UserinfoOf(authority: string): Credentials {
    match RFind(authority, '@')
    case None => (None, None)
    case Some(at) =>
      var userinfo := authority[..at];
      match FindChar(userinfo, ':')
      case Some(colon) => (NonEmpty(userinfo[..colon]), NonEmpty(userinfo[colon + 1..]))
      case None => (Some(userinfo), None)
  }

  function NonEmpty(s: string): Option<string> {
    if s == "" then None else Some(s)
  }

  function FindChar(s: string, c: char): (found: Option<nat>)
    ensures found.Some? ==> found.value < |s| && s[found.value] == c && c !in s[..found.value]
    ensures found.None? ==> c !in s
  {
    if s == "" then None
    else if s[0] == c then Some(0)
    else
      match FindChar(s[1..], c)
      case Some(i) =>
        assert s[..i + 1] == [s[0]] + s[1..][..i];
        Some(i + 1)
      case None => None
  }

  /** The authority behind its last `@`. */
  function HostAndPort(authority: string): string {
    match RFind(authority, '@')
    case Some(at) => authority[at + 1..]
    case None => authority
  }

  function Enc(s: string): string
    requires P.IsBytes(s)
  {
    P.Encode(P.Userinfo, s)
  }

  function Written(hostAndPort: string, username: string, password: Option<string>): string
    requires P.IsBytes(username) && (password.Some? ==> P.IsBytes(password.value))
  {
    if password.Some? then (if username == "" then "" else Enc(username)) + ":" + Enc(password.value) + "@" + hostAndPort
    else if username == "" then hostAndPort
    else Enc(username) + "@" + hostAndPort
  }

  /** The libraries behind the code: the authority check and the UTF-8 check, as parameters. */
  datatype Library = Library(validAuthority: string -> bool, validUtf8: string -> bool)

  function DecodeUtf8(lib: Library, s: string): Option<string> {
    var decoded := P.Decode(s);
    if lib.validUtf8(decoded) then Some(decoded) else None
  }

  class RequestUri {
    var authority: Option<string>

    constructor (authority: Option<string>)
      ensures this.authority == authority
    {
      this.authority := authority;
    }

    /** A URI without an authority, or a result that is no authority, leaves it unchanged. */
    method SetUserinfo(lib: Library, username: string, password: Option<string>)
      requires P.IsBytes(username) && (password.Some? ==> P.IsBytes(password.value))
      modifies this
      ensures authority == Set(lib, old(authority), username, password)
    {
      if authority.None? {
        return;
      }
      var hostAndPort := HostAndPort(authority.value);
      var text;
      match (username == "", password) {
        case (true, None) => text := hostAndPort;
        case (true, Some(p)) => text := "" + ":" + Enc(p) + "@" + hostAndPort;
        case (false, Some(p)) => text := Enc(username) + ":" + Enc(p) + "@" + hostAndPort;
        case (false, None) => text := Enc(username) + "@" + hostAndPort;
      }
      if lib.validAuthority(text) {
        authority := Some(text);
      }
    }

    /** Takes the decoded credentials out of the URI; without a username there is nothing to take. */
    method ExtractAuthority(lib: Library) returns (taken: Option<(string, Option<string>)>)
      modifies this
      ensures (taken, authority) == Extracted(lib, old(authority))
    {
      if authority.None? {
        return None;
      }
      var (rawName, rawPassword) := UserinfoOf(authority.value);
      if rawName.None? {
        return None;
      }
      var username := DecodeUtf8(lib, rawName.value);
      if username.None? {
        return None;
      }
      var password := if rawPassword.Some? then DecodeUtf8(lib, rawPassword.value) else None;
      if username.value != "" || password.Some? {
        SetUserinfo(lib, "", None);
        return Some((username.value, password));
      }
      return None;
    }
  }

  /** The authority with new credentials, or as it was if the result would be none. */
  function Set(lib: Library, authority: Option<string>, username: string, password: Option<string>): Option<string>
    requires P.IsBytes(username) && (password.Some? ==> P.IsBytes(password.value))
  {
    match authority
    case None => None
    case Some(a) =>
      var written := Written(HostAndPort(a), username, password);
      if lib.validAuthority(written) then Some(written) else authority
  }

  /** What is taken out of an authority that reads as these raw credentials. */
  function Decoded(lib: Library, raw: Credentials): Option<(string, Option<string>)> {
    var username := if raw.0.Some? then DecodeUtf8(lib, raw.0.value) else None;
    var password := if raw.1.Some? then DecodeUtf8(lib, raw.1.value) else None;
    if username.None? || (username.value == "" && password.None?) then None else Some((username.value, password))
  }

  function Extracted(lib: Library, authority: Option<string>): (Option<(string, Option<string>)>, Option<string>) {
    if authority.None? then (None, authority)
    else
      var taken := Decoded(lib, UserinfoOf(authority.value));
      (taken, if taken.Some? then Set(lib, authority, "", None) else authority)
  }

  // ---------- the round trip ----------

  /** Encoded parts contain none of the bytes that separate them. */
  lemma EncodedHasNoSeparator(s: string)
    requires P.IsBytes(s)
    ensures ':' !in Enc(s) && '@' !in Enc(s)
    ensures Enc(s) == "" <==> s == ""
  {
    P.EncodedBytes(P.Userinfo, s);
    assert P.Userinfo(':') && P.Userinfo('@');
  }

  /** Encoded parts are legal user information by section 3.2.1 of RFC 3986, without its `;` and `=`. */
  lemma EncodedIsLegal(s: string)
    requires P.IsBytes(s)
    ensures forall c :: c in Enc(s) ==> c == '%' || P.IsAlphanumeric(c) || c in "-._~!$&'()*+,"
  {
    P.EncodedBytes(P.Userinfo, s);
  }

  lemma RFindLast(front: string, c: char, back: string)
    requires c !in back
    ensures RFind(front + [c] + back, c) == Some(|front|)
  {
    var s := front + [c] + back;
    assert s[|front|] == c && s[|front| + 1..] == back;
    hide RFind;
    NotBehind(s, c, |front|);
    NotBehind(s, c, RFind(s, c).value);
  }

  lemma NotBehind(s: string, c: char, p: nat)
    requires p < |s| && c !in s[p + 1..]
    ensures forall i :: p < i < |s| ==> s[i] != c
  {
    assert forall i :: p < i < |s| ==> s[i] == s[p + 1..][i - p - 1];
  }

  lemma FindCharFirst(front: string, c: char, back: string)
    requires c !in front
    ensures FindChar(front + [c] + back, c) == Some(|front|)
  {
    var s := front + [c] + back;
    if front != "" {
      assert s[1..] == front[1..] + [c] + back;
      FindCharFirst(front[1..], c, back);
    }
  }

  lemma NoChar(s: string, c: char)
    requires c !in s
    ensures FindChar(s, c).None?
  {
  }

  lemma NoLast(s: string, c: char)
    requires c !in s
    ensures RFind(s, c).None?
  {
  }

  lemma PairReadsBack(host: string, name: string, secret: string)
    requires ':' !in name && '@' !in host
    ensures var a := name + ":" + secret + "@" + host;
            HostAndPort(a) == host && UserinfoOf(a) == (NonEmpty(name), NonEmpty(secret))
  {
    hide RFind, FindChar;
    var userinfo := name + [':'] + secret;
    var a := name + ":" + secret + "@" + host;
    assert a == userinfo + ['@'] + host;
    RFindLast(userinfo, '@', host);
    FindCharFirst(name, ':', secret);
    assert a[..|userinfo|] == userinfo && userinfo[..|name|] == name && userinfo[|name| + 1..] == secret;
    assert a[|userinfo| + 1..] == host;
  }

  lemma NameReadsBack(host: string, name: string)
    requires ':' !in name && '@' !in host
    ensures var a := name + "@" + host;
            HostAndPort(a) == host && UserinfoOf(a) == (Some(name), None)
  {
    hide RFind, FindChar;
    var a := name + ['@'] + host;
    RFindLast(name, '@', host);
    NoChar(name, ':');
    assert a[..|name|] == name && a[|name| + 1..] == host;
  }

  /** Reading back what was written gives the encoded parts; empty ones read as absent. */
  lemma WrittenReadsBack(host: string, username: string, password: Option<string>)
    requires P.IsBytes(username) && (password.Some? ==> P.IsBytes(password.value))
    requires '@' !in host
    ensures var a := Written(host, username, password);
            && HostAndPort(a) == host
            && UserinfoOf(a) == (NonEmpty(Enc(username)), if password.Some? then NonEmpty(Enc(password.value)) else None)
  {
    EncodedHasNoSeparator(username);
    hide RFind, FindChar, Enc, HostAndPort, UserinfoOf;
    if password.Some? {
      EncodedHasNoSeparator(password.value);
      PairReadsBack(host, Enc(username), Enc(password.value));
    } else if username != "" {
      NameReadsBack(host, Enc(username));
    } else {
      NothingReadsBack(host);
    }
  }

  lemma NothingReadsBack(host: string)
    requires '@' !in host
    ensures HostAndPort(host) == host && UserinfoOf(host) == (None, None)
  {
    NoLast(host, '@');
  }

  /** Nothing is taken out of an authority without userinfo, and nothing in it changes. */
  lemma BareAuthorityIsLeftAlone(lib: Library, host: string)
    requires '@' !in host
    ensures Extracted(lib, Some(host)) == (None, Some(host))
  {
    NothingReadsBack(host);
  }

  /** A readable secret; an empty one, or one that is no UTF-8, is passed over. */
  function Secret(lib: Library, secret: string): Option<string> {
    if secret != "" && lib.validUtf8(P.Decode(secret)) then Some(P.Decode(secret)) else None
  }

  /**
   From any authority with userinfo, credentials are taken exactly if the name before the first colon
   is not empty and decodes to UTF-8. Then the host and port behind the last `@` stay, if they are an
   authority; otherwise all stays as it was.
   */
  lemma ExtractionMeans(lib: Library, name: string, secret: Option<string>, host: string)
    requires ':' !in name && '@' !in host
    ensures var authority := name + (if secret.Some? then ":" + secret.value else "") + "@" + host;
            var (taken, left) := Extracted(lib, Some(authority));
            if name != "" && lib.validUtf8(P.Decode(name)) then
              && taken == Some((P.Decode(name), if secret.Some? then Secret(lib, secret.value) else None))
              && left == Some(if lib.validAuthority(host) then host else authority)
            else taken.None? && left == Some(authority)
  {
    hide P.Decode, HostAndPort, UserinfoOf;
    DecodedIsEmptyIff(name);
    if secret.Some? {
      PairReadsBack(host, name, secret.value);
      assert name + (":" + secret.value) + "@" + host == name + ":" + secret.value + "@" + host;
    } else {
      NameReadsBack(host, name);
      assert name + "" + "@" + host == name + "@" + host;
    }
  }

  lemma DecodedIsEmptyIff(s: string)
    ensures P.Decode(s) == "" <==> s == ""
  {
  }

  lemma UserinfoSetFacts()
    ensures !P.Userinfo('%') && forall c :: P.Userinfo(c) ==> !P.IsHex(c)
  {
  }

  /** What was encoded decodes to itself unless it looked percent-encoded before. */
  lemma PartComesBack(lib: Library, part: string)
    requires P.IsBytes(part) && lib.validUtf8(part)
    ensures DecodeUtf8(lib, Enc(part)) == Some(part) <==> !P.HasTriple(part)
  {
    UserinfoSetFacts();
    hide P.Decode, P.Encode, P.HasTriple, P.Userinfo, P.IsBytes;
    P.DecodeEncodeExactly(P.Userinfo, part);
  }

  lemma CredentialsComeBack(lib: Library, username: string, password: Option<string>)
    requires P.IsBytes(username) && (password.Some? ==> P.IsBytes(password.value))
    requires lib.validUtf8(username) && (password.Some? ==> lib.validUtf8(password.value))
    ensures Decoded(lib, (NonEmpty(Enc(username)), if password.Some? then NonEmpty(Enc(password.value)) else None)) == Some((username, password))
       <==> && username != "" && password != Some("")
            && !P.HasTriple(username) && (password.Some? ==> !P.HasTriple(password.value))
  {
    hide DecodeUtf8, Enc, P.HasTriple, P.IsBytes;
    PartComesBack(lib, username);
    EncodedHasNoSeparator(username);
    if password.Some? {
      PartComesBack(lib, password.value);
      EncodedHasNoSeparator(password.value);
    }
  }

  lemma HostHasNoAt(authority: string)
    ensures '@' !in HostAndPort(authority)
  {
  }

  lemma HostAlone(lib: Library, written: string, host: string, username: string, password: Option<string>)
    requires P.IsBytes(username) && (password.Some? ==> P.IsBytes(password.value))
    requires written == Written(host, username, password) && HostAndPort(written) == host
    ensures Set(lib, Some(written), "", None) == Some(if lib.validAuthority(host) then host else written)
    ensures username != "" ==> written != host
  {
    hide HostAndPort;
    assert Written(host, "", None) == host;
    if username != "" {
      hide Enc;
      EncodedHasNoSeparator(username);
      assert |written| > |host|;
    }
  }

  /**
   The round trip, from any authority: `set_userinfo` and then `extract_authority` give back the
   credentials and leave the bare host and port, if and only if there is a username, a password given
   is not empty, neither contains what looks like a percent-encoded byte (the encode set leaves `%`
   alone), and the bare host and port are an authority.
   */
  lemma RoundTripExactly(lib: Library, authority: string, username: string, password: Option<string>)
    requires P.IsBytes(username) && (password.Some? ==> P.IsBytes(password.value))
    requires lib.validUtf8(username) && (password.Some? ==> lib.validUtf8(password.value))
    requires lib.validAuthority(Written(HostAndPort(authority), username, password))
    ensures Extracted(lib, Set(lib, Some(authority), username, password)) == (Some((username, password)), Some(HostAndPort(authority)))
       <==> && username != "" && password != Some("")
            && !P.HasTriple(username) && (password.Some? ==> !P.HasTriple(password.value))
            && lib.validAuthority(HostAndPort(authority))
  {
    var host := HostAndPort(authority);
    var written := Written(host, username, password);
    assert Set(lib, Some(authority), username, password) == Some(written);
    HostHasNoAt(authority);
    WrittenReadsBack(host, username, password);
    HostAlone(lib, written, host, username, password);
    CredentialsComeBack(lib, username, password);
    hide Set, Decoded, Written, HostAndPort, UserinfoOf, Enc, NonEmpty, P.HasTriple, P.IsBytes;
  }

  /** Where it fails: the username `%41` comes back as `A`. */
  lemma EncodedLookingNameIsLost(lib: Library, host: string)
    requires '@' !in host
    requires lib.validUtf8("A") && lib.validAuthority(host) && lib.validAuthority("%41@" + host)
    ensures Extracted(lib, Set(lib, Some(host), "%41", None)) == (Some(("A", None)), Some(host))
  {
    var written := "%41@" + host;
    assert written == "%41" + "@" + host;
    PlainText();
    hide P.Decode, Enc, HostAndPort, UserinfoOf, P.IsBytes;
    NothingReadsBack(host);
    NameReadsBack(host, "%41");
    assert Set(lib, Some(host), "%41", None) == Some(written);
    HostAlone(lib, written, host, "%41", None);
    hide Set, Written;
  }

  lemma PlainText()
    ensures P.IsBytes("%41") && Enc("%41") == "%41" && P.Decode("%41") == "A"
  {
    var s := "%41";
    assert s[3..] == "" && s[..3] == s;
    assert s[0] == '%' && s[1] == '4' && s[2] == '1';
    assert P.IsTriple(s);
    assert P.Decode(s) == ['A'] + P.Decode(s[3..]) by { hide P.IsHex; }
    assert forall i :: 0 <= i < 3 ==> !P.MustEncode(P.Userinfo, s[i]);
    P.LiteralRun(P.Userinfo, s, 3);
  }
}
