/**
 Percent-encoding as the `percent-encoding` crate does it, and the encode sets of the sources.
 */
module PercentEncoding {
  import opened Text

  predicate IsBytes(s: string) {
    forall i :: 0 <= i < |s| ==> s[i] < '\U{100}'
  }

  predicate IsAlphanumeric(c: char) {
    'a' <= c <= 'z' || 'A' <= c <= 'Z' || '0' <= c <= '9'
  }

  predicate IsControl(c: char) {
    c < ' ' || c == '\U{7f}'
  }

  predicate Fragment(c: char) {
    IsControl(c) || c in " \"<>`"
  }

  predicate Path(c: char) {
    Fragment(c) || c in "#?{}"
  }

  predicate PathSegment(c: char) {
    Path(c) || c in "/%"
  }

  predicate AttrChar(c: char) {
    c < '\U{80}' && !IsAlphanumeric(c) && c !in "!#$&+-.^_`|~"
  }

  predicate Userinfo(c: char) {
    Path(c) || c in "/:;=@[\\]^|"
  }

  /** Bytes outside ASCII are always encoded. */
  predicate MustEncode(encodeSet: char -> bool, c: char) {
    c >= '\U{80}' || encodeSet(c)
  }

  function HexDigit(n: nat): (c: char)
    requires n < 16
    ensures HexValue(c) == n
  {
    "0123456789ABCDEF"[n]
  }

  predicate IsHex(c: char) {
    '0' <= c <= '9' || 'a' <= c <= 'f' || 'A' <= c <= 'F'
  }

  function HexValue(c: char): int {
    if '0' <= c <= '9' then c as int - '0' as int
    else if 'a' <= c <= 'f' then c as int - 'a' as int + 10
    else if 'A' <= c <= 'F' then c as int - 'A' as int + 10
    else -1
  }

  function EncodeByte(c: char): (e: string)
    requires c < '\U{100}'
    ensures |e| == 3 && e[0] == '%' && IsHex(e[1]) && IsHex(e[2])
    ensures HexValue(e[1]) * 16 + HexValue(e[2]) == c as int
  {
    ['%', HexDigit(c as int / 16), HexDigit(c as int % 16)]
  }

  function EncodeChar(encodeSet: char -> bool, c: char): string
    requires c < '\U{100}'
  {
    if MustEncode(encodeSet, c) then EncodeByte(c) else [c]
  }

  function Encode(encodeSet: char -> bool, s: string): (e: string)
    requires IsBytes(s)
    ensures |e| >= |s|
  {
    if s == "" then "" else EncodeChar(encodeSet, s[0]) + Encode(encodeSet, s[1..])
  }

  /** A byte triple `%HH`. */
  predicate IsTriple(s: string) {
    |s| >= 3 && s[0] == '%' && IsHex(s[1]) && IsHex(s[2])
  }

  /** `%HH` becomes a byte; anything else is taken literally. */
  function Decode(s: string): string {
    if s == "" then ""
    else if IsTriple(s) then [(HexValue(s[1]) * 16 + HexValue(s[2])) as char] + Decode(s[3..])
    else [s[0]] + Decode(s[1..])
  }

  lemma DecodeEncodedByte(c: char, rest: string)
    requires c < '\U{100}'
    ensures Decode(EncodeByte(c) + rest) == [c] + Decode(rest)
  {
    var e := EncodeByte(c) + rest;
    assert IsTriple(e) && e[3..] == rest;
  }

  /** With `%` in the encode set, decoding undoes encoding. */
  lemma {:induction false} DecodeEncode(encodeSet: char -> bool, s: string)
    requires IsBytes(s) && encodeSet('%')
    ensures Decode(Encode(encodeSet, s)) == s
  {
    if s != "" {
      var rest := Encode(encodeSet, s[1..]);
      DecodeEncode(encodeSet, s[1..]);
      if MustEncode(encodeSet, s[0]) {
        DecodeEncodedByte(s[0], rest);
      } else {
        assert ([s[0]] + rest)[1..] == rest;
      }
    }
  }

  /** Somewhere in `s` stands what looks like an encoded byte. */
  predicate HasTriple(s: string) {
    exists i | 0 <= i < |s| :: IsTriple(s[i..])
  }

  lemma HasTripleStep(s: string)
    requires s != ""
    ensures HasTriple(s) <==> IsTriple(s) || HasTriple(s[1..])
  {
    if HasTriple(s) && !IsTriple(s) {
      var i :| 0 <= i < |s| && IsTriple(s[i..]);
      assert s[0..] == s;
      assert s[1..][i - 1..] == s[i..];
    }
    if IsTriple(s) {
      assert s[0..] == s;
    }
    if HasTriple(s[1..]) {
      var i :| 0 <= i < |s[1..]| && IsTriple(s[1..][i..]);
      assert s[i + 1..] == s[1..][i..];
    }
  }

  /**
   Without `%` in the encode set, decoding undoes encoding exactly for strings that contain no `%HH`;
   the others come back shorter.
   */
  lemma {:induction false} DecodeEncodeExactly(encodeSet: char -> bool, s: string)
    requires IsBytes(s) && !encodeSet('%')
    requires forall c :: encodeSet(c) ==> !IsHex(c)
    ensures |Decode(Encode(encodeSet, s))| <= |s|
    ensures Decode(Encode(encodeSet, s)) == s <==> !HasTriple(s)
    ensures HasTriple(s) ==> |Decode(Encode(encodeSet, s))| < |s|
  {
    if s != "" {
      var rest := Encode(encodeSet, s[1..]);
      HasTripleStep(s);
      DecodeEncodeExactly(encodeSet, s[1..]);
      if MustEncode(encodeSet, s[0]) {
        DecodeEncodedByte(s[0], rest);
        assert !IsTriple(s);
      } else {
        var e := [s[0]] + rest;
        assert e[1..] == rest;
        EncodedHexIsLiteral(encodeSet, s[1..]);
        assert IsTriple(e) <==> IsTriple(s);
        if IsTriple(s) {
          DecodeEncodeExactly(encodeSet, s[3..]);
          assert rest == [s[1]] + ([s[2]] + Encode(encodeSet, s[3..])) by {
            assert s[1..][1..][1..] == s[3..] && s[1..][1..] == s[2..];
          }
          assert e[3..] == Encode(encodeSet, s[3..]);
        }
      }
    }
  }

  /** Two leading hex digits of an encoding were hex digits before, and the converse. */
  lemma EncodedHexIsLiteral(encodeSet: char -> bool, s: string)
    requires IsBytes(s) && forall c :: encodeSet(c) ==> !IsHex(c)
    ensures var e := Encode(encodeSet, s);
            (|e| >= 2 && IsHex(e[0]) && IsHex(e[1])) <==> (|s| >= 2 && IsHex(s[0]) && IsHex(s[1]))
  {
    if s != "" && s[1..] != "" {
      assert Encode(encodeSet, s) == EncodeChar(encodeSet, s[0]) + Encode(encodeSet, s[1..]);
      assert Encode(encodeSet, s[1..]) == EncodeChar(encodeSet, s[1]) + Encode(encodeSet, s[1..][1..]);
    }
  }

  /** Every byte of an encoding is a literal outside the set, `%`, or a hex digit. */
  lemma {:induction false} EncodedBytes(encodeSet: char -> bool, s: string)
    requires IsBytes(s)
    ensures forall c :: c in Encode(encodeSet, s) ==> c == '%' || IsHex(c) || (!MustEncode(encodeSet, c) && c in s)
  {
    if s != "" {
      EncodedBytes(encodeSet, s[1..]);
    }
  }

  // ---------- chunks ----------

  function RunLength(encodeSet: char -> bool, s: string): (n: nat)
    ensures n <= |s|
    ensures forall i :: 0 <= i < n ==> !MustEncode(encodeSet, s[i])
    ensures n < |s| ==> MustEncode(encodeSet, s[n])
  {
    if s == "" || MustEncode(encodeSet, s[0]) then 0 else 1 + RunLength(encodeSet, s[1..])
  }

  /** The pieces the crate's iterator yields: one per encoded byte, one per maximal literal run. */
  function Chunks(encodeSet: char -> bool, s: string): seq<string>
    requires IsBytes(s)
    decreases |s|
  {
    if s == "" then []
    else if MustEncode(encodeSet, s[0]) then [EncodeByte(s[0])] + Chunks(encodeSet, s[1..])
    else
      var n := RunLength(encodeSet, s);
      [s[..n]] + Chunks(encodeSet, s[n..])
  }

  /** Converted to a `Cow`, an encoding of at most one piece stays borrowed. */
  predicate IsBorrowed(encodeSet: char -> bool, s: string)
    requires IsBytes(s)
  {
    |Chunks(encodeSet, s)| <= 1
  }

  /** Borrowed does not mean unencoded: a single byte is borrowed even if it had to be encoded. */
  lemma BorrowedExactly(encodeSet: char -> bool, s: string)
    requires IsBytes(s)
    ensures IsBorrowed(encodeSet, s) <==> |s| == 1 || forall c :: c in s ==> !MustEncode(encodeSet, c)
  {
    if s != "" {
      if MustEncode(encodeSet, s[0]) {
        assert Chunks(encodeSet, s[1..]) == [] <==> s[1..] == "";
      } else {
        var n := RunLength(encodeSet, s);
        assert Chunks(encodeSet, s[n..]) == [] <==> s[n..] == "";
        if n < |s| { assert s[n] in s; }
      }
    }
  }

  /** For example `#` in a path segment: encoded, and still borrowed. */
  lemma LoneByteIsBorrowed()
    ensures Encode(PathSegment, "#") == "%23" && IsBorrowed(PathSegment, "#")
  {
    var s := "#";
    assert s[0] == '#' && s[1..] == "" && MustEncode(PathSegment, '#');
    assert EncodeByte('#') == ['%', HexDigit(2), HexDigit(3)];
    assert Encode(PathSegment, s) == EncodeByte('#') + Encode(PathSegment, s[1..]);
    BorrowedExactly(PathSegment, s);
  }

  lemma {:induction false} LiteralRun(encodeSet: char -> bool, s: string, n: nat)
    requires IsBytes(s) && n <= |s| && forall i :: 0 <= i < n ==> !MustEncode(encodeSet, s[i])
    ensures Encode(encodeSet, s) == s[..n] + Encode(encodeSet, s[n..])
  {
    if n > 0 {
      LiteralRun(encodeSet, s[1..], n - 1);
      assert Encode(encodeSet, s) == [s[0]] + Encode(encodeSet, s[1..]);
      hide Encode, MustEncode, IsBytes;
      assert s[1..][n - 1..] == s[n..];
      assert s[..n] == [s[0]] + s[1..][..n - 1];
    } else {
      hide Encode, MustEncode;
      assert s[0..] == s;
    }
  }

  /** The pieces joined are the encoding. */
  lemma {:induction false} ChunksJoin(encodeSet: char -> bool, s: string)
    requires IsBytes(s)
    ensures Join(Chunks(encodeSet, s), "") == Encode(encodeSet, s)
    decreases |s|
  {
    hide MustEncode, EncodeByte;
    if s != "" {
      var chunks := Chunks(encodeSet, s);
      var n := if MustEncode(encodeSet, s[0]) then 1 else RunLength(encodeSet, s);
      ChunksJoin(encodeSet, s[n..]);
      if MustEncode(encodeSet, s[0]) {
        assert chunks[1..] == Chunks(encodeSet, s[1..]);
      } else {
        LiteralRun(encodeSet, s, n);
        assert chunks[1..] == Chunks(encodeSet, s[n..]);
      }
      if |chunks| > 1 {
        assert Join(chunks, "") == chunks[0] + "" + Join(chunks[1..], "");
      } else {
        assert Chunks(encodeSet, s[n..]) == [];
      }
    }
  }
}
