/**
 The multipart/form-data encoder of src/client/multipart.rs.
 */
module Multipart {
  import opened Wrappers
  import opened Text
  import P = PercentEncoding

  datatype Encoding = PathSegment | AttrChar | NoOp

  /** A body is a stream of chunks; `hint` is the exact size it reports, if any. */
  datatype Body = Body(chunks: seq<string>, hint: Option<nat>)

  datatype Metadata = Metadata(mime: Option<string>, fileName: Option<string>, headers: seq<(string, string)>)

  datatype Part = Part(meta: Metadata, value: Body, bodyLength: Option<nat>) {
    /** A declared length wins over the one the body reports. */
    function ValueLen(): Option<nat> {
      if bodyLength.Some? then bodyLength else value.hint
    }

    function Bytes(): string {
      Join(value.chunks, "")
    }
  }

  type Field = (string, Part)

  const CRLF := "\r\n"
  const BLANK := "\r\n\r\n"
  const DISPOSITION := "Content-Disposition: form-data; "

  // ---------- boundaries ----------

  const BOUNDARY_PREFIX := "----WebKitFormBoundary"

  /** The 64 entries of the encoding map: the alphanumerics, with A and B twice. */
  function Letter(index: nat): (c: char)
    requires index < 64
    ensures P.IsAlphanumeric(c)
  {
    if index < 26 then 'A' + index as char
    else if index < 52 then 'a' + (index - 26) as char
    else if index < 62 then '0' + (index - 52) as char
    else 'A' + (index - 62) as char
  }

  /** One letter for each group of six bits, lowest group first. */
  function Letters(word: nat, n: nat): string
    decreases n
  {
    if n == 0 then "" else [Letter(word % 64)] + Letters(word / 64, n - 1)
  }

  /** What section 5.1.1 of RFC 2046 allows as a boundary. */
  predicate LegalBoundary(s: string) {
    1 <= |s| <= 70 && s[|s| - 1] != ' ' && forall c :: c in s ==> P.IsAlphanumeric(c) || c in "'()+_,-./:=? "
  }

  lemma {:induction false} LettersAreAlphanumeric(word: nat, n: nat)
    ensures |Letters(word, n)| == n && forall c :: c in Letters(word, n) ==> P.IsAlphanumeric(c)
    decreases n
  {
    if n > 0 {
      LettersAreAlphanumeric(word / 64, n - 1);
    }
  }

  /** The boundary of a new form; the two random words are parameters. */
  method GenBoundary(first: nat, second: nat) returns (boundary: string)
    ensures boundary == BOUNDARY_PREFIX + Letters(first, 8) + Letters(second, 8)
    ensures |boundary| == 38 && LegalBoundary(boundary) && '\r' !in boundary
  {
    hide Letters, LegalBoundary;
    boundary := BOUNDARY_PREFIX;
    var randomness := [first, second];
    for k := 0 to 2
      invariant boundary == BOUNDARY_PREFIX + (if k > 0 then Letters(first, 8) else "") + (if k > 1 then Letters(second, 8) else "")
    {
      boundary := AppendLetters(boundary, randomness[k]);
    }
    LettersAreAlphanumeric(first, 8);
    LettersAreAlphanumeric(second, 8);
    PrefixIsLegal(Letters(first, 8) + Letters(second, 8));
    assert boundary == BOUNDARY_PREFIX + (Letters(first, 8) + Letters(second, 8));
  }

  method AppendLetters(buf: string, word: nat) returns (longer: string)
    ensures longer == buf + Letters(word, 8)
  {
    longer := buf;
    var randomness := word;
    for i := 0 to 8
      invariant longer + Letters(randomness, 8 - i) == buf + Letters(word, 8)
    {
      longer := longer + [Letter(randomness % 64)];
      randomness := randomness / 64;
    }
  }

  lemma PrefixIsLegal(random: string)
    requires |random| == 16 && forall c :: c in random ==> P.IsAlphanumeric(c)
    ensures LegalBoundary(BOUNDARY_PREFIX + random) && '\r' !in BOUNDARY_PREFIX + random
  {
    var s := BOUNDARY_PREFIX + random;
    assert s[|s| - 1] in random;
    forall c | c in s
      ensures P.IsAlphanumeric(c) || c == '-'
    {
      assert c in BOUNDARY_PREFIX ==> P.IsAlphanumeric(c) || c == '-';
    }
    assert "'()+_,-./:=? "[6] == '-';
  }

  // ---------- headers ----------

  /** The text between the disposition and the filename: plain if borrowed, extended if not. */
  function NameParameter(encoding: Encoding, name: string): string
    requires P.IsBytes(name)
  {
    match encoding
    case PathSegment => EncodedName(P.PathSegment, name)
    case AttrChar => EncodedName(P.AttrChar, name)
    case NoOp => "name=\"" + name + "\""
  }

  function EncodedName(encodeSet: char -> bool, name: string): string
    requires P.IsBytes(name)
  {
    if P.IsBorrowed(encodeSet, name) then "name=\"" + P.Encode(encodeSet, name) + "\""
    else "name*=utf-8''" + P.Encode(encodeSet, name)
  }

  predicate MustEscape(c: char) {
    c == '\\' || c == '"' || c == '\r' || c == '\n'
  }

  /** One backslash before each backslash, quote, CR and LF. */
  function Escape(s: string): string {
    if s == "" then "" else (if MustEscape(s[0]) then ['\\', s[0]] else [s[0]]) + Escape(s[1..])
  }

  function FileParameter(fileName: Option<string>): string {
    match fileName
    case Some(f) => "; filename=\"" + Escape(f) + "\""
    case None => ""
  }

  /** Everything after the first header line. */
  function OtherHeaders(meta: Metadata): string {
    (match meta.mime case Some(m) => CRLF + "Content-Type: " + m case None => "") + HeaderLines(meta.headers)
  }

  function HeaderLines(headers: seq<(string, string)>): string {
    if headers == [] then ""
    else HeaderLines(headers[..|headers| - 1]) + CRLF + headers[|headers| - 1].0 + ": " + headers[|headers| - 1].1
  }

  function Headers(encoding: Encoding, name: string, meta: Metadata): string
    requires P.IsBytes(name)
  {
    DISPOSITION + NameParameter(encoding, name) + FileParameter(meta.fileName) + OtherHeaders(meta)
  }

  /** Replaces every occurrence of one byte. */
  function Replace(s: string, c: char, with: string): string {
    if s == "" then "" else (if s[0] == c then with else [s[0]]) + Replace(s[1..], c, with)
  }

  lemma {:induction false} ReplaceAppend(a: string, b: string, c: char, with: string)
    ensures Replace(a + b, c, with) == Replace(a, c, with) + Replace(b, c, with)
  {
    if a == "" {
      assert a + b == b;
    } else {
      assert (a + b)[1..] == a[1..] + b;
      ReplaceAppend(a[1..], b, c, with);
    }
  }

  function ReplaceChain(s: string): string {
    Replace(Replace(Replace(Replace(s, '\\', "\\\\"), '"', "\\\""), '\r', "\\\r"), '\n', "\\\n")
  }

  lemma ChainAppend(a: string, b: string)
    ensures ReplaceChain(a + b) == ReplaceChain(a) + ReplaceChain(b)
  {
    ReplaceAppend(a, b, '\\', "\\\\");
    var a1, b1 := Replace(a, '\\', "\\\\"), Replace(b, '\\', "\\\\");
    ReplaceAppend(a1, b1, '"', "\\\"");
    var a2, b2 := Replace(a1, '"', "\\\""), Replace(b1, '"', "\\\"");
    ReplaceAppend(a2, b2, '\r', "\\\r");
    ReplaceAppend(Replace(a2, '\r', "\\\r"), Replace(b2, '\r', "\\\r"), '\n', "\\\n");
  }

  lemma ReplaceShort(s: string, c: char, with: string)
    requires 1 <= |s| <= 2
    ensures Replace(s, c, with) == (if s[0] == c then with else [s[0]]) + (if |s| == 1 then "" else if s[1] == c then with else [s[1]])
  {
    assert |s| == 2 ==> s[1..][1..] == "";
  }

  lemma ChainOfOne(c: char)
    ensures ReplaceChain([c]) == Escape([c])
  {
    var a := if c == '\\' then "\\\\" else [c];
    var b := if c == '"' then "\\\"" else a;
    var d := if c == '\r' then "\\\r" else b;
    ReplaceShort([c], '\\', "\\\\");
    ReplaceShort(a, '"', "\\\"");
    ReplaceShort(b, '\r', "\\\r");
    ReplaceShort(d, '\n', "\\\n");
    assert Replace([c], '\\', "\\\\") == a;
    assert Replace(a, '"', "\\\"") == b;
    assert Replace(b, '\r', "\\\r") == d;
  }

  /** The four chained replacements are one escape: none touches what an earlier one produced. */
  lemma {:induction false} ChainIsEscape(s: string)
    ensures ReplaceChain(s) == Escape(s)
  {
    if s != "" {
      ChainIsEscape(s[1..]);
      ChainAppend([s[0]], s[1..]);
      ChainOfOne(s[0]);
      assert s == [s[0]] + s[1..];
      assert Escape(s) == Escape([s[0]]) + Escape(s[1..]) by {
        assert [s[0]][1..] == "";
      }
    }
  }

  method EncodeHeaders(encoding: Encoding, name: string, meta: Metadata) returns (buf: string)
    requires P.IsBytes(name)
    ensures buf == Headers(encoding, name, meta)
  {
    buf := DISPOSITION;
    buf := ExtendWithName(buf, encoding, name);
    if meta.fileName.Some? {
      buf := ExtendWithFile(buf, meta.fileName.value);
    }
    assert buf == DISPOSITION + NameParameter(encoding, name) + FileParameter(meta.fileName);
    buf := ExtendWithOthers(buf, meta);
  }

  method ExtendWithName(buf: string, encoding: Encoding, name: string) returns (longer: string)
    requires P.IsBytes(name)
    ensures longer == buf + NameParameter(encoding, name)
  {
    if encoding.NoOp? {
      longer := buf + ("name=\"" + name + "\"");
    } else {
      var encodeSet := if encoding.PathSegment? then P.PathSegment else P.AttrChar;
      var value := P.Encode(encodeSet, name);
      if P.IsBorrowed(encodeSet, name) {
        longer := buf + ("name=\"" + value + "\"");
      } else {
        longer := buf + ("name*=utf-8''" + value);
      }
    }
  }

  method ExtendWithFile(buf: string, fileName: string) returns (longer: string)
    ensures longer == buf + FileParameter(Some(fileName))
  {
    var legal := Replace(fileName, '\\', "\\\\");
    legal := Replace(legal, '"', "\\\"");
    legal := Replace(legal, '\r', "\\\r");
    legal := Replace(legal, '\n', "\\\n");
    ChainIsEscape(fileName);
    longer := buf + ("; filename=\"" + legal + "\"");
  }

  lemma LinesSnoc(headers: seq<(string, string)>, i: nat)
    requires i < |headers|
    ensures HeaderLines(headers[..i + 1]) == HeaderLines(headers[..i]) + (CRLF + headers[i].0 + ": " + headers[i].1)
  {
    assert headers[..i + 1][..i] == headers[..i];
    var before := HeaderLines(headers[..i]);
    assert before + CRLF + headers[i].0 + ": " + headers[i].1 == before + (CRLF + headers[i].0 + ": " + headers[i].1);
  }

  method ExtendWithOthers(buf: string, meta: Metadata) returns (longer: string)
    ensures longer == buf + OtherHeaders(meta)
  {
    longer := buf;
    if meta.mime.Some? {
      longer := longer + (CRLF + "Content-Type: " + meta.mime.value);
    }
    ghost var start := longer;
    assert meta.headers[..0] == [];
    for i := 0 to |meta.headers|
      invariant longer == start + HeaderLines(meta.headers[..i])
    {
      hide HeaderLines;
      var (name, value) := meta.headers[i];
      LinesSnoc(meta.headers, i);
      longer := longer + (CRLF + name + ": " + value);
    }
    assert meta.headers[..|meta.headers|] == meta.headers;
  }

  // ---------- the form ----------

  ghost predicate GoodFields(fields: seq<Field>) {
    forall i :: 0 <= i < |fields| ==> P.IsBytes(fields[i].0)
  }

  /** Headers, blank line and value of one part: what stands between two delimiters. */
  function Content(encoding: Encoding, field: Field): string
    requires P.IsBytes(field.0)
  {
    Headers(encoding, field.0, field.1.meta) + BLANK + field.1.Bytes()
  }

  function PartText(boundary: string, encoding: Encoding, field: Field): string
    requires P.IsBytes(field.0)
  {
    "--" + boundary + CRLF + Content(encoding, field) + CRLF
  }

  ghost function Parts(boundary: string, encoding: Encoding, fields: seq<Field>): string
    requires GoodFields(fields)
  {
    if fields == [] then ""
    else Parts(boundary, encoding, fields[..|fields| - 1]) + PartText(boundary, encoding, fields[|fields| - 1])
  }

  /** The bytes of the whole body; the empty form has none. */
  ghost function Encoded(boundary: string, encoding: Encoding, fields: seq<Field>): string
    requires GoodFields(fields)
  {
    if fields == [] then "" else Parts(boundary, encoding, fields) + ("--" + boundary + "--\r\n")
  }

  /** Sums over the fields: declared lengths (0 where unknown) and actual ones. */
  function Declared(fields: seq<Field>): nat {
    if fields == [] then 0
    else
      var len := fields[|fields| - 1].1.ValueLen();
      Declared(fields[..|fields| - 1]) + if len.Some? then len.value else 0
  }

  function Actual(fields: seq<Field>): nat {
    if fields == [] then 0 else Actual(fields[..|fields| - 1]) + |fields[|fields| - 1].1.Bytes()|
  }

  class Form {
    const boundary: string
    const encoding: Encoding
    var computedHeaders: seq<string>
    var fields: seq<Field>

    constructor (boundary: string, encoding: Encoding)
      ensures this.boundary == boundary && this.encoding == encoding && fields == [] && computedHeaders == []
    {
      this.boundary, this.encoding := boundary, encoding;
      computedHeaders, fields := [], [];
    }

    method AddPart(name: string, part: Part)
      modifies this`fields
      ensures fields == old(fields) + [(name, part)]
    {
      fields := fields + [(name, part)];
    }

    /** Produces the chunks of the body and leaves the form without fields. */
    method IntoStream() returns (stream: seq<string>)
      requires GoodFields(fields)
      modifies this`fields
      ensures fields == []
      ensures Join(stream, "") == Encoded(boundary, encoding, old(fields))
      ensures old(fields) == [] ==> stream == []
    {
      if fields == [] {
        return [];
      }
      ghost var all := fields;
      var first := fields[0];
      stream := PartStream(first.0, first.1);
      var rest := fields[1..];
      fields := [];
      PartsOfOne(boundary, encoding, all);
      stream := Chain(stream, rest, all);
      var last := "--" + boundary + "--\r\n";
      ConcatAppend(stream, [last]);
      stream := stream + [last];
    }

    /** Chains one part stream per remaining field onto `start`. */
    method Chain(start: seq<string>, rest: seq<Field>, ghost all: seq<Field>) returns (stream: seq<string>)
      requires GoodFields(all) && all != [] && rest == all[1..]
      requires Join(start, "") == Parts(boundary, encoding, all[..1])
      ensures Join(stream, "") == Parts(boundary, encoding, all)
    {
      hide Headers;
      stream := start;
      for i := 0 to |rest|
        invariant Join(stream, "") == Parts(boundary, encoding, all[..i + 1])
      {
        var part := PartStream(rest[i].0, rest[i].1);
        ConcatAppend(stream, part);
        PartsStep(boundary, encoding, all, i + 1);
        stream := stream + part;
      }
      assert all[..|rest| + 1] == all;
    }

    method PartStream(name: string, part: Part) returns (stream: seq<string>)
      requires P.IsBytes(name)
      ensures Join(stream, "") == PartText(boundary, encoding, (name, part))
    {
      var start := ["--" + boundary + "\r\n"];
      var h := EncodeHeaders(encoding, name, part.meta);
      h := h + BLANK;
      stream := start + [h];
      ConcatAppend(start, [h]);
      ConcatAppend(stream, part.value.chunks);
      ConcatAppend(stream + part.value.chunks, ["\r\n"]);
      stream := stream + part.value.chunks + ["\r\n"];
    }

    /**
     The predicted length. It exists exactly when every part's length is known, and then it is off
     by exactly what the declared lengths are off: it is right whenever they are. The headers built
     on the way are cached.
     */
    method ComputeLength() returns (length: Option<nat>)
      requires GoodFields(fields)
      modifies this`computedHeaders
      ensures length.Some? <==> forall i :: 0 <= i < |fields| ==> HasLength(fields[i].1)
      ensures fields == [] ==> length == Some(0)
      ensures length.Some? ==> length.value + Actual(fields) == |Encoded(boundary, encoding, fields)| + Declared(fields)
      ensures computedHeaders == old(computedHeaders) + Cached(encoding, fields[..KnownPrefix(fields)])
    {
      hide Headers, Encoded, Parts, Declared, Actual;
      var total := 0;
      var all := fields;
      assert all[..0] == [];
      for i := 0 to |all|
        invariant i <= KnownPrefix(all)
        invariant total == Predicted(boundary, encoding, all[..i])
        invariant computedHeaders == old(computedHeaders) + Cached(encoding, all[..i])
      {
        var (name, field) := all[i];
        if field.ValueLen().None? {
          assert fields == all && !HasLength(fields[i].1);
          return None;
        }
        var header := EncodeHeaders(encoding, name, field.meta);
        computedHeaders := computedHeaders + [header];
        SumStep(boundary, encoding, all, i, header, old(computedHeaders));
        total := total + (2 + |boundary| + 2 + |header| + 4 + field.ValueLen().value + 2);
      }
      assert all[..|all|] == all;
      LengthFormula(boundary, encoding, all);
      if all != [] {
        total := total + (2 + |boundary| + 4);
      }
      length := Some(total);
    }
  }

  /** The formula is off by exactly what the declared lengths are off. */
  lemma LengthFormula(boundary: string, encoding: Encoding, fields: seq<Field>)
    requires GoodFields(fields)
    ensures Predicted(boundary, encoding, fields) + (if fields == [] then 0 else 2 + |boundary| + 4) + Actual(fields)
         == |Encoded(boundary, encoding, fields)| + Declared(fields)
  {
    PredictedIsOffByDeclared(boundary, encoding, fields);
  }

  lemma PartsStep(boundary: string, encoding: Encoding, fields: seq<Field>, i: nat)
    requires GoodFields(fields) && i < |fields|
    ensures Parts(boundary, encoding, fields[..i + 1]) == Parts(boundary, encoding, fields[..i]) + PartText(boundary, encoding, fields[i])
  {
    assert fields[..i + 1][..i] == fields[..i];
  }

  lemma SumStep(boundary: string, encoding: Encoding, fields: seq<Field>, i: nat, header: string, before: seq<string>)
    requires GoodFields(fields) && i < |fields| && fields[i].1.ValueLen().Some?
    requires header == Headers(encoding, fields[i].0, fields[i].1.meta)
    ensures before + Cached(encoding, fields[..i + 1]) == before + Cached(encoding, fields[..i]) + [header]
    ensures Predicted(boundary, encoding, fields[..i + 1]) == Predicted(boundary, encoding, fields[..i])
              + (2 + |boundary| + 2 + |header| + 4 + fields[i].1.ValueLen().value + 2)
  {
    hide Headers;
    assert fields[..i + 1][..i] == fields[..i];
    assert Cached(encoding, fields[..i + 1]) == Cached(encoding, fields[..i]) + [header];
  }

  lemma PartsOfOne(boundary: string, encoding: Encoding, fields: seq<Field>)
    requires GoodFields(fields) && fields != []
    ensures Parts(boundary, encoding, fields[..1]) == PartText(boundary, encoding, fields[0])
  {
    assert fields[..1][..0] == [];
  }

  lemma ConcatAppend(xs: seq<string>, ys: seq<string>)
    ensures Join(xs + ys, "") == Join(xs, "") + Join(ys, "")
  {
    if xs == [] {
      assert xs + ys == ys;
    } else if ys == [] {
      assert xs + ys == xs;
    } else {
      JoinAppend(xs, ys, "");
    }
  }

  predicate HasLength(part: Part) {
    part.bodyLength.Some? || part.value.hint.Some?
  }

  /** The length that counts, a declared one before a reported one, is the true one. */
  predicate HasTrueLength(part: Part) {
    if part.bodyLength.Some? then part.bodyLength.value == |part.Bytes()| else part.value.hint == Some(|part.Bytes()|)
  }

  /** How many fields come before the first one of unknown length. */
  function KnownPrefix(fields: seq<Field>): (n: nat)
    ensures n <= |fields|
    ensures forall i :: 0 <= i < n ==> fields[i].1.ValueLen().Some?
    ensures n < |fields| ==> fields[n].1.ValueLen().None?
  {
    if fields == [] || fields[0].1.ValueLen().None? then 0 else 1 + KnownPrefix(fields[1..])
  }

  ghost function Cached(encoding: Encoding, fields: seq<Field>): seq<string>
    requires GoodFields(fields)
  {
    if fields == [] then []
    else
      var last := fields[|fields| - 1];
      Cached(encoding, fields[..|fields| - 1]) + [Headers(encoding, last.0, last.1.meta)]
  }

  /** The sum the length formula computes before the closing delimiter. */
  ghost function Predicted(boundary: string, encoding: Encoding, fields: seq<Field>): nat
    requires GoodFields(fields)
  {
    if fields == [] then 0
    else
      var (name, part) := fields[|fields| - 1];
      Predicted(boundary, encoding, fields[..|fields| - 1])
      + (2 + |boundary| + 2 + |Headers(encoding, name, part.meta)| + 4
         + (if part.ValueLen().Some? then part.ValueLen().value else 0) + 2)
  }

  lemma {:induction false} PredictedIsOffByDeclared(boundary: string, encoding: Encoding, fields: seq<Field>)
    requires GoodFields(fields)
    ensures Predicted(boundary, encoding, fields) + Actual(fields) == |Parts(boundary, encoding, fields)| + Declared(fields)
  {
    if fields != [] {
      PredictedIsOffByDeclared(boundary, encoding, fields[..|fields| - 1]);
      assert |PartText(boundary, encoding, fields[|fields| - 1])|
          == 2 + |boundary| + 2 + |Content(encoding, fields[|fields| - 1])| + 2;
    }
  }

  /** With true lengths the declared and actual sums agree, so the prediction is the encoded length. */
  lemma {:induction false} TrueLengthsAgree(fields: seq<Field>)
    requires forall i :: 0 <= i < |fields| ==> HasTrueLength(fields[i].1)
    ensures Declared(fields) == Actual(fields)
  {
    if fields != [] {
      TrueLengthsAgree(fields[..|fields| - 1]);
    }
  }
}
