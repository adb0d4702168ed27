/**
 A multipart/form-data parser in the manner of section 5.1.1 of RFC 2046, and the exact condition
 under which it recovers what the encoder wrote.
 */
module MultipartParsing {
  import opened Wrappers
  import opened Text
  import opened Search
  import opened Multipart
  import P = PercentEncoding

  /** What a receiver learns of a part: `others` are the names and values of the other header lines. */
  datatype Parsed = Parsed(name: string, fileName: Option<string>, others: seq<(string, string)>, value: string)

  // ---------- the parser ----------

  /** How a plain quoted name is read: byte for byte, or percent-decoded like an extended one. */
  datatype Reader = Literal | Lenient {
    function Quoted(text: string): string {
      if Literal? then text else P.Decode(text)
    }
  }

  function Delimiter(boundary: string): string {
    "\r\n--" + boundary
  }

  /** Splits on delimiters, then each part on its first blank line. */
  function Parse(reader: Reader, boundary: string, body: string): Option<seq<Parsed>> {
    if body == "" then Some([])
    else if StartsWith(body, "--" + boundary) then ParseParts(reader, boundary, body[2 + |boundary|..])
    else None
  }

  /** `rest` stands right behind a delimiter. */
  function ParseParts(reader: Reader, boundary: string, rest: string): Option<seq<Parsed>>
    decreases |rest|
  {
    if rest == "--\r\n" then Some([])
    else if !StartsWith(rest, CRLF) then None
    else ParseFrom(reader, boundary, rest[2..])
  }

  /** `text` starts with a part. */
  function ParseFrom(reader: Reader, boundary: string, text: string): Option<seq<Parsed>>
    decreases |text|
  {
    match Find(text, Delimiter(boundary))
    case None => None
    case Some(end) =>
      match (ParsePart(reader, text[..end]), ParseParts(reader, boundary, text[end + |Delimiter(boundary)|..]))
      case (Some(part), Some(parts)) => Some([part] + parts)
      case _ => None
  }

  function ParsePart(reader: Reader, content: string): Option<Parsed> {
    match Find(content, BLANK)
    case None => None
    case Some(end) =>
      match ParseHeaders(reader, content[..end])
      case None => None
      case Some((name, fileName, others)) =>
        match ParseLines(others)
        case None => None
        case Some(lines) => Some(Parsed(name, fileName, lines, content[end + 4..]))
  }

  /** Header lines, each behind a line break, with the value behind a colon and a blank. */
  function ParseLines(text: string): Option<seq<(string, string)>>
    decreases |text|
  {
    if text == "" then Some([])
    else if !StartsWith(text, "\r\n") then None
    else
      var line := text[2..2 + Until(text[2..], {'\r'})];
      var colon := Until(line, {':'});
      if colon + 1 < |line| && line[colon + 1] == ' ' then
        match ParseLines(text[2 + |line|..])
        case None => None
        case Some(lines) => Some([(line[..colon], line[colon + 2..])] + lines)
      else None
  }

  const FORM_DATA := "Content-Disposition: form-data; "

  function ParseHeaders(reader: Reader, headers: string): Option<(string, Option<string>, string)> {
    if !StartsWith(headers, FORM_DATA) then None
    else
      match ParseName(reader, headers[|FORM_DATA|..])
      case None => None
      case Some((name, rest)) =>
        if StartsWith(rest, "; filename=\"") then
          match ReadQuoted(rest[12..])
          case None => None
          case Some((fileName, others)) => Some((name, Some(fileName), others))
        else Some((name, None, rest))
  }

  const BREAKS: set<char> := {' ', '\r', '\n'}

  /** Bytes before the first stop byte. */
  function Until(s: string, stops: set<char>): (n: nat)
    ensures n <= |s|
  {
    if s == "" || s[0] in stops then 0 else 1 + Until(s[1..], stops)
  }

  /** A plain name ends at its quote, an extended one at a blank, CR or LF; the latter is percent-decoded. */
  function ParseName(reader: Reader, s: string): Option<(string, string)> {
    if StartsWith(s, "name=\"") then
      var n := Until(s[6..], {'"'});
      if 6 + n < |s| then Some((reader.Quoted(s[6..6 + n]), s[7 + n..])) else None
    else if StartsWith(s, EXTENDED) then Some(ReadExtended(s[|EXTENDED|..]))
    else None
  }

  const EXTENDED := "name*=utf-8''"

  /** A blank belongs to the parameter behind the name, together with the semicolon before it. */
  function ReadExtended(t: string): (string, string) {
    var n := Until(t, BREAKS);
    if n < |t| && t[n] == ' ' && n > 0 then (P.Decode(t[..n - 1]), t[n - 1..]) else (P.Decode(t[..n]), t[n..])
  }

  /** The quoted string and what follows its closing quote; a backslash protects the next byte. */
  function ReadQuoted(s: string): Option<(string, string)> {
    if s == "" then None
    else if s[0] == '"' then Some(("", s[1..]))
    else if s[0] == '\\' then
      if |s| == 1 then None
      else match ReadQuoted(s[2..])
        case None => None
        case Some((text, rest)) => Some(([s[1]] + text, rest))
    else match ReadQuoted(s[1..])
      case None => None
      case Some((text, rest)) => Some(([s[0]] + text, rest))
  }

  // ---------- headers are recovered ----------

  lemma {:induction false} ReadEscaped(s: string, rest: string)
    ensures ReadQuoted(Escape(s) + "\"" + rest) == Some((s, rest))
  {
    var text := Escape(s) + "\"" + rest;
    if s == "" {
      assert text == "\"" + rest && text[1..] == rest;
    } else {
      ReadEscaped(s[1..], rest);
      var tail := Escape(s[1..]) + "\"" + rest;
      if MustEscape(s[0]) {
        assert text == ['\\', s[0]] + tail;
        assert text[2..] == tail;
      } else {
        assert text == [s[0]] + tail;
        assert text[1..] == tail;
      }
      assert s == [s[0]] + s[1..];
    }
  }

  lemma {:induction false} UntilStop(s: string, rest: string, stops: set<char>)
    requires forall i :: 0 <= i < |s| ==> s[i] !in stops
    requires rest == "" || rest[0] in stops
    ensures Until(s + rest, stops) == |s|
  {
    if s == "" {
      assert s + rest == rest;
    } else {
      assert (s + rest)[1..] == s[1..] + rest;
      UntilStop(s[1..], rest, stops);
    }
  }

  /** No quote, blank or line break. */
  predicate IsPlain(e: string) {
    forall i :: 0 <= i < |e| ==> e[i] != '"' && e[i] !in BREAKS
  }

  predicate EncodesBreaks(encodeSet: char -> bool) {
    encodeSet('"') && encodeSet(' ') && encodeSet('\r') && encodeSet('\n') && encodeSet('%')
  }

  /** An encoded name has no quote, blank or line break, so its end is unmistakable. */
  lemma EncodedNameIsPlain(encodeSet: char -> bool, name: string)
    requires P.IsBytes(name) && EncodesBreaks(encodeSet)
    ensures IsPlain(P.Encode(encodeSet, name))
  {
    var e := P.Encode(encodeSet, name);
    P.EncodedBytes(encodeSet, name);
    forall i | 0 <= i < |e|
      ensures e[i] != '"' && e[i] !in BREAKS
    {
      assert e[i] in e;
    }
  }

  lemma PlainNameParses(reader: Reader, e: string, rest: string)
    requires IsPlain(e)
    ensures ParseName(reader, "name=\"" + e + "\"" + rest) == Some((reader.Quoted(e), rest))
  {
    var s := "name=\"" + e + "\"" + rest;
    var tail := "\"" + rest;
    assert s[..6] == "name=\"";
    assert s[6..] == e + tail;
    UntilStop(e, tail, {'"'});
    assert s[6..6 + |e|] == e && s[7 + |e|..] == rest;
  }

  lemma ExtendedNameEnds(e: string, rest: string)
    requires IsPlain(e)
    requires rest == "" || rest[0] == '\r' || (|rest| > 1 && rest[0] == ';' && rest[1] == ' ')
    ensures var t := e + rest;
            var n := Until(t, BREAKS);
            if n < |t| && t[n] == ' ' && n > 0 then t[..n - 1] == e && t[n - 1..] == rest else t[..n] == e && t[n..] == rest
  {
    var t := e + rest;
    if rest != "" && rest[0] == ';' {
      var longer := e + [';'];
      assert t == longer + rest[1..];
      UntilStop(longer, rest[1..], BREAKS);
    } else {
      UntilStop(e, rest, BREAKS);
    }
  }

  lemma ExtendedIsNotPlain(t: string)
    ensures var s := EXTENDED + t;
            StartsWith(s, EXTENDED) && s[|EXTENDED|..] == t && !StartsWith(s, "name=\"")
  {
    var s := EXTENDED + t;
    Behind(EXTENDED, t);
    assert s[4] == EXTENDED[4] == '*' && "name=\""[4] == '=';
    assert |s[..6]| == 6 && s[..6][4] == s[4];
  }

  lemma ExtendedNameReads(e: string, rest: string)
    requires IsPlain(e)
    requires rest == "" || rest[0] == '\r' || (|rest| > 1 && rest[0] == ';' && rest[1] == ' ')
    ensures ReadExtended(e + rest) == (P.Decode(e), rest)
  {
    hide P.Decode, Until, IsPlain;
    ExtendedNameEnds(e, rest);
  }

  lemma ExtendedNameParses(reader: Reader, e: string, rest: string)
    requires IsPlain(e)
    requires rest == "" || rest[0] == '\r' || (|rest| > 1 && rest[0] == ';' && rest[1] == ' ')
    ensures ParseName(reader, EXTENDED + (e + rest)) == Some((P.Decode(e), rest))
  {
    hide ReadExtended, P.Decode, IsPlain, StartsWith;
    ExtendedNameReads(e, rest);
    ExtendedIsNotPlain(e + rest);
  }

  function EncodeSet(encoding: Encoding): char -> bool {
    match encoding
    case PathSegment => P.PathSegment
    case AttrChar => P.AttrChar
    case NoOp => (_ => false)
  }

  /** A name of one single byte that has to be encoded is written in the plain form all the same. */
  predicate LoneEncodedByte(encodeSet: char -> bool, name: string) {
    |name| == 1 && P.MustEncode(encodeSet, name[0])
  }

  /** The name a reader gets. */
  function NameRead(reader: Reader, encodeSet: char -> bool, name: string): string
    requires P.IsBytes(name)
  {
    if reader.Literal? && LoneEncodedByte(encodeSet, name) then P.Encode(encodeSet, name) else name
  }

  lemma BorrowedNameReads(reader: Reader, encodeSet: char -> bool, name: string)
    requires P.IsBytes(name) && encodeSet('%') && P.IsBorrowed(encodeSet, name)
    ensures reader.Quoted(P.Encode(encodeSet, name)) == NameRead(reader, encodeSet, name)
  {
    P.DecodeEncode(encodeSet, name);
    P.BorrowedExactly(encodeSet, name);
    if !LoneEncodedByte(encodeSet, name) {
      assert forall i :: 0 <= i < |name| ==> name[i] in name;
      P.LiteralRun(encodeSet, name, |name|);
      assert name[|name|..] == "" && name[..|name|] == name;
    }
  }

  lemma EncodedNameParses(reader: Reader, encodeSet: char -> bool, name: string, rest: string)
    requires P.IsBytes(name) && EncodesBreaks(encodeSet)
    requires rest == "" || rest[0] == '\r' || (|rest| > 1 && rest[0] == ';' && rest[1] == ' ')
    ensures ParseName(reader, EncodedName(encodeSet, name) + rest) == Some((NameRead(reader, encodeSet, name), rest))
  {
    hide ParseName, P.Encode, P.Decode, P.IsBorrowed, IsPlain, Reader.Quoted;
    var e := P.Encode(encodeSet, name);
    EncodedNameIsPlain(encodeSet, name);
    if P.IsBorrowed(encodeSet, name) {
      BorrowedNameReads(reader, encodeSet, name);
      PlainNameParses(reader, e, rest);
    } else {
      P.BorrowedExactly(encodeSet, name);
      P.DecodeEncode(encodeSet, name);
      ExtendedNameParses(reader, e, rest);
      assert EncodedName(encodeSet, name) + rest == EXTENDED + (e + rest);
    }
  }

  /** The written name parses to the name, exactly unless it is read literally and is one encoded byte. */
  lemma NameIsRecovered(reader: Reader, encoding: Encoding, name: string, rest: string)
    requires P.IsBytes(name) && !encoding.NoOp?
    requires rest == "" || rest[0] == '\r' || (|rest| > 1 && rest[0] == ';' && rest[1] == ' ')
    ensures ParseName(reader, NameParameter(encoding, name) + rest) == Some((NameRead(reader, EncodeSet(encoding), name), rest))
    ensures ParseName(reader, NameParameter(encoding, name) + rest) == Some((name, rest))
       <==> !(reader.Literal? && LoneEncodedByte(EncodeSet(encoding), name))
  {
    assert EncodesBreaks(P.PathSegment) && EncodesBreaks(P.AttrChar);
    hide ParseName, EncodesBreaks;
    EncodedNameParses(reader, EncodeSet(encoding), name, rest);
    if LoneEncodedByte(EncodeSet(encoding), name) {
      assert name[1..] == "";
      assert |P.Encode(EncodeSet(encoding), name)| == 3;
    }
  }

  /** With `AttrChar` an encoded name is made of the value characters of section 3.2.1 of RFC 8187. */
  lemma AttrNameIsLegal(name: string)
    requires P.IsBytes(name)
    ensures forall c :: c in P.Encode(P.AttrChar, name) ==> c == '%' || P.IsAlphanumeric(c) || c in "!#$&+-.^_`|~"
  {
    P.EncodedBytes(P.AttrChar, name);
  }

  /** Field values and names of a `HeaderMap`, and MIME types, contain no line breaks, and names no colon. */
  predicate OneLine(s: string) {
    forall i :: 0 <= i < |s| ==> s[i] != '\r' && s[i] != '\n'
  }

  predicate LegalMeta(meta: Metadata) {
    && (meta.mime.Some? ==> OneLine(meta.mime.value))
    && (forall i :: 0 <= i < |meta.headers| ==> LegalField(meta.headers[i]))
  }

  predicate LegalField(field: (string, string)) {
    OneLine(field.0) && OneLine(field.1) && ':' !in field.0
  }

  lemma {:induction false} LinesStartWithCr(headers: seq<(string, string)>)
    ensures HeaderLines(headers) == "" || HeaderLines(headers)[0] == '\r'
  {
    if headers != [] {
      LinesStartWithCr(headers[..|headers| - 1]);
    }
  }

  lemma Behind(prefix: string, rest: string)
    ensures StartsWith(prefix + rest, prefix) && (prefix + rest)[|prefix|..] == rest
  {
  }

  lemma DispositionParses(reader: Reader, parameter: string, name: string, file: string, fileName: Option<string>, others: string)
    requires ParseName(reader, parameter + (file + others)) == Some((name, file + others))
    requires file == FileParameter(fileName)
    requires others == "" || others[0] == '\r'
    ensures ParseHeaders(reader, DISPOSITION + parameter + file + others) == Some((name, fileName, others))
  {
    hide ParseName, ReadQuoted;
    var h := DISPOSITION + parameter + file + others;
    var rest := file + others;
    Behind(DISPOSITION, parameter + rest);
    assert h == DISPOSITION + (parameter + rest);
    if fileName.Some? {
      FileParses(fileName.value, others);
    } else {
      assert rest == others;
    }
  }

  lemma FileParses(fileName: string, others: string)
    ensures var rest := FileParameter(Some(fileName)) + others;
            && |rest| > 12 && rest[0] == ';' && rest[1] == ' ' && StartsWith(rest, "; filename=\"")
            && ReadQuoted(rest[12..]) == Some((fileName, others))
  {
    var rest := FileParameter(Some(fileName)) + others;
    var quoted := Escape(fileName) + "\"" + others;
    assert rest[..12] == "; filename=\"";
    assert rest[0] == "; filename=\""[0] && rest[1] == "; filename=\""[1];
    assert rest[12..] == quoted;
    ReadEscaped(fileName, others);
  }

  lemma HeadersAreRecovered(reader: Reader, encoding: Encoding, name: string, meta: Metadata)
    requires P.IsBytes(name) && !encoding.NoOp?
    ensures ParseHeaders(reader, Headers(encoding, name, meta)) == Some((NameRead(reader, EncodeSet(encoding), name), meta.fileName, OtherHeaders(meta)))
  {
    var others := OtherHeaders(meta);
    OthersStartWithCr(meta);
    var file := FileParameter(meta.fileName);
    if meta.fileName.Some? {
      FileParses(meta.fileName.value, others);
    } else {
      assert file + others == others;
    }
    NameIsRecovered(reader, encoding, name, file + others);
    DispositionParses(reader, NameParameter(encoding, name), NameRead(reader, EncodeSet(encoding), name), file, meta.fileName, others);
  }

  /** The other headers of a part: its type first, then those of its map. */
  function OtherFields(meta: Metadata): seq<(string, string)> {
    (match meta.mime case Some(m) => [("Content-Type", m)] case None => []) + meta.headers
  }

  lemma {:induction false} LinesFromTheFront(headers: seq<(string, string)>)
    requires headers != []
    ensures HeaderLines(headers) == "\r\n" + (headers[0].0 + ": " + headers[0].1) + HeaderLines(headers[1..])
  {
    var n := |headers| - 1;
    LastLine(headers);
    if n == 0 {
      assert headers[..0] == [] && headers[1..] == [];
    } else {
      LinesFromTheFront(headers[..n]);
      LastLine(headers[1..]);
      assert headers[..n][1..] == headers[1..][..n - 1];
      hide HeaderLines;
    }
  }

  lemma LineParses(name: string, value: string, rest: string)
    requires LegalField((name, value)) && (rest == "" || rest[0] == '\r')
    ensures var text, line := "\r\n" + (name + ": " + value) + rest, name + ": " + value;
            && |text| > 0 && StartsWith(text, "\r\n")
            && Until(text[2..], {'\r'}) == |line| && text[2..2 + |line|] == line && text[2 + |line|..] == rest
            && Until(line, {':'}) == |name| && line[|name| + 1] == ' ' && line[..|name|] == name && line[|name| + 2..] == value
  {
    var line := name + ": " + value;
    var text := "\r\n" + line + rest;
    assert text[2..] == line + rest;
    UntilStop(line, rest, {'\r'});
    assert line == name + (": " + value);
    UntilStop(name, ": " + value, {':'});
  }

  lemma {:induction false} LinesParse(headers: seq<(string, string)>)
    requires forall i :: 0 <= i < |headers| ==> LegalField(headers[i])
    ensures ParseLines(HeaderLines(headers)) == Some(headers)
  {
    if headers != [] {
      LinesFromTheFront(headers);
      LinesParse(headers[1..]);
      LinesStartWithCr(headers[1..]);
      hide HeaderLines, Until, StartsWith, LegalField;
      LineParses(headers[0].0, headers[0].1, HeaderLines(headers[1..]));
      assert headers == [headers[0]] + headers[1..];
    }
  }

  lemma OthersAreLines(meta: Metadata)
    ensures OtherHeaders(meta) == HeaderLines(OtherFields(meta))
  {
    var fields := OtherFields(meta);
    if meta.mime.Some? {
      LinesFromTheFront(fields);
      assert fields[1..] == meta.headers;
      hide HeaderLines;
      var m := meta.mime.value;
      assert "\r\n" + ("Content-Type" + ": " + m) == CRLF + "Content-Type: " + m;
    } else {
      hide HeaderLines;
      assert fields == meta.headers;
    }
  }

  lemma OtherFieldsAreLegal(meta: Metadata)
    requires LegalMeta(meta)
    ensures forall i :: 0 <= i < |OtherFields(meta)| ==> LegalField(OtherFields(meta)[i])
  {
    if meta.mime.Some? {
      assert LegalField(("Content-Type", meta.mime.value));
      hide LegalField;
    }
  }

  /** Every other header line comes back with its name and its value. */
  lemma OthersAreRecovered(meta: Metadata)
    requires LegalMeta(meta)
    ensures ParseLines(OtherHeaders(meta)) == Some(OtherFields(meta))
  {
    OthersAreLines(meta);
    OtherFieldsAreLegal(meta);
    hide HeaderLines, ParseLines, LegalField, LegalMeta;
    LinesParse(OtherFields(meta));
  }

  lemma OthersStartWithCr(meta: Metadata)
    ensures OtherHeaders(meta) == "" || OtherHeaders(meta)[0] == '\r'
  {
    LinesStartWithCr(meta.headers);
  }

  // ---------- the blank line is found ----------

  /** Behind every line break of `s` stands more of a header line. */
  ghost predicate NoBlankLine(s: string) {
    forall i :: 0 <= i && OccursAt(s, CRLF, i) ==> i + 2 < |s| && s[i + 2] != '\r'
  }

  lemma CrlfAt(s: string, i: nat)
    ensures OccursAt(s, CRLF, i) <==> i + 1 < |s| && s[i] == '\r' && s[i + 1] == '\n'
  {
    if i + 2 <= |s| {
      assert s[i..i + 2] == [s[i], s[i + 1]];
    }
  }

  lemma NoBlankLineAppend(a: string, line: string)
    requires NoBlankLine(a) && line != "" && OneLine(line)
    ensures NoBlankLine(a + CRLF + line)
  {
    var s := a + CRLF + line;
    assert forall i :: 0 <= i < |line| ==> s[|a| + 2 + i] == line[i];
    forall i | 0 <= i && OccursAt(s, CRLF, i)
      ensures i + 2 < |s| && s[i + 2] != '\r'
    {
      CrlfAt(s, i);
      CrlfAt(a, i);
      if i + 1 < |a| {
        assert s[i] == a[i] && s[i + 1] == a[i + 1] && s[i + 2] == if i + 2 < |a| then a[i + 2] else '\r';
      } else {
        assert s[|a|] == '\r' && s[|a| + 1] == '\n';
        assert s[|a| + 2] == line[0];
      }
    }
  }

  lemma LastLine(headers: seq<(string, string)>)
    requires headers != []
    ensures var n := |headers| - 1;
            HeaderLines(headers) == HeaderLines(headers[..n]) + (CRLF + (headers[n].0 + ": " + headers[n].1))
  {
    hide HeaderLines;
    var n := |headers| - 1;
    assert headers[..n + 1] == headers;
    LinesSnoc(headers, n);
    assert CRLF + headers[n].0 + ": " + headers[n].1 == CRLF + (headers[n].0 + ": " + headers[n].1);
  }

  lemma {:induction false} LinesHaveNoBlank(a: string, headers: seq<(string, string)>)
    requires NoBlankLine(a)
    requires forall i :: 0 <= i < |headers| ==> LegalField(headers[i])
    ensures NoBlankLine(a + HeaderLines(headers))
  {
    if headers == [] {
      assert a + HeaderLines(headers) == a;
    } else {
      var n := |headers| - 1;
      var init, line := headers[..n], headers[n].0 + ": " + headers[n].1;
      assert OneLine(line);
      LastLine(headers);
      hide HeaderLines, NoBlankLine, OneLine;
      LinesHaveNoBlank(a, init);
      NoBlankLineAppend(a + HeaderLines(init), line);
      assert a + HeaderLines(headers) == a + HeaderLines(init) + CRLF + line;
    }
  }

  /** Every LF stands behind a backslash, so no CR does. */
  predicate IsCalm(s: string) {
    forall i :: 0 <= i < |s| && s[i] == '\n' ==> i > 0 && s[i - 1] == '\\'
  }

  lemma CalmAppend(a: string, b: string)
    requires IsCalm(a) && IsCalm(b)
    ensures IsCalm(a + b)
  {
    var s := a + b;
    forall i | 0 <= i < |s| && s[i] == '\n'
      ensures i > 0 && s[i - 1] == '\\'
    {
      if i >= |a| {
        assert b[i - |a|] == '\n';
      }
    }
  }

  lemma OneLineIsCalm(s: string)
    requires OneLine(s)
    ensures IsCalm(s)
  {
  }

  lemma CalmHasNoBlankLine(s: string)
    requires IsCalm(s)
    ensures NoBlankLine(s)
  {
    forall i: nat
      ensures !OccursAt(s, CRLF, i)
    {
      CrlfAt(s, i);
    }
  }

  lemma {:induction false} EscapedIsCalm(s: string)
    ensures IsCalm(Escape(s))
  {
    if s != "" {
      EscapedIsCalm(s[1..]);
      CalmAppend(if MustEscape(s[0]) then ['\\', s[0]] else [s[0]], Escape(s[1..]));
    }
  }

  lemma PlainIsCalm(e: string)
    requires IsPlain(e)
    ensures IsCalm(e)
  {
  }

  lemma EncodedNameIsCalm(encodeSet: char -> bool, name: string)
    requires P.IsBytes(name) && EncodesBreaks(encodeSet)
    ensures IsCalm(EncodedName(encodeSet, name))
  {
    var e := P.Encode(encodeSet, name);
    EncodedNameIsPlain(encodeSet, name);
    PlainIsCalm(e);
    OneLineIsCalm("name=\"");
    OneLineIsCalm("\"");
    OneLineIsCalm("name*=utf-8''");
    CalmAppend("name=\"", e);
    CalmAppend("name=\"" + e, "\"");
    CalmAppend("name*=utf-8''", e);
  }

  lemma FileIsCalm(fileName: Option<string>)
    ensures IsCalm(FileParameter(fileName))
  {
    if fileName.Some? {
      var e := Escape(fileName.value);
      EscapedIsCalm(fileName.value);
      OneLineIsCalm("; filename=\"");
      OneLineIsCalm("\"");
      CalmAppend("; filename=\"", e);
      CalmAppend("; filename=\"" + e, "\"");
    }
  }

  lemma NameIsCalm(encoding: Encoding, name: string)
    requires P.IsBytes(name) && !encoding.NoOp?
    ensures IsCalm(NameParameter(encoding, name))
  {
    hide IsCalm, EncodedName;
    match encoding {
      case PathSegment => EncodedNameIsCalm(P.PathSegment, name);
      case AttrChar => EncodedNameIsCalm(P.AttrChar, name);
    }
  }

  lemma FirstLineIsCalm(encoding: Encoding, name: string, fileName: Option<string>)
    requires P.IsBytes(name) && !encoding.NoOp?
    ensures IsCalm(DISPOSITION + NameParameter(encoding, name) + FileParameter(fileName))
  {
    NameIsCalm(encoding, name);
    FileIsCalm(fileName);
    OneLineIsCalm(DISPOSITION);
    hide IsCalm, NameParameter, FileParameter;
    CalmThree(DISPOSITION, NameParameter(encoding, name), FileParameter(fileName));
  }

  lemma CalmThree(a: string, b: string, c: string)
    requires IsCalm(a) && IsCalm(b) && IsCalm(c)
    ensures IsCalm(a + b + c)
  {
    hide IsCalm;
    CalmAppend(a, b);
    CalmAppend(a + b, c);
  }

  lemma OthersHaveNoBlankLine(line: string, meta: Metadata)
    requires NoBlankLine(line) && LegalMeta(meta)
    ensures NoBlankLine(line + OtherHeaders(meta))
  {
    if meta.mime.Some? {
      var contentType := "Content-Type: " + meta.mime.value;
      assert OneLine("Content-Type: ");
      NoBlankLineAppend(line, contentType);
      LinesHaveNoBlank(line + CRLF + contentType, meta.headers);
      assert line + OtherHeaders(meta) == line + CRLF + contentType + HeaderLines(meta.headers);
    } else {
      LinesHaveNoBlank(line, meta.headers);
      assert OtherHeaders(meta) == HeaderLines(meta.headers);
    }
  }

  /** `encode_headers` never writes an empty line, whatever the name and the filename contain. */
  lemma HeadersHaveNoBlankLine(encoding: Encoding, name: string, meta: Metadata)
    requires P.IsBytes(name) && !encoding.NoOp? && LegalMeta(meta)
    ensures NoBlankLine(Headers(encoding, name, meta))
  {
    var line := DISPOSITION + NameParameter(encoding, name) + FileParameter(meta.fileName);
    FirstLineIsCalm(encoding, name, meta.fileName);
    CalmHasNoBlankLine(line);
    OthersHaveNoBlankLine(line, meta);
  }

  lemma BlankAt(s: string, i: nat)
    ensures OccursAt(s, BLANK, i) <==> OccursAt(s, CRLF, i) && OccursAt(s, CRLF, i + 2)
  {
    CrlfAt(s, i);
    CrlfAt(s, i + 2);
    if i + 4 <= |s| {
      assert s[i..i + 4] == [s[i], s[i + 1], s[i + 2], s[i + 3]];
    }
  }

  /** The first blank line of a prefix of a part is the one behind its headers, if that is in it. */
  lemma BlankLineIsFirst(headers: string, value: string, k: nat)
    requires NoBlankLine(headers) && k <= |headers| + 4 + |value|
    ensures Find((headers + BLANK + value)[..k], BLANK) == if |headers| + 4 <= k then Some(|headers|) else None
  {
    var whole := headers + BLANK + value;
    var s := whole[..k];
    forall i: nat | i < |headers|
      ensures !OccursAt(s, BLANK, i)
    {
      BlankAt(s, i);
      CrlfAt(s, i);
      CrlfAt(s, i + 2);
      CrlfAt(headers, i);
      assert i < k ==> s[i] == headers[i];
      if i + 1 < |headers| {
        assert i + 1 < k ==> s[i + 1] == headers[i + 1];
        assert i + 2 < k && i + 2 < |headers| ==> s[i + 2] == headers[i + 2];
      } else {
        assert i + 1 < k ==> s[i + 1] == '\r';
      }
    }
    if |headers| + 4 <= k {
      assert s[|headers|..|headers| + 4] == BLANK;
      assert OccursAt(s, BLANK, |headers|);
    }
  }

  lemma PrefixParses(reader: Reader, headers: string, value: string, name: string, fileName: Option<string>, others: string, lines: seq<(string, string)>, k: nat)
    requires NoBlankLine(headers) && ParseHeaders(reader, headers) == Some((name, fileName, others))
    requires ParseLines(others) == Some(lines)
    requires k <= |headers| + 4 + |value|
    ensures ParsePart(reader, (headers + BLANK + value)[..k]) ==
            if |headers| + 4 <= k then Some(Parsed(name, fileName, lines, value[..k - |headers| - 4])) else None
  {
    hide ParseHeaders, NoBlankLine;
    var s := (headers + BLANK + value)[..k];
    BlankLineIsFirst(headers, value, k);
    if |headers| + 4 <= k {
      assert s[..|headers|] == headers;
      assert s[|headers| + 4..] == value[..k - |headers| - 4];
    }
  }

  lemma PrefixOfPartParses(reader: Reader, encoding: Encoding, field: Field, k: nat)
    requires P.IsBytes(field.0) && !encoding.NoOp? && LegalMeta(field.1.meta)
    requires k <= |Content(encoding, field)|
    ensures var h := |Headers(encoding, field.0, field.1.meta)|;
            h + 4 <= |Content(encoding, field)| == h + 4 + |field.1.Bytes()| &&
            ParsePart(reader, Content(encoding, field)[..k]) ==
            if h + 4 <= k then Some(Parsed(NameRead(reader, EncodeSet(encoding), field.0), field.1.meta.fileName, OtherFields(field.1.meta), field.1.Bytes()[..k - h - 4])) else None
  {
    var headers, value := Headers(encoding, field.0, field.1.meta), field.1.Bytes();
    HeadersHaveNoBlankLine(encoding, field.0, field.1.meta);
    HeadersAreRecovered(reader, encoding, field.0, field.1.meta);
    OthersAreRecovered(field.1.meta);
    PrefixParses(reader, headers, value, NameRead(reader, EncodeSet(encoding), field.0), field.1.meta.fileName,
      OtherHeaders(field.1.meta), OtherFields(field.1.meta), k);
  }

  // ---------- the delimiter is found ----------

  /** With no CR in the boundary a delimiter cannot straddle the end of the content. */
  lemma DelimiterDoesNotStraddle(boundary: string, content: string, rest: string, i: nat)
    requires '\r' !in boundary && i < |content|
    ensures OccursAt(content + Delimiter(boundary) + rest, Delimiter(boundary), i) <==> OccursAt(content, Delimiter(boundary), i)
  {
    var d := Delimiter(boundary);
    var s := content + d + rest;
    assert d[0] == '\r' && d[1] == '\n' && d[2] == '-' && d[3] == '-' && d[4..] == boundary;
    if i + |d| <= |content| {
      assert s[i..i + |d|] == content[i..i + |d|];
    } else {
      var j := |content| - i;
      assert s[|content|] == d[0];
      assert j >= 4 ==> d[j] == boundary[j - 4] && boundary[j - 4] in boundary;
      assert d[j] != '\r';
      assert i + |d| <= |s| ==> s[i..i + |d|][j] == s[|content|];
    }
  }

  lemma FirstDelimiter(boundary: string, content: string, rest: string)
    requires '\r' !in boundary
    ensures var found := Find(content + Delimiter(boundary) + rest, Delimiter(boundary));
            && found.Some? && found.value <= |content|
            && (found.value == |content| <==> !Occurs(content, Delimiter(boundary)))
  {
    var d := Delimiter(boundary);
    var s := content + d + rest;
    assert s[|content|..|content| + |d|] == d;
    assert OccursAt(s, d, |content|);
    var found := Find(s, d).value;
    if found < |content| {
      DelimiterDoesNotStraddle(boundary, content, rest, found);
    }
    if Occurs(content, d) {
      var i: nat :| OccursAt(content, d, i);
      DelimiterDoesNotStraddle(boundary, content, rest, i);
    }
  }

  // ---------- the round trip ----------

  function Expected(fields: seq<Field>): seq<Parsed> {
    if fields == [] then [] else [ExpectedPart(fields[0])] + Expected(fields[1..])
  }

  function ExpectedPart(field: Field): Parsed {
    Parsed(field.0, field.1.meta.fileName, OtherFields(field.1.meta), field.1.Bytes())
  }

  /** The same part with the name as the reader gets it. */
  function ReadPart(reader: Reader, encoding: Encoding, field: Field): Parsed
    requires P.IsBytes(field.0)
  {
    ExpectedPart(field).(name := NameRead(reader, EncodeSet(encoding), field.0))
  }

  ghost predicate LegalFields(fields: seq<Field>) {
    forall i :: 0 <= i < |fields| ==> P.IsBytes(fields[i].0) && LegalMeta(fields[i].1.meta)
  }

  /** No part contains the delimiter: not in its headers or value, nor where the two meet. */
  ghost predicate Clean(boundary: string, encoding: Encoding, fields: seq<Field>)
    requires LegalFields(fields)
  {
    forall i :: 0 <= i < |fields| ==> !Occurs(Content(encoding, fields[i]), Delimiter(boundary))
  }

  /** A literal reader needs every name to be something else than one byte that had to be encoded. */
  ghost predicate NamesSurvive(reader: Reader, encoding: Encoding, fields: seq<Field>) {
    forall i :: 0 <= i < |fields| ==> !(reader.Literal? && LoneEncodedByte(EncodeSet(encoding), fields[i].0))
  }

  /** The body behind its first delimiter, read from the front. */
  ghost function Tail(boundary: string, encoding: Encoding, fields: seq<Field>): string
    requires LegalFields(fields)
  {
    if fields == [] then "--\r\n"
    else CRLF + (Content(encoding, fields[0]) + Delimiter(boundary) + Tail(boundary, encoding, fields[1..]))
  }

  lemma {:induction false} PartsFromTheFront(boundary: string, encoding: Encoding, fields: seq<Field>, n: nat)
    requires LegalFields(fields) && GoodFields(fields) && n <= |fields|
    ensures Parts(boundary, encoding, fields[..n]) + "--" + boundary + Tail(boundary, encoding, fields[n..])
         == "--" + boundary + Tail(boundary, encoding, fields)
  {
    hide Content;
    if n == 0 {
      assert fields[..0] == [] && fields[0..] == fields;
      assert "" + "--" + boundary == "--" + boundary;
    } else {
      var m := n - 1;
      PartsFromTheFront(boundary, encoding, fields, m);
      assert fields[..n][..m] == fields[..m];
      assert fields[m..][1..] == fields[n..] && fields[m..][0] == fields[m];
      RegroupPart(Parts(boundary, encoding, fields[..m]), boundary, Content(encoding, fields[m]), Tail(boundary, encoding, fields[n..]));
    }
  }

  lemma RegroupPart(before: string, boundary: string, content: string, tail: string)
    ensures before + ("--" + boundary + CRLF + content + CRLF) + "--" + boundary + tail
         == before + "--" + boundary + (CRLF + (content + Delimiter(boundary) + tail))
  {
    var left := before + ("--" + boundary + CRLF + content + CRLF) + "--" + boundary + tail;
    var right := before + "--" + boundary + (CRLF + (content + Delimiter(boundary) + tail));
    assert left == before + ("--" + (boundary + (CRLF + (content + (CRLF + ("--" + (boundary + tail)))))));
    assert right == before + ("--" + (boundary + (CRLF + (content + (CRLF + ("--" + (boundary + tail)))))));
  }

  lemma RegroupEnd(parts: string, boundary: string)
    ensures parts + ("--" + boundary + "--\r\n") == parts + "--" + boundary + "--\r\n"
  {
  }

  lemma EncodedIsTail(boundary: string, encoding: Encoding, fields: seq<Field>)
    requires LegalFields(fields) && GoodFields(fields) && fields != []
    ensures Encoded(boundary, encoding, fields) == "--" + boundary + Tail(boundary, encoding, fields)
  {
    PartsFromTheFront(boundary, encoding, fields, |fields|);
    assert fields[..|fields|] == fields && fields[|fields|..] == [];
    RegroupEnd(Parts(boundary, encoding, fields), boundary);
  }

  lemma ParseAfterBreak(reader: Reader, boundary: string, rest: string)
    ensures ParseParts(reader, boundary, CRLF + rest) == ParseFrom(reader, boundary, rest)
  {
    hide ParseFrom;
    var tail := CRLF + rest;
    Behind(CRLF, rest);
    assert tail[0] == '\r' && "--\r\n"[0] == '-';
    hide StartsWith;
  }

  /** One turn of the parser at a well-formed part. */
  lemma ParseStep(reader: Reader, boundary: string, content: string, next: string)
    requires '\r' !in boundary
    ensures var found := Find(content + Delimiter(boundary) + next, Delimiter(boundary));
            found.Some? && found.value <= |content| &&
            var end := found.value;
            var more := ParseParts(reader, boundary, (content + Delimiter(boundary) + next)[end + |Delimiter(boundary)|..]);
            ParseParts(reader, boundary, CRLF + (content + Delimiter(boundary) + next)) ==
            if ParsePart(reader, content[..end]).Some? && more.Some? then Some([ParsePart(reader, content[..end]).value] + more.value) else None
  {
    hide Find, ParsePart, Delimiter, ParseParts;
    var d := Delimiter(boundary);
    var rest := content + d + next;
    FirstDelimiter(boundary, content, next);
    var end := Find(rest, d).value;
    assert end + |d| <= |rest|;
    ParseAfterBreak(reader, boundary, rest);
    assert rest[..end] == content[..end];
  }

  lemma ParseCleanPart(reader: Reader, boundary: string, encoding: Encoding, field: Field, next: string)
    requires P.IsBytes(field.0) && !encoding.NoOp? && LegalMeta(field.1.meta) && '\r' !in boundary
    requires !Occurs(Content(encoding, field), Delimiter(boundary))
    ensures ParseParts(reader, boundary, CRLF + (Content(encoding, field) + Delimiter(boundary) + next)) ==
            match ParseParts(reader, boundary, next)
            case Some(parts) => Some([ReadPart(reader, encoding, field)] + parts)
            case None => None
  {
    var d, content := Delimiter(boundary), Content(encoding, field);
    FirstDelimiter(boundary, content, next);
    ParseStep(reader, boundary, content, next);
    PrefixOfPartParses(reader, encoding, field, |content|);
    assert (content + d + next)[|content| + |d|..] == next;
    assert content[..|content|] == content;
    assert field.1.Bytes()[..|field.1.Bytes()|] == field.1.Bytes();
  }

  lemma ParseDirtyPart(reader: Reader, boundary: string, encoding: Encoding, field: Field, next: string, others: seq<Parsed>)
    requires P.IsBytes(field.0) && !encoding.NoOp? && LegalMeta(field.1.meta) && '\r' !in boundary
    requires Occurs(Content(encoding, field), Delimiter(boundary))
    ensures ParseParts(reader, boundary, CRLF + (Content(encoding, field) + Delimiter(boundary) + next)) != Some([ExpectedPart(field)] + others)
  {
    var d, content := Delimiter(boundary), Content(encoding, field);
    FirstDelimiter(boundary, content, next);
    ParseStep(reader, boundary, content, next);
    var end := Find(content + d + next, d).value;
    PrefixOfPartParses(reader, encoding, field, end);
    var parsed := ParsePart(reader, content[..end]);
    assert parsed.Some? ==> |parsed.value.value| < |field.1.Bytes()|;
    assert ([ExpectedPart(field)] + others)[0] == ExpectedPart(field);
  }

  lemma {:induction false} TailParsesExactly(reader: Reader, boundary: string, encoding: Encoding, fields: seq<Field>)
    requires LegalFields(fields) && !encoding.NoOp? && '\r' !in boundary
    ensures ParseParts(reader, boundary, Tail(boundary, encoding, fields)) == Some(Expected(fields))
       <==> Clean(boundary, encoding, fields) && NamesSurvive(reader, encoding, fields)
  {
    if fields != [] {
      TailParsesExactly(reader, boundary, encoding, fields[1..]);
      CleanStep(boundary, encoding, fields);
      SurviveStep(reader, encoding, fields);
      hide Clean, NamesSurvive, Content, ParseParts, ReadPart, ExpectedPart, LoneEncodedByte;
      FirstPartDecides(reader, boundary, encoding, fields[0], Tail(boundary, encoding, fields[1..]), Expected(fields[1..]));
    }
  }

  /** The whole tail is read as expected exactly if its first part and the rest are. */
  lemma FirstPartDecides(reader: Reader, boundary: string, encoding: Encoding, field: Field, next: string, others: seq<Parsed>)
    requires P.IsBytes(field.0) && !encoding.NoOp? && LegalMeta(field.1.meta) && '\r' !in boundary
    ensures ParseParts(reader, boundary, CRLF + (Content(encoding, field) + Delimiter(boundary) + next)) == Some([ExpectedPart(field)] + others)
       <==> && !Occurs(Content(encoding, field), Delimiter(boundary))
            && !(reader.Literal? && LoneEncodedByte(EncodeSet(encoding), field.0))
            && ParseParts(reader, boundary, next) == Some(others)
  {
    hide ParseParts, Content, LoneEncodedByte, P.IsBytes, LegalMeta, Occurs;
    if Occurs(Content(encoding, field), Delimiter(boundary)) {
      ParseDirtyPart(reader, boundary, encoding, field, next, others);
    } else {
      ParseCleanPart(reader, boundary, encoding, field, next);
      ReadAsExpected(reader, encoding, field);
      SameHeadAndTail(ReadPart(reader, encoding, field), ExpectedPart(field), ParseParts(reader, boundary, next), others);
    }
  }

  lemma ReadAsExpected(reader: Reader, encoding: Encoding, field: Field)
    requires P.IsBytes(field.0)
    ensures ReadPart(reader, encoding, field) == ExpectedPart(field)
       <==> !(reader.Literal? && LoneEncodedByte(EncodeSet(encoding), field.0))
  {
    if LoneEncodedByte(EncodeSet(encoding), field.0) {
      assert field.0[1..] == "";
      assert |P.Encode(EncodeSet(encoding), field.0)| == 3;
    }
  }

  lemma SameHeadAndTail(a: Parsed, b: Parsed, parts: Option<seq<Parsed>>, others: seq<Parsed>)
    ensures parts.Some? ==> ([a] + parts.value == [b] + others <==> a == b && parts.value == others)
  {
    if parts.Some? && [a] + parts.value == [b] + others {
      assert ([a] + parts.value)[0] == a && ([b] + others)[0] == b;
      assert ([a] + parts.value)[1..] == parts.value && ([b] + others)[1..] == others;
    }
  }

  lemma CleanStep(boundary: string, encoding: Encoding, fields: seq<Field>)
    requires LegalFields(fields) && fields != []
    ensures LegalFields(fields[1..])
    ensures Clean(boundary, encoding, fields) <==>
            !Occurs(Content(encoding, fields[0]), Delimiter(boundary)) && Clean(boundary, encoding, fields[1..])
  {
    hide Content, Delimiter, Occurs, LegalMeta, P.IsBytes;
    assert forall i :: 0 < i < |fields| ==> fields[i] == fields[1..][i - 1];
  }

  lemma SurviveStep(reader: Reader, encoding: Encoding, fields: seq<Field>)
    requires fields != []
    ensures NamesSurvive(reader, encoding, fields) <==>
            !(reader.Literal? && LoneEncodedByte(EncodeSet(encoding), fields[0].0)) && NamesSurvive(reader, encoding, fields[1..])
  {
    hide LoneEncodedByte, EncodeSet;
    assert forall i :: 0 < i < |fields| ==> fields[i] == fields[1..][i - 1];
  }

  /**
   The round trip. For a boundary without CR and either percent-encoding, splitting on delimiters and
   first blank lines recovers every part exactly if and only if no part contains the delimiter and, for
   a reader that takes plain names literally, no name is one single byte that had to be encoded.
   */
  lemma RoundTripExactly(reader: Reader, boundary: string, encoding: Encoding, fields: seq<Field>)
    requires LegalFields(fields) && GoodFields(fields) && !encoding.NoOp? && '\r' !in boundary
    ensures Parse(reader, boundary, Encoded(boundary, encoding, fields)) == Some(Expected(fields))
       <==> Clean(boundary, encoding, fields) && NamesSurvive(reader, encoding, fields)
  {
    if fields != [] {
      hide ParseParts, Tail, Content, Clean, NamesSurvive, LegalFields, GoodFields;
      EncodedIsTail(boundary, encoding, fields);
      TailParsesExactly(reader, boundary, encoding, fields);
      BodyOf(boundary, Tail(boundary, encoding, fields));
    }
  }

  lemma BodyOf(boundary: string, tail: string)
    ensures var body := "--" + boundary + tail;
            body != "" && StartsWith(body, "--" + boundary) && body[2 + |boundary|..] == tail
  {
    var body := "--" + boundary + tail;
    assert body[..2 + |boundary|] == "--" + boundary;
  }

  /** A form with one field and nothing but its value. */
  function Lone(name: string, value: string): seq<Field> {
    [(name, Part(Metadata(None, None, []), Body([value], Some(|value|)), None))]
  }

  /**
   It is not enough that the delimiter is in no header and no value: a value that starts like a
   boundary line makes a delimiter together with the blank line before it.
   */
  lemma ValueThatStartsLikeABoundary(reader: Reader, boundary: string, encoding: Encoding, name: string, more: string)
    requires P.IsBytes(name) && !encoding.NoOp? && '\r' !in boundary
    ensures var fields := Lone(name, "--" + boundary + more);
            LegalFields(fields) && GoodFields(fields)
            && Parse(reader, boundary, Encoded(boundary, encoding, fields)) != Some(Expected(fields))
  {
    var value := "--" + boundary + more;
    var fields := Lone(name, value);
    BlankLineMakesDelimiter(Headers(encoding, name, fields[0].1.meta), boundary, more);
    assert fields[0].1.Bytes() == value;
    assert LegalFields(fields) && GoodFields(fields);
    assert !Clean(boundary, encoding, fields);
    hide Clean, Parse, Encoded, LegalFields, GoodFields, P.IsBytes;
    RoundTripExactly(reader, boundary, encoding, fields);
  }

  lemma BlankLineMakesDelimiter(headers: string, boundary: string, more: string)
    ensures Occurs(headers + BLANK + ("--" + boundary + more), Delimiter(boundary))
  {
    var content := headers + BLANK + ("--" + boundary + more);
    var d := Delimiter(boundary);
    var i := |headers| + 2;
    assert content[i..i + |d|] == d;
    assert OccursAt(content, d, i);
  }

  /** A field called `#` goes out as the plain name `%23`, and that is what a literal reader gets. */
  lemma LoneByteNameIsLost(boundary: string, value: string)
    requires '\r' !in boundary
    ensures NameParameter(PathSegment, "#") == "name=\"%23\""
    ensures ParseName(Literal, "name=\"%23\"") == Some(("%23", ""))
    ensures var fields := Lone("#", value);
            LegalFields(fields) && GoodFields(fields)
            && Parse(Literal, boundary, Encoded(boundary, PathSegment, fields)) != Some(Expected(fields))
  {
    P.LoneByteIsBorrowed();
    LoneByteIsRead();
    var fields := Lone("#", value);
    assert LegalFields(fields) && GoodFields(fields);
    assert fields[0].0 == "#" && LoneEncodedByte(EncodeSet(PathSegment), "#");
    assert !NamesSurvive(Literal, PathSegment, fields);
    hide NamesSurvive, Parse, Encoded, LegalFields, GoodFields, P.IsBytes, ParseName, NameParameter;
    RoundTripExactly(Literal, boundary, PathSegment, fields);
  }

  lemma LoneByteIsRead()
    ensures NameParameter(PathSegment, "#") == "name=\"%23\""
    ensures ParseName(Literal, "name=\"%23\"") == Some(("%23", ""))
  {
    P.LoneByteIsBorrowed();
    hide ParseName;
    assert "name=\"%23\"" + "" == "name=\"%23\"";
    NameIsRecovered(Literal, PathSegment, "#", "");
  }
}
