/**
 * The URL importer (src/import/url.rs): the percent-decoded URL it imports,
 * the schemes it accepts, and the file name and metadata it reports from a
 * HEAD request.
 *
 * `Url::parse` is a parameter: it yields the scheme and the path segments of
 * a URL, or the parser's message.  The HEAD request arrives as its outcome.
 */
module UrlImport {
  import opened Wrappers
  import opened Strings
  import opened Imports
  import Numbers
  import PercentEncoding
  import Utf8
  import Http

  const DEFAULT_FILENAME := "unknown.file"
  const FILENAME_KEY := "filename="

  /** What the model needs of a parsed `Url`: its scheme and, for a hierarchical URL, its path segments. */
  datatype ParsedUrl = ParsedUrl(scheme: string, pathSegments: Option<seq<string>>)

  /** `UrlImportData`. */
  datatype UrlImportData = UrlImportData(url: string, filename: string, size: Option<nat>, contentType: Option<string>)

  /** The outcome of the HEAD request: a transport error, or the status and the raw header values present. */
  datatype HeadOutcome =
    | HeadFailed
    | HeadResponse(status: nat, contentType: Option<string>, contentLength: Option<string>, contentDisposition: Option<string>)

  /** `StatusCode::is_success`. */
  predicate IsSuccess(status: nat)
  {
    200 <= status <= 299
  }

  /** `HeaderValue::to_str`: the value when it is all visible ASCII or tab. */
  function HeaderText(v: string): (r: Option<string>)
    ensures r.Some? ==> r.value == v
    ensures r.None? <==> exists i :: 0 <= i < |v| && v[i] != '\t' && !(' ' <= v[i] <= '~')
  {
    if Http.HeaderStr(v) then Some(v) else None
  }

  /**
   * The two ways of reading the encoded id: the decoded URL and its parse, or
   * the first error. `decodeError` is the text of the decoder's error, and
   * the parser's error text comes with its result.
   */
  function DecodeAndParse(encoded: string, parse: string -> Result<ParsedUrl, string>, decodeError: string): (r: Result<(string, ParsedUrl), ImportError>)
    ensures PercentEncoding.Decode(encoded).None? ==> r == Err(Other("Failed to decode URL: " + decodeError))
    ensures PercentEncoding.Decode(encoded).Some? && parse(PercentEncoding.Decode(encoded).value).Err? ==>
              r == Err(Other("Invalid URL: " + parse(PercentEncoding.Decode(encoded).value).error))
    ensures r.Ok? <==> PercentEncoding.Decode(encoded).Some? && parse(PercentEncoding.Decode(encoded).value).Ok?
    ensures r.Ok? ==> r.value == (PercentEncoding.Decode(encoded).value, parse(PercentEncoding.Decode(encoded).value).value)
  {
    match PercentEncoding.Decode(encoded)
    case None => Err(Other("Failed to decode URL: " + decodeError))
    case Some(url) =>
      match parse(url)
      case Err(e) => Err(Other("Invalid URL: " + e))
      case Ok(parsed) => Ok((url, parsed))
  }

  /**
   * `import_by_id`: the decoded URL as an import whose kind is decided after
   * download, provided it decodes, parses and is http or https.
   */
  function ImportById(encoded: string, parse: string -> Result<ParsedUrl, string>, decodeError: string): (r: Result<ImportSource, ImportError>)
    ensures r.Ok? <==> DecodeAndParse(encoded, parse, decodeError).Ok? &&
                       DecodeAndParse(encoded, parse, decodeError).value.1.scheme in {"http", "https"}
    ensures r.Ok? ==> r.value == RemoteHttpAuto(PercentEncoding.Decode(encoded).value)
    ensures DecodeAndParse(encoded, parse, decodeError).Ok? && DecodeAndParse(encoded, parse, decodeError).value.1.scheme !in {"http", "https"} ==>
              r == Err(Other("Unsupported URL scheme: " + DecodeAndParse(encoded, parse, decodeError).value.1.scheme +
                             ". Only http and https are supported."))
    ensures DecodeAndParse(encoded, parse, decodeError).Err? ==> r == Err(DecodeAndParse(encoded, parse, decodeError).error)
  {
    match DecodeAndParse(encoded, parse, decodeError)
    case Err(e) => Err(e)
    case Ok((url, parsed)) =>
      if parsed.scheme != "http" && parsed.scheme != "https" then
        Err(Other("Unsupported URL scheme: " + parsed.scheme + ". Only http and https are supported."))
      else Ok(RemoteHttpAuto(url))
  }

  /** The test's encoding of a URL: every ':' written as "%3A" and every '/' as "%2F". */
  function EscapeReserved(s: string): (r: string)
    ensures |r| >= |s|
  {
    if s == [] then []
    else (if s[0] == ':' then "%3A" else if s[0] == '/' then "%2F" else [s[0]]) + EscapeReserved(s[1..])
  }

  /** An escaped ':' or '/' decodes to the character's byte. */
  lemma EscapedCharBytes(c: char, tail: seq<Utf8.Byte>)
    requires c == ':' || c == '/'
    ensures PercentEncoding.DecodeBytes(Utf8.Encode(EscapeReserved([c])) + tail)
            == Utf8.Encode([c]) + PercentEncoding.DecodeBytes(tail)
  {
    var d1: char := if c == ':' then '3' else '2';
    var d2: char := if c == ':' then 'A' else 'F';
    var e := ['%', d1, d2];
    assert EscapeReserved([c]) == e + EscapeReserved([]);
    assert EscapeReserved([c]) == e;
    assert Utf8.Encode([d2]) == [d2 as int];
    assert Utf8.Encode([d1, d2]) == [d1 as int] + Utf8.Encode([d2]);
    assert Utf8.Encode(e) == [0x25] + Utf8.Encode([d1, d2]);
    assert Utf8.Encode(e) + tail == [0x25, d1 as int, d2 as int] + tail;
    assert (Utf8.Encode(e) + tail)[3..] == tail;
    assert Utf8.Encode([c]) == [c as int];
  }

  /** Any other character but '%' is passed through. */
  lemma PlainCharBytes(c: char, tail: seq<Utf8.Byte>)
    requires c != ':' && c != '/' && c != '%'
    ensures PercentEncoding.DecodeBytes(Utf8.Encode(EscapeReserved([c])) + tail)
            == Utf8.Encode([c]) + PercentEncoding.DecodeBytes(tail)
  {
    assert EscapeReserved([c]) == [c] + EscapeReserved([]);
    assert EscapeReserved([c]) == [c];
    if PercentEncoding.PERCENT in Utf8.Encode([c]) {
      var i :| 0 <= i < |Utf8.Encode([c])| && Utf8.Encode([c])[i] == PercentEncoding.PERCENT;
      Utf8.EncodeNoAsciiInside([c], i, PercentEncoding.PERCENT);
    }
    PercentEncoding.DecodeBytesPlainPrefix(Utf8.Encode([c]), tail);
  }

  /** Percent-decoding the escaped bytes of a URL gives back its bytes. */
  lemma {:induction false} EscapeReservedBytes(s: string)
    requires '%' !in s
    ensures PercentEncoding.DecodeBytes(Utf8.Encode(EscapeReserved(s))) == Utf8.Encode(s)
  {
    if s != [] {
      var c := s[0];
      var rest := s[1..];
      assert s == [c] + rest;
      assert EscapeReserved(s) == EscapeReserved([c]) + EscapeReserved(rest);
      Utf8.EncodeAppend(EscapeReserved([c]), EscapeReserved(rest));
      Utf8.EncodeAppend([c], rest);
      EscapeReservedBytes(rest);
      if c == ':' || c == '/' {
        EscapedCharBytes(c, Utf8.Encode(EscapeReserved(rest)));
      } else {
        PlainCharBytes(c, Utf8.Encode(EscapeReserved(rest)));
      }
    }
  }

  /** An URL escaped the way the importer's test escapes it decodes back to itself. */
  lemma EscapeReservedDecodes(s: string)
    requires '%' !in s
    ensures PercentEncoding.Decode(EscapeReserved(s)) == Some(s)
  {
    EscapeReservedBytes(s);
    Utf8.DecodeEncode(s);
  }

  /**
   * The importer's own test, for every URL it could name: the escaped form
   * of an https URL becomes an auto import of the URL itself.
   */
  lemma EscapedUrlImports(url: string, parse: string -> Result<ParsedUrl, string>, decodeError: string)
    requires '%' !in url
    requires parse(url).Ok? && parse(url).value.scheme == "https"
    ensures ImportById(EscapeReserved(url), parse, decodeError) == Ok(RemoteHttpAuto(url))
  {
    EscapeReservedDecodes(url);
  }

  /** A URL with nothing percent-encoded in it is imported as it is, when its scheme is http or https. */
  lemma PlainUrlImports(url: string, parse: string -> Result<ParsedUrl, string>, decodeError: string)
    requires '%' !in url
    ensures parse(url).Ok? && parse(url).value.scheme in {"http", "https"} ==> ImportById(url, parse, decodeError) == Ok(RemoteHttpAuto(url))
    ensures parse(url).Ok? && parse(url).value.scheme !in {"http", "https"} ==> ImportById(url, parse, decodeError).Err?
  {
    PercentEncoding.DecodeNoPercent(url);
  }

  /** `path_segments().and_then(|s| s.last()).unwrap_or("unknown.file")`. */
  function DefaultFilename(parsed: ParsedUrl): (name: string)
    ensures parsed.pathSegments.Some? && parsed.pathSegments.value != [] ==>
              name == parsed.pathSegments.value[|parsed.pathSegments.value| - 1]
    ensures parsed.pathSegments.None? || parsed.pathSegments.value == [] ==> name == DEFAULT_FILENAME
  {
    match parsed.pathSegments
    case Some(segs) => if segs == [] then DEFAULT_FILENAME else segs[|segs| - 1]
    case None => DEFAULT_FILENAME
  }

  /** The trimmed value of a `;`-part that, trimmed, starts with `filename=`. */
  function PartValue(part: string): (r: Option<string>)
    ensures r.Some? <==> StartsWith(Trim(part), FILENAME_KEY)
    ensures r.Some? ==> r.value == Trim(Trim(part)[|FILENAME_KEY|..])
  {
    var p := Trim(part);
    if StartsWith(p, FILENAME_KEY) then Some(Trim(p[|FILENAME_KEY|..])) else None
  }

  /** The value of each `;`-part of a header, in order. */
  function PartValues(cd: string): (vs: seq<Option<string>>)
    ensures |vs| == |Split(cd, ';')|
    ensures forall i :: 0 <= i < |vs| ==> vs[i] == PartValue(Split(cd, ';')[i])
  {
    var parts := Split(cd, ';');
    seq(|parts|, i requires 0 <= i < |parts| => PartValue(parts[i]))
  }

  /** The `find_map` over the parts' values: the first value present. */
  function FirstSome(vs: seq<Option<string>>): Option<string>
  {
    if vs == [] then None
    else if vs[0].Some? then vs[0]
    else FirstSome(vs[1..])
  }

  /** The value found is the first one present, and there is none only when no value is present. */
  lemma {:induction false} FirstSomeSpec(vs: seq<Option<string>>)
    ensures FirstSome(vs).None? <==> forall i :: 0 <= i < |vs| ==> vs[i].None?
    ensures FirstSome(vs).Some? ==>
              exists i :: 0 <= i < |vs| && vs[i] == FirstSome(vs) && forall j :: 0 <= j < i ==> vs[j].None?
  {
    if vs != [] && vs[0].None? {
      var rest := vs[1..];
      FirstSomeSpec(rest);
      if FirstSome(rest).Some? {
        var i :| 0 <= i < |rest| && rest[i] == FirstSome(rest) && forall j :: 0 <= j < i ==> rest[j].None?;
        assert vs[i + 1] == FirstSome(vs);
        assert forall j :: 1 <= j < i + 1 ==> vs[j] == rest[j - 1];
      }
    } else if vs != [] {
      assert vs[0] == FirstSome(vs);
    }
  }

  /** Starts and ends with the same quote character, `"` or `'`. */
  predicate QuotedBy(v: string, q: char)
  {
    StartsWith(v, [q]) && EndsWith(v, [q])
  }

  predicate Quoted(v: string)
  {
    QuotedBy(v, '"') || QuotedBy(v, '\'')
  }

  /** The quote stripping as written: `filename[1..filename.len() - 1]`, which panics on a lone quote. */
  function StripQuotesAsWritten(v: string): (r: Outcome<string>)
    ensures r.Panics? <==> v == "\"" || v == "'"
    ensures r.Returns? && Quoted(v) ==> r.value == v[1..|v| - 1]
    ensures !Quoted(v) ==> r == Returns(v)
  {
    if Quoted(v) then
      if |v| < 2 then Panics else Returns(v[1..|v| - 1])
    else Returns(v)
  }

  /** The quote stripping as intended: one matching pair of outer quotes removed, a lone quote kept. */
  function StripQuotes(v: string): (r: string)
    ensures |v| >= 2 && Quoted(v) ==> r == v[1..|v| - 1]
    ensures |v| < 2 || !Quoted(v) ==> r == v
  {
    if |v| >= 2 && Quoted(v) then v[1..|v| - 1] else v
  }

  /** A value wrapped in a pair of quotes loses exactly that pair. */
  lemma StripQuotesUnwraps(name: string, q: char)
    requires q == '"' || q == '\''
    ensures StripQuotes([q] + name + [q]) == name
  {
    var v := [q] + name + [q];
    assert v[..1] == [q] && v[|v| - 1..] == [q];
    assert v[1..|v| - 1] == name;
  }

  /** The Content-Disposition file name as written: the first `filename=` part, with the stripping that can panic. */
  function DispositionFilenameAsWritten(cd: string): (r: Outcome<Option<string>>)
    ensures r.Panics? <==> FirstSome(PartValues(cd)) in {Some("\""), Some("'")}
  {
    match FirstSome(PartValues(cd))
    case None => Returns(None)
    case Some(v) =>
      match StripQuotesAsWritten(v)
      case Panics => Panics
      case Returns(name) => Returns(Some(name))
  }

  /**
   * The Content-Disposition file name (section 4.1 of RFC 6266, as this
   * importer reads it): the trimmed value of the first `;`-part that starts
   * with `filename=`, with one pair of matching quotes removed.
   */
  function DispositionFilename(cd: string): (r: Option<string>)
    ensures r.None? <==> FirstSome(PartValues(cd)).None?
    ensures r.Some? ==> r.value == StripQuotes(FirstSome(PartValues(cd)).value)
  {
    match FirstSome(PartValues(cd))
    case None => None
    case Some(v) => Some(StripQuotes(v))
  }

  /** Wherever the code as written returns, it returns what the intended reading does. */
  lemma AsWrittenAgrees(cd: string)
    ensures DispositionFilenameAsWritten(cd).Returns? ==> DispositionFilenameAsWritten(cd).value == DispositionFilename(cd)
    ensures DispositionFilenameAsWritten(cd).Panics? ==> DispositionFilename(cd).Some? && |DispositionFilename(cd).value| == 1
  {
  }

  /** A part without white space at its ends trims to itself. */
  lemma TrimUntouched(s: string)
    requires s != [] && !IsWhitespace(s[0]) && !IsWhitespace(s[|s| - 1])
    ensures Trim(s) == s
  {
  }

  /** The part ` filename=v`, for a value without white space at its ends, has the value `v`. */
  lemma KeyPartValue(v: string)
    requires v != [] && !IsWhitespace(v[0]) && !IsWhitespace(v[|v| - 1])
    ensures PartValue(" " + FILENAME_KEY + v) == Some(v)
  {
    var p := FILENAME_KEY + v;
    assert " " + FILENAME_KEY + v == [' '] + p;
    TrimLeadingSpace(p);
    assert p[|FILENAME_KEY|..] == v;
    TrimUntouched(v);
  }

  /** One leading space is all a trim removes from a part without white space at its ends. */
  lemma TrimLeadingSpace(p: string)
    requires p != [] && !IsWhitespace(p[0]) && !IsWhitespace(p[|p| - 1])
    ensures Trim([' '] + p) == p
  {
    assert ([' '] + p)[1..] == p;
    assert TrimStart([' '] + p) == TrimStart(p);
    TrimUntouched(p);
  }

  /** The key and the space before it hold no separator. */
  lemma KeyHasNoSeparator()
    ensures ';' !in " " + FILENAME_KEY
  {
    var k := " " + FILENAME_KEY;
    forall i | 0 <= i < |k|
      ensures k[i] != ';'
    {
    }
  }

  /** A header of two parts, the first without a value, has the value of the second. */
  lemma TwoPartValues(a: string, v: string)
    requires ';' !in a && PartValue(a).None?
    requires v != [] && !IsWhitespace(v[0]) && !IsWhitespace(v[|v| - 1]) && ';' !in v
    ensures PartValues(a + "; " + FILENAME_KEY + v) == [None, Some(v)]
  {
    var cd := a + "; " + FILENAME_KEY + v;
    SplitAtKey(a, v);
    KeyPartValue(v);
    var vs := PartValues(cd);
    PairDisplay(vs, None, Some(v));
  }

  /** The `; ` before the key is where the header splits. */
  lemma SplitAtKey(a: string, v: string)
    requires ';' !in a && ';' !in v
    ensures Split(a + "; " + FILENAME_KEY + v, ';') == [a, " " + FILENAME_KEY + v]
  {
    var k := " " + FILENAME_KEY;
    var b := k + v;
    assert a + "; " + FILENAME_KEY + v == a + [';'] + b;
    assert ';' !in b by {
      KeyHasNoSeparator();
      assert forall x :: x in b ==> x in k || x in v;
    }
    SplitAroundOne(a, ';', b);
  }

  /** Once the first value of a header is known, the code as written strips it or panics on it. */
  lemma AsWrittenOfFirst(cd: string, v: string)
    requires FirstSome(PartValues(cd)) == Some(v)
    ensures DispositionFilenameAsWritten(cd) == (if StripQuotesAsWritten(v).Panics? then Panics
                                                 else Returns(Some(StripQuotesAsWritten(v).value)))
  {
  }

  /** A header whose file name is a lone quote makes the code as written panic, whatever part comes first. */
  lemma LoneQuotePanics(a: string, q: char)
    requires q == '"' || q == '\''
    requires ';' !in a && PartValue(a).None?
    ensures DispositionFilenameAsWritten(a + "; " + FILENAME_KEY + [q]) == Panics
  {
    var cd := a + "; " + FILENAME_KEY + [q];
    TwoPartValues(a, [q]);
    assert FirstSome(PartValues(cd)) == Some([q]);
    assert StripQuotesAsWritten([q]) == Panics;
    AsWrittenOfFirst(cd, [q]);
  }

  /** The counterexample: the header `attachment; filename="`, whose value is a lone double quote. */
  lemma AttachmentLoneQuotePanics(a: string)
    requires a == "attachment"
    ensures DispositionFilenameAsWritten(a + "; " + FILENAME_KEY + "\"") == Panics
  {
    assert a[0] == 'a' && a[|a| - 1] == 't';
    TrimUntouched(a);
    assert !StartsWith(a, FILENAME_KEY) by {
      assert FILENAME_KEY[0] == 'f';
    }
    LoneQuotePanics(a, '"');
  }

  /** The header a server sends for a quoted name reads back to that name, whatever part comes first. */
  lemma DispositionRoundTrip(a: string, name: string)
    requires ';' !in a && PartValue(a).None?
    requires ';' !in name
    ensures DispositionFilename(a + "; " + FILENAME_KEY + "\"" + name + "\"") == Some(name)
  {
    var v := "\"" + name + "\"";
    var cd := a + "; " + FILENAME_KEY + "\"" + name + "\"";
    assert cd == a + "; " + FILENAME_KEY + v;
    assert FirstSome(PartValues(cd)) == Some(v) by {
      assert v[0] == '"' && v[|v| - 1] == '"';
      TwoPartValues(a, v);
    }
    assert StripQuotes(v) == name by {
      assert v == ['"'] + name + ['"'];
      StripQuotesUnwraps(name, '"');
    }
  }

  /**
   * `get_import_data`: the same decoding and parsing as the import (but no
   * scheme check); a non-success HEAD answer is no data; a failed HEAD
   * request is the URL and its default name alone; otherwise the size, the
   * type and the Content-Disposition name are read from the headers.
   */
  function GetImportData(encoded: string, parse: string -> Result<ParsedUrl, string>, decodeError: string, head: HeadOutcome)
    : (r: Result<Option<UrlImportData>, ImportError>)
    ensures DecodeAndParse(encoded, parse, decodeError).Err? <==> r.Err?
    ensures r.Err? ==> r.error == DecodeAndParse(encoded, parse, decodeError).error
    ensures r == Ok(None) <==> DecodeAndParse(encoded, parse, decodeError).Ok? && head.HeadResponse? && !IsSuccess(head.status)
    ensures r.Ok? && r.value.Some? ==>
              var (url, parsed) := DecodeAndParse(encoded, parse, decodeError).value;
              var data := r.value.value;
              && data.url == url
              && (head.HeadFailed? ==> data == UrlImportData(url, DefaultFilename(parsed), None, None))
              && (head.HeadResponse? ==>
                    && data.contentType == (if head.contentType.Some? then HeaderText(head.contentType.value) else None)
                    && data.size == (if head.contentLength.Some? && HeaderText(head.contentLength.value).Some?
                                     then Numbers.ParseU64(head.contentLength.value) else None)
                    && (head.contentDisposition.Some? && HeaderText(head.contentDisposition.value).Some? &&
                        DispositionFilename(head.contentDisposition.value).Some? ==>
                          data.filename == DispositionFilename(head.contentDisposition.value).value)
                    && (head.contentDisposition.None? || HeaderText(head.contentDisposition.value).None? ||
                        DispositionFilename(head.contentDisposition.value).None? ==>
                          data.filename == DefaultFilename(parsed)))
  {
    match DecodeAndParse(encoded, parse, decodeError)
    case Err(e) => Err(e)
    case Ok((url, parsed)) =>
      var filename := DefaultFilename(parsed);
      match head
      case HeadFailed => Ok(Some(UrlImportData(url, filename, None, None)))
      case HeadResponse(status, contentType, contentLength, contentDisposition) =>
        if !IsSuccess(status) then Ok(None)
        else
          var ty := if contentType.Some? then HeaderText(contentType.value) else None;
          var length := if contentLength.Some? then HeaderText(contentLength.value) else None;
          var size := if length.Some? then Numbers.ParseU64(length.value) else None;
          var cd := if contentDisposition.Some? then HeaderText(contentDisposition.value) else None;
          var name := if cd.Some? then DispositionFilename(cd.value) else None;
          Ok(Some(UrlImportData(url, name.UnwrapOr(filename), size, ty)))
  }

  /** The metadata lookup is no stricter than the import: whatever it rejects, the import rejects too. */
  lemma ImportAtLeastAsStrict(encoded: string, parse: string -> Result<ParsedUrl, string>, decodeError: string, head: HeadOutcome)
    ensures GetImportData(encoded, parse, decodeError, head).Err? ==> ImportById(encoded, parse, decodeError) == Err(GetImportData(encoded, parse, decodeError, head).error)
    ensures ImportById(encoded, parse, decodeError).Ok? ==> GetImportData(encoded, parse, decodeError, head).Ok?
  {
  }
}
