/**
 * The file-serving router (src/router.rs): the scan of the games directory
 * into index entries, the download of a file by title id, and the parsing of
 * HTTP Basic credentials (section 2 of RFC 7617).
 *
 * The directory walk, the per-file game data, base64 decoding, the user
 * table and password verification are parameters.
 */
module Router {
  import opened Wrappers
  import opened Strings
  import Utf8
  import TitleDb
  import UrlImport
  import NotUltranx
  import IndexApi

  const UNKNOWN_TITLE_ID := "00000000AAAA0000"
  const DEFAULT_VERSION := "v0"
  const GET_GAME_PATH := "/api/get_game"
  const FALLBACK_FILENAME := "game.nsp"
  const BASIC := "Basic "
  const BASIC_CHALLENGE := "Basic"

  const BAD_REQUEST: nat := 400
  const UNAUTHORIZED: nat := 401
  const NOT_FOUND: nat := 404
  const INTERNAL_SERVER_ERROR: nat := 500

  /** A file name the scan serves: it ends in `.nsp`, `.xci`, `.nsz`, `.ncz` or `.xcz`. */
  predicate IsGameFile(fileName: string)
  {
    EndsWith(fileName, ".nsp") || EndsWith(fileName, ".xci") || EndsWith(fileName, ".nsz") ||
    EndsWith(fileName, ".ncz") || EndsWith(fileName, ".xcz")
  }

  /** A file found by the directory walk. */
  datatype WalkEntry = WalkEntry(path: string, fileName: string)

  /** What `Index::add_file` is given for one file. */
  datatype IndexedFile = IndexedFile(path: string, route: string, name: string, titleId: string)

  /** The game's name as the index shows it: trimmed, with every trailing ".nsp" removed. */
  function DisplayName(name: string): (r: string)
    ensures StartsWith(Trim(name), r) && !EndsWith(r, ".nsp")
  {
    TrimEndMatches(Trim(name), ".nsp")
  }

  function ScannedTitleId(g: TitleDb.GameFileDataNaive): string
  {
    g.titleId.UnwrapOr(UNKNOWN_TITLE_ID)
  }

  function ScannedVersion(g: TitleDb.GameFileDataNaive): string
  {
    g.version.UnwrapOr(DEFAULT_VERSION)
  }

  /** The name a scanned file is listed under: `{name} [{title id}][{version}]`, then `.{ext}` when there is one. */
  function FormattedName(g: TitleDb.GameFileDataNaive): (r: string)
    ensures g.extension.Some? ==>
              r == TitleDb.CanonicalName(DisplayName(g.name) + " ", ScannedTitleId(g), ScannedVersion(g), g.extension.value)
    ensures g.extension.None? ==>
              r == DisplayName(g.name) + " [" + ScannedTitleId(g) + "][" + ScannedVersion(g) + "]"
  {
    var front := DisplayName(g.name) + " [" + ScannedTitleId(g) + "][" + ScannedVersion(g) + "]";
    if g.extension.Some? then front + "." + g.extension.value else front
  }

  /**
   * The listed name is read back by the filename parser: its title id and
   * version are the ones the scan used, when they have the parser's shape
   * and the name and extension have no brackets.
   */
  lemma FormattedNameParses(g: TitleDb.GameFileDataNaive)
    requires g.extension.Some? && '.' !in g.extension.value && '[' !in g.extension.value
    requires '[' !in g.name
    requires TitleDb.IsTitleIdTag(ScannedTitleId(g)) && ']' !in ScannedTitleId(g) && '\n' !in ScannedTitleId(g)
    requires TitleDb.IsVersionTag(ScannedVersion(g)) && !TitleDb.IsTitleIdTag(ScannedVersion(g))
    requires ']' !in ScannedVersion(g) && '\n' !in ScannedVersion(g)
    ensures var p := TitleDb.Parse(FormattedName(g));
            p.titleId == Some(ScannedTitleId(g)) && p.version == Some(ScannedVersion(g)) &&
            p.extension == g.extension && p.otherTags == []
  {
    var name := DisplayName(g.name) + " ";
    assert '[' !in name by {
      assert StartsWith(Trim(g.name), DisplayName(g.name));
      TrimInside(g.name);
      forall j | 0 <= j < |DisplayName(g.name)|
        ensures DisplayName(g.name)[j] != '['
      {
        assert DisplayName(g.name)[j] == Trim(g.name)[j];
      }
    }
    TitleDb.ParseCanonical(name, ScannedTitleId(g), ScannedVersion(g), g.extension.value);
  }

  /** Trimming keeps only characters of the string. */
  lemma TrimInside(s: string)
    ensures forall c :: c in Trim(s) ==> c in s
  {
    assert forall c :: c in TrimStart(s) ==> c in s;
    assert forall c :: c in TrimEnd(TrimStart(s)) ==> c in TrimStart(s);
  }

  /** One walked entry: an error, a skipped file, or the index entry of a game file. */
  function ScanEntry(e: Result<WalkEntry, string>, gameData: WalkEntry -> Result<TitleDb.GameFileDataNaive, string>)
    : (r: Result<Option<IndexedFile>, string>)
  {
    match e
    case Err(m) => Err(m)
    case Ok(w) =>
      if !IsGameFile(w.fileName) then Ok(None)
      else
        match gameData(w)
        case Err(m) => Err(m)
        case Ok(g) => Ok(Some(IndexedFile(w.path, GET_GAME_PATH, FormattedName(g), ScannedTitleId(g))))
  }

  /** The index entries of a walk, in walk order; the first error ends the scan. */
  function Scanned(es: seq<Result<WalkEntry, string>>, gameData: WalkEntry -> Result<TitleDb.GameFileDataNaive, string>)
    : Result<seq<IndexedFile>, string>
  {
    if es == [] then Ok([])
    else
      match ScanEntry(es[0], gameData)
      case Err(m) => Err(m)
      case Ok(f) =>
        match Scanned(es[1..], gameData)
        case Err(m) => Err(m)
        case Ok(fs) => Ok((if f.Some? then [f.value] else []) + fs)
  }

  function Prepend(files: seq<IndexedFile>, r: Result<seq<IndexedFile>, string>): Result<seq<IndexedFile>, string>
  {
    match r
    case Err(m) => Err(m)
    case Ok(fs) => Ok(files + fs)
  }

  lemma PrependStep(index: seq<IndexedFile>, added: seq<IndexedFile>, rest: Result<seq<IndexedFile>, string>)
    ensures Prepend(index, Prepend(added, rest)) == Prepend(index + added, rest)
  {
    if rest.Ok? {
      assert index + (added + rest.value) == index + added + rest.value;
    }
  }

  /** `scan_games_path`: the loop over the walked entries. */
  method ScanGamesPath(es: seq<Result<WalkEntry, string>>, gameData: WalkEntry -> Result<TitleDb.GameFileDataNaive, string>)
    returns (r: Result<seq<IndexedFile>, string>)
    ensures r == Scanned(es, gameData)
  {
    var index: seq<IndexedFile> := [];
    var i := 0;
    assert es[0..] == es;
    assert Scanned(es, gameData) == Prepend([], Scanned(es, gameData)) by {
      if Scanned(es, gameData).Ok? {
        assert [] + Scanned(es, gameData).value == Scanned(es, gameData).value;
      }
    }
    while i < |es|
      invariant 0 <= i <= |es|
      invariant Scanned(es, gameData) == Prepend(index, Scanned(es[i..], gameData))
    {
      assert es[i..][0] == es[i] && es[i..][1..] == es[i + 1..];
      var entry := ScanEntry(es[i], gameData);
      if entry.Err? {
        assert Scanned(es[i..], gameData) == Err(entry.error);
        return Err(entry.error);
      }
      var added := if entry.value.Some? then [entry.value.value] else [];
      PrependStep(index, added, Scanned(es[i + 1..], gameData));
      index := index + added;
      i := i + 1;
    }
    assert Scanned(es[i..], gameData) == Ok([]);
    assert index + [] == index;
    r := Ok(index);
  }

  /** The scan fails exactly when a walked entry is an error or a game file whose data cannot be read. */
  lemma {:induction false} ScanFailsIff(es: seq<Result<WalkEntry, string>>, gameData: WalkEntry -> Result<TitleDb.GameFileDataNaive, string>)
    ensures Scanned(es, gameData).Err? <==>
              exists i :: 0 <= i < |es| && ScanEntry(es[i], gameData).Err?
    decreases |es|
  {
    if es != [] {
      ScanFailsIff(es[1..], gameData);
      if ScanEntry(es[0], gameData).Ok? {
        if exists i :: 0 <= i < |es| && ScanEntry(es[i], gameData).Err? {
          var i :| 0 <= i < |es| && ScanEntry(es[i], gameData).Err?;
          assert es[1..][i - 1] == es[i];
        }
        if exists i :: 0 <= i < |es[1..]| && ScanEntry(es[1..][i], gameData).Err? {
          var i :| 0 <= i < |es[1..]| && ScanEntry(es[1..][i], gameData).Err?;
          assert es[i + 1] == es[1..][i];
        }
      }
    }
  }

  /** The number of walked game files. */
  function GameCount(es: seq<Result<WalkEntry, string>>): nat
  {
    if es == [] then 0
    else (if es[0].Ok? && IsGameFile(es[0].value.fileName) then 1 else 0) + GameCount(es[1..])
  }

  /** The walked game file `f` stands for. */
  predicate ListsEntry(f: IndexedFile, e: Result<WalkEntry, string>, gameData: WalkEntry -> Result<TitleDb.GameFileDataNaive, string>)
  {
    && e.Ok? && IsGameFile(e.value.fileName) && gameData(e.value).Ok?
    && f == IndexedFile(e.value.path, GET_GAME_PATH, FormattedName(gameData(e.value).value), ScannedTitleId(gameData(e.value).value))
  }

  /**
   * A successful scan lists one entry per walked game file and nothing else:
   * each entry is the path, formatted name and title id of a game file.
   */
  lemma {:induction false} ScanListsGameFiles(es: seq<Result<WalkEntry, string>>,
                                              gameData: WalkEntry -> Result<TitleDb.GameFileDataNaive, string>)
    requires Scanned(es, gameData).Ok?
    ensures |Scanned(es, gameData).value| == GameCount(es)
    ensures forall f :: f in Scanned(es, gameData).value ==> exists i :: 0 <= i < |es| && ListsEntry(f, es[i], gameData)
    decreases |es|
  {
    if es != [] {
      ScanListsGameFiles(es[1..], gameData);
      var fs := Scanned(es[1..], gameData).value;
      var head := ScanEntry(es[0], gameData).value;
      assert Scanned(es, gameData).value == (if head.Some? then [head.value] else []) + fs;
      forall f | f in Scanned(es, gameData).value
        ensures exists i :: 0 <= i < |es| && ListsEntry(f, es[i], gameData)
      {
        if f in fs {
          var i :| 0 <= i < |es[1..]| && ListsEntry(f, es[1..][i], gameData);
          assert es[i + 1] == es[1..][i];
        } else {
          assert ListsEntry(f, es[0], gameData);
        }
      }
    }
  }

  /**
   * `download_file`: an id containing ".." is 400; a failed metadata read is
   * 500; the file is the first record with that exact title id, else 404; a
   * file that does not open is 404. The attachment is named after the path's
   * file name, or "game.nsp"; a name that does not make a header value
   * panics on the response builder's `unwrap`.
   */
  function DownloadFile(titleId: string, all: Result<seq<IndexApi.Entry>, string>, opens: string -> bool,
                        fileName: string -> Option<string>): (r: Outcome<Result<IndexApi.Served, nat>>)
    ensures Contains(titleId, "..") ==> r == Returns(Err(BAD_REQUEST))
    ensures !Contains(titleId, "..") && all.Err? ==> r == Returns(Err(INTERNAL_SERVER_ERROR))
    ensures !Contains(titleId, "..") && all.Ok? && (forall i :: 0 <= i < |all.value| ==> all.value[i].meta.titleId != titleId) ==>
              r == Returns(Err(NOT_FOUND))
    ensures !Contains(titleId, "..") && all.Ok? && FindTitle(all.value, titleId).Some? ==>
              var path := FindTitle(all.value, titleId).value.path;
              var disposition := IndexApi.ServedDisposition(fileName(path).UnwrapOr(FALLBACK_FILENAME));
              && (!opens(path) ==> r == Returns(Err(NOT_FOUND)))
              && (opens(path) && NotUltranx.ValidHeaderValue(disposition) ==>
                    r == Returns(Ok(IndexApi.File(path, IndexApi.OCTET_STREAM, disposition))))
              && (opens(path) && !NotUltranx.ValidHeaderValue(disposition) ==> r.Panics?)
    ensures r.Panics? || (r.value.Ok? && r.value.value.File?) ==>
              && !Contains(titleId, "..") && all.Ok?
              && exists i :: 0 <= i < |all.value| && all.value[i].meta.titleId == titleId &&
                             (forall j :: 0 <= j < i ==> all.value[j].meta.titleId != titleId) &&
                             opens(all.value[i].path) &&
                             var disposition := IndexApi.ServedDisposition(fileName(all.value[i].path).UnwrapOr(FALLBACK_FILENAME));
                             (r.Panics? <==> !NotUltranx.ValidHeaderValue(disposition)) &&
                             (r.Returns? ==> r.value.value == IndexApi.File(all.value[i].path, IndexApi.OCTET_STREAM, disposition))
  {
    if Contains(titleId, "..") then Returns(Err(BAD_REQUEST))
    else if all.Err? then Returns(Err(INTERNAL_SERVER_ERROR))
    else
      match FindTitle(all.value, titleId)
      case None => Returns(Err(NOT_FOUND))
      case Some(e) =>
        if !opens(e.path) then Returns(Err(NOT_FOUND))
        else
          var disposition := IndexApi.ServedDisposition(fileName(e.path).UnwrapOr(FALLBACK_FILENAME));
          if NotUltranx.ValidHeaderValue(disposition) then Returns(Ok(IndexApi.File(e.path, IndexApi.OCTET_STREAM, disposition)))
          else Panics
  }

  /** The first record with exactly this title id. */
  function FindTitle(all: seq<IndexApi.Entry>, titleId: string): (r: Option<IndexApi.Entry>)
    ensures r.None? <==> forall i :: 0 <= i < |all| ==> all[i].meta.titleId != titleId
    ensures r.Some? ==> exists i :: 0 <= i < |all| && all[i] == r.value && all[i].meta.titleId == titleId &&
                                    forall j :: 0 <= j < i ==> all[j].meta.titleId != titleId
  {
    if all == [] then None
    else if all[0].meta.titleId == titleId then Some(all[0])
    else
      var r := FindTitle(all[1..], titleId);
      if r.Some? then
        var i :| 0 <= i < |all[1..]| && all[1..][i] == r.value && all[1..][i].meta.titleId == titleId &&
                 forall j :: 0 <= j < i ==> all[1..][j].meta.titleId != titleId;
        assert all[i + 1] == r.value;
        assert forall j :: 1 <= j < i + 1 ==> all[j] == all[1..][j - 1];
        r
      else r
  }

  /** The user name and password base64 text encodes: UTF-8 text containing a ':', split at the first ':'. */
  function DecodedCredentials(encoded: string, base64: string -> Option<seq<Utf8.Byte>>): (r: Option<(string, string)>)
    ensures r.Some? ==>
              && base64(encoded).Some? && Utf8.Decode(base64(encoded).value).Some?
              && Utf8.Decode(base64(encoded).value).value == r.value.0 + ":" + r.value.1
              && ':' !in r.value.0
  {
    match base64(encoded)
    case None => None
    case Some(bytes) =>
      match Utf8.Decode(bytes)
      case None => None
      case Some(decoded) => SplitOnce(decoded, ':')
  }

  /**
   * The user name and password of an `Authorization` header: a header that
   * is text and starts with "Basic ", whose trimmed rest are the encoded
   * credentials.
   */
  function BasicCredentials(header: Option<string>, base64: string -> Option<seq<Utf8.Byte>>): (r: Option<(string, string)>)
    ensures r.Some? <==>
              && header.Some? && UrlImport.HeaderText(header.value).Some? && StartsWith(header.value, BASIC)
              && DecodedCredentials(Trim(TrimStartMatches(header.value, BASIC)), base64).Some?
    ensures r.Some? ==> r == DecodedCredentials(Trim(TrimStartMatches(header.value, BASIC)), base64)
  {
    if header.None? || UrlImport.HeaderText(header.value).None? || !StartsWith(header.value, BASIC) then None
    else DecodedCredentials(Trim(TrimStartMatches(header.value, BASIC)), base64)
  }

  /** What `basic_auth` does with a request. */
  datatype AuthDecision =
    | Proceed
    | Challenge(status: nat, wwwAuthenticate: string)
    | Fail(status: nat)

  /**
   * `basic_auth`: credentials of a known user whose stored hash verifies the
   * password let the request through; a failed user read or a stored hash
   * that does not parse is 500; anything else is 401 with the challenge
   * `WWW-Authenticate: Basic`. The user table gives a user's password hash;
   * `verify` is `None` for a hash that does not parse.
   */
  function BasicAuth(header: Option<string>, base64: string -> Option<seq<Utf8.Byte>>,
                     users: string -> Result<Option<string>, string>, verify: (string, string) -> Option<bool>)
    : (r: AuthDecision)
    ensures r.Proceed? <==>
              && BasicCredentials(header, base64).Some?
              && var (user, password) := BasicCredentials(header, base64).value;
                 users(user).Ok? && users(user).value.Some? && verify(users(user).value.value, password) == Some(true)
    ensures BasicCredentials(header, base64).None? ==> r == Challenge(UNAUTHORIZED, BASIC_CHALLENGE)
    ensures BasicCredentials(header, base64).Some? ==>
              var (user, password) := BasicCredentials(header, base64).value;
              && (users(user).Err? ==> r == Fail(INTERNAL_SERVER_ERROR))
              && (users(user) == Ok(None) ==> r == Challenge(UNAUTHORIZED, BASIC_CHALLENGE))
              && (users(user).Ok? && users(user).value.Some? && verify(users(user).value.value, password).None? ==>
                    r == Fail(INTERNAL_SERVER_ERROR))
              && (users(user).Ok? && users(user).value.Some? && verify(users(user).value.value, password) == Some(false) ==>
                    r == Challenge(UNAUTHORIZED, BASIC_CHALLENGE))
    ensures r.Fail? ==> r.status == INTERNAL_SERVER_ERROR
    ensures r.Challenge? ==> r == Challenge(UNAUTHORIZED, BASIC_CHALLENGE)
  {
    match BasicCredentials(header, base64)
    case None => Challenge(UNAUTHORIZED, BASIC_CHALLENGE)
    case Some((user, password)) =>
      match users(user)
      case Err(_) => Fail(INTERNAL_SERVER_ERROR)
      case Ok(None) => Challenge(UNAUTHORIZED, BASIC_CHALLENGE)
      case Ok(Some(hash)) =>
        match verify(hash, password)
        case None => Fail(INTERNAL_SERVER_ERROR)
        case Some(ok) => if ok then Proceed else Challenge(UNAUTHORIZED, BASIC_CHALLENGE)
  }

  /** Text in the standard base64 alphabet, padding included. */
  predicate Base64Text(s: string)
  {
    forall i :: 0 <= i < |s| ==>
      'A' <= s[i] <= 'Z' || 'a' <= s[i] <= 'z' || '0' <= s[i] <= '9' || s[i] == '+' || s[i] == '/' || s[i] == '='
  }

  /** Base64 text after "Basic " makes a header that is text. */
  lemma BasicHeaderText(basic: string, encoded: string)
    requires basic == BASIC && Base64Text(encoded)
    ensures UrlImport.HeaderText(basic + encoded).Some?
  {
    var h := basic + encoded;
    assert forall i :: 0 <= i < |basic| ==> ' ' <= basic[i] <= '~';
    forall i | 0 <= i < |h|
      ensures ' ' <= h[i] <= '~'
    {
      if i >= |basic| {
        assert h[i] == encoded[i - |basic|];
      } else {
        assert h[i] == basic[i];
      }
    }
  }

  /** "Basic " is removed once from such a header, leaving the base64 text. */
  lemma BasicHeaderRest(basic: string, encoded: string)
    requires basic == BASIC && encoded != [] && Base64Text(encoded)
    ensures StartsWith(basic + encoded, basic)
    ensures Trim(TrimStartMatches(basic + encoded, basic)) == encoded
  {
    var h := basic + encoded;
    assert h[..|basic|] == basic;
    assert h[|basic|..] == encoded;
    assert !StartsWith(encoded, basic) by {
      if |encoded| >= |basic| {
        assert basic[5] == ' ' && encoded[5] != ' ';
      }
    }
    assert TrimStartMatches(h, basic) == encoded;
    UrlImport.TrimUntouched(encoded);
  }

  /** `user:password` splits back at its first ':' when the user name has none. */
  lemma SplitUserPassword(user: string, password: string)
    requires ':' !in user
    ensures SplitOnce(user + ":" + password, ':') == Some((user, password))
  {
    var text := user + ":" + password;
    IndexOfAppend(user, ":" + password, ':');
    assert text == user + (":" + password);
    assert text[..|user|] == user && text[|user| + 1..] == password;
  }

  /**
   * A header "Basic " followed by the base64 form of `user:password` gives
   * back that user and password, for a user name without ':'.
   */
  lemma BasicCredentialsRoundTrip(basic: string, encoded: string, user: string, password: string,
                                  base64: string -> Option<seq<Utf8.Byte>>)
    requires basic == BASIC
    requires encoded != [] && Base64Text(encoded)
    requires base64(encoded) == Some(Utf8.Encode(user + ":" + password))
    requires ':' !in user
    ensures BasicCredentials(Some(basic + encoded), base64) == Some((user, password))
  {
    BasicHeaderText(basic, encoded);
    BasicHeaderRest(basic, encoded);
    DecodedRoundTrip(encoded, user, password, base64);
  }

  /** The base64 form of `user:password` decodes to that user and password. */
  lemma DecodedRoundTrip(encoded: string, user: string, password: string, base64: string -> Option<seq<Utf8.Byte>>)
    requires base64(encoded) == Some(Utf8.Encode(user + ":" + password))
    requires ':' !in user
    ensures DecodedCredentials(encoded, base64) == Some((user, password))
  {
    Utf8.DecodeEncode(user + ":" + password);
    SplitUserPassword(user, password);
  }
}
