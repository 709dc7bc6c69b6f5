/**
 * The UltraNX archive importer (src/import/not_ultranx.rs): which download
 * links of a game page it keeps, the cookie header it sends, and the import
 * source each download type becomes.
 *
 * The page fetch and the HTML selector `.download-buttons a` are outside the
 * model: a fetch arrives as its outcome, with the `href` of every selected
 * element in document order.  The stored configuration arrives as what the
 * key/value store returned.
 */
module NotUltranx {
  import opened Wrappers
  import opened Strings
  import opened Imports

  const COOKIE := "cookie"

  /** `NotUltranxDownloadType`. */
  datatype DownloadType = Base | Update | Dlcs | FullPkg

  /** `UltraNxImportRequest`: the type is `None` when the JSON left it out. */
  datatype ImportRequest = ImportRequest(downloadType: Option<DownloadType>, titleId: string)

  /** `UltraNxDownloadConfig`. */
  datatype DownloadConfig = DownloadConfig(token: Option<string>)

  /** `NotUltranxTitle`. */
  datatype Title = Title(
    titleId: string,
    baseUrl: string,
    updateUrl: Option<string>,
    dlcsUrl: Option<string>,
    fullPkgUrl: Option<string>)

  /** The outcome of fetching a game page: a transport error, or the status and the `href`s of the selected links. */
  datatype Fetched =
    | FetchFailed(reason: string)
    | Page(status: nat, hrefs: seq<Option<string>>)

  /** The serde default of the download type: `FullPkg` when the request omits it. */
  function RequestedType(req: ImportRequest): (t: DownloadType)
    ensures req.downloadType.None? ==> t == FullPkg
    ensures req.downloadType.Some? ==> t == req.downloadType.value
  {
    req.downloadType.UnwrapOr(FullPkg)
  }

  /** The link suffix each download type is looked up by. */
  function Suffix(t: DownloadType): string
  {
    match t
    case Base => "/base"
    case Update => "/update"
    case Dlcs => "/dlcs"
    case FullPkg => "/full"
  }

  /** The token of the stored configuration; a store error or no stored value gives the default, which has none. */
  function StoredToken(stored: Result<Option<DownloadConfig>, string>): (token: Option<string>)
    ensures token.Some? <==> stored.Ok? && stored.value.Some? && stored.value.value.token.Some?
    ensures token.Some? ==> token.value == stored.value.value.token.value
  {
    match stored
    case Ok(Some(c)) => c.token
    case _ => None
  }

  /** `filter_map` over the selected elements: the `href`s that are present, in order. */
  function Links(hrefs: seq<Option<string>>): (links: seq<string>)
    ensures |links| <= |hrefs|
    ensures forall l :: l in links <==> Some(l) in hrefs
  {
    if hrefs == [] then []
    else
      var rest := Links(hrefs[1..]);
      assert hrefs == [hrefs[0]] + hrefs[1..];
      if hrefs[0].Some? then [hrefs[0].value] + rest else rest
  }

  /** `links.iter().find(|l| l.ends_with(suffix))`: the first link with that suffix. */
  function FirstEnding(links: seq<string>, suffix: string): (r: Option<string>)
    ensures r.None? <==> forall i :: 0 <= i < |links| ==> !EndsWith(links[i], suffix)
    ensures r.Some? ==> exists i :: 0 <= i < |links| && links[i] == r.value && EndsWith(links[i], suffix) &&
                                    forall j :: 0 <= j < i ==> !EndsWith(links[j], suffix)
  {
    if links == [] then None
    else if EndsWith(links[0], suffix) then Some(links[0])
    else
      var r := FirstEnding(links[1..], suffix);
      if r.Some? then
        var i :| 0 <= i < |links[1..]| && links[1..][i] == r.value && EndsWith(links[1..][i], suffix) &&
                 forall j :: 0 <= j < i ==> !EndsWith(links[1..][j], suffix);
        assert links[i + 1] == r.value;
        assert forall j :: 1 <= j < i + 1 ==> links[j] == links[1..][j - 1];
        r
      else r
  }

  /**
   * `get_title`: a transport error is propagated; a 404 page, or one without
   * a link ending in "/base", is no title; otherwise each url is the first
   * link with its suffix.
   */
  function GetTitle(titleId: string, fetched: Fetched): (r: Result<Option<Title>, ImportError>)
    ensures fetched.FetchFailed? <==> r.Err?
    ensures r.Err? ==> r.error == RequestError(fetched.reason)
    ensures r == Ok(None) <==>
              fetched.Page? && (fetched.status == 404 || FirstEnding(Links(fetched.hrefs), "/base").None?)
    ensures r.Ok? && r.value.Some? ==>
              var links := Links(fetched.hrefs);
              r.value.value == Title(titleId, FirstEnding(links, "/base").value, FirstEnding(links, "/update"),
                                     FirstEnding(links, "/dlcs"), FirstEnding(links, "/full"))
  {
    match fetched
    case FetchFailed(reason) => Err(RequestError(reason))
    case Page(status, hrefs) =>
      if status == 404 then Ok(None)
      else
        var links := Links(hrefs);
        var base := FirstEnding(links, "/base");
        if base.None? then Ok(None)
        else Ok(Some(Title(titleId, base.value, FirstEnding(links, "/update"),
                           FirstEnding(links, "/dlcs"), FirstEnding(links, "/full"))))
  }

  /** `HeaderValue::from_str`: tab, and no control character or DEL (non-ASCII characters are accepted). */
  predicate ValidHeaderValue(s: string)
  {
    forall i :: 0 <= i < |s| ==> s[i] == '\t' || (' ' <= s[i] && s[i] != 127 as char)
  }

  /**
   * The default headers `NotUltranxImporter::new` gives its client: the
   * auth cookie when the stored token is present, non-empty and a valid
   * header value, and no header otherwise.
   */
  method ClientHeaders(stored: Result<Option<DownloadConfig>, string>) returns (headers: Headers)
    ensures var token := StoredToken(stored);
            headers == if token.Some? && token.value != [] && ValidHeaderValue("auth_token=" + token.value)
                       then map[COOKIE := "auth_token=" + token.value] else map[]
  {
    headers := map[];
    var token := StoredToken(stored);
    if token.Some? {
      if token.value != [] {
        var cookie := "auth_token=" + token.value;
        if ValidHeaderValue(cookie) {
          headers := headers[COOKIE := cookie];
        }
      }
    }
  }

  /**
   * The `headers_map` of `import`: one cookie header when the stored token
   * is present and non-empty, and `None` rather than an empty map otherwise.
   */
  method ImportHeaders(stored: Result<Option<DownloadConfig>, string>) returns (headers: Option<Headers>)
    ensures headers.Some? <==> StoredToken(stored).Some? && StoredToken(stored).value != []
    ensures headers.Some? ==> headers.value == map[COOKIE := "auth_token=" + StoredToken(stored).value]
  {
    var headersMap: Headers := map[];
    var token := StoredToken(stored);
    if token.Some? {
      if token.value != [] {
        headersMap := headersMap[COOKIE := "auth_token=" + token.value];
        assert COOKIE in headersMap;
      }
    }
    headers := if |headersMap| == 0 then None else Some(headersMap);
  }

  /** The message of the error a missing optional link gives. */
  function Unavailable(t: DownloadType): string
  {
    match t
    case Base => ""
    case Update => "Update not available for this title"
    case Dlcs => "DLCs not available for this title"
    case FullPkg => "Full package not available for this title"
  }

  /** The url a title offers for a download type, if any. */
  function UrlFor(title: Title, t: DownloadType): (u: Option<string>)
    ensures t == Base ==> u == Some(title.baseUrl)
  {
    match t
    case Base => Some(title.baseUrl)
    case Update => title.updateUrl
    case Dlcs => title.dlcsUrl
    case FullPkg => title.fullPkgUrl
  }

  /** The match on the download type: base and update are plain files, DLCs and full packages archives. */
  function Dispatch(title: Title, t: DownloadType, headers: Option<Headers>): (r: Result<ImportSource, ImportError>)
    ensures r.Err? <==> UrlFor(title, t).None?
    ensures r.Err? ==> r.error == Other(Unavailable(t))
    ensures r.Ok? ==> r.value.url == UrlFor(title, t).value && !r.value.RemoteHttpAuto? && r.value.headers == headers
    ensures r.Ok? ==> (r.value.RemoteHttpArchive? <==> t == Dlcs || t == FullPkg)
  {
    match t
    case Base => Ok(RemoteHttp(title.baseUrl, headers))
    case Update =>
      if title.updateUrl.Some? then Ok(RemoteHttp(title.updateUrl.value, headers))
      else Err(Other(Unavailable(t)))
    case Dlcs =>
      if title.dlcsUrl.Some? then Ok(RemoteHttpArchive(title.dlcsUrl.value, headers))
      else Err(Other(Unavailable(t)))
    case FullPkg =>
      if title.fullPkgUrl.Some? then Ok(RemoteHttpArchive(title.fullPkgUrl.value, headers))
      else Err(Other(Unavailable(t)))
  }

  /**
   * What an import of `req` may yield from the page fetched for its title and
   * the configuration stored at import time.
   */
  ghost predicate Imported(req: ImportRequest, fetched: Fetched, stored: Result<Option<DownloadConfig>, string>,
                     r: Result<ImportSource, ImportError>)
  {
    && (fetched.FetchFailed? ==> r == Err(RequestError(fetched.reason)))
    && (GetTitle(req.titleId, fetched) == Ok(None) ==> r == Err(GameNotFound))
    && (GetTitle(req.titleId, fetched).Ok? && GetTitle(req.titleId, fetched).value.Some? ==>
          var title := GetTitle(req.titleId, fetched).value.value;
          exists headers :: r == Dispatch(title, RequestedType(req), headers) &&
                            (headers.Some? <==> StoredToken(stored).Some? && StoredToken(stored).value != []) &&
                            (headers.Some? ==> headers.value == map[COOKIE := "auth_token=" + StoredToken(stored).value]))
  }

  /**
   * `NotUltranxImporter::import`: no title is `GameNotFound`, a title is
   * dispatched on the requested type with the cookie headers of the
   * configuration read at import time.
   */
  method Import(req: ImportRequest, fetched: Fetched, stored: Result<Option<DownloadConfig>, string>)
    returns (r: Result<ImportSource, ImportError>)
    ensures Imported(req, fetched, stored, r)
  {
    var title := GetTitle(req.titleId, fetched);
    if title.Err? {
      return Err(title.error);
    }
    if title.value.None? {
      return Err(GameNotFound);
    }
    var headers := ImportHeaders(stored);
    r := Dispatch(title.value.value, RequestedType(req), headers);
  }

  /**
   * What an import yields, read off the page: a successful import is the
   * first link ending in the requested type's suffix, and needs a "/base"
   * link even when another type is requested.
   */
  lemma ImportPicksFirstLink(req: ImportRequest, fetched: Fetched, headers: Option<Headers>)
    requires fetched.Page? && fetched.status != 404
    ensures var links := Links(fetched.hrefs);
            var t := RequestedType(req);
            var title := GetTitle(req.titleId, fetched);
            && (FirstEnding(links, "/base").None? ==> title == Ok(None))
            && (title.Ok? && title.value.Some? ==>
                  var r := Dispatch(title.value.value, t, headers);
                  (r.Ok? <==> FirstEnding(links, Suffix(t)).Some?) &&
                  (r.Ok? ==> r.value.url == FirstEnding(links, Suffix(t)).value && EndsWith(r.value.url, Suffix(t)) &&
                             Some(r.value.url) in fetched.hrefs))
  {
    var links := Links(fetched.hrefs);
    var t := RequestedType(req);
    var title := GetTitle(req.titleId, fetched);
    if title.Ok? && title.value.Some? {
      assert UrlFor(title.value.value, t) == FirstEnding(links, Suffix(t));
      if FirstEnding(links, Suffix(t)).Some? {
        FoundLink(fetched.hrefs, Suffix(t));
      }
    }
  }

  /** The link found for a suffix has that suffix and is one of the page's `href`s. */
  lemma FoundLink(hrefs: seq<Option<string>>, suffix: string)
    requires FirstEnding(Links(hrefs), suffix).Some?
    ensures EndsWith(FirstEnding(Links(hrefs), suffix).value, suffix)
    ensures Some(FirstEnding(Links(hrefs), suffix).value) in hrefs
  {
    var links := Links(hrefs);
    var u := FirstEnding(links, suffix).value;
    var i :| 0 <= i < |links| && links[i] == u && EndsWith(links[i], suffix) &&
             forall j :: 0 <= j < i ==> !EndsWith(links[j], suffix);
    assert u in links;
  }

  /** The client's default cookie and the import's cookie agree whenever the token makes a valid header value. */
  lemma CookiesAgree(stored: Result<Option<DownloadConfig>, string>, client: Headers, imported: Option<Headers>)
    requires var token := StoredToken(stored);
             client == (if token.Some? && token.value != [] && ValidHeaderValue("auth_token=" + token.value)
                        then map[COOKIE := "auth_token=" + token.value] else map[])
    requires imported.Some? <==> StoredToken(stored).Some? && StoredToken(stored).value != []
    requires imported.Some? ==> imported.value == map[COOKIE := "auth_token=" + StoredToken(stored).value]
    ensures StoredToken(stored).Some? && ValidHeaderValue("auth_token=" + StoredToken(stored).value) ==>
              client == imported.UnwrapOr(map[])
    ensures imported.None? ==> client == map[]
  {
  }
}
