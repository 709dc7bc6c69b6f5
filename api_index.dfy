/**
 * The Tinfoil index endpoint and the file download endpoint
 * (src/backend/api/mod.rs): the five-minute index cache, the message of the
 * day in the index, the path-traversal check on a download id and the
 * sanitised filename of the served file.
 *
 * Instants are nanosecond counts of a monotonic clock, passed in. The index
 * body built from the local files and the extra sources it lists are kept
 * abstract as type parameters; the way two indexes merge is a parameter.
 */
module IndexApi {
  import opened Wrappers
  import opened Strings
  import Util
  import NotUltranx
  import UrlImport

  const CACHE_LIFETIME_SECONDS: nat := 300
  const NANOS_PER_SECOND: nat := 1_000_000_000
  const CACHE_LIFETIME: nat := CACHE_LIFETIME_SECONDS * NANOS_PER_SECOND

  const NOT_FOUND: nat := 404
  const INTERNAL_SERVER_ERROR: nat := 500
  const TRAVERSAL_MESSAGE := "path traversal not allowed for this request"
  const OCTET_STREAM := "application/octet-stream"
  const ATTACHMENT := "attachment"
  const UNKNOWN_FILENAME := "unknown"
  const DEFAULT_EXTENSION := "nsp"
  /** The characters the served filename may not contain. */
  const UNSAFE: set<char> := {'"', '\\', '\n', '\r', '\t'}

  /** The stored message of the day. */
  datatype Motd = Motd(message: Option<string>, enabled: bool)

  /** The stored list of extra sources. */
  datatype ExtraSourcesConfig<S> = ExtraSourcesConfig(sources: seq<S>)

  /** The index: the merged listing, the success message and the extra locations. */
  datatype Index<L, S> = Index(listing: L, success: Option<string>, locations: seq<S>)

  /** `Instant::elapsed`, which is zero for an instant that is not in the past. */
  function Elapsed(since: nat, now: nat): (d: nat)
    ensures since <= now ==> since + d == now
    ensures now < since ==> d == 0
  {
    if since <= now then now - since else 0
  }

  /** The index's `success`: the message only when the Motd was read, is enabled and has one. */
  function MotdSuccess(motd: Result<Option<Motd>, string>): (r: Option<string>)
    ensures r.Some? <==> motd.Ok? && motd.value.Some? && motd.value.value.enabled && motd.value.value.message.Some?
    ensures r.Some? ==> r == motd.value.value.message
  {
    match motd
    case Ok(Some(m)) => if m.enabled && m.message.Some? then m.message else None
    case _ => None
  }

  /** The listing with the extra indexes merged in, in order. */
  function MergeExtras<L>(listing: L, extras: seq<L>, merge: (L, L) -> L): L
  {
    if extras == [] then listing
    else merge(MergeExtras(listing, extras[..|extras| - 1], merge), extras[|extras| - 1])
  }

  /**
   * `generate_tinfoil_index_data`: the index of the local files, with the
   * extra indexes merged in when they could be read, the Motd as success
   * message and the configured extra sources as locations. A failure to read
   * the local files or the sources configuration fails the whole index; a
   * failure to read the extras or the Motd does not.
   */
  function GenerateIndex<L, S>(existing: Result<L, nat>, extras: Result<seq<L>, string>, merge: (L, L) -> L,
                               motd: Result<Option<Motd>, string>,
                               sources: Result<Option<ExtraSourcesConfig<S>>, nat>): (r: Result<Index<L, S>, nat>)
    ensures existing.Err? ==> r == Err(existing.error)
    ensures existing.Ok? && sources.Err? ==> r == Err(sources.error)
    ensures r.Ok? <==> existing.Ok? && sources.Ok?
    ensures r.Ok? ==> r.value.success == MotdSuccess(motd)
    ensures r.Ok? && sources.value.None? ==> r.value.locations == []
    ensures r.Ok? && sources.value.Some? ==> r.value.locations == sources.value.value.sources
    ensures r.Ok? && (extras.Err? || extras.value == []) ==> r.value.listing == existing.value
  {
    match existing
    case Err(e) => Err(e)
    case Ok(listing) =>
      var merged := if extras.Ok? then MergeExtras(listing, extras.value, merge) else listing;
      match sources
      case Err(e) => Err(e)
      case Ok(config) =>
        Ok(Index(merged, MotdSuccess(motd), if config.Some? then config.value.sources else []))
  }

  /** `INDEX_CACHE`: the last index served and when it was generated. */
  class IndexCache<I> {
    var data: Option<I>
    var lastUpdated: Option<nat>

    /** The cache starts empty. */
    constructor ()
      ensures data == None && lastUpdated == None
    {
      data := None;
      lastUpdated := None;
    }

    /** The cached index is served at `now`: both fields are set and it is under five minutes old. */
    predicate Serves(now: nat)
      reads this
      ensures Serves(now) ==> data.Some? && lastUpdated.Some? && now < lastUpdated.value + CACHE_LIFETIME
      ensures data.Some? && lastUpdated.Some? && lastUpdated.value <= now < lastUpdated.value + CACHE_LIFETIME ==> Serves(now)
    {
      data.Some? && lastUpdated.Some? && Elapsed(lastUpdated.value, now) < CACHE_LIFETIME
    }

    /** `invalidate_index_cache`: both fields are cleared, so nothing is served until the next regeneration. */
    method Invalidate()
      modifies this
      ensures data == None && lastUpdated == None
      ensures forall now :: !Serves(now)
    {
      data := None;
      lastUpdated := None;
    }

    /**
     * `tinfoil_index`: the cached index while it is served; otherwise the
     * newly generated index, which is cached with the current instant. A
     * generation error is returned and leaves the cache as it was.
     */
    method TinfoilIndex(now: nat, generated: Result<I, nat>) returns (r: Result<I, nat>)
      modifies this
      ensures old(Serves(now)) ==> r == Ok(old(data).value) && data == old(data) && lastUpdated == old(lastUpdated)
      ensures !old(Serves(now)) ==> r == generated
      ensures !old(Serves(now)) && generated.Err? ==> data == old(data) && lastUpdated == old(lastUpdated)
      ensures !old(Serves(now)) && generated.Ok? ==> data == Some(generated.value) && lastUpdated == Some(now)
      ensures r.Ok? ==> data == Some(r.value) && Serves(now)
    {
      if data.Some? && lastUpdated.Some? {
        if Elapsed(lastUpdated.value, now) < CACHE_LIFETIME {
          return Ok(data.value);
        }
      }
      if generated.Err? {
        return generated;
      }
      data := Some(generated.value);
      lastUpdated := Some(now);
      r := generated;
    }
  }

  /** A download id that could leave the download directory. */
  predicate Traversal(id: string)
  {
    Contains(id, "..") || '/' in id || '\\' in id
  }

  /** The filename sanitising of `download_file`: every unsafe character becomes `_`. */
  function Sanitize(name: string): (r: string)
    ensures |r| == |name|
    ensures forall j :: 0 <= j < |name| ==> r[j] == if name[j] in UNSAFE then '_' else name[j]
    ensures forall j :: 0 <= j < |r| ==> r[j] !in UNSAFE
  {
    ReplaceCharsPointwise(name, UNSAFE, '_');
    ReplaceChars(name, UNSAFE, "_")
  }

  /** The `Content-Disposition` value of a served file. */
  function ServedDisposition(safe: string): string
  {
    ATTACHMENT + "; " + UrlImport.FILENAME_KEY + "\"" + safe + "\""
  }

  /** A local file record and the path it was scanned from. */
  datatype Entry = Entry(meta: Util.NspMetadata, path: string)

  /** What `download_file` answers with status 200: a failure body, or the file as an attachment. */
  datatype Served =
    | Failure(message: string)
    | File(path: string, contentType: string, disposition: string)

  /** The name a found file is served under: its formatted display name, sanitised. */
  function ServedName(e: Entry, fileName: string -> Option<string>, extension: string -> Option<string>): string
  {
    Sanitize(Util.FormatGameName(e.meta, fileName(e.path).UnwrapOr(UNKNOWN_FILENAME),
                                 extension(e.path).UnwrapOr(DEFAULT_EXTENSION)))
  }

  /**
   * `download_file`: a traversal id gets a failure body before any lookup; a
   * lookup error is 500, an unknown id or a file that does not open is 404;
   * otherwise the file is served under its formatted, sanitised name, or 500
   * when that name does not make a header value. The file name and extension
   * of the path (`Path::file_name`, `Path::extension`) are parameters.
   */
  function DownloadFile(id: string, lookup: string -> Result<Option<Entry>, string>, opens: string -> bool,
                        fileName: string -> Option<string>, extension: string -> Option<string>): (r: Result<Served, nat>)
    ensures Traversal(id) ==> r == Ok(Failure(TRAVERSAL_MESSAGE))
    ensures !Traversal(id) && lookup(id).Err? ==> r == Err(INTERNAL_SERVER_ERROR)
    ensures !Traversal(id) && lookup(id) == Ok(None) ==> r == Err(NOT_FOUND)
    ensures !Traversal(id) && lookup(id).Ok? && lookup(id).value.Some? && !opens(lookup(id).value.value.path) ==>
              r == Err(NOT_FOUND)
    ensures !Traversal(id) && lookup(id).Ok? && lookup(id).value.Some? && opens(lookup(id).value.value.path) ==>
              var e := lookup(id).value.value;
              var disposition := ServedDisposition(ServedName(e, fileName, extension));
              && (NotUltranx.ValidHeaderValue(disposition) ==> r == Ok(File(e.path, OCTET_STREAM, disposition)))
              && (!NotUltranx.ValidHeaderValue(disposition) ==> r == Err(INTERNAL_SERVER_ERROR))
    ensures r.Ok? && r.value.File? ==>
              && !Traversal(id) && lookup(id).Ok? && lookup(id).value.Some?
              && var e := lookup(id).value.value;
                 && opens(e.path)
                 && r.value == File(e.path, OCTET_STREAM, ServedDisposition(ServedName(e, fileName, extension)))
                 && NotUltranx.ValidHeaderValue(ServedDisposition(ServedName(e, fileName, extension)))
  {
    if Traversal(id) then Ok(Failure(TRAVERSAL_MESSAGE))
    else
      match lookup(id)
      case Err(_) => Err(INTERNAL_SERVER_ERROR)
      case Ok(None) => Err(NOT_FOUND)
      case Ok(Some(e)) =>
        if !opens(e.path) then Err(NOT_FOUND)
        else
          var disposition := ServedDisposition(ServedName(e, fileName, extension));
          if NotUltranx.ValidHeaderValue(disposition) then Ok(File(e.path, OCTET_STREAM, disposition))
          else Err(INTERNAL_SERVER_ERROR)
  }

  /** A traversal id is answered the same whatever the store holds. */
  lemma TraversalNeverLooksUp(id: string, lookup: string -> Result<Option<Entry>, string>,
                              lookup': string -> Result<Option<Entry>, string>, opens: string -> bool,
                              fileName: string -> Option<string>, extension: string -> Option<string>)
    requires Traversal(id)
    ensures DownloadFile(id, lookup, opens, fileName, extension) == DownloadFile(id, lookup', opens, fileName, extension)
  {
  }

  /**
   * The served `Content-Disposition` reads back, with the URL importer's
   * extractor, to the sanitised name, as long as the name has no `;`.
   */
  lemma DispositionReadsBack(a: string, name: string)
    requires a == ATTACHMENT
    requires ';' !in name
    ensures UrlImport.DispositionFilename(ServedDisposition(Sanitize(name))) == Some(Sanitize(name))
  {
    var safe := Sanitize(name);
    SanitizeKeepsSemicolons(name);
    assert ';' !in a && a[0] == 'a' && a[|a| - 1] == 't';
    NoValueWithoutKey(a);
    assert ServedDisposition(safe) == a + "; " + UrlImport.FILENAME_KEY + "\"" + safe + "\"";
    UrlImport.DispositionRoundTrip(a, safe);
  }

  /** Sanitising introduces no `;`. */
  lemma SanitizeKeepsSemicolons(name: string)
    requires ';' !in name
    ensures ';' !in Sanitize(name)
  {
    var safe := Sanitize(name);
    forall j | 0 <= j < |safe|
      ensures safe[j] != ';'
    {
      assert safe[j] == if name[j] in UNSAFE then '_' else name[j];
    }
  }

  /** A part that neither starts nor ends with white space and does not start with `f` carries no file name. */
  lemma NoValueWithoutKey(a: string)
    requires a != [] && !IsWhitespace(a[0]) && !IsWhitespace(a[|a| - 1]) && a[0] != 'f'
    ensures UrlImport.PartValue(a).None?
  {
    UrlImport.TrimUntouched(a);
    assert !StartsWith(a, UrlImport.FILENAME_KEY) by {
      assert UrlImport.FILENAME_KEY[0] == 'f';
    }
  }
}
