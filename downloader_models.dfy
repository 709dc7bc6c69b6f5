/**
 * Data of the download system (src/import/downloader/models.rs): the status
 * and progress of a download, the queue item, and the Content-Disposition
 * filename extractor the downloader uses.
 */
module DownloadModels {
  import opened Wrappers
  import opened Strings
  import PercentEncoding

  /** A download's key: the ULID of its `download_queue` record, as a number. */
  type Id = nat

  datatype DownloadStatus = Queued | Downloading | Paused | Completed | Cancelled | Failed(err: string)

  /** `DownloadStatus::default()`. */
  function DefaultStatus(): (s: DownloadStatus)
    ensures s == Queued
  {
    Queued
  }

  /** `Display for DownloadStatus`. */
  function StatusText(s: DownloadStatus): (t: string)
    ensures s.Failed? ==> t == "Failed: " + s.err
    ensures s == Queued ==> t == "Queued"
    ensures s == Downloading ==> t == "Downloading"
    ensures s == Paused ==> t == "Paused"
    ensures s == Completed ==> t == "Completed"
    ensures s == Cancelled ==> t == "Cancelled"
    ensures StartsWith(t, "Failed: ") <==> s.Failed?
  {
    match s
    case Queued => "Queued"
    case Downloading => assert "Downloading"[0] == 'D'; "Downloading"
    case Paused => "Paused"
    case Completed => assert "Completed"[0] == 'C'; "Completed"
    case Cancelled => assert "Cancelled"[0] == 'C'; "Cancelled"
    case Failed(err) => "Failed: " + err
  }

  /** Two statuses that display alike are the same status: the text names the variant and its message. */
  lemma StatusTextInjective(a: DownloadStatus, b: DownloadStatus)
    requires StatusText(a) == StatusText(b)
    ensures a == b
  {
    if a.Failed? && b.Failed? {
      assert a.err == StatusText(a)[8..];
    } else if !a.Failed? && !b.Failed? {
      var ta, tb := StatusText(a), StatusText(b);
      assert |ta| == |tb| && ta[0] == tb[0];
      if a == Completed || b == Completed {
        assert ta[1] == tb[1];
      }
    }
  }

  /** Byte counts are `u64` in the source; the model does not bound them. */
  datatype Progress = Progress(
    totalSize: Option<nat>,
    downloaded: nat,
    status: DownloadStatus,
    filePath: Option<string>)

  /** `Progress::default()`. */
  function DefaultProgress(): (p: Progress)
    ensures p.totalSize.None? && p.downloaded == 0 && p.status == DefaultStatus() && p.filePath.None?
  {
    Progress(None, 0, Queued, None)
  }

  /** `Progress::is_complete`: the download has ended, one way or the other. */
  predicate IsComplete(p: Progress)
  {
    p.status.Completed? || p.status.Failed? || p.status.Cancelled?
  }

  /** `Progress::is_successful`. */
  predicate IsSuccessful(p: Progress)
  {
    p.status.Completed?
  }

  /** `Progress::error_message`. */
  function ErrorMessage(p: Progress): (r: Option<string>)
    ensures r.Some? <==> p.status.Failed?
    ensures r.Some? ==> p.status == Failed(r.value)
  {
    if p.status.Failed? then Some(p.status.err) else None
  }

  /** The three predicates agree: success is one way to end, and only failure carries a message. */
  lemma ProgressPredicates(p: Progress)
    ensures IsSuccessful(p) ==> IsComplete(p)
    ensures IsComplete(p) <==> IsSuccessful(p) || ErrorMessage(p).Some? || p.status == Cancelled
    ensures !IsComplete(p) <==> p.status in {Queued, Downloading, Paused}
  {
  }

  datatype DownloadQueueItem = DownloadQueueItem(
    id: Option<Id>,
    url: string,
    outputPath: string,
    progress: Progress,
    createdAt: Option<nat>,
    headers: Option<map<string, string>>)

  /** `DownloadQueueItem::new`: no id and no creation time yet, default progress. */
  function NewItem(url: string, outputPath: string, headers: Option<map<string, string>>): (item: DownloadQueueItem)
    ensures item.id.None? && item.createdAt.None? && item.progress == DefaultProgress()
    ensures item.url == url && item.outputPath == outputPath && item.headers == headers
  {
    DownloadQueueItem(None, url, outputPath, DefaultProgress(), None, headers)
  }

  /**
   * `DownloadQueueItem::save` against the `download_queue` table: an item
   * without an id is refused, otherwise it is upserted under its id.  The
   * database's answer to the upsert is a parameter: `storeError` is the
   * error it returns, if any, and then the table is left as it was.
   */
  function Save(table: map<Id, DownloadQueueItem>, item: DownloadQueueItem, storeError: Option<string>): (r: Result<map<Id, DownloadQueueItem>, string>)
    ensures item.id.None? ==> r == Err("Cannot save item without ID")
    ensures item.id.Some? && storeError.Some? ==> r == Err(storeError.value)
    ensures r.Ok? <==> item.id.Some? && storeError.None?
    ensures r.Ok? ==> item.id.value in r.value && r.value[item.id.value] == item
    ensures r.Ok? ==> forall k :: k in table && k != item.id.value ==> k in r.value && r.value[k] == table[k]
    ensures r.Ok? ==> r.value.Keys == table.Keys + {item.id.value}
  {
    match item.id
    case None => Err("Cannot save item without ID")
    case Some(id) =>
      if storeError.Some? then Err(storeError.value) else Ok(table[id := item])
  }

  // ---------------------------------------------------------------------------
  // `parse_content_disposition`

  const QUOTED_KEY := "filename=\""
  const EXT_KEY := "filename*=UTF-8''"
  const PLAIN_KEY := "filename="

  /** The characters that end an unquoted value. */
  predicate IsDelimiter(c: char)
  {
    IsWhitespace(c) || c == ';'
  }

  /** Length of the longest prefix free of delimiters. */
  function TokenEnd(s: string): (n: nat)
    ensures n <= |s|
    ensures forall j :: 0 <= j < n ==> !IsDelimiter(s[j])
    ensures n < |s| ==> IsDelimiter(s[n])
  {
    if s == [] || IsDelimiter(s[0]) then 0 else TokenEnd(s[1..]) + 1
  }

  /** `cd` holds `v` at `start`, closed by a quote. */
  predicate QuotedAt(cd: string, start: nat, v: string)
  {
    start + |v| < |cd| && cd[start..start + |v|] == v && cd[start + |v|] == '"'
  }

  /** The quoted form (`filename="..."`, section 4.1 of RFC 6266): the text up to the next quote. */
  function QuotedFilename(cd: string): (r: Option<string>)
    ensures r.None? <==> Find(cd, QUOTED_KEY).None? || '"' !in cd[Find(cd, QUOTED_KEY).value + |QUOTED_KEY|..]
    ensures r.Some? ==> '"' !in r.value && QuotedAt(cd, Find(cd, QUOTED_KEY).value + |QUOTED_KEY|, r.value)
  {
    match Find(cd, QUOTED_KEY)
    case None => None
    case Some(pos) =>
      var start := pos + |QUOTED_KEY|;
      if '"' in cd[start..] then
        var end := IndexOf(cd[start..], '"');
        assert cd[start + end] == cd[start..][end];
        Some(cd[start..start + end])
      else None
  }

  /** The extended form (`filename*=UTF-8''...`, section 3.2 of RFC 5987): the raw, still encoded token. */
  function ExtToken(cd: string): (r: Option<string>)
    ensures r.Some? ==> r.value != [] && forall j :: 0 <= j < |r.value| ==> !IsDelimiter(r.value[j])
  {
    match Find(cd, EXT_KEY)
    case None => None
    case Some(pos) =>
      var rest := cd[pos + |EXT_KEY|..];
      var end := TokenEnd(rest);
      if end > 0 then Some(rest[..end]) else None
  }

  /** The unquoted form (`filename=...`): the token after the first `filename=`. */
  function PlainFilename(cd: string): (r: Option<string>)
    ensures r.Some? ==> r.value != [] && forall j :: 0 <= j < |r.value| ==> !IsDelimiter(r.value[j])
    ensures Find(cd, PLAIN_KEY).None? ==> r.None?
  {
    match Find(cd, PLAIN_KEY)
    case None => None
    case Some(pos) =>
      var rest := cd[pos + |PLAIN_KEY|..];
      var end := TokenEnd(rest);
      if end > 0 then Some(rest[..end]) else None
  }

  /**
   * `parse_content_disposition`: the quoted form first, then the extended
   * form if its token percent-decodes to UTF-8, then the unquoted form.
   */
  function ParseContentDisposition(cd: string): (r: Option<string>)
    ensures QuotedFilename(cd).Some? ==> r == QuotedFilename(cd)
    ensures QuotedFilename(cd).None? && ExtToken(cd).Some? && PercentEncoding.Decode(ExtToken(cd).value).Some? ==>
              r == PercentEncoding.Decode(ExtToken(cd).value)
    ensures QuotedFilename(cd).None? && (ExtToken(cd).None? || PercentEncoding.Decode(ExtToken(cd).value).None?) ==>
              r == PlainFilename(cd)
    ensures Find(cd, PLAIN_KEY).None? && Find(cd, EXT_KEY).None? ==> r.None?
  {
    NoPlainNoQuoted(cd);
    match QuotedFilename(cd)
    case Some(name) => Some(name)
    case None =>
      var decoded := if ExtToken(cd).Some? then PercentEncoding.Decode(ExtToken(cd).value) else None;
      if decoded.Some? then decoded else PlainFilename(cd)
  }

  /** `filename="` contains `filename=`, so without the latter there is no quoted form. */
  lemma NoPlainNoQuoted(cd: string)
    ensures Find(cd, PLAIN_KEY).None? ==> QuotedFilename(cd).None?
  {
    if Find(cd, PLAIN_KEY).None? && Find(cd, QUOTED_KEY).Some? {
      assert false;
    }
  }

  /** The header the index server sends (`attachment; filename="..."`) is read back to the same name. */
  lemma ParseAttachmentHeader(name: string)
    requires '"' !in name
    ensures ParseContentDisposition("attachment; filename=\"" + name + "\"") == Some(name)
  {
    var pre := "attachment; ";
    var rest := QUOTED_KEY + (name + "\"");
    var cd := "attachment; filename=\"" + name + "\"";
    assert cd == pre + rest;
    assert 'f' !in pre;
    FindAtStart(rest, QUOTED_KEY);
    FindSkip(pre, rest, QUOTED_KEY);
    var start := |pre| + |QUOTED_KEY|;
    assert cd[start..] == name + "\"";
    IndexOfAppend(name, "\"", '"');
    assert (name + "\"")[..|name|] == name;
  }
}
