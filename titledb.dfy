/**
 * Title identification (src/titledb.rs): the naive filename parser, the
 * update-to-base id rewrite with the renaming of update hits, the
 * base/update/DLC classification of the precomputed metadata view, and the
 * 12-character prefix rule for download ids.  The database is a sequence of
 * rows passed in; a query is a filter over it.
 */
module TitleDb {
  import opened Wrappers
  import opened Strings
  import Seqs
  import Numbers

  // ---------------------------------------------------------------------------
  // Filename parsing (`GameFileDataNaive::parse_from_filename`)

  datatype GameFileDataNaive = GameFileDataNaive(
    name: string,
    titleId: Option<string>,
    version: Option<string>,
    region: Option<string>,
    otherTags: seq<string>,
    extension: Option<string>)

  /** Length of the longest prefix of `s` free of `]` and line breaks (`.` in the pattern does not match `\n`). */
  function Close(s: string): (r: nat)
    ensures r <= |s|
    ensures r < |s| ==> s[r] == ']' || s[r] == '\n'
    ensures forall j :: 0 <= j < r ==> s[j] != ']' && s[j] != '\n'
  {
    if s == [] || s[0] == ']' || s[0] == '\n' then 0 else Close(s[1..]) + 1
  }

  /** `s` opens with `[`, and its first `]` comes before any line break. */
  predicate OpensTag(s: string)
  {
    |s| >= 2 && s[0] == '[' && Close(s[1..]) < |s| - 1 && s[1 + Close(s[1..])] == ']'
  }

  /**
   * The successive matches of `\[(.*?)\]` in `s` (leftmost first, lazy, not
   * overlapping): the captured tags, and the text that is left when every
   * match is deleted (`replace_all(s, "")`).
   */
  function Scan(s: string): (r: (seq<string>, string))
    ensures forall k :: 0 <= k < |r.0| ==> ']' !in r.0[k] && '\n' !in r.0[k]
    ensures |r.1| <= |s|
  {
    if s == [] then ([], [])
    else if OpensTag(s) then
      var k := 1 + Close(s[1..]);
      var rest := Scan(s[k + 1..]);
      ([s[1..k]] + rest.0, rest.1)
    else
      var rest := Scan(s[1..]);
      (rest.0, [s[0]] + rest.1)
  }

  function Tags(filename: string): seq<string>
  {
    Scan(filename).0
  }

  function Untagged(filename: string): string
  {
    Scan(filename).1
  }

  /** A tag is taken for a title id when it is exactly 16 bytes long. */
  predicate IsTitleIdTag(tag: string)
  {
    Utf8Len(tag) == 16
  }

  /** A tag is taken for a version when it starts with a lower-case `v`. */
  predicate IsVersionTag(tag: string)
  {
    StartsWith(tag, "v")
  }

  /** `filename.split('.').last()`: always present. */
  function Extension(filename: string): string
  {
    Last(Split(filename, '.'))
  }

  /** What `parse_from_filename` returns for `filename`. */
  function Parse(filename: string): (g: GameFileDataNaive)
    ensures g.region == None && g.extension == Some(Extension(filename))
    ensures g.titleId.None? <==> forall k :: 0 <= k < |Tags(filename)| ==> !IsTitleIdTag(Tags(filename)[k])
    ensures g.titleId.Some? ==> g.titleId.value in Tags(filename) && IsTitleIdTag(g.titleId.value)
    ensures g.version.Some? ==> g.version.value in Tags(filename) && IsVersionTag(g.version.value)
    ensures var tags := Tags(filename);
            var t := Seqs.FirstIndex(tags, IsTitleIdTag);
            var rest := if t.Some? then Seqs.RemoveAt(tags, t.value) else tags;
            var v := Seqs.FirstIndex(rest, IsVersionTag);
            && g.titleId == (if t.Some? then Some(tags[t.value]) else None)
            && (g.version.None? <==> forall k :: 0 <= k < |rest| ==> !IsVersionTag(rest[k]))
            && g.version == (if v.Some? then Some(rest[v.value]) else None)
            && g.otherTags == (if v.Some? then Seqs.RemoveAt(rest, v.value) else rest)
    ensures |g.otherTags| + (if g.titleId.Some? then 1 else 0) + (if g.version.Some? then 1 else 0)
            == |Tags(filename)|
    ensures forall k :: 0 <= k < |g.otherTags| ==> g.otherTags[k] in Tags(filename)
    ensures g.name == Trim(Untagged(filename))
  {
    var tags := Tags(filename);
    var t := Seqs.FirstIndex(tags, IsTitleIdTag);
    var tags1 := if t.Some? then Seqs.RemoveAt(tags, t.value) else tags;
    var v := Seqs.FirstIndex(tags1, IsVersionTag);
    var tags2 := if v.Some? then Seqs.RemoveAt(tags1, v.value) else tags1;
    assert forall k :: 0 <= k < |tags1| ==> tags1[k] in tags;
    GameFileDataNaive(
      name := Trim(Untagged(filename)),
      titleId := if t.Some? then Some(tags[t.value]) else None,
      version := if v.Some? then Some(tags1[v.value]) else None,
      region := None,
      otherTags := tags2,
      extension := Some(Extension(filename)))
  }

  /** The first tag of the given kind (`iter().find`). */
  method FindFirstTag(tags: seq<string>, versionKind: bool) returns (r: Option<nat>)
    ensures r == Seqs.FirstIndex(tags, if versionKind then IsVersionTag else IsTitleIdTag)
  {
    var p := if versionKind then IsVersionTag else IsTitleIdTag;
    var i := 0;
    while i < |tags| && !p(tags[i])
      invariant 0 <= i <= |tags|
      invariant forall j :: 0 <= j < i ==> !p(tags[j])
    {
      i := i + 1;
    }
    r := if i < |tags| then Some(i) else None;
  }

  /** `iter().position(|t| t == tag)`. */
  method Position(tags: seq<string>, tag: string) returns (r: Option<nat>)
    ensures r.Some? ==> r.value < |tags| && tags[r.value] == tag && tag !in tags[..r.value]
    ensures r.None? ==> tag !in tags
  {
    var i := 0;
    while i < |tags| && tags[i] != tag
      invariant 0 <= i <= |tags|
      invariant tag !in tags[..i]
    {
      i := i + 1;
    }
    r := if i < |tags| then Some(i) else None;
  }

  /**
   * `parse_from_filename`: the tag list is narrowed in place, first by the
   * title id, then by the version.
   */
  method ParseFromFilename(filename: string) returns (g: GameFileDataNaive)
    ensures g == Parse(filename)
  {
    var tags := Tags(filename);
    ghost var all := tags;
    var extension := Some(Extension(filename));
    var t := FindFirstTag(tags, false);
    var titleId := if t.Some? then Some(tags[t.value]) else None;
    if titleId.Some? {
      var pos := Position(tags, titleId.value);
      if pos.Some? {
        assert pos.value == t.value;
        tags := Seqs.RemoveAt(tags, pos.value);
      }
    }
    ghost var afterTitle := tags;
    var v := FindFirstTag(tags, true);
    var version := if v.Some? then Some(tags[v.value]) else None;
    if version.Some? {
      var pos := Position(tags, version.value);
      if pos.Some? {
        assert pos.value == v.value;
        tags := Seqs.RemoveAt(tags, pos.value);
      }
    }
    var name := Trim(Untagged(filename));
    g := GameFileDataNaive(name, titleId, version, None, tags, extension);
  }

  /** The extension is what follows the last `.`, or the whole name when there is no `.`. */
  lemma ExtensionAfterLastDot(filename: string)
    ensures '.' !in Extension(filename)
    ensures '.' !in filename ==> Extension(filename) == filename
    ensures '.' in filename ==> EndsWith(filename, "." + Extension(filename))
  {
    var parts := Split(filename, '.');
    assert '.' !in parts[|parts| - 1];
    if '.' in filename {
      var i := IndexOf(filename, '.');
      assert parts == [filename[..i]] + Split(filename[i + 1..], '.');
      JoinLast(parts, '.');
      assert "." + Extension(filename) == ['.'] + Last(parts);
    } else {
      SplitNone(filename, '.');
    }
  }

  lemma {:induction false} CountPositive(s: string, c: char)
    requires c in s
    ensures Count(s, c) >= 1
    decreases |s|
  {
    if s[0] != c {
      CountPositive(s[1..], c);
    }
  }

  lemma {:induction false} JoinLast(parts: seq<string>, sep: char)
    requires |parts| >= 2
    ensures EndsWith(Join(parts, sep), [sep] + Last(parts))
    decreases |parts|
  {
    if |parts| > 2 {
      JoinLast(parts[1..], sep);
    }
  }

  /** Text without `[` passes through the scan unchanged. */
  lemma {:induction false} ScanPlain(a: string, b: string)
    requires '[' !in a
    ensures Scan(a + b) == (Scan(b).0, a + Scan(b).1)
    decreases |a|
  {
    if a == [] {
      assert a + b == b;
      assert a + Scan(b).1 == Scan(b).1;
    } else {
      assert (a + b)[0] == a[0];
      assert (a + b)[1..] == a[1..] + b;
      ScanPlain(a[1..], b);
      assert [a[0]] + (a[1..] + Scan(b).1) == a + Scan(b).1;
    }
  }

  /** A bracketed tag free of `]` and line breaks is captured, and the scan resumes after it. */
  lemma ScanTag(tag: string, rest: string)
    requires ']' !in tag && '\n' !in tag
    ensures Scan("[" + tag + "]" + rest) == ([tag] + Scan(rest).0, Scan(rest).1)
  {
    var s := "[" + tag + "]" + rest;
    assert s[1..] == tag + ("]" + rest);
    CloseAt(tag, "]" + rest);
    assert s[1..1 + |tag|] == tag;
    assert s[1 + |tag| + 1..] == rest;
  }

  lemma {:induction false} CloseAt(tag: string, rest: string)
    requires ']' !in tag && '\n' !in tag && rest != [] && rest[0] == ']'
    ensures Close(tag + rest) == |tag|
    decreases |tag|
  {
    if tag == [] {
      assert tag + rest == rest;
    } else {
      assert (tag + rest)[0] == tag[0];
      assert (tag + rest)[1..] == tag[1..] + rest;
      CloseAt(tag[1..], rest);
    }
  }

  /** The extension of `a.ext` is `ext` when `ext` has no dot. */
  lemma ExtensionOf(a: string, ext: string)
    requires '.' !in ext
    ensures Extension(a + "." + ext) == ext
  {
    assert a + "." + ext == a + ['.'] + ext;
    SplitLast(a, '.', ext);
  }

  /** The file name `format_game_name` produces: `{name}[{title id}][{version}].{ext}`. */
  function CanonicalName(name: string, tid: string, ver: string, ext: string): string
  {
    name + ("[" + tid + "]" + ("[" + ver + "]" + ("." + ext)))
  }

  lemma CanonicalScan(name: string, tid: string, ver: string, ext: string)
    requires '[' !in name && '[' !in ext
    requires ']' !in tid && '\n' !in tid && ']' !in ver && '\n' !in ver
    ensures Tags(CanonicalName(name, tid, ver, ext)) == [tid, ver]
    ensures Untagged(CanonicalName(name, tid, ver, ext)) == name + "." + ext
  {
    var t3 := "." + ext;
    var t2 := "[" + ver + "]" + t3;
    var t1 := "[" + tid + "]" + t2;
    ScanPlain(t3, []);
    assert t3 + [] == t3;
    ScanTag(ver, t3);
    ScanTag(tid, t2);
    ScanPlain(name, t1);
    assert name + t3 == name + "." + ext;
  }

  /**
   * A name in the canonical shape is read back into its parts: the title id,
   * the version, no other tag, the extension, and the name with the
   * extension still attached.
   */
  lemma ParseCanonical(name: string, tid: string, ver: string, ext: string)
    requires '[' !in name && '.' !in ext && '[' !in ext
    requires IsTitleIdTag(tid) && ']' !in tid && '\n' !in tid
    requires IsVersionTag(ver) && !IsTitleIdTag(ver) && ']' !in ver && '\n' !in ver
    ensures var g := Parse(CanonicalName(name, tid, ver, ext));
      g.titleId == Some(tid) && g.version == Some(ver) && g.otherTags == [] &&
      g.extension == Some(ext) && g.name == Trim(name + "." + ext)
  {
    var f := CanonicalName(name, tid, ver, ext);
    CanonicalScan(name, tid, ver, ext);
    var front := name + ("[" + tid + "]" + ("[" + ver + "]"));
    ExtensionOf(front, ext);
    assert f == front + "." + ext;
    assert Seqs.RemoveAt([tid, ver], 0) == [ver];
  }

  /**
   * Of two tags that both look like title ids, the first is taken and the
   * second stays among the other tags.
   */
  lemma ParseFirstTitleIdWins(name: string, a: string, b: string, ext: string)
    requires '[' !in name && '[' !in ext
    requires IsTitleIdTag(a) && ']' !in a && '\n' !in a
    requires IsTitleIdTag(b) && !IsVersionTag(b) && ']' !in b && '\n' !in b
    ensures var g := Parse(CanonicalName(name, a, b, ext));
      g.titleId == Some(a) && g.version == None && g.otherTags == [b]
  {
    CanonicalScan(name, a, b, ext);
    assert Seqs.RemoveAt([a, b], 0) == [b];
  }

  // ---------------------------------------------------------------------------
  // Title ids: base games, updates and DLC

  predicate IsBaseId(tid: string)
  {
    EndsWith(tid, "000")
  }

  predicate IsUpdateId(tid: string)
  {
    EndsWith(tid, "800")
  }

  predicate IsDlcId(tid: string)
  {
    !IsBaseId(tid) && !IsUpdateId(tid)
  }

  /** `str::replace("800", "000")` distributes over a trailing `800`, since `800` cannot overlap itself. */
  lemma {:induction false} Replace800Suffix(s: string)
    ensures ReplaceAll(s + "800", "800", "000") == ReplaceAll(s, "800", "000") + "000"
    decreases |s|
  {
    var t := s + "800";
    if s == [] {
      assert t == "800";
      assert t[3..] == [];
    } else if StartsWith(s, "800") {
      assert StartsWith(t, "800");
      assert t[3..] == s[3..] + "800";
      Replace800Suffix(s[3..]);
    } else {
      assert !StartsWith(t, "800") by {
        if |s| >= 3 {
          assert t[..3] == s[..3];
        } else if |s| == 1 {
          assert t[..3] == [s[0], '8', '0'];
        } else {
          assert t[..3] == [s[0], s[1], '8'];
        }
      }
      assert t[1..] == s[1..] + "800";
      Replace800Suffix(s[1..]);
    }
  }

  /** The id the catalogue is searched for: an update id has every `800` rewritten to `000`. */
  function LookupId(tid: string): (q: string)
    ensures |q| == |tid|
    ensures IsUpdateId(tid) ==> IsBaseId(q)
    ensures !IsUpdateId(tid) ==> q == tid
  {
    if IsUpdateId(tid) then
      ReplaceAllLength(tid, "800", "000");
      var stem := tid[..|tid| - 3];
      assert tid == stem + "800";
      Replace800Suffix(stem);
      ReplaceAll(tid, "800", "000")
    else tid
  }

  /** The rewrite is global, not a suffix substitution: in an update id
    * `0100 800 0…0 800` the inner `800` changes too. */
  lemma LookupIdIsGlobal(zeros: string)
    requires forall k :: 0 <= k < |zeros| ==> zeros[k] == '0'
    ensures LookupId("0100" + ("800" + zeros) + "800") == "0100" + ("000" + zeros) + "000"
    ensures LookupId("0100" + ("800" + zeros) + "800") != "0100" + ("800" + zeros) + "000"
  {
    var stem := "0100" + ("800" + zeros);
    var tid := stem + "800";
    Replace800Suffix(stem);
    ReplaceKeepsPrefix("0100", "800" + zeros);
    assert StartsWith("800" + zeros, "800");
    assert ("800" + zeros)[3..] == zeros;
    ReplaceZeros(zeros);
    var r := ReplaceAll(stem, "800", "000");
    assert r == "0100" + ("000" + zeros);
    assert IsUpdateId(tid);
    assert LookupId(tid) == r + "000";
    assert (r + "000")[4] == '0';
    assert (stem + "000")[4] == '8';
  }

  /** A prefix without an `8`, such as the leading `0100` of an id, is copied unchanged. */
  lemma {:induction false} ReplaceKeepsPrefix(p: string, t: string)
    requires '8' !in p
    ensures ReplaceAll(p + t, "800", "000") == p + ReplaceAll(t, "800", "000")
    decreases |p|
  {
    if p == [] {
      assert p + t == t;
    } else {
      var s := p + t;
      ReplaceStep(s);
      assert s[1..] == p[1..] + t;
      ReplaceKeepsPrefix(p[1..], t);
      assert [p[0]] + (p[1..] + ReplaceAll(t, "800", "000")) == p + ReplaceAll(t, "800", "000");
    }
  }

  /** Zeros are left alone by the rewrite. */
  lemma {:induction false} ReplaceZeros(s: string)
    requires forall k :: 0 <= k < |s| ==> s[k] == '0'
    ensures ReplaceAll(s, "800", "000") == s
    decreases |s|
  {
    if s != [] {
      ReplaceStep(s);
      ReplaceZeros(s[1..]);
    }
  }

  /** A string that does not start with `800` keeps its first character. */
  lemma ReplaceStep(s: string)
    requires s != [] && s[0] != '8'
    ensures ReplaceAll(s, "800", "000") == [s[0]] + ReplaceAll(s[1..], "800", "000")
  {
  }

  /** The release date is stored as text or as a number; numbers are rendered in decimal (`deser_to_string`). */
  datatype StringOrU64 = Text(s: string) | Number(n: nat)

  function ReleaseDateText(v: Option<StringOrU64>): (r: Option<string>)
    ensures r.None? <==> v.None?
    ensures v.Some? && v.value.Text? ==> r == Some(v.value.s)
    ensures v.Some? && v.value.Number? ==> r.Some? && Numbers.AllDigits(r.value)
  {
    match v
    case None => None
    case Some(Text(s)) => Some(s)
    case Some(Number(n)) => Some(Numbers.DecimalString(n))
  }

  /** A numeric release date reads back as the same number. */
  lemma ReleaseDateNumberRoundTrip(n: nat)
    requires n <= Numbers.U64_MAX
    ensures Numbers.ParseU64(ReleaseDateText(Some(Number(n))).value) == Some(n)
  {
    Numbers.ParseDecimal(n);
  }

  // ---------------------------------------------------------------------------
  // Catalogue records

  datatype Title = Title(
    titleId: Option<string>,
    titleIds: seq<string>,
    name: Option<string>,
    version: Option<string>,
    releaseDate: Option<string>)

  /** A row of the `titles_{locale}` table: the title and the `ids` it is also known by. */
  datatype CatalogRow = CatalogRow(title: Title, ids: seq<string>)

  /** A row of the `metaview_{locale}` view joining a local file with its title. */
  datatype MetaviewRow = MetaviewRow(
    title: Option<Title>,
    path: string,
    titleId: Option<string>,
    name: Option<string>,
    version: Option<string>,
    downloadId: Option<string>)

  /** SurrealQL truthiness of an optional string field. */
  predicate Truthy(o: Option<string>)
  {
    o.Some? && o.value != []
  }

  /** How an update hit is presented: named as an update and carrying the update's own id. */
  function AsUpdate(t: Title, tid: string): (r: Title)
    ensures r.titleId == Some(tid) && r.titleIds == [tid]
    ensures r.name.None? <==> t.name.None?
    ensures t.name.Some? ==> r.name.value == t.name.value + " (Update)"
    ensures r.version == t.version && r.releaseDate == t.releaseDate
  {
    t.(name := if t.name.Some? then Some(t.name.value + " (Update)") else None,
       titleId := Some(tid),
       titleIds := [tid])
  }

  /** A title as the lookup presents it: an update hit is renamed, any other hit is returned as stored. */
  function Presented(t: Title, tid: string): (r: Title)
    ensures IsUpdateId(tid) ==> r == AsUpdate(t, tid)
    ensures !IsUpdateId(tid) ==> r == t
  {
    if IsUpdateId(tid) then AsUpdate(t, tid) else t
  }

  predicate MatchesCatalog(row: CatalogRow, q: string)
  {
    row.title.titleId == Some(q) || q in row.ids
  }

  /** `WHERE titleId = $tid OR ids CONTAINS $tid`. */
  function CatalogMatch(q: string): CatalogRow -> bool
  {
    (row: CatalogRow) => MatchesCatalog(row, q)
  }

  /**
   * `Title::get_from_title_id` over the catalogue `rows`: the rows matching
   * the looked-up id are read with `take(0)`, so no hit is `None`, a single
   * hit is that row's title, and several hits are an error.
   */
  function GetFromTitleId(rows: seq<CatalogRow>, tid: string): (r: Result<Option<Title>, Seqs.TakeError>)
    ensures r == Ok(None) <==> forall i :: 0 <= i < |rows| ==> !MatchesCatalog(rows[i], LookupId(tid))
    ensures forall i :: Seqs.OnlyMatch(rows, CatalogMatch(LookupId(tid)), i) ==>
              r == Ok(Some(Presented(rows[i].title, tid)))
    ensures forall i, j :: Seqs.TwoMatches(rows, CatalogMatch(LookupId(tid)), i, j) ==> r.Err?
    ensures r.Ok? && r.value.Some? ==>
      exists i :: 0 <= i < |rows| && MatchesCatalog(rows[i], LookupId(tid)) &&
        r.value.value == Presented(rows[i].title, tid)
  {
    var q := LookupId(tid);
    Seqs.TakeFiltered(rows, CatalogMatch(q));
    match Seqs.TakeOne(Seqs.Filter(rows, CatalogMatch(q)))
    case Err(e) => Err(e)
    case Ok(None) => Ok(None)
    case Ok(Some(row)) => Ok(Some(Presented(row.title, tid)))
  }

  predicate MatchesMetaview(row: MetaviewRow, q: string)
  {
    row.title.Some? && row.title.value.titleId == Some(q)
  }

  /** `WHERE title.titleId = $tid`. */
  function MetaviewMatch(q: string): MetaviewRow -> bool
  {
    (row: MetaviewRow) => MatchesMetaview(row, q)
  }

  /**
   * `Title::get_from_metaview_cache` over the view `rows`: the title of the
   * single view row whose title has the looked-up id, renamed for an update.
   */
  function GetFromMetaviewCache(rows: seq<MetaviewRow>, tid: string): (r: Result<Option<Title>, Seqs.TakeError>)
    ensures r == Ok(None) <==> forall i :: 0 <= i < |rows| ==> !MatchesMetaview(rows[i], LookupId(tid))
    ensures forall i :: Seqs.OnlyMatch(rows, MetaviewMatch(LookupId(tid)), i) ==>
              r == Ok(Some(Presented(rows[i].title.value, tid)))
    ensures forall i, j :: Seqs.TwoMatches(rows, MetaviewMatch(LookupId(tid)), i, j) ==> r.Err?
    ensures r.Ok? && r.value.Some? ==>
      exists i :: 0 <= i < |rows| && MatchesMetaview(rows[i], LookupId(tid)) &&
        r.value.value == Presented(rows[i].title.value, tid)
  {
    var q := LookupId(tid);
    Seqs.TakeFiltered(rows, MetaviewMatch(q));
    match Seqs.TakeOne(Seqs.Filter(rows, MetaviewMatch(q)))
    case Err(e) => Err(e)
    case Ok(None) => Ok(None)
    case Ok(Some(row)) => Ok(Some(Presented(row.title.value, tid)))
  }

  /** `WHERE title_id = $tid`. */
  function TitleIdIs(tid: string): MetaviewRow -> bool
  {
    (row: MetaviewRow) => row.titleId == Some(tid)
  }

  /** `WHERE download_id = $did`. */
  function DownloadIdIs(did: string): MetaviewRow -> bool
  {
    (row: MetaviewRow) => row.downloadId == Some(did)
  }

  /** `Metaview::get_from_title_id`: the single view row for a local title id. */
  function MetaviewByTitleId(rows: seq<MetaviewRow>, tid: string): (r: Result<Option<MetaviewRow>, Seqs.TakeError>)
    ensures r.Ok? && r.value.Some? ==> r.value.value in rows && r.value.value.titleId == Some(tid)
    ensures r == Ok(None) <==> forall i :: 0 <= i < |rows| ==> rows[i].titleId != Some(tid)
    ensures forall i :: Seqs.OnlyMatch(rows, TitleIdIs(tid), i) ==> r == Ok(Some(rows[i]))
    ensures forall i, j :: Seqs.TwoMatches(rows, TitleIdIs(tid), i, j) ==> r.Err?
  {
    Seqs.TakeFiltered(rows, TitleIdIs(tid));
    Seqs.TakeOne(Seqs.Filter(rows, TitleIdIs(tid)))
  }

  /** `Metaview::get_from_download_id`: the single view row for a download id. */
  function MetaviewByDownloadId(rows: seq<MetaviewRow>, did: string): (r: Result<Option<MetaviewRow>, Seqs.TakeError>)
    ensures r.Ok? && r.value.Some? ==> r.value.value in rows && r.value.value.downloadId == Some(did)
    ensures r == Ok(None) <==> forall i :: 0 <= i < |rows| ==> rows[i].downloadId != Some(did)
    ensures forall i :: Seqs.OnlyMatch(rows, DownloadIdIs(did), i) ==> r == Ok(Some(rows[i]))
    ensures forall i, j :: Seqs.TwoMatches(rows, DownloadIdIs(did), i, j) ==> r.Err?
  {
    Seqs.TakeFiltered(rows, DownloadIdIs(did));
    Seqs.TakeOne(Seqs.Filter(rows, DownloadIdIs(did)))
  }

  predicate HasTitleId(row: MetaviewRow)
  {
    row.title.Some? && Truthy(row.title.value.titleId)
  }

  predicate IsBaseRow(row: MetaviewRow)
  {
    HasTitleId(row) && IsBaseId(row.title.value.titleId.value)
  }

  predicate IsUpdateRow(row: MetaviewRow)
  {
    HasTitleId(row) && IsUpdateId(row.title.value.titleId.value)
  }

  predicate IsDlcRow(row: MetaviewRow)
  {
    HasTitleId(row) && IsDlcId(row.title.value.titleId.value)
  }

  /** `Metaview::get_base_games`. */
  function BaseGames(rows: seq<MetaviewRow>): seq<MetaviewRow>
  {
    Seqs.Filter(rows, IsBaseRow)
  }

  /** `Metaview::get_updates`. */
  function Updates(rows: seq<MetaviewRow>): seq<MetaviewRow>
  {
    Seqs.Filter(rows, IsUpdateRow)
  }

  /** `Metaview::get_dlc`. */
  function Dlc(rows: seq<MetaviewRow>): seq<MetaviewRow>
  {
    Seqs.Filter(rows, IsDlcRow)
  }

  /** `Metaview::get_all_non_base_titles`: local files whose own id is set and is not a base id. */
  function NonBaseTitles(rows: seq<MetaviewRow>): (r: seq<MetaviewRow>)
    ensures forall i :: 0 <= i < |r| ==> Truthy(r[i].titleId) && !IsBaseId(r[i].titleId.value)
  {
    Seqs.Filter(rows, (row: MetaviewRow) => Truthy(row.titleId) && !IsBaseId(row.titleId.value))
  }

  /** An id that ends in `000` cannot end in `800`. */
  lemma BaseIsNotUpdate(tid: string)
    ensures !(IsBaseId(tid) && IsUpdateId(tid))
  {
  }

  /** Every row with a title id is exactly one of base game, update and DLC. */
  lemma RowClassified(row: MetaviewRow)
    requires HasTitleId(row)
    ensures IsBaseRow(row) || IsUpdateRow(row) || IsDlcRow(row)
    ensures !(IsBaseRow(row) && IsUpdateRow(row))
    ensures !(IsBaseRow(row) && IsDlcRow(row)) && !(IsUpdateRow(row) && IsDlcRow(row))
  {
    BaseIsNotUpdate(row.title.value.titleId.value);
  }

  predicate IsBaseOrUpdateRow(row: MetaviewRow)
  {
    IsBaseRow(row) || IsUpdateRow(row)
  }

  /** The base-game, update and DLC queries together return each row with a title id once. */
  lemma ClassificationCount(rows: seq<MetaviewRow>)
    ensures |BaseGames(rows)| + |Updates(rows)| + |Dlc(rows)| == |Seqs.Filter(rows, HasTitleId)|
  {
    forall i | 0 <= i < |rows| && HasTitleId(rows[i])
      ensures !(IsBaseRow(rows[i]) && IsUpdateRow(rows[i]))
      ensures IsBaseOrUpdateRow(rows[i]) || IsDlcRow(rows[i])
    {
      RowClassified(rows[i]);
    }
    Seqs.FilterDisjointCount(rows, IsBaseRow, IsUpdateRow, IsBaseOrUpdateRow);
    Seqs.FilterDisjointCount(rows, IsBaseOrUpdateRow, IsDlcRow, HasTitleId);
  }

  /**
   * `Metaview::get_download_ids`: the download ids of the rows whose own
   * title id starts with the first 12 bytes of `tid`, in row order; the
   * slice `&title_id[..12]` panics on an id shorter than 12 bytes or cut
   * inside a character.
   */
  function DownloadIds(rows: seq<MetaviewRow>, tid: string): (r: Outcome<seq<string>>)
    ensures r.Panics? <==> BytePrefix(tid, 12).None?
    ensures r.Returns? ==> r.value == DownloadIdsOf(rows, BytePrefix(tid, 12).value)
    ensures r.Returns? ==>
              forall i :: 0 <= i < |rows| && rows[i].downloadId.Some? && SharesPrefix(rows[i], tid) ==>
                rows[i].downloadId.value in r.value
    ensures r.Returns? ==>
              forall d :: d in r.value ==>
                exists i :: 0 <= i < |rows| && rows[i].downloadId == Some(d) && SharesPrefix(rows[i], tid)
  {
    match BytePrefix(tid, 12)
    case None => Panics
    case Some(pfx) =>
      DownloadIdsMembers(rows, tid, pfx);
      Returns(DownloadIdsOf(rows, pfx))
  }

  /** The listed ids are exactly the download ids of the rows sharing the prefix. */
  lemma DownloadIdsMembers(rows: seq<MetaviewRow>, tid: string, pfx: string)
    requires BytePrefix(tid, 12) == Some(pfx)
    ensures forall i :: 0 <= i < |rows| && rows[i].downloadId.Some? && SharesPrefix(rows[i], tid) ==>
              rows[i].downloadId.value in DownloadIdsOf(rows, pfx)
    ensures forall d :: d in DownloadIdsOf(rows, pfx) ==>
              exists i :: 0 <= i < |rows| && rows[i].downloadId == Some(d) && SharesPrefix(rows[i], tid)
  {
    var r := DownloadIdsOf(rows, pfx);
    var listed := Seqs.Filter(rows, ListedFor(pfx));
    forall i | 0 <= i < |rows| && rows[i].downloadId.Some? && SharesPrefix(rows[i], tid)
      ensures rows[i].downloadId.value in r
    {
      assert ListedFor(pfx)(rows[i]);
      var k :| 0 <= k < |listed| && listed[k] == rows[i];
      assert r[k] == rows[i].downloadId.value;
    }
    forall d | d in r
      ensures exists i :: 0 <= i < |rows| && rows[i].downloadId == Some(d) && SharesPrefix(rows[i], tid)
    {
      var k :| 0 <= k < |r| && r[k] == d;
      assert listed[k] in rows && ListedFor(pfx)(listed[k]);
      var i :| 0 <= i < |rows| && rows[i] == listed[k];
      assert rows[i].downloadId == Some(d) && SharesPrefix(rows[i], tid);
    }
  }

  /** The row's own title id starts with the first 12 bytes of `tid`. */
  predicate SharesPrefix(row: MetaviewRow, tid: string)
  {
    BytePrefix(tid, 12).Some? && row.titleId.Some? && StartsWith(row.titleId.value, BytePrefix(tid, 12).value)
  }

  /** The rows `get_download_ids` reports for a prefix: the title id starts with it and a download id is set. */
  function ListedFor(pfx: string): MetaviewRow -> bool
  {
    (row: MetaviewRow) => row.titleId.Some? && StartsWith(row.titleId.value, pfx) && row.downloadId.Some?
  }

  /**
   * The `starts_with` query followed by `filter_map(|t| t.download_id)`: one
   * id per listed row, in row order, duplicates kept.
   */
  function DownloadIdsOf(rows: seq<MetaviewRow>, pfx: string): (r: seq<string>)
    ensures |r| == |Seqs.Filter(rows, ListedFor(pfx))|
    ensures forall k :: 0 <= k < |r| ==> r[k] == Seqs.Filter(rows, ListedFor(pfx))[k].downloadId.value
  {
    if rows == [] then []
    else
      Seqs.FilterCons(rows, ListedFor(pfx));
      (if ListedFor(pfx)(rows[0]) then [rows[0].downloadId.value] else []) + DownloadIdsOf(rows[1..], pfx)
  }
}
