/**
 * The metadata API's grouping of local files by title (src/backend/api/metadata.rs):
 * the base game of a title id, and the base game with the other local
 * versions sharing its 12-character prefix.
 *
 * The local metadata records arrive as the database returned them, and the
 * title cache is the metaview lookup of the title database model.
 */
module MetadataApi {
  import opened Wrappers
  import opened Strings
  import Util
  import TitleDb

  const NOT_FOUND: nat := 404
  const INTERNAL_SERVER_ERROR: nat := 500
  /** The byte length of the prefix shared by a base game, its update and its DLC. */
  const PREFIX_LEN := 12
  const BASE_SUFFIX := "000"

  /** `GroupedGameListResponse`. */
  datatype GroupedGameList = GroupedGameList(baseGame: TitleDb.Title, versions: seq<TitleDb.Title>)

  /** A local file that is the base game of the prefix. */
  predicate IsBaseOf(m: Util.NspMetadata, prefix: string)
  {
    StartsWith(m.titleId, prefix) && EndsWith(m.titleId, BASE_SUFFIX)
  }

  /** A local file that shares the prefix but is not a base game. */
  predicate IsVersionOf(m: Util.NspMetadata, prefix: string)
  {
    StartsWith(m.titleId, prefix) && !EndsWith(m.titleId, BASE_SUFFIX)
  }

  /** The `find` of both handlers: the first local base game of the prefix. */
  function FindBase(files: seq<Util.NspMetadata>, prefix: string): (r: Option<Util.NspMetadata>)
    ensures r.None? <==> forall i :: 0 <= i < |files| ==> !IsBaseOf(files[i], prefix)
    ensures r.Some? ==> exists i :: 0 <= i < |files| && files[i] == r.value && IsBaseOf(files[i], prefix) &&
                                    forall j :: 0 <= j < i ==> !IsBaseOf(files[j], prefix)
  {
    if files == [] then None
    else if IsBaseOf(files[0], prefix) then Some(files[0])
    else
      var r := FindBase(files[1..], prefix);
      if r.Some? then
        var i :| 0 <= i < |files[1..]| && files[1..][i] == r.value && IsBaseOf(files[1..][i], prefix) &&
                 forall j :: 0 <= j < i ==> !IsBaseOf(files[1..][j], prefix);
        assert files[i + 1] == r.value;
        assert forall j :: 1 <= j < i + 1 ==> files[j] == files[1..][j - 1];
        r
      else r
  }

  /** The cache lookup as a handler sees it: a database error is a 500. */
  function CachedTitle(rows: seq<TitleDb.MetaviewRow>, tid: string): (r: Result<Option<TitleDb.Title>, nat>)
    ensures r.Err? <==> TitleDb.GetFromMetaviewCache(rows, tid).Err?
    ensures r.Err? ==> r.error == INTERNAL_SERVER_ERROR
    ensures r.Ok? ==> r.value == TitleDb.GetFromMetaviewCache(rows, tid).value
  {
    match TitleDb.GetFromMetaviewCache(rows, tid)
    case Err(_) => Err(INTERNAL_SERVER_ERROR)
    case Ok(t) => Ok(t)
  }

  /** The base game's title of a prefix: 404 without a local base file or without a cached title. */
  function BaseTitle(files: seq<Util.NspMetadata>, prefix: string, rows: seq<TitleDb.MetaviewRow>)
    : (r: Result<TitleDb.Title, nat>)
    ensures FindBase(files, prefix).None? ==> r == Err(NOT_FOUND)
    ensures r.Ok? ==> FindBase(files, prefix).Some? &&
                      TitleDb.GetFromMetaviewCache(rows, FindBase(files, prefix).value.titleId) == Ok(Some(r.value))
    ensures FindBase(files, prefix).Some? && TitleDb.GetFromMetaviewCache(rows, FindBase(files, prefix).value.titleId) == Ok(None) ==>
              r == Err(NOT_FOUND)
    ensures FindBase(files, prefix).Some? && TitleDb.GetFromMetaviewCache(rows, FindBase(files, prefix).value.titleId).Err? ==>
              r == Err(INTERNAL_SERVER_ERROR)
  {
    match FindBase(files, prefix)
    case None => Err(NOT_FOUND)
    case Some(base) =>
      match CachedTitle(rows, base.titleId)
      case Err(e) => Err(e)
      case Ok(None) => Err(NOT_FOUND)
      case Ok(Some(t)) => Ok(t)
  }

  /**
   * `title_meta_base_game`: the metadata read fails with 500; a parameter
   * without a first 12 bytes panics on the slice; otherwise the base game's
   * title, or 404.
   */
  function TitleMetaBaseGame(param: string, files: Result<seq<Util.NspMetadata>, string>, rows: seq<TitleDb.MetaviewRow>)
    : (r: Outcome<Result<TitleDb.Title, nat>>)
    ensures files.Err? ==> r == Returns(Err(INTERNAL_SERVER_ERROR))
    ensures files.Ok? ==> (r.Panics? <==> BytePrefix(param, PREFIX_LEN).None?)
    ensures files.Ok? && r.Returns? ==> r.value == BaseTitle(files.value, BytePrefix(param, PREFIX_LEN).value, rows)
  {
    match files
    case Err(_) => Returns(Err(INTERNAL_SERVER_ERROR))
    case Ok(fs) =>
      match BytePrefix(param, PREFIX_LEN)
      case None => Panics
      case Some(prefix) => Returns(BaseTitle(fs, prefix, rows))
  }

  /** The title a version file contributes: its cached title, when the lookup finds one. */
  function VersionTitle(m: Util.NspMetadata, prefix: string, rows: seq<TitleDb.MetaviewRow>): seq<TitleDb.Title>
  {
    if IsVersionOf(m, prefix) && TitleDb.GetFromMetaviewCache(rows, m.titleId).Ok? &&
       TitleDb.GetFromMetaviewCache(rows, m.titleId).value.Some?
    then [TitleDb.GetFromMetaviewCache(rows, m.titleId).value.value]
    else []
  }

  /** The versions of a prefix: the cached titles of its non-base files, in file order. */
  function Versions(files: seq<Util.NspMetadata>, prefix: string, rows: seq<TitleDb.MetaviewRow>): (r: seq<TitleDb.Title>)
    ensures |r| <= |files|
  {
    if files == [] then []
    else Versions(files[..|files| - 1], prefix, rows) + VersionTitle(files[|files| - 1], prefix, rows)
  }

  /** A local file gives the title `t` as a version of the prefix. */
  predicate Gives(m: Util.NspMetadata, prefix: string, rows: seq<TitleDb.MetaviewRow>, t: TitleDb.Title)
  {
    IsVersionOf(m, prefix) && TitleDb.GetFromMetaviewCache(rows, m.titleId) == Ok(Some(t))
  }

  lemma VersionTitleGives(m: Util.NspMetadata, prefix: string, rows: seq<TitleDb.MetaviewRow>, t: TitleDb.Title)
    ensures t in VersionTitle(m, prefix, rows) <==> Gives(m, prefix, rows, t)
  {
  }

  /** Every version is the cached title of a local file of the prefix that is not a base game. */
  lemma {:induction false} VersionsSound(files: seq<Util.NspMetadata>, prefix: string, rows: seq<TitleDb.MetaviewRow>, t: TitleDb.Title)
    requires t in Versions(files, prefix, rows)
    ensures exists i :: 0 <= i < |files| && Gives(files[i], prefix, rows, t)
  {
    var prev := files[..|files| - 1];
    var last := files[|files| - 1];
    assert Versions(files, prefix, rows) == Versions(prev, prefix, rows) + VersionTitle(last, prefix, rows);
    if t in Versions(prev, prefix, rows) {
      VersionsSound(prev, prefix, rows, t);
      var i :| 0 <= i < |prev| && Gives(prev[i], prefix, rows, t);
      assert files[i] == prev[i];
    } else {
      VersionTitleGives(last, prefix, rows, t);
      assert Gives(files[|files| - 1], prefix, rows, t);
    }
  }

  /** Every local file of the prefix that is not a base game and has a cached title gives a version. */
  lemma VersionsComplete(files: seq<Util.NspMetadata>, prefix: string, rows: seq<TitleDb.MetaviewRow>, i: int, t: TitleDb.Title)
    requires 0 <= i < |files| && Gives(files[i], prefix, rows, t)
    ensures t in Versions(files, prefix, rows)
  {
    VersionTitleGives(files[i], prefix, rows, t);
    VersionsCollect(files, prefix, rows, i, t);
  }

  /** What any one file contributes is among the versions. */
  lemma {:induction false} VersionsCollect(files: seq<Util.NspMetadata>, prefix: string, rows: seq<TitleDb.MetaviewRow>, i: int, t: TitleDb.Title)
    requires 0 <= i < |files| && t in VersionTitle(files[i], prefix, rows)
    ensures t in Versions(files, prefix, rows)
  {
    var prev := files[..|files| - 1];
    var last := files[|files| - 1];
    var before := Versions(prev, prefix, rows);
    var added := VersionTitle(last, prefix, rows);
    assert Versions(files, prefix, rows) == before + added;
    if i < |files| - 1 {
      assert prev[i] == files[i];
      VersionsCollect(prev, prefix, rows, i, t);
      assert t in before;
    } else {
      assert t in added;
    }
  }

  /** The versions are exactly the titles the prefix's non-base files give. */
  lemma VersionsSpec(files: seq<Util.NspMetadata>, prefix: string, rows: seq<TitleDb.MetaviewRow>, t: TitleDb.Title)
    ensures t in Versions(files, prefix, rows) <==> exists i :: 0 <= i < |files| && Gives(files[i], prefix, rows, t)
  {
    if t in Versions(files, prefix, rows) {
      VersionsSound(files, prefix, rows, t);
    }
    if exists i :: 0 <= i < |files| && Gives(files[i], prefix, rows, t) {
      var i :| 0 <= i < |files| && Gives(files[i], prefix, rows, t);
      VersionsComplete(files, prefix, rows, i, t);
    }
  }

  /** A base game of the prefix is never one of its versions. */
  lemma BaseNotAVersion(files: seq<Util.NspMetadata>, prefix: string)
    requires FindBase(files, prefix).Some?
    ensures !IsVersionOf(FindBase(files, prefix).value, prefix)
    ensures forall i :: 0 <= i < |files| && IsVersionOf(files[i], prefix) ==> files[i].titleId != FindBase(files, prefix).value.titleId
  {
  }

  /** One more file adds what that file contributes. */
  lemma VersionsStep(files: seq<Util.NspMetadata>, prefix: string, rows: seq<TitleDb.MetaviewRow>, i: nat)
    requires i < |files|
    ensures Versions(files[..i + 1], prefix, rows) == Versions(files[..i], prefix, rows) + VersionTitle(files[i], prefix, rows)
  {
    assert files[..i + 1][..i] == files[..i];
  }

  /** The `for` loop of `list_grouped_by_titleid`: the cached titles of the prefix's non-base files. */
  method CollectVersions(files: seq<Util.NspMetadata>, prefix: string, rows: seq<TitleDb.MetaviewRow>)
    returns (versions: seq<TitleDb.Title>)
    ensures versions == Versions(files, prefix, rows)
  {
    versions := [];
    var i := 0;
    while i < |files|
      invariant 0 <= i <= |files|
      invariant versions == Versions(files[..i], prefix, rows)
    {
      var m := files[i];
      VersionsStep(files, prefix, rows, i);
      if StartsWith(m.titleId, prefix) {
        if !EndsWith(m.titleId, BASE_SUFFIX) {
          var title := TitleDb.GetFromMetaviewCache(rows, m.titleId);
          if title.Ok? && title.value.Some? {
            versions := versions + [title.value.value];
          }
        }
      }
      i := i + 1;
    }
    assert files[..|files|] == files;
  }

  /**
   * `list_grouped_by_titleid`: as `title_meta_base_game` for the base game,
   * which must be found first, then the versions sharing its prefix.
   */
  method ListGroupedByTitleid(param: string, files: Result<seq<Util.NspMetadata>, string>, rows: seq<TitleDb.MetaviewRow>)
    returns (r: Outcome<Result<GroupedGameList, nat>>)
    ensures files.Err? ==> r == Returns(Err(INTERNAL_SERVER_ERROR))
    ensures files.Ok? ==> (r.Panics? <==> BytePrefix(param, PREFIX_LEN).None?)
    ensures files.Ok? && r.Returns? ==>
              var prefix := BytePrefix(param, PREFIX_LEN).value;
              var base := BaseTitle(files.value, prefix, rows);
              && (base.Err? ==> r.value == Err(base.error))
              && (base.Ok? ==> r.value == Ok(GroupedGameList(base.value, Versions(files.value, prefix, rows))))
  {
    if files.Err? {
      return Returns(Err(INTERNAL_SERVER_ERROR));
    }
    var prefix := BytePrefix(param, PREFIX_LEN);
    if prefix.None? {
      return Panics;
    }
    var base := BaseTitle(files.value, prefix.value, rows);
    if base.Err? {
      return Returns(Err(base.error));
    }
    var versions := CollectVersions(files.value, prefix.value, rows);
    r := Returns(Ok(GroupedGameList(base.value, versions)));
  }
}
