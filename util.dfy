/**
 * The name formatters of src/util.rs: the download id of a game file and the
 * display name a served file is given.
 */
module Util {
  import opened Wrappers
  import opened Strings
  import TitleDb

  /** The fields of a scanned file's metadata record the formatters read. */
  datatype NspMetadata = NspMetadata(titleName: Option<string>, titleId: string, version: string)

  /** `version.strip_prefix('v').unwrap_or(version)`: at most one leading 'v' removed. */
  function StripV(version: string): (r: string)
    ensures StartsWith(version, "v") ==> version == "v" + r
    ensures !StartsWith(version, "v") ==> r == version
  {
    StripPrefix(version, "v").UnwrapOr(version)
  }

  /** `format_download_id`: "{title_id}_v{version}.{ext}", e.g. 010005501E68C000_v65536.xci. */
  function FormatDownloadId(titleId: string, version: string, ext: string): (r: string)
    ensures StartsWith(r, titleId + "_v") && EndsWith(r, "." + ext)
    ensures |r| == |titleId| + 2 + |StripV(version)| + 1 + |ext|
    ensures r[|titleId| + 2..|r| - |ext| - 1] == StripV(version)
  {
    var v := StripV(version);
    var r := (titleId + "_v") + v + ("." + ext);
    Parts3(titleId + "_v", v, "." + ext);
    r
  }

  /** A version given with its 'v' and the same version without it give the same download id. */
  lemma DownloadIdIgnoresV(titleId: string, x: string, ext: string)
    requires !StartsWith(x, "v")
    ensures FormatDownloadId(titleId, "v" + x, ext) == FormatDownloadId(titleId, x, ext)
  {
    assert StartsWith("v" + x, "v");
    assert StripV("v" + x) == x;
  }

  /** Only one 'v' is stripped: "vv1" keeps one of them. */
  lemma DownloadIdStripsOnce(titleId: string, x: string, ext: string)
    ensures FormatDownloadId(titleId, "vv" + x, ext) == titleId + "_vv" + x + "." + ext
  {
    assert StartsWith("vv" + x, "v");
    assert "vv" + x == "v" + ("v" + x);
  }

  /** The name part of `format_game_name`: the stored title name, else the trimmed file name without every trailing copy of the extension. */
  function GameBaseName(meta: NspMetadata, filename: string, ext: string): (r: string)
    ensures meta.titleName.Some? ==> r == meta.titleName.value
    ensures meta.titleName.None? && ext != [] ==> !EndsWith(r, ext)
    ensures meta.titleName.None? ==> StartsWith(Trim(filename), r)
  {
    match meta.titleName
    case Some(n) => n
    case None => TrimEndMatches(Trim(filename), ext)
  }

  /** `format_game_name`: "{name} [{title_id}][v{version}].{ext}". */
  function FormatGameName(meta: NspMetadata, filename: string, ext: string): (r: string)
    ensures EndsWith(r, "." + ext)
    ensures StartsWith(r, GameBaseName(meta, filename, ext) + " [" + meta.titleId + "][v")
  {
    var name := GameBaseName(meta, filename, ext);
    var r := name + " [" + meta.titleId + "][v" + StripV(meta.version) + "]." + ext;
    assert r[|r| - |ext| - 1..] == "." + ext;
    assert r[..|name + " [" + meta.titleId + "][v"|] == name + " [" + meta.titleId + "][v";
    r
  }

  /** The characters of a stripped version, with its 'v' put back, are 'v' and those of the version. */
  lemma VersionTagChars(version: string, c: char)
    requires c != 'v' && c !in version
    ensures c !in "v" + StripV(version)
  {
    var ver := "v" + StripV(version);
    forall i | 0 <= i < |ver|
      ensures ver[i] != c
    {
      if i > 0 {
        assert ver[i] == StripV(version)[i - 1];
        assert StripV(version) == version[|version| - |StripV(version)|..];
      }
    }
  }

  /** The display name is the canonical tagged name of the base name followed by a space. */
  lemma GameNameCanonical(meta: NspMetadata, filename: string, ext: string)
    ensures FormatGameName(meta, filename, ext)
            == TitleDb.CanonicalName(GameBaseName(meta, filename, ext) + " ", meta.titleId, "v" + StripV(meta.version), ext)
  {
  }

  /**
   * The display name is one the filename parser reads back: its title id tag,
   * its version tag with one 'v', and its extension.
   */
  lemma GameNameParses(meta: NspMetadata, filename: string, ext: string)
    requires '[' !in GameBaseName(meta, filename, ext)
    requires '.' !in ext && '[' !in ext
    requires TitleDb.IsTitleIdTag(meta.titleId) && ']' !in meta.titleId && '\n' !in meta.titleId
    requires ']' !in meta.version && '\n' !in meta.version && !TitleDb.IsTitleIdTag("v" + StripV(meta.version))
    ensures var g := TitleDb.Parse(FormatGameName(meta, filename, ext));
            g.titleId == Some(meta.titleId) && g.version == Some("v" + StripV(meta.version)) &&
            g.extension == Some(ext) && g.otherTags == []
  {
    var name := GameBaseName(meta, filename, ext) + " ";
    var ver := "v" + StripV(meta.version);
    assert StartsWith(ver, "v");
    VersionTagChars(meta.version, ']');
    VersionTagChars(meta.version, '\n');
    assert '[' !in name;
    TitleDb.ParseCanonical(name, meta.titleId, ver, ext);
    GameNameCanonical(meta, filename, ext);
  }
}
