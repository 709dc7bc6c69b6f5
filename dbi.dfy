/**
 * The DBI repository importer's listing parser (src/import/dbi.rs).  A DBI
 * repository is an HTML page of links; the HTML parser is outside the model,
 * so a page arrives as the `<a>` elements of its first `body` element, in
 * document order, each with its `href` and its text.  `ByteSize::from_str`
 * is a parameter as well.
 */
module Dbi {
  import opened Wrappers
  import opened Strings
  import Seqs

  /** An `<a>` element: its `href` attribute, if any, and its text nodes joined. */
  datatype ATag = ATag(href: Option<string>, text: string)

  /** A page: the links of its body, or `None` when it has no body element. */
  datatype Page = Page(body: Option<seq<ATag>>)

  /** `DbiFile`: the size is in bytes as `ByteSize` parses it. */
  datatype DbiFile = DbiFile(name: string, url: string, size: Option<nat>)

  /** The entry Tinfoil receives: `size` is always 0. */
  datatype TinfoilFileEntry = TinfoilFileEntry(url: string, size: nat)

  /** The text before the first `c`, or all of it. */
  function Before(s: string, c: char): (r: string)
    ensures StartsWith(s, r) && c !in r
    ensures c !in s ==> r == s
    ensures c in s ==> |r| < |s| && s[|r|] == c
  {
    if c in s then s[..IndexOf(s, c)] else s
  }

  /** The text between the first and the second `c` (or the end), when there is a first `c`. */
  function SecondField(s: string, c: char): (r: Option<string>)
    ensures r.Some? <==> c in s
    ensures r.Some? ==> c !in r.value
  {
    if c in s then Some(Before(s[IndexOf(s, c) + 1..], c)) else None
  }

  /** The first two pieces of `str::split` are the text before the first separator and the one after it. */
  lemma SplitFields(s: string, c: char)
    ensures Split(s, c)[0] == Before(s, c)
    ensures |Split(s, c)| >= 2 <==> c in s
    ensures c in s ==> Some(Split(s, c)[1]) == SecondField(s, c)
  {
    if c in s {
      var i := IndexOf(s, c);
      var rest := s[i + 1..];
      assert Split(s, c) == [s[..i]] + Split(rest, c);
      if c in rest {
        assert Split(rest, c)[0] == rest[..IndexOf(rest, c)];
      }
    }
  }

  /**
   * `DbiFile::from_html_atag`: the url is the `href` or "", the name is the
   * trimmed text before the first ';', and the size is the text after it (up
   * to a second ';') with all white space removed, if it parses.
   */
  function FromATag(tag: ATag, parseSize: string -> Option<nat>): (f: DbiFile)
    ensures f.url == tag.href.UnwrapOr("")
    ensures f.name == Trim(Before(tag.text, ';'))
    ensures ';' !in tag.text ==> f.size == None
    ensures ';' in tag.text ==> f.size == parseSize(RemoveWhitespace(SecondField(tag.text, ';').value))
  {
    var parts := Split(tag.text, ';');
    SplitFields(tag.text, ';');
    var size := if |parts| >= 2 then parseSize(RemoveWhitespace(parts[1])) else None;
    DbiFile(Trim(parts[0]), tag.href.UnwrapOr(""), size)
  }

  /** Links with an empty name or url are dropped. */
  predicate Kept(f: DbiFile)
  {
    f.name != [] && f.url != []
  }

  /** The name of the folder icon. */
  const BannerName: string := "folder.jpg"

  /** The folder icon. */
  predicate IsBanner(f: DbiFile)
  {
    f.name == BannerName
  }

  /** The `fold` of `parse_html`: other files are appended, a banner replaces the one held. */
  function FoldFiles(fs: seq<DbiFile>, files: seq<DbiFile>, banner: Option<DbiFile>): (seq<DbiFile>, Option<DbiFile>)
  {
    if fs == [] then (files, banner)
    else if IsBanner(fs[0]) then FoldFiles(fs[1..], files, Some(fs[0]))
    else FoldFiles(fs[1..], files + [fs[0]], banner)
  }

  /** The last banner of `fs`, or `banner` when there is none. */
  function LastBanner(fs: seq<DbiFile>, banner: Option<DbiFile>): (r: Option<DbiFile>)
    ensures r.Some? && r != banner ==> r.value in fs && IsBanner(r.value)
    ensures (forall i :: 0 <= i < |fs| ==> !IsBanner(fs[i])) ==> r == banner
  {
    if fs == [] then banner
    else if IsBanner(fs[|fs| - 1]) then Some(fs[|fs| - 1])
    else LastBanner(fs[..|fs| - 1], banner)
  }

  /** The last banner of a longer sequence, seen from the front. */
  lemma {:induction false} LastBannerFront(f: DbiFile, fs: seq<DbiFile>, banner: Option<DbiFile>)
    ensures LastBanner([f] + fs, banner) == LastBanner(fs, if IsBanner(f) then Some(f) else banner)
    decreases |fs|
  {
    if fs != [] {
      assert ([f] + fs)[..|fs|] == [f] + fs[..|fs| - 1];
      LastBannerFront(f, fs[..|fs| - 1], banner);
    } else {
      assert [f] + fs == [f];
      assert [f][..0] == [];
    }
  }

  /** The files other than banners, in order. */
  function Others(fs: seq<DbiFile>): seq<DbiFile>
  {
    if fs == [] then [] else (if IsBanner(fs[0]) then [] else [fs[0]]) + Others(fs[1..])
  }

  /** The other files are exactly the non-banners, in their order. */
  lemma {:induction false} OthersSpec(fs: seq<DbiFile>)
    ensures forall f :: f in Others(fs) <==> f in fs && !IsBanner(f)
    ensures |Others(fs)| <= |fs|
  {
    if fs != [] {
      OthersSpec(fs[1..]);
      assert fs == [fs[0]] + fs[1..];
    }
  }

  /** The files the fold collects: every non-banner, in order, after those already held. */
  lemma {:induction false} FoldFilesKeeps(fs: seq<DbiFile>, files: seq<DbiFile>, banner: Option<DbiFile>)
    ensures FoldFiles(fs, files, banner).0 == files + Others(fs)
  {
    if fs == [] {
      assert files + [] == files;
    } else {
      var f, rest := fs[0], fs[1..];
      if IsBanner(f) {
        FoldFilesKeeps(rest, files, Some(f));
        calc {
          FoldFiles(fs, files, banner).0;
          FoldFiles(rest, files, Some(f)).0;
          files + Others(rest);
          { assert Others(fs) == [] + Others(rest) == Others(rest); }
          files + Others(fs);
        }
      } else {
        FoldFilesKeeps(rest, files + [f], banner);
        calc {
          FoldFiles(fs, files, banner).0;
          FoldFiles(rest, files + [f], banner).0;
          (files + [f]) + Others(rest);
          files + ([f] + Others(rest));
          files + Others(fs);
        }
      }
    }
  }

  /** The banner the fold ends with: the last one, or the one held before. */
  lemma {:induction false} FoldFilesBanner(fs: seq<DbiFile>, files: seq<DbiFile>, banner: Option<DbiFile>)
    ensures FoldFiles(fs, files, banner).1 == LastBanner(fs, banner)
  {
    if fs != [] {
      var rest := fs[1..];
      assert fs == [fs[0]] + rest;
      LastBannerFront(fs[0], rest, banner);
      if IsBanner(fs[0]) {
        FoldFilesBanner(rest, files, Some(fs[0]));
      } else {
        FoldFilesBanner(rest, files + [fs[0]], banner);
      }
    }
  }

  /** The links made into files and the kept ones, in document order. */
  function Candidates(tags: seq<ATag>, parseSize: string -> Option<nat>): (r: seq<DbiFile>)
    ensures |r| <= |tags|
  {
    Seqs.Filter(seq(|tags|, i requires 0 <= i < |tags| => FromATag(tags[i], parseSize)), Kept)
  }

  /**
   * `DbiImporter::parse_html`: the banner and the other files among the
   * kept links.  A page without a body element is an error.
   */
  function ParseHtml(page: Page, parseSize: string -> Option<nat>): (r: Result<(Option<DbiFile>, seq<DbiFile>), string>)
    ensures page.body.None? <==> r == Err("Could not find body element in HTML document")
    ensures r.Ok? ==> var kept := Candidates(page.body.value, parseSize);
                      r.value.1 == Others(kept) && r.value.0 == LastBanner(kept, None)
  {
    match page.body
    case None => Err("Could not find body element in HTML document")
    case Some(tags) =>
      var kept := Candidates(tags, parseSize);
      FoldFilesKeeps(kept, [], None);
      FoldFilesBanner(kept, [], None);
      assert [] + Others(kept) == Others(kept);
      var (files, banner) := FoldFiles(kept, [], None);
      Ok((banner, files))
  }

  /** No listed file is the banner, empty-named or url-less, and the banner is a kept folder.jpg. */
  lemma ParsedFiles(page: Page, parseSize: string -> Option<nat>)
    requires ParseHtml(page, parseSize).Ok?
    ensures var (banner, files) := ParseHtml(page, parseSize).value;
            (forall i :: 0 <= i < |files| ==> Kept(files[i]) && !IsBanner(files[i])) &&
            (banner.Some? ==> Kept(banner.value) && IsBanner(banner.value))
  {
    var kept := Candidates(page.body.value, parseSize);
    var files := ParseHtml(page, parseSize).value.1;
    OthersSpec(kept);
    forall i | 0 <= i < |files|
      ensures Kept(files[i]) && !IsBanner(files[i])
    {
      assert files[i] in kept;
    }
  }

  /** `From<DbiFile> for TinfoilFileEntry`: the url with the name as fragment, size 0. */
  function ToTinfoil(f: DbiFile): (e: TinfoilFileEntry)
    ensures e.size == 0
    ensures e.url == f.url + "#" + f.name
  {
    TinfoilFileEntry(f.url + "#" + f.name, 0)
  }

  /** When the url has no fragment of its own, the entry's url splits back into the url and the name at the first '#'. */
  lemma ToTinfoilSplits(f: DbiFile)
    requires '#' !in f.url
    ensures SplitOnce(ToTinfoil(f).url, '#') == Some((f.url, f.name))
  {
    var u := ToTinfoil(f).url;
    assert u == f.url + ['#'] + f.name;
    assert u[|f.url|] == '#' && u[..|f.url|] == f.url;
    IndexOfAppend(f.url, ['#'] + f.name, '#');
    assert u[|f.url| + 1..] == f.name;
  }
}
