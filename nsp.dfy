/**
 * The NSP (PFS0) container reader of src/nsp.rs, over the bytes of the file.
 *
 * A PFS0 image is a 16-byte header (the magic "PFS0", the number of files, the
 * size of the string table and a reserved word, all little-endian), then one
 * 24-byte entry per file (data offset and size as u64, the offset of the name
 * in the string table and a reserved word as u32), then the string table of
 * NUL-terminated UTF-8 names.
 */
module Nsp {
  import opened Wrappers
  import opened Strings
  import Utf8

  type Byte = Utf8.Byte

  /** "PFS0" in ASCII. */
  const MAGIC: seq<Byte> := [0x50, 0x46, 0x53, 0x30]
  const HEADER_SIZE: nat := 16
  const ENTRY_SIZE: nat := 24

  function Pow256(k: nat): (r: nat)
    ensures r >= 1
  {
    if k == 0 then 1 else 256 * Pow256(k - 1)
  }

  /** The unsigned little-endian number the bytes spell. */
  function Le(bs: seq<Byte>): (n: nat)
    ensures n < Pow256(|bs|)
  {
    if bs == [] then 0
    else
      var rest := Le(bs[1..]);
      assert 256 * rest <= 256 * (Pow256(|bs| - 1) - 1);
      bs[0] + 256 * rest
  }

  /** `n` written little-endian in `k` bytes, as `binrw` writes it. */
  function LeBytes(n: nat, k: nat): (bs: seq<Byte>)
    ensures |bs| == k
  {
    if k == 0 then [] else [n % 256] + LeBytes(n / 256, k - 1)
  }

  /** Reading back a number written little-endian in enough bytes gives the number. */
  lemma {:induction false} LeRoundTrip(n: nat, k: nat)
    requires n < Pow256(k)
    ensures Le(LeBytes(n, k)) == n
  {
    if k > 0 {
      assert n / 256 < Pow256(k - 1);
      LeRoundTrip(n / 256, k - 1);
      assert LeBytes(n, k)[1..] == LeBytes(n / 256, k - 1);
    }
  }

  datatype PFS0Header = PFS0Header(magic: seq<Byte>, numFiles: nat, stringTableSize: nat, reserved: nat)
  datatype PFS0Entry = PFS0Entry(dataOffset: nat, dataSize: nat, stringTableOffset: nat, reserved: nat)
  /** `NspFile`: a named file inside the container, at a byte offset, of a byte size. */
  datatype NspFile = NspFile(name: string, offset: nat, size: nat)
  datatype NspData = NspData(header: PFS0Header, files: seq<NspFile>)

  /**
   * Why `read_file` fails: the file ends early (`binrw` and `read_exact`), the
   * magic is wrong ("Invalid NSP file format"), a name is not UTF-8, or a name
   * offset lies past the string table.
   */
  datatype ReadError = UnexpectedEof | InvalidFormat | InvalidUtf8 | NameOutOfTable

  /** The header in the first 16 bytes. */
  function HeaderOf(bs: seq<Byte>): (h: PFS0Header)
    requires |bs| >= HEADER_SIZE
    ensures h.magic == bs[..4]
    ensures h.numFiles < Pow256(4) && h.stringTableSize < Pow256(4)
  {
    PFS0Header(bs[..4], Le(bs[4..8]), Le(bs[8..12]), Le(bs[12..16]))
  }

  /** Where entry `k` starts. */
  function EntryOffset(k: nat): nat
  {
    HEADER_SIZE + ENTRY_SIZE * k
  }

  /** The entry stored at byte `at`. */
  function EntryAt(bs: seq<Byte>, at: nat): PFS0Entry
    requires at + ENTRY_SIZE <= |bs|
  {
    PFS0Entry(Le(bs[at..at + 8]), Le(bs[at + 8..at + 16]), Le(bs[at + 16..at + 20]), Le(bs[at + 20..at + 24]))
  }

  /** Where the string table starts and ends. */
  function TableStart(h: PFS0Header): nat
  {
    EntryOffset(h.numFiles)
  }

  function ImageEnd(h: PFS0Header): nat
  {
    TableStart(h) + h.stringTableSize
  }

  /** The file has the magic and holds the header, every entry and the whole string table. */
  predicate Readable(bs: seq<Byte>)
  {
    |bs| >= HEADER_SIZE && bs[..4] == MAGIC && ImageEnd(HeaderOf(bs)) <= |bs|
  }

  function TableOf(bs: seq<Byte>): seq<Byte>
    requires Readable(bs)
  {
    bs[TableStart(HeaderOf(bs))..ImageEnd(HeaderOf(bs))]
  }

  /** Where the name starting at `start` ends: the first NUL from there, or the end of the table. */
  function NameEnd(table: seq<Byte>, start: nat): (e: nat)
    requires start <= |table|
    ensures start <= e <= |table|
    ensures forall j :: start <= j < e ==> table[j] != 0
    ensures e < |table| ==> table[e] == 0
    decreases |table| - start
  {
    if start == |table| || table[start] == 0 then start else NameEnd(table, start + 1)
  }

  /**
   * The name at `start` as the source reads it: `string_table[name_start..]`
   * panics when the offset lies past the table, before any NUL is looked for.
   */
  function NameAsWritten(table: seq<Byte>, start: nat): (r: Outcome<Result<string, ReadError>>)
    ensures r.Panics? <==> start > |table|
    ensures r.Returns? ==> (r.value.Ok? <==> Utf8.Decode(table[start..NameEnd(table, start)]).Some?)
  {
    if start > |table| then Panics
    else match Utf8.Decode(table[start..NameEnd(table, start)])
      case Some(s) => Returns(Ok(s))
      case None => Returns(Err(InvalidUtf8))
  }

  /** The name at `start`, with an offset past the table reported as an error instead of a panic. */
  function EntryName(table: seq<Byte>, start: nat): (r: Result<string, ReadError>)
    ensures r == Err(NameOutOfTable) <==> start > |table|
    ensures start <= |table| ==> NameAsWritten(table, start) == Returns(r)
  {
    if start > |table| then Err(NameOutOfTable) else NameAsWritten(table, start).value
  }

  /** A NUL-free name written in UTF-8 and terminated by NUL is read back exactly. */
  lemma NameRoundTrip(name: string, rest: seq<Byte>)
    requires 0 as char !in name
    ensures EntryName(Utf8.Encode(name) + [0] + rest, 0) == Ok(name)
  {
    var enc := Utf8.Encode(name);
    var table := enc + [0] + rest;
    forall i | 0 <= i < |enc|
      ensures table[i] != 0
    {
      if enc[i] == 0 {
        Utf8.EncodeNoAsciiInside(name, i, 0);
      }
    }
    var e := NameEnd(table, 0);
    assert table[|enc|] == 0;
    assert e == |enc|;
    assert table[0..e] == enc;
    Utf8.DecodeEncode(name);
  }

  /** A header for one file with an empty string table, and an entry naming offset 1 of it. */
  function ShortTableImage(): seq<Byte>
  {
    MAGIC + LeBytes(1, 4) + LeBytes(0, 4) + LeBytes(0, 4) + LeBytes(0, 8) + LeBytes(0, 8) + LeBytes(1, 4) + LeBytes(0, 4)
  }

  /** The fields of that image: one file, an empty table, the entry naming offset 1. */
  lemma ShortTableFields()
    ensures var bs := ShortTableImage();
            |bs| == 40 && bs[..4] == MAGIC &&
            Le(bs[4..8]) == 1 && Le(bs[8..12]) == 0 && Le(bs[32..36]) == 1
  {
    var bs := ShortTableImage();
    LeRoundTrip(1, 4);
    LeRoundTrip(0, 4);
    var p2 := MAGIC + LeBytes(1, 4);
    var p3 := p2 + LeBytes(0, 4);
    var p4 := p3 + LeBytes(0, 4);
    var p5 := p4 + LeBytes(0, 8);
    var p6 := p5 + LeBytes(0, 8);
    var p7 := p6 + LeBytes(1, 4);
    assert bs == p7 + LeBytes(0, 4);
    SliceOf(MAGIC, LeBytes(1, 4), []);
    SliceOf(p2, LeBytes(0, 4), []);
    SliceOf(p6, LeBytes(1, 4), []);
    SlicePrefix(p3, LeBytes(0, 4), 4, 8);
    SlicePrefix(p4, LeBytes(0, 8), 4, 8);
    SlicePrefix(p5, LeBytes(0, 8), 4, 8);
    SlicePrefix(p6, LeBytes(1, 4), 4, 8);
    SlicePrefix(p7, LeBytes(0, 4), 4, 8);
    SlicePrefix(p2, LeBytes(0, 4), 4, 8);
    SlicePrefix(p3, LeBytes(0, 4), 8, 12);
    SlicePrefix(p4, LeBytes(0, 8), 8, 12);
    SlicePrefix(p5, LeBytes(0, 8), 8, 12);
    SlicePrefix(p6, LeBytes(1, 4), 8, 12);
    SlicePrefix(p7, LeBytes(0, 4), 8, 12);
    SlicePrefix(p7, LeBytes(0, 4), 32, 36);
    SlicePrefix(p2, LeBytes(0, 4), 0, 4);
    SlicePrefix(p3, LeBytes(0, 4), 0, 4);
    SlicePrefix(p4, LeBytes(0, 8), 0, 4);
    SlicePrefix(p5, LeBytes(0, 8), 0, 4);
    SlicePrefix(p6, LeBytes(1, 4), 0, 4);
    SlicePrefix(p7, LeBytes(0, 4), 0, 4);
    SliceOf([], MAGIC, LeBytes(1, 4));
  }

  /** A slice that ends inside the first part of a concatenation is a slice of that part. */
  lemma SlicePrefix(a: seq<Byte>, b: seq<Byte>, i: nat, j: nat)
    requires i <= j <= |a|
    ensures (a + b)[i..j] == a[i..j]
  {
  }

  /** The middle part of a concatenation, sliced back out. */
  lemma SliceOf(p: seq<Byte>, x: seq<Byte>, q: seq<Byte>)
    ensures (p + x + q)[|p|..|p| + |x|] == x
  {
  }

  /**
   * An image whose magic, header and sizes are all in order still makes the
   * source panic: its one entry names offset 1 of an empty string table.
   */
  lemma ShortTablePanics()
    ensures var bs := ShortTableImage();
            Readable(bs) && HeaderOf(bs).numFiles == 1 && |TableOf(bs)| == 0 &&
            NameAsWritten(TableOf(bs), EntryAt(bs, EntryOffset(0)).stringTableOffset) == Panics
  {
    ShortTableFields();
  }

  /** The name of entry `k` of a readable file. */
  function NameOf(bs: seq<Byte>, k: nat): Result<string, ReadError>
    requires Readable(bs) && k < HeaderOf(bs).numFiles
  {
    EntryName(TableOf(bs), EntryAt(bs, EntryOffset(k)).stringTableOffset)
  }

  /** Entry `k`'s name is the first of a readable file's names that does not read. */
  predicate FirstBadName(bs: seq<Byte>, k: nat)
    requires Readable(bs)
  {
    k < HeaderOf(bs).numFiles && NameOf(bs, k).Err? && forall j :: 0 <= j < k ==> NameOf(bs, j).Ok?
  }

  /** A readable file every one of whose names reads. */
  predicate AllNamesRead(bs: seq<Byte>)
  {
    Readable(bs) && forall k :: 0 <= k < HeaderOf(bs).numFiles ==> NameOf(bs, k).Ok?
  }

  /** File `k` of a readable file whose name reads. */
  function FileAt(bs: seq<Byte>, k: nat): NspFile
    requires Readable(bs) && k < HeaderOf(bs).numFiles && NameOf(bs, k).Ok?
  {
    var e := EntryAt(bs, EntryOffset(k));
    NspFile(NameOf(bs, k).value, e.dataOffset, e.dataSize)
  }

  /** The entry loop of `read_file`: `num_files` entries after the header, or the end of the file first. */
  method ReadEntries(bs: seq<Byte>, n: nat) returns (r: Option<seq<PFS0Entry>>)
    requires |bs| >= HEADER_SIZE
    ensures r.None? <==> EntryOffset(n) > |bs|
    ensures r.Some? ==> |r.value| == n && EntryOffset(n) <= |bs| &&
                        forall k :: 0 <= k < n ==> r.value[k] == EntryAt(bs, EntryOffset(k))
  {
    var entries: seq<PFS0Entry> := [];
    var i := 0;
    while i < n
      invariant 0 <= i <= n && |entries| == i && EntryOffset(i) <= |bs|
      invariant forall k :: 0 <= k < i ==> entries[k] == EntryAt(bs, EntryOffset(k))
    {
      if |bs| < EntryOffset(i) + ENTRY_SIZE {
        return None;
      }
      entries := entries + [EntryAt(bs, EntryOffset(i))];
      i := i + 1;
    }
    return Some(entries);
  }

  /** One more named file keeps the files read so far in step with the entries. */
  lemma NamesStep(bs: seq<Byte>, files: seq<NspFile>, j: nat)
    requires Readable(bs) && j < HeaderOf(bs).numFiles && NameOf(bs, j).Ok? && |files| == j
    requires forall k :: 0 <= k < j ==> NameOf(bs, k).Ok? && files[k] == FileAt(bs, k)
    ensures forall k :: 0 <= k < j + 1 ==> NameOf(bs, k).Ok? && (files + [FileAt(bs, j)])[k] == FileAt(bs, k)
  {
  }

  /** The naming loop of `read_file`: each entry becomes a file named from the string table, in entry order. */
  method ReadNames(bs: seq<Byte>, entries: seq<PFS0Entry>) returns (r: Result<seq<NspFile>, ReadError>)
    requires Readable(bs) && |entries| == HeaderOf(bs).numFiles
    requires forall k :: 0 <= k < |entries| ==> entries[k] == EntryAt(bs, EntryOffset(k))
    ensures r.Ok? <==> forall k :: 0 <= k < |entries| ==> NameOf(bs, k).Ok?
    ensures r.Err? ==> exists k :: FirstBadName(bs, k) && NameOf(bs, k) == Err(r.error)
    ensures r.Ok? ==> |r.value| == |entries| && forall k :: 0 <= k < |entries| ==> r.value[k] == FileAt(bs, k)
  {
    var table := TableOf(bs);
    var files: seq<NspFile> := [];
    var j := 0;
    while j < |entries|
      invariant 0 <= j <= |entries| && |files| == j
      invariant forall k :: 0 <= k < j ==> NameOf(bs, k).Ok? && files[k] == FileAt(bs, k)
    {
      var name := EntryName(table, entries[j].stringTableOffset);
      assert name == NameOf(bs, j);
      if name.Err? {
        assert FirstBadName(bs, j);
        return Err(name.error);
      }
      var file := NspFile(name.value, entries[j].dataOffset, entries[j].dataSize);
      assert file == FileAt(bs, j);
      NamesStep(bs, files, j);
      files := files + [file];
      j := j + 1;
    }
    return Ok(files);
  }

  /**
   * `NspData::read_file`: the header, then exactly `num_files` entries, then
   * the string table; each file takes its entry's offset and size and the
   * name its entry points at, in entry order.  The first failure wins.
   */
  method ReadFile(bs: seq<Byte>) returns (r: Result<NspData, ReadError>)
    ensures |bs| < HEADER_SIZE ==> r == Err(UnexpectedEof)
    ensures |bs| >= HEADER_SIZE && bs[..4] != MAGIC ==> r == Err(InvalidFormat)
    ensures |bs| >= HEADER_SIZE && bs[..4] == MAGIC && !Readable(bs) ==> r == Err(UnexpectedEof)
    ensures Readable(bs) ==> (r.Ok? <==> forall k :: 0 <= k < HeaderOf(bs).numFiles ==> NameOf(bs, k).Ok?)
    ensures Readable(bs) && r.Err? ==> exists k :: FirstBadName(bs, k) && NameOf(bs, k) == Err(r.error)
    ensures r.Ok? ==> Readable(bs) && r.value.header == HeaderOf(bs) && |r.value.files| == HeaderOf(bs).numFiles
    ensures r.Ok? ==> forall k :: 0 <= k < |r.value.files| ==> NameOf(bs, k).Ok? && r.value.files[k] == FileAt(bs, k)
  {
    if |bs| < HEADER_SIZE {
      return Err(UnexpectedEof);
    }
    var header := HeaderOf(bs);
    if header.magic != MAGIC {
      return Err(InvalidFormat);
    }
    var entries := ReadEntries(bs, header.numFiles);
    if entries.None? || |bs| < ImageEnd(header) {
      return Err(UnexpectedEof);
    }
    var files := ReadNames(bs, entries.value);
    match files {
      case Err(e) => return Err(e);
      case Ok(fs) => return Ok(NspData(header, fs));
    }
  }

  /** The files of a readable file whose names all read. */
  function FilesOf(bs: seq<Byte>): (files: seq<NspFile>)
    requires AllNamesRead(bs)
    ensures |files| == HeaderOf(bs).numFiles && forall k :: 0 <= k < |files| ==> files[k] == FileAt(bs, k)
  {
    seq(HeaderOf(bs).numFiles, k requires 0 <= k < HeaderOf(bs).numFiles => FileAt(bs, k))
  }

  /** A ticket file (`.tik`) names the title id in its first 16 characters. */
  predicate IsTicket(f: NspFile)
  {
    EndsWith(f.name, ".tik")
  }

  /** The position of the first ticket. */
  function FirstTicket(files: seq<NspFile>): (r: Option<nat>)
    ensures r.Some? ==> r.value < |files| && IsTicket(files[r.value]) && forall j :: 0 <= j < r.value ==> !IsTicket(files[j])
    ensures r.None? ==> forall j :: 0 <= j < |files| ==> !IsTicket(files[j])
  {
    if files == [] then None
    else if IsTicket(files[0]) then Some(0)
    else match FirstTicket(files[1..])
      case Some(k) => Some(k + 1)
      case None => None
  }

  /** No lower-case ASCII letter occurs. */
  predicate NoLower(s: string)
  {
    forall i :: 0 <= i < |s| ==> !('a' <= s[i] <= 'z')
  }

  /**
   * `get_title_id`: the first 16 bytes of the first ticket's name, upper-cased;
   * `None` without a ticket or when its name is shorter.  The byte slice
   * panics when byte 16 falls inside a character.
   */
  function GetTitleId(files: seq<NspFile>): (r: Outcome<Option<string>>)
    ensures FirstTicket(files).None? ==> r == Returns(None)
    ensures FirstTicket(files).Some? && Utf8Len(files[FirstTicket(files).value].name) < 16 ==> r == Returns(None)
    ensures r == Returns(None) ==> FirstTicket(files).None? || Utf8Len(files[FirstTicket(files).value].name) < 16
    ensures r.Returns? && r.value.Some? ==>
              NoLower(r.value.value) &&
              exists p :: StartsWith(files[FirstTicket(files).value].name, p) && Utf8Len(p) == 16 && r.value.value == ToUpper(p)
    ensures r.Panics? ==> FirstTicket(files).Some? && BytePrefix(files[FirstTicket(files).value].name, 16).None?
  {
    match FirstTicket(files)
    case None => Returns(None)
    case Some(t) =>
      var name := files[t].name;
      if Utf8Len(name) >= 16 then
        match BytePrefix(name, 16)
        case Some(p) => Returns(Some(ToUpper(p)))
        case None => Panics
      else Returns(None)
  }

  /** A string of ASCII characters is as many bytes long as it has characters. */
  lemma {:induction false} AsciiUtf8Len(s: string)
    requires forall i :: 0 <= i < |s| ==> s[i] as int < 0x80
    ensures Utf8Len(s) == |s|
  {
    if s != [] {
      AsciiUtf8Len(s[1..]);
    }
  }

  /** A ticket named by 16 ASCII characters and anything after gives those characters upper-cased. */
  lemma TicketTitleId(files: seq<NspFile>, id: string, rest: string)
    requires FirstTicket(files).Some? && files[FirstTicket(files).value].name == id + rest
    requires |id| == 16 && forall i :: 0 <= i < |id| ==> id[i] as int < 0x80
    ensures GetTitleId(files) == Returns(Some(ToUpper(id)))
  {
    AsciiUtf8Len(id);
    BytePrefixOfPrefix(id, rest);
    UtfLenAppend(id, rest);
  }

  /** Byte lengths add up. */
  lemma {:induction false} UtfLenAppend(a: string, b: string)
    ensures Utf8Len(a + b) == Utf8Len(a) + Utf8Len(b)
  {
    if a != [] {
      UtfLenAppend(a[1..], b);
      assert (a + b)[1..] == a[1..] + b;
    } else {
      assert a + b == b;
    }
  }

  /** Upper-casing a string with no lower-case letter changes nothing. */
  lemma UpperIdempotent(s: string)
    requires NoLower(s)
    ensures ToUpper(s) == s
  {
  }

  datatype TitleIdError = ReadFailed(ReadError) | NoTitleId

  /**
   * `get_title_id_from_nsp`: read the container, take the ticket's title id
   * ("No title ID found in NSP" without one) and upper-case it once more.
   */
  method GetTitleIdFromNsp(bs: seq<Byte>) returns (r: Outcome<Result<string, TitleIdError>>)
    ensures |bs| < HEADER_SIZE ==> r == Returns(Err(ReadFailed(UnexpectedEof)))
    ensures |bs| >= HEADER_SIZE && bs[..4] != MAGIC ==> r == Returns(Err(ReadFailed(InvalidFormat)))
    ensures |bs| >= HEADER_SIZE && bs[..4] == MAGIC && !Readable(bs) ==> r == Returns(Err(ReadFailed(UnexpectedEof)))
    ensures Readable(bs) && !AllNamesRead(bs) ==>
              exists k :: FirstBadName(bs, k) && r == Returns(Err(ReadFailed(NameOf(bs, k).error)))
    ensures AllNamesRead(bs) ==> (r.Panics? <==> GetTitleId(FilesOf(bs)).Panics?)
    ensures AllNamesRead(bs) && GetTitleId(FilesOf(bs)) == Returns(None) ==> r == Returns(Err(NoTitleId))
    ensures AllNamesRead(bs) && GetTitleId(FilesOf(bs)).Returns? && GetTitleId(FilesOf(bs)).value.Some? ==>
              r == Returns(Ok(GetTitleId(FilesOf(bs)).value.value))
    ensures r.Returns? && r.value.Ok? ==>
              AllNamesRead(bs) && GetTitleId(FilesOf(bs)) == Returns(Some(r.value.value)) && NoLower(r.value.value)
    ensures r == Returns(Err(NoTitleId)) ==> AllNamesRead(bs) && GetTitleId(FilesOf(bs)) == Returns(None)
  {
    var data := ReadFile(bs);
    if data.Err? {
      return Returns(Err(ReadFailed(data.error)));
    }
    assert data.value.files == FilesOf(bs);
    match GetTitleId(data.value.files) {
      case Panics =>
        return Panics;
      case Returns(None) =>
        return Returns(Err(NoTitleId));
      case Returns(Some(id)) =>
        UpperIdempotent(id);
        return Returns(Ok(ToUpper(id)));
    }
  }

  /** The first file with exactly this name. */
  function FindByName(files: seq<NspFile>, name: string): (r: Option<NspFile>)
    ensures r.Some? ==> r.value in files && r.value.name == name
    ensures r.Some? ==> exists i :: 0 <= i < |files| && files[i] == r.value &&
                                    forall j :: 0 <= j < i ==> files[j].name != name
    ensures r.None? <==> forall j :: 0 <= j < |files| ==> files[j].name != name
  {
    if files == [] then None
    else if files[0].name == name then Some(files[0])
    else
      var r := FindByName(files[1..], name);
      if r.Some? then
        var i :| 0 <= i < |files[1..]| && files[1..][i] == r.value &&
                 forall j :: 0 <= j < i ==> files[1..][j].name != name;
        assert files[i + 1] == r.value && forall j :: 0 <= j < i + 1 ==> files[j].name != name;
        r
      else r
  }

  /**
   * `read_file_data`: the bytes of the named file, read from its offset in
   * the container (`nsp` is `None` when the container cannot be opened);
   * `None` for an unknown name or when the container ends before the file
   * does.  A file of size 0 reads as empty wherever its offset lies: the seek
   * may pass the end and filling an empty buffer reads nothing.
   */
  function ReadFileData(files: seq<NspFile>, nsp: Option<seq<Byte>>, inner: string): (r: Option<seq<Byte>>)
    ensures FindByName(files, inner).None? || nsp.None? ==> r.None?
    ensures r.Some? ==> var f := FindByName(files, inner).value;
                        |r.value| == f.size &&
                        (f.size > 0 ==> f.offset + f.size <= |nsp.value| && r.value == nsp.value[f.offset..f.offset + f.size])
    ensures FindByName(files, inner).Some? && nsp.Some? ==>
              var f := FindByName(files, inner).value;
              (r.None? <==> f.size > 0 && f.offset + f.size > |nsp.value|)
  {
    match FindByName(files, inner)
    case None => None
    case Some(f) =>
      match nsp
      case None => None
      case Some(bytes) =>
        if f.size == 0 then Some([])
        else if f.offset + f.size <= |bytes| then Some(bytes[f.offset..f.offset + f.size])
        else None
  }

  /** An empty file reads as empty even when its offset lies past the end of the container. */
  lemma EmptyFilePastEnd(bs: seq<Byte>, name: string, offset: nat)
    requires offset > |bs|
    ensures ReadFileData([NspFile(name, offset, 0)], Some(bs), name) == Some([])
  {
    assert FindByName([NspFile(name, offset, 0)], name) == Some(NspFile(name, offset, 0));
  }
}
