/**
 * The subset of Rust's `str` API the repository relies on, over `seq<char>`
 * (every `char` is a Unicode scalar value, as in Rust).  Indices are character
 * positions; where the Rust code compares or slices by BYTE length, the byte
 * length is computed explicitly by `Utf8Len` and `BytePrefix`.
 */
module Strings {
  import opened Wrappers

  predicate StartsWith(s: string, p: string)
  {
    |p| <= |s| && s[..|p|] == p
  }

  predicate EndsWith(s: string, p: string)
  {
    |p| <= |s| && s[|s| - |p|..] == p
  }

  /** `str::find` from position `i`: the first position at or after `i` where `p` occurs. */
  function FindFrom(s: string, p: string, i: nat): (r: Option<nat>)
    requires i <= |s|
    ensures r.Some? ==> i <= r.value && r.value + |p| <= |s| && StartsWith(s[r.value..], p)
    ensures r.Some? ==> forall j :: i <= j < r.value ==> !StartsWith(s[j..], p)
    ensures r.None? ==> forall j :: i <= j <= |s| ==> !StartsWith(s[j..], p)
    decreases |s| - i
  {
    if StartsWith(s[i..], p) then Some(i)
    else if i == |s| then None
    else FindFrom(s, p, i + 1)
  }

  /** `str::find`: the first position where `p` occurs. */
  function Find(s: string, p: string): Option<nat>
  {
    FindFrom(s, p, 0)
  }

  /** A match cannot start inside a prefix that lacks the pattern's first character. */
  lemma {:induction false} FindSkip(pre: string, rest: string, p: string)
    requires p != [] && p[0] !in pre
    ensures Find(pre + rest, p) == (match Find(rest, p) case Some(i) => Some(i + |pre|) case None => None)
  {
    FindFromSkip(pre, rest, p, 0);
  }

  lemma {:induction false} FindFromSkip(pre: string, rest: string, p: string, i: nat)
    requires p != [] && p[0] !in pre && i <= |pre|
    ensures FindFrom(pre + rest, p, i) == (match Find(rest, p) case Some(k) => Some(k + |pre|) case None => None)
    decreases |pre| - i
  {
    var s := pre + rest;
    if i < |pre| {
      assert s[i..][0] == pre[i];
      assert !StartsWith(s[i..], p);
      FindFromSkip(pre, rest, p, i + 1);
    } else {
      ShiftFind(pre, rest, p, 0);
    }
  }

  lemma {:induction false} ShiftFind(pre: string, rest: string, p: string, i: nat)
    requires i <= |rest|
    ensures FindFrom(pre + rest, p, |pre| + i) == (match FindFrom(rest, p, i) case Some(k) => Some(k + |pre|) case None => None)
    decreases |rest| - i
  {
    assert (pre + rest)[|pre| + i..] == rest[i..];
    if !StartsWith(rest[i..], p) && i < |rest| {
      ShiftFind(pre, rest, p, i + 1);
    }
  }

  /** The three parts of a concatenation, sliced back out. */
  lemma Parts3(a: string, b: string, c: string)
    ensures (a + b + c)[..|a|] == a
    ensures (a + b + c)[|a|..|a| + |b|] == b
    ensures (a + b + c)[|a| + |b|..] == c
  {
  }

  /** A string that starts with the pattern finds it at position 0. */
  lemma FindAtStart(s: string, p: string)
    requires StartsWith(s, p)
    ensures Find(s, p) == Some(0)
  {
    assert s[0..] == s;
  }

  /** `str::contains` with a string pattern. */
  predicate Contains(s: string, p: string)
  {
    Find(s, p).Some?
  }

  /** Position of the first `c`, for a string known to contain it. */
  function IndexOf(s: string, c: char): (r: nat)
    requires c in s
    ensures r < |s| && s[r] == c && c !in s[..r]
  {
    if s[0] == c then 0 else IndexOf(s[1..], c) + 1
  }

  /** The first `c` of `a + b` is the first of `a` when `a` has one, otherwise it lies in `b`. */
  lemma {:induction false} IndexOfAppend(a: string, b: string, c: char)
    requires c in a + b
    ensures c in a ==> IndexOf(a + b, c) == IndexOf(a, c)
    ensures c !in a ==> c in b && IndexOf(a + b, c) == |a| + IndexOf(b, c)
    decreases |a|
  {
    if a == [] {
      assert a + b == b;
    } else {
      assert (a + b)[0] == a[0];
      if a[0] != c {
        assert (a + b)[1..] == a[1..] + b;
        IndexOfAppend(a[1..], b, c);
      }
    }
  }

  /** Number of occurrences of `c` in `s`. */
  function Count(s: string, c: char): nat
  {
    if s == [] then 0 else (if s[0] == c then 1 else 0) + Count(s[1..], c)
  }

  /** The Unicode `White_Space` property, which `char::is_whitespace` and `str::trim` use. */
  predicate IsWhitespace(c: char)
  {
    var n := c as int;
    (0x09 <= n <= 0x0D) || n == 0x20 || n == 0x85 || n == 0xA0 || n == 0x1680
    || (0x2000 <= n <= 0x200A) || n == 0x2028 || n == 0x2029 || n == 0x202F
    || n == 0x205F || n == 0x3000
  }

  /** `str::trim_start`: the longest suffix that does not start with white space. */
  function TrimStart(s: string): (r: string)
    ensures |r| <= |s| && r == s[|s| - |r|..]
    ensures forall j :: 0 <= j < |s| - |r| ==> IsWhitespace(s[j])
    ensures r != [] ==> !IsWhitespace(r[0])
  {
    if s != [] && IsWhitespace(s[0]) then TrimStart(s[1..]) else s
  }

  /** `str::trim_end`: the longest prefix that does not end with white space. */
  function TrimEnd(s: string): (r: string)
    ensures |r| <= |s| && r == s[..|r|]
    ensures forall j :: |r| <= j < |s| ==> IsWhitespace(s[j])
    ensures r != [] ==> !IsWhitespace(r[|r| - 1])
  {
    if s != [] && IsWhitespace(s[|s| - 1]) then TrimEnd(s[..|s| - 1]) else s
  }

  /** `str::trim`: white space removed at both ends. */
  function Trim(s: string): string
  {
    TrimEnd(TrimStart(s))
  }

  /** `k` copies of `p` one after another. */
  function Repeat(p: string, k: nat): (r: string)
  {
    if k == 0 then [] else Repeat(p, k - 1) + p
  }

  /**
   * `str::trim_end_matches` with a string pattern: every trailing copy of `p`
   * is removed; an empty pattern leaves the string as it is.
   */
  function TrimEndMatches(s: string, p: string): (r: string)
    ensures StartsWith(s, r)
    ensures p != [] ==> !EndsWith(r, p)
    decreases |s|
  {
    if p != [] && EndsWith(s, p) then TrimEndMatches(s[..|s| - |p|], p) else s
  }

  /** `str::trim_start_matches` with a string pattern: every leading copy of `p` is removed. */
  function TrimStartMatches(s: string, p: string): (r: string)
    ensures |r| <= |s| && r == s[|s| - |r|..]
    ensures p != [] ==> !StartsWith(r, p)
    decreases |s|
  {
    if p != [] && StartsWith(s, p) then TrimStartMatches(s[|p|..], p) else s
  }

  /** `str::strip_prefix`: the rest after one copy of `p`, if `s` starts with it. */
  function StripPrefix(s: string, p: string): (r: Option<string>)
    ensures r.Some? <==> StartsWith(s, p)
    ensures r.Some? ==> s == p + r.value
  {
    if StartsWith(s, p) then Some(s[|p|..]) else None
  }

  /** `str::replace`: non-overlapping occurrences of `from`, leftmost first, replaced by `to`. */
  function ReplaceAll(s: string, from: string, to: string): string
    requires from != []
    decreases |s|
  {
    if StartsWith(s, from) then to + ReplaceAll(s[|from|..], from, to)
    else if s == [] then []
    else [s[0]] + ReplaceAll(s[1..], from, to)
  }

  /** `str::replace` with a set of characters as pattern: each of them becomes `to`. */
  function ReplaceChars(s: string, chars: set<char>, to: string): string
  {
    if s == [] then []
    else (if s[0] in chars then to else [s[0]]) + ReplaceChars(s[1..], chars, to)
  }

  /** Keeps the characters that are not white space (`chars().filter(|c| !c.is_whitespace())`). */
  function RemoveWhitespace(s: string): (r: string)
    ensures forall j :: 0 <= j < |r| ==> !IsWhitespace(r[j])
    ensures |r| <= |s|
  {
    if s == [] then []
    else if IsWhitespace(s[0]) then RemoveWhitespace(s[1..])
    else [s[0]] + RemoveWhitespace(s[1..])
  }

  /** Concatenation of `parts` with `sep` between neighbours (`join`). */
  function Join(parts: seq<string>, sep: char): string
    requires |parts| >= 1
  {
    if |parts| == 1 then parts[0] else parts[0] + [sep] + Join(parts[1..], sep)
  }

  /** `str::split` by a character, collected: never empty, and joining the pieces gives back `s`. */
  function Split(s: string, sep: char): (parts: seq<string>)
    ensures |parts| >= 1
    ensures forall i :: 0 <= i < |parts| ==> sep !in parts[i]
    ensures Join(parts, sep) == s
    decreases |s|
  {
    if sep in s then
      var i := IndexOf(s, sep);
      var rest := Split(s[i + 1..], sep);
      assert s == s[..i] + [sep] + s[i + 1..];
      [s[..i]] + rest
    else [s]
  }

  /** Splitting at a first separator: the text before it, then the pieces of the rest. */
  lemma SplitAt(a: string, b: string, c: char)
    requires c !in a
    ensures Split(a + [c] + b, c) == [a] + Split(b, c)
  {
    var s := a + [c] + b;
    IndexOfAppend(a, [c] + b, c);
    assert s == a + ([c] + b);
    assert s[..|a|] == a && s[|a| + 1..] == b;
  }

  /** Text without the separator is one piece. */
  lemma SplitNone(s: string, c: char)
    requires c !in s
    ensures Split(s, c) == [s]
  {
  }

  /** `split` ends with the text after the last separator. */
  lemma {:induction false} SplitLast(a: string, sep: char, b: string)
    requires sep !in b
    ensures Last(Split(a + [sep] + b, sep)) == b
    decreases |a|
  {
    if sep in a {
      var ia := IndexOf(a, sep);
      var a1, a2 := a[..ia], a[ia + 1..];
      assert a + [sep] + b == a1 + [sep] + (a2 + [sep] + b) by {
        assert a == a1 + [sep] + a2;
      }
      SplitLast(a2, sep, b);
      SplitLastStep(a1, a2 + [sep] + b, sep);
    } else {
      SplitAt(a, b, sep);
      SplitNone(b, sep);
    }
  }

  /** A first piece without the separator in front does not change the last piece. */
  lemma SplitLastStep(a: string, rest: string, sep: char)
    requires sep !in a
    ensures Last(Split(a + [sep] + rest, sep)) == Last(Split(rest, sep))
  {
    var parts := Split(a + [sep] + rest, sep);
    var tail := Split(rest, sep);
    SplitAt(a, rest, sep);
    assert parts == [a] + tail;
    LastOfCons(a, tail);
    assert |parts| == |tail| + 1;
  }

  /** The last element of a non-empty sequence. */
  function Last<T>(s: seq<T>): T
    requires |s| >= 1
  {
    s[|s| - 1]
  }

  /** A sequence of two elements is the display of those two. */
  lemma PairDisplay<T>(s: seq<T>, x: T, y: T)
    requires |s| == 2 && s[0] == x && s[1] == y
    ensures s == [x, y]
  {
  }

  /** Putting an element in front keeps the last element. */
  lemma LastOfCons<T>(x: T, t: seq<T>)
    requires |t| >= 1
    ensures Last([x] + t) == Last(t)
  {
  }

  /** Splitting around the only separator gives the two sides. */
  lemma SplitAroundOne(a: string, sep: char, b: string)
    requires sep !in a && sep !in b
    ensures Split(a + [sep] + b, sep) == [a, b]
  {
    SplitAt(a, b, sep);
    SplitNone(b, sep);
  }

  /** `splitn(2, c)` when it yields two pieces: the text before and after the first `c`. */
  function SplitOnce(s: string, c: char): (r: Option<(string, string)>)
    ensures r.Some? <==> c in s
    ensures r.Some? ==> s == r.value.0 + [c] + r.value.1 && c !in r.value.0
  {
    if c in s then
      var i := IndexOf(s, c);
      assert s == s[..i] + [c] + s[i + 1..];
      Some((s[..i], s[i + 1..]))
    else None
  }

  /** Number of bytes the UTF-8 encoding of `c` takes. */
  function CharUtf8Len(c: char): (n: nat)
    ensures 1 <= n <= 4
  {
    if c as int < 0x80 then 1
    else if c as int < 0x800 then 2
    else if c as int < 0x10000 then 3
    else 4
  }

  /** `str::len`: the length in bytes of the UTF-8 encoding. */
  function Utf8Len(s: string): (n: nat)
    ensures |s| <= n <= 4 * |s|
  {
    if s == [] then 0 else CharUtf8Len(s[0]) + Utf8Len(s[1..])
  }

  /**
   * The slice `s[..n]` with `n` a byte offset: `None` when Rust panics, that is
   * when `n` is past the end or inside the encoding of a character.
   */
  function BytePrefix(s: string, n: nat): (r: Option<string>)
    ensures r.Some? ==> StartsWith(s, r.value) && Utf8Len(r.value) == n
    decreases |s|
  {
    if n == 0 then Some([])
    else if s == [] || n < CharUtf8Len(s[0]) then None
    else match BytePrefix(s[1..], n - CharUtf8Len(s[0]))
      case Some(p) => Some([s[0]] + p)
      case None => None
  }

  /** ASCII upper-casing of a character. */
  function UpperChar(c: char): char
  {
    if 'a' <= c <= 'z' then (c as int - 32) as char else c
  }

  /** ASCII lower-casing of a character. */
  function LowerChar(c: char): char
  {
    if 'A' <= c <= 'Z' then (c as int + 32) as char else c
  }

  /** `to_uppercase`, for ASCII letters. */
  function ToUpper(s: string): (r: string)
    ensures |r| == |s| && forall j :: 0 <= j < |s| ==> r[j] == UpperChar(s[j])
  {
    if s == [] then [] else [UpperChar(s[0])] + ToUpper(s[1..])
  }

  /** `to_lowercase`, for ASCII letters. */
  function ToLower(s: string): (r: string)
    ensures |r| == |s| && forall j :: 0 <= j < |s| ==> r[j] == LowerChar(s[j])
  {
    if s == [] then [] else [LowerChar(s[0])] + ToLower(s[1..])
  }

  // ---------------------------------------------------------------------------
  // Properties of the operations above

  /** `str::split` yields one piece more than there are separators. */
  lemma {:induction false} SplitCount(s: string, sep: char)
    ensures |Split(s, sep)| == Count(s, sep) + 1
    decreases |s|
  {
    if sep in s {
      var i := IndexOf(s, sep);
      SplitCount(s[i + 1..], sep);
      CountAppend(s[..i], [sep] + s[i + 1..], sep);
      CountAppend([sep], s[i + 1..], sep);
      CountAbsent(s[..i], sep);
      assert s == s[..i] + ([sep] + s[i + 1..]);
    } else {
      CountAbsent(s, sep);
    }
  }

  lemma {:induction false} CountAppend(a: string, b: string, c: char)
    ensures Count(a + b, c) == Count(a, c) + Count(b, c)
    decreases |a|
  {
    if a != [] {
      assert (a + b)[1..] == a[1..] + b;
      CountAppend(a[1..], b, c);
    } else {
      assert a + b == b;
    }
  }

  lemma {:induction false} CountAbsent(s: string, c: char)
    requires c !in s
    ensures Count(s, c) == 0
    decreases |s|
  {
    if s != [] {
      assert s[1..] == s[1..];
      assert forall x :: x in s[1..] ==> x in s;
      CountAbsent(s[1..], c);
    }
  }

  /** Replacing a pattern by one of the same length keeps the length. */
  lemma {:induction false} ReplaceAllLength(s: string, from: string, to: string)
    requires from != [] && |from| == |to|
    ensures |ReplaceAll(s, from, to)| == |s|
    decreases |s|
  {
    if StartsWith(s, from) {
      ReplaceAllLength(s[|from|..], from, to);
    } else if s != [] {
      ReplaceAllLength(s[1..], from, to);
    }
  }

  /** A string in which `from` never occurs is returned unchanged by `str::replace`. */
  lemma {:induction false} ReplaceAllAbsent(s: string, from: string, to: string)
    requires from != [] && !Contains(s, from)
    ensures ReplaceAll(s, from, to) == s
    decreases |s|
  {
    if s != [] {
      assert !StartsWith(s[0..], from);
      assert s[0..] == s;
      forall j | 0 <= j <= |s[1..]|
        ensures !StartsWith(s[1..][j..], from)
      {
        assert s[1..][j..] == s[j + 1..];
      }
      ReplaceAllAbsent(s[1..], from, to);
    }
  }

  /** What `str::trim_end_matches` removes is a number of copies of the pattern. */
  lemma {:induction false} TrimEndMatchesRepeat(s: string, p: string) returns (k: nat)
    ensures s == TrimEndMatches(s, p) + Repeat(p, k)
    decreases |s|
  {
    if p != [] && EndsWith(s, p) {
      var k0 := TrimEndMatchesRepeat(s[..|s| - |p|], p);
      k := k0 + 1;
      assert s == s[..|s| - |p|] + p;
    } else {
      k := 0;
    }
  }

  /** Splitting off a byte prefix that exists is the same as cutting at its character length. */
  lemma {:induction false} BytePrefixOfPrefix(p: string, rest: string)
    ensures BytePrefix(p + rest, Utf8Len(p)) == Some(p)
    decreases |p|
  {
    if p != [] {
      assert (p + rest)[0] == p[0];
      assert (p + rest)[1..] == p[1..] + rest;
      BytePrefixOfPrefix(p[1..], rest);
      assert [p[0]] + p[1..] == p;
    } else {
      assert Utf8Len(p) == 0;
    }
  }

  /** Replacing characters by a single character works position by position. */
  lemma {:induction false} ReplaceCharsPointwise(s: string, chars: set<char>, c: char)
    ensures |ReplaceChars(s, chars, [c])| == |s|
    ensures forall j :: 0 <= j < |s| ==> ReplaceChars(s, chars, [c])[j] == if s[j] in chars then c else s[j]
    decreases |s|
  {
    if s != [] {
      ReplaceCharsPointwise(s[1..], chars, c);
      var tail := ReplaceChars(s[1..], chars, [c]);
      var r := ReplaceChars(s, chars, [c]);
      assert r == [if s[0] in chars then c else s[0]] + tail;
      forall j | 1 <= j < |s|
        ensures r[j] == if s[j] in chars then c else s[j]
      {
        assert r[j] == tail[j - 1] && s[1..][j - 1] == s[j];
      }
    }
  }
}
