/** Sequence helpers shared by the iterator chains (`filter`, `find`, `take(0)`) of the model. */
module Seqs {
  import opened Wrappers

  /** `iter().filter(p).collect()`: the elements satisfying `p`, in their original order. */
  function Filter<T>(s: seq<T>, p: T -> bool): (r: seq<T>)
    ensures |r| <= |s|
    ensures forall i :: 0 <= i < |r| ==> r[i] in s && p(r[i])
    ensures forall i :: 0 <= i < |s| && p(s[i]) ==> s[i] in r
    ensures r == [] <==> forall i :: 0 <= i < |s| ==> !p(s[i])
  {
    if s == [] then []
    else (if p(s[0]) then [s[0]] else []) + Filter(s[1..], p)
  }

  /** Filtering by two predicates that never hold together splits the count. */
  lemma {:induction false} FilterDisjointCount<T>(s: seq<T>, p: T -> bool, q: T -> bool, either: T -> bool)
    requires forall i :: 0 <= i < |s| ==> !(p(s[i]) && q(s[i])) && either(s[i]) == (p(s[i]) || q(s[i]))
    ensures |Filter(s, p)| + |Filter(s, q)| == |Filter(s, either)|
    decreases |s|
  {
    if s != [] {
      FilterDisjointCount(s[1..], p, q, either);
      FilterLength(s, p);
      FilterLength(s, q);
      FilterLength(s, either);
    }
  }

  /** The first element is kept if it satisfies `p`, in front of what the rest keeps. */
  lemma FilterCons<T>(s: seq<T>, p: T -> bool)
    requires s != []
    ensures Filter(s, p) == (if p(s[0]) then [s[0]] else []) + Filter(s[1..], p)
  {
  }

  /** The first element counts once if it satisfies `p`; the rest count as before. */
  lemma FilterLength<T>(s: seq<T>, p: T -> bool)
    requires s != []
    ensures |Filter(s, p)| == (if p(s[0]) then 1 else 0) + |Filter(s[1..], p)|
  {
    FilterCons(s, p);
  }

  /** Filtering with a predicate that holds everywhere keeps everything. */
  lemma {:induction false} FilterAll<T>(s: seq<T>, p: T -> bool)
    requires forall x :: x in s ==> p(x)
    ensures Filter(s, p) == s
    decreases |s|
  {
    if s != [] {
      assert forall x :: x in s[1..] ==> x in s;
      FilterAll(s[1..], p);
      FilterCons(s, p);
      assert [s[0]] + s[1..] == s;
    }
  }

  /** `iter().position(p)` / `find`: the first index whose element satisfies `p`. */
  function FirstIndex<T>(s: seq<T>, p: T -> bool): (r: Option<nat>)
    ensures r.Some? ==> r.value < |s| && p(s[r.value]) && forall j :: 0 <= j < r.value ==> !p(s[j])
    ensures r.None? ==> forall j :: 0 <= j < |s| ==> !p(s[j])
  {
    if s == [] then None
    else if p(s[0]) then Some(0)
    else match FirstIndex(s[1..], p)
      case Some(i) => Some(i + 1)
      case None => None
  }

  /** `iter().find(p)`: the first element satisfying `p`. */
  function Find<T>(s: seq<T>, p: T -> bool): (r: Option<T>)
    ensures r.Some? ==> r.value in s && p(r.value)
    ensures r.None? ==> forall i :: 0 <= i < |s| ==> !p(s[i])
  {
    match FirstIndex(s, p)
    case Some(i) => Some(s[i])
    case None => None
  }

  /** `Vec::remove(i)`. */
  function RemoveAt<T>(s: seq<T>, i: nat): (r: seq<T>)
    requires i < |s|
    ensures |r| == |s| - 1
    ensures forall j :: 0 <= j < i ==> r[j] == s[j]
    ensures forall j :: i <= j < |r| ==> r[j] == s[j + 1]
  {
    s[..i] + s[i + 1..]
  }

  /** `s[i]` is the one element of `s` satisfying `p`. */
  predicate OnlyMatch<T>(s: seq<T>, p: T -> bool, i: int)
  {
    0 <= i < |s| && p(s[i]) && forall j :: 0 <= j < |s| && j != i ==> !p(s[j])
  }

  /** Two distinct elements of `s`, at `i` before `j`, satisfy `p`. */
  predicate TwoMatches<T>(s: seq<T>, p: T -> bool, i: int, j: int)
  {
    0 <= i < j < |s| && p(s[i]) && p(s[j])
  }

  /** When one element alone satisfies `p`, filtering keeps just that element. */
  lemma {:induction false} FilterSingle<T>(s: seq<T>, p: T -> bool, i: nat)
    requires OnlyMatch(s, p, i)
    ensures Filter(s, p) == [s[i]]
    decreases |s|
  {
    FilterCons(s, p);
    if i == 0 {
      forall j | 0 <= j < |s[1..]|
        ensures !p(s[1..][j])
      {
        assert s[1..][j] == s[j + 1];
      }
    } else {
      forall j | 0 <= j < |s[1..]| && j != i - 1
        ensures !p(s[1..][j])
      {
        assert s[1..][j] == s[j + 1];
      }
      FilterSingle(s[1..], p, i - 1);
    }
  }

  /** Two elements satisfying `p` both survive the filter. */
  lemma {:induction false} FilterPair<T>(s: seq<T>, p: T -> bool, i: nat, j: nat)
    requires TwoMatches(s, p, i, j)
    ensures |Filter(s, p)| >= 2
    decreases |s|
  {
    FilterLength(s, p);
    if i == 0 {
      assert s[1..][j - 1] == s[j];
    } else {
      assert s[1..][i - 1] == s[i] && s[1..][j - 1] == s[j];
      FilterPair(s[1..], p, i - 1, j - 1);
    }
  }

  /**
   * Reading the rows satisfying `p` with `TakeOne`: a unique hit gives that
   * row, two hits give an error.
   */
  lemma TakeFiltered<T>(s: seq<T>, p: T -> bool)
    ensures forall i :: OnlyMatch(s, p, i) ==> TakeOne(Filter(s, p)) == Ok(Some(s[i]))
    ensures forall i, j :: TwoMatches(s, p, i, j) ==> TakeOne(Filter(s, p)).Err?
  {
    forall i | OnlyMatch(s, p, i)
      ensures TakeOne(Filter(s, p)) == Ok(Some(s[i]))
    {
      FilterSingle(s, p, i);
    }
    forall i, j | TwoMatches(s, p, i, j)
      ensures TakeOne(Filter(s, p)).Err?
    {
      FilterPair(s, p, i, j);
    }
  }

  /** Outcome of reading at most one row into an `Option`: more than one row is an error. */
  datatype TakeError = LossyTake(rows: nat)

  /**
   * The database client's `take(0)` into `Option<T>`: no row gives `None`,
   * one row gives it, several rows are refused.
   */
  function TakeOne<T>(rows: seq<T>): (r: Result<Option<T>, TakeError>)
    ensures r == Ok(None) <==> rows == []
    ensures r.Ok? && r.value.Some? <==> |rows| == 1
    ensures r.Ok? && r.value.Some? ==> r.value.value == rows[0]
  {
    if rows == [] then Ok(None)
    else if |rows| == 1 then Ok(Some(rows[0]))
    else Err(LossyTake(|rows|))
  }
}
