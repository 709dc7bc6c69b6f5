/**
 * The downloader's web API (src/backend/api/downloader.rs): the listing of
 * queued downloads, one download by id, the per-status statistics and
 * cancellation, with the status codes their handlers answer.
 *
 * Each API function takes the queue's lock; a poisoned lock is an error the
 * model leaves out, so the functions here are called with the queue itself.
 */
module ApiDownloader {
  import opened Wrappers
  import opened DownloadModels
  import opened Queue

  const OK := 200
  const NOT_FOUND := 404

  /** `DownloadStats`. */
  datatype DownloadStats = DownloadStats(
    total: nat,
    queued: nat,
    downloading: nat,
    paused: nat,
    completed: nat,
    cancelled: nat,
    failed: nat)

  /** The counter a status is tallied under, numbered in the order of the fields above (0 = queued … 5 = failed). */
  function Counter(s: DownloadStatus): (k: nat)
    ensures k < 6
    ensures k == 5 <==> s.Failed?
    ensures s == Queued <==> k == 0
  {
    match s
    case Queued => 0
    case Downloading => 1
    case Paused => 2
    case Completed => 3
    case Cancelled => 4
    case Failed(_) => 5
  }

  /** How many of the progresses are tallied under counter `k`. */
  function CountOf(ps: seq<Progress>, k: nat): (n: nat)
    ensures n <= |ps|
  {
    if ps == [] then 0
    else CountOf(ps[..|ps| - 1], k) + (if Counter(ps[|ps| - 1].status) == k then 1 else 0)
  }

  /** One more progress adds one to its own counter and to no other. */
  lemma CountStep(ps: seq<Progress>, i: nat, k: nat)
    requires i < |ps|
    ensures CountOf(ps[..i + 1], k) == CountOf(ps[..i], k) + (if Counter(ps[i].status) == k then 1 else 0)
  {
    assert ps[..i + 1][..i] == ps[..i];
  }

  /** The six counters partition the progresses: they add up to how many there are. */
  lemma {:induction false} CountsPartition(ps: seq<Progress>)
    ensures CountOf(ps, 0) + CountOf(ps, 1) + CountOf(ps, 2) + CountOf(ps, 3) + CountOf(ps, 4) + CountOf(ps, 5) == |ps|
  {
    if ps != [] {
      CountsPartition(ps[..|ps| - 1]);
    }
  }

  /** The tallying loop of `get_download_stats`. */
  method Tally(ps: seq<Progress>) returns (stats: DownloadStats)
    ensures stats.queued == CountOf(ps, 0) && stats.downloading == CountOf(ps, 1) && stats.paused == CountOf(ps, 2)
    ensures stats.completed == CountOf(ps, 3) && stats.cancelled == CountOf(ps, 4) && stats.failed == CountOf(ps, 5)
    ensures stats.total == stats.queued + stats.downloading + stats.paused + stats.completed + stats.cancelled + stats.failed
    ensures stats.total == |ps|
  {
    stats := DownloadStats(0, 0, 0, 0, 0, 0, 0);
    var i := 0;
    while i < |ps|
      invariant 0 <= i <= |ps|
      invariant stats.queued == CountOf(ps[..i], 0) && stats.downloading == CountOf(ps[..i], 1)
      invariant stats.paused == CountOf(ps[..i], 2) && stats.completed == CountOf(ps[..i], 3)
      invariant stats.cancelled == CountOf(ps[..i], 4) && stats.failed == CountOf(ps[..i], 5)
    {
      CountStep(ps, i, 0);
      CountStep(ps, i, 1);
      CountStep(ps, i, 2);
      CountStep(ps, i, 3);
      CountStep(ps, i, 4);
      CountStep(ps, i, 5);
      match ps[i].status {
        case Queued => stats := stats.(queued := stats.queued + 1);
        case Downloading => stats := stats.(downloading := stats.downloading + 1);
        case Paused => stats := stats.(paused := stats.paused + 1);
        case Completed => stats := stats.(completed := stats.completed + 1);
        case Cancelled => stats := stats.(cancelled := stats.cancelled + 1);
        case Failed(_) => stats := stats.(failed := stats.failed + 1);
      }
      i := i + 1;
    }
    assert ps[..|ps|] == ps;
    CountsPartition(ps);
    stats := stats.(total := stats.queued + stats.downloading + stats.paused + stats.completed + stats.cancelled + stats.failed);
  }

  /** The progress column of a listing. */
  function Progresses(r: seq<Listing>): (ps: seq<Progress>)
    ensures |ps| == |r| && forall i :: 0 <= i < |r| ==> ps[i] == r[i].progress
  {
    if r == [] then [] else [r[0].progress] + Progresses(r[1..])
  }

  /** A strictly increasing sequence of ids that covers exactly a key set has one element per key. */
  lemma {:induction false} IncreasingCard(ids: seq<Id>, keys: set<Id>)
    requires forall i, j :: 0 <= i < j < |ids| ==> ids[i] < ids[j]
    requires forall i :: 0 <= i < |ids| ==> ids[i] in keys
    requires forall k :: k in keys ==> k in ids
    ensures |keys| == |ids|
  {
    if ids != [] {
      var last := ids[|ids| - 1];
      var prev := ids[..|ids| - 1];
      forall k | k in keys - {last}
        ensures k in prev
      {
        var i :| 0 <= i < |ids| && ids[i] == k;
        assert i < |ids| - 1;
        assert prev[i] == k;
      }
      IncreasingCard(prev, keys - {last});
    } else {
      assert forall k :: k !in keys;
    }
  }

  /** A listing in ascending id order that covers exactly a key set has one row per key. */
  lemma ListingCard(r: seq<Listing>, keys: set<Id>)
    requires forall i, j :: 0 <= i < j < |r| ==> r[i].id < r[j].id
    requires forall i :: 0 <= i < |r| ==> r[i].id in keys
    requires forall id :: id in keys ==> id in Ids(r)
    ensures |keys| == |r|
  {
    var ids := Ids(r);
    assert forall i, j :: 0 <= i < j < |ids| ==> ids[i] < ids[j];
    assert forall i :: 0 <= i < |ids| ==> ids[i] in keys;
    IncreasingCard(ids, keys);
  }

  /** The downloads among `ids` whose current progress is tallied under counter `k`. */
  function WithCounter(ids: set<Id>, channel: map<Id, Progress>, k: nat): (s: set<Id>)
    requires ids <= channel.Keys
    ensures forall id :: id in s <==> id in ids && Counter(channel[id].status) == k
  {
    set id | id in ids && Counter(channel[id].status) == k
  }

  /** Taking one key out of the set takes it out of its own counter's set only. */
  lemma WithCounterStep(keys: set<Id>, channel: map<Id, Progress>, k: nat, x: Id)
    requires keys <= channel.Keys && x in keys
    ensures |WithCounter(keys, channel, k)| ==
            |WithCounter(keys - {x}, channel, k)| + (if Counter(channel[x].status) == k then 1 else 0)
  {
    var before := WithCounter(keys - {x}, channel, k);
    if Counter(channel[x].status) == k {
      assert WithCounter(keys, channel, k) == before + {x};
    } else {
      assert WithCounter(keys, channel, k) == before;
    }
  }

  /** The tally of a listing is the tally without its last row plus that row's contribution. */
  lemma CountLast(r: seq<Listing>, k: nat)
    requires r != []
    ensures CountOf(Progresses(r), k) ==
            CountOf(Progresses(r[..|r| - 1]), k) + (if Counter(r[|r| - 1].progress.status) == k then 1 else 0)
  {
    assert Progresses(r)[..|r| - 1] == Progresses(r[..|r| - 1]);
  }

  /** Without its last row an ascending listing covers the keys other than the last id. */
  lemma ListingPrefix(r: seq<Listing>, keys: set<Id>)
    requires r != []
    requires forall i, j :: 0 <= i < j < |r| ==> r[i].id < r[j].id
    requires forall i :: 0 <= i < |r| ==> r[i].id in keys
    requires forall id :: id in keys ==> id in Ids(r)
    ensures var prev := r[..|r| - 1];
            (forall i :: 0 <= i < |prev| ==> prev[i].id in keys - {r[|r| - 1].id}) &&
            (forall id :: id in keys - {r[|r| - 1].id} ==> id in Ids(prev))
  {
    var prev := r[..|r| - 1];
    forall id | id in keys - {r[|r| - 1].id}
      ensures id in Ids(prev)
    {
      var i :| 0 <= i < |r| && Ids(r)[i] == id;
      assert Ids(prev)[i] == id;
    }
  }

  /**
   * Tallying the progress column of an ascending listing that covers exactly
   * a key set counts, under each counter, the keys whose progress it tallies.
   */
  lemma {:induction false} ListingCount(r: seq<Listing>, keys: set<Id>, channel: map<Id, Progress>, k: nat)
    requires keys <= channel.Keys
    requires forall i, j :: 0 <= i < j < |r| ==> r[i].id < r[j].id
    requires forall i :: 0 <= i < |r| ==> r[i].id in keys && r[i].progress == channel[r[i].id]
    requires forall id :: id in keys ==> id in Ids(r)
    ensures CountOf(Progresses(r), k) == |WithCounter(keys, channel, k)|
  {
    if r == [] {
      assert Ids(r) == [];
    } else {
      var last := r[|r| - 1];
      ListingPrefix(r, keys);
      ListingCount(r[..|r| - 1], keys - {last.id}, channel, k);
      CountLast(r, k);
      WithCounterStep(keys, channel, k, last.id);
    }
  }

  /** `get_download_stats`: every queued download is counted once, under its current status. */
  method GetDownloadStats(q: DownloadQueue) returns (stats: DownloadStats)
    requires q.Valid()
    ensures stats.total == |q.downloads.Keys|
    ensures stats.total == stats.queued + stats.downloading + stats.paused + stats.completed + stats.cancelled + stats.failed
    ensures stats.queued == |WithCounter(q.downloads.Keys, q.channel, 0)|
    ensures stats.downloading == |WithCounter(q.downloads.Keys, q.channel, 1)|
    ensures stats.paused == |WithCounter(q.downloads.Keys, q.channel, 2)|
    ensures stats.completed == |WithCounter(q.downloads.Keys, q.channel, 3)|
    ensures stats.cancelled == |WithCounter(q.downloads.Keys, q.channel, 4)|
    ensures stats.failed == |WithCounter(q.downloads.Keys, q.channel, 5)|
  {
    var r := q.ListDownloads();
    ListingCard(r, q.downloads.Keys);
    stats := Tally(Progresses(r));
    forall k | 0 <= k < 6
      ensures CountOf(Progresses(r), k) == |WithCounter(q.downloads.Keys, q.channel, k)|
    {
      ListingCount(r, q.downloads.Keys, q.channel, k);
    }
  }

  /** The listing as a map from id to item, as `collect::<HashMap<_, _>>` builds it (a later pair overwrites). */
  function ToMap(r: seq<Listing>): (m: map<Id, DownloadQueueItem>)
    ensures forall id :: id in m <==> id in Ids(r)
  {
    if r == [] then map[]
    else
      var prev := r[..|r| - 1];
      assert Ids(r) == Ids(prev) + [r[|r| - 1].id];
      ToMap(prev)[r[|r| - 1].id := r[|r| - 1].item]
  }

  /** With distinct ids every listed item is kept under its own id. */
  lemma {:induction false} ToMapKeeps(r: seq<Listing>)
    requires forall i, j :: 0 <= i < j < |r| ==> r[i].id < r[j].id
    ensures forall i :: 0 <= i < |r| ==> ToMap(r)[r[i].id] == r[i].item
  {
    if r != [] {
      var prev := r[..|r| - 1];
      ToMapKeeps(prev);
      forall i | 0 <= i < |r|
        ensures ToMap(r)[r[i].id] == r[i].item
      {
        if i < |r| - 1 {
          assert r[i].id != r[|r| - 1].id;
          assert ToMap(r)[r[i].id] == ToMap(prev)[prev[i].id];
        }
      }
    }
  }

  /** `get_downloads`: one entry per queued download, mapping its id to its item. */
  method GetDownloads(q: DownloadQueue) returns (m: map<Id, DownloadQueueItem>)
    requires q.Valid()
    ensures m.Keys == q.downloads.Keys
    ensures forall id :: id in m ==> m[id] == q.downloads[id].item
  {
    var r := q.ListDownloads();
    ToMapKeeps(r);
    m := ToMap(r);
    forall id | id in m
      ensures m[id] == q.downloads[id].item
    {
      var i :| 0 <= i < |r| && Ids(r)[i] == id;
    }
  }

  /** `find` over a listing by id. */
  function FindListing(r: seq<Listing>, id: Id): (found: Option<DownloadQueueItem>)
    ensures found.None? <==> id !in Ids(r)
    ensures found.Some? ==> exists i :: 0 <= i < |r| && r[i].id == id && r[i].item == found.value
  {
    if r == [] then None
    else if r[0].id == id then (assert Ids(r)[0] == id; Some(r[0].item))
    else
      assert Ids(r) == [r[0].id] + Ids(r[1..]);
      var rest := FindListing(r[1..], id);
      if rest.Some? then
        var j :| 0 <= j < |r[1..]| && r[1..][j].id == id && r[1..][j].item == rest.value;
        assert r[j + 1].id == id;
        rest
      else rest
  }

  /** `get_download`: the queued item with that id, if any. */
  method GetDownload(q: DownloadQueue, id: Id) returns (found: Option<DownloadQueueItem>)
    requires q.Valid()
    ensures found.Some? <==> id in q.downloads
    ensures found.Some? ==> found.value == q.downloads[id].item
  {
    var r := q.ListDownloads();
    found := FindListing(r, id);
  }

  /** `get_download_handler`: the item with 200, or 404 when no download has that id. */
  method GetDownloadHandler(q: DownloadQueue, id: Id) returns (status: nat, body: Option<DownloadQueueItem>)
    requires q.Valid()
    ensures id in q.downloads ==> status == OK && body == Some(q.downloads[id].item)
    ensures id !in q.downloads ==> status == NOT_FOUND && body == None
  {
    body := GetDownload(q, id);
    status := if body.Some? then OK else NOT_FOUND;
  }

  /** `cancel_download_handler`: 200 when the queue cancelled the download, 404 when it did not hold it. */
  method CancelDownloadHandler(q: DownloadQueue, id: Id) returns (status: nat)
    requires q.Valid()
    modifies q
    ensures q.Valid()
    ensures status == (if id in old(q.downloads) then OK else NOT_FOUND)
    ensures q.downloads == old(q.downloads) - {id} && q.watchers == old(q.watchers) - {id}
    ensures id in old(q.downloads) ==> q.channel == old(q.channel)[id := old(q.channel)[id].(status := Cancelled)]
    ensures id !in old(q.downloads) ==> q.channel == old(q.channel)
  {
    var ok := q.Cancel(id);
    status := if ok then OK else NOT_FOUND;
  }
}
