/**
 * The in-memory download queue (src/import/downloader/queue.rs).
 *
 * The source keeps two ordered maps keyed by the download's ULID: the queued
 * item with the join handle of its task, and the sender of its watch channel.
 * Here the task becomes the `finished` flag of an entry, the senders still held
 * by the queue become the set `watchers`, and the value last published on each
 * channel is kept in `channel`, which outlives the queue entry exactly as the
 * receiver held by a `DownloadHandle` does.
 */
module Queue {
  import opened Wrappers
  import opened DownloadModels

  /** A queued download: the item and whether its task has finished (`JoinHandle::is_finished`). */
  datatype Entry = Entry(item: DownloadQueueItem, finished: bool)

  /** One row of `list_downloads`. */
  datatype Listing = Listing(id: Id, item: DownloadQueueItem, progress: Progress)

  /** The ids of a listing, in order. */
  function Ids(r: seq<Listing>): (ids: seq<Id>)
    ensures |ids| == |r|
    ensures forall i :: 0 <= i < |r| ==> ids[i] == r[i].id
  {
    seq(|r|, i requires 0 <= i < |r| => r[i].id)
  }

  /** Every non-empty finite set of ids has a least element (the next key of an ordered map). */
  lemma {:induction false} LeastOf(s: set<Id>) returns (m: Id)
    requires s != {}
    ensures m in s && forall x :: x in s ==> m <= x
    decreases |s|
  {
    var y :| y in s;
    var rest := s - {y};
    assert forall x :: x in s && x != y ==> x in rest;
    if rest == {} {
      m := y;
    } else {
      var least := LeastOf(rest);
      m := if y < least then y else least;
    }
  }

  /**
   * What the task's final update publishes (queue.rs:173-189): `Completed`
   * with the downloaded path on success, `Failed` with the error text on
   * error, the byte counts of the last progress kept in both cases.
   */
  function FinalProgress(last: Progress, result: Result<string, string>): (p: Progress)
    ensures p.totalSize == last.totalSize && p.downloaded == last.downloaded
    ensures result.Ok? <==> IsSuccessful(p)
    ensures result.Ok? ==> p.filePath == Some(result.value)
    ensures result.Err? ==> p.status == Failed(result.error) && p.filePath == last.filePath
    ensures IsComplete(p)
  {
    match result
    case Ok(path) => last.(status := Completed, filePath := Some(path))
    case Err(e) => last.(status := Failed(e))
  }

  /**
   * The answer of `wait_until_done` once a complete progress is seen: the
   * path on success (from the progress, else from the stored item, whose
   * lookup may fail or find nothing), the error text on failure, and a fixed
   * message on cancellation.
   */
  function DoneResult(p: Progress, lookup: Result<Option<DownloadQueueItem>, string>): (r: Result<string, string>)
    requires IsComplete(p)
    ensures r.Ok? ==> p.status == Completed
    ensures p.status == Completed && p.filePath.Some? ==> r == Ok(p.filePath.value)
    ensures p.status == Completed && p.filePath.None? && lookup.Ok? && lookup.value.Some? ==> r == Ok(lookup.value.value.outputPath)
    ensures p.status == Completed && p.filePath.None? && lookup.Err? ==> r == Err("Failed to retrieve download info: " + lookup.error)
    ensures p.status == Completed && p.filePath.None? && lookup == Ok(None) ==> r == Err("Download info not found in database")
    ensures p.status.Failed? ==> r == Err(p.status.err)
    ensures p.status == Cancelled ==> r == Err("Download was cancelled")
  {
    match p.status
    case Completed =>
      if p.filePath.Some? then Ok(p.filePath.value)
      else (match lookup
        case Err(e) => Err("Failed to retrieve download info: " + e)
        case Ok(None) => Err("Download info not found in database")
        case Ok(Some(item)) => Ok(item.outputPath))
    case Failed(err) => Err(err)
    case Cancelled => Err("Download was cancelled")
  }

  /** The first complete progress among the updates the handle receives decides the result. */
  function WaitSpec(updates: seq<Progress>, closed: string, lookup: Result<Option<DownloadQueueItem>, string>): Result<string, string>
  {
    if updates == [] then Err("Failed to monitor download progress: " + closed)
    else if IsComplete(updates[0]) then DoneResult(updates[0], lookup)
    else WaitSpec(updates[1..], closed, lookup)
  }

  /**
   * `DownloadHandle::wait_until_done`: take the updates one by one until a
   * complete one; if the channel closes first (`closed` is the receive
   * error), report that. `lookup` is the database read of the item.
   */
  method WaitUntilDone(updates: seq<Progress>, closed: string, lookup: Result<Option<DownloadQueueItem>, string>)
    returns (r: Result<string, string>)
    ensures r == WaitSpec(updates, closed, lookup)
    ensures (forall i :: 0 <= i < |updates| ==> !IsComplete(updates[i])) ==> r == Err("Failed to monitor download progress: " + closed)
  {
    var i := 0;
    while i < |updates|
      invariant 0 <= i <= |updates|
      invariant forall j :: 0 <= j < i ==> !IsComplete(updates[j])
      invariant WaitSpec(updates[i..], closed, lookup) == WaitSpec(updates, closed, lookup)
    {
      if IsComplete(updates[i]) {
        return DoneResult(updates[i], lookup);
      }
      assert updates[i..][1..] == updates[i + 1..];
      i := i + 1;
    }
    r := Err("Failed to monitor download progress: " + closed);
  }

  /** A download whose last published status is `Cancelled` is reported as cancelled. */
  lemma {:induction false} WaitAfterCancel(updates: seq<Progress>, closed: string, lookup: Result<Option<DownloadQueueItem>, string>, k: nat)
    requires k < |updates| && updates[k].status == Cancelled
    requires forall j :: 0 <= j < k ==> !IsComplete(updates[j])
    ensures WaitSpec(updates, closed, lookup) == Err("Download was cancelled")
    decreases k
  {
    if k > 0 {
      WaitAfterCancel(updates[1..], closed, lookup, k - 1);
    }
  }

  /** The item a download is refreshed to by `sync_with_db`: the last database item carrying its id. */
  function LastWithId(items: seq<DownloadQueueItem>, id: Id): (r: Option<DownloadQueueItem>)
    ensures r.Some? ==> r.value.id == Some(id) && r.value in items
    ensures r.None? <==> forall i :: 0 <= i < |items| ==> items[i].id != Some(id)
  {
    if items == [] then None
    else if items[|items| - 1].id == Some(id) then Some(items[|items| - 1])
    else LastWithId(items[..|items| - 1], id)
  }

  /** The entry after `sync_with_db`: the database item if there is one, the task untouched. */
  function Synced(e: Entry, items: seq<DownloadQueueItem>, id: Id): (r: Entry)
    ensures r.finished == e.finished
  {
    match LastWithId(items, id)
    case Some(item) => e.(item := item)
    case None => e
  }

  /** The last item carrying an id, one database item further. */
  lemma LastWithIdStep(items: seq<DownloadQueueItem>, i: nat, id: Id)
    requires i < |items|
    ensures items[i].id == Some(id) ==> LastWithId(items[..i + 1], id) == Some(items[i])
    ensures items[i].id != Some(id) ==> LastWithId(items[..i + 1], id) == LastWithId(items[..i], id)
  {
    assert items[..i + 1][..i] == items[..i];
  }

  /** One item further, the loop of `sync_with_db` keeps each entry synced with the items read so far. */
  lemma SyncStep(d0: map<Id, Entry>, d: map<Id, Entry>, items: seq<DownloadQueueItem>, i: nat)
    requires i < |items|
    requires d.Keys == d0.Keys
    requires forall id :: id in d ==> d[id] == Synced(d0[id], items[..i], id)
    ensures var item := items[i];
            var d' := if item.id.Some? && item.id.value in d then d[item.id.value := d[item.id.value].(item := item)] else d;
            d'.Keys == d0.Keys && forall id :: id in d' ==> d'[id] == Synced(d0[id], items[..i + 1], id)
  {
    forall id | id in d {
      LastWithIdStep(items, i, id);
    }
  }

  /** The loop of `sync_with_db` over the items read: each one replaces the queued item with its id, if any. */
  method SyncItems(d0: map<Id, Entry>, items: seq<DownloadQueueItem>) returns (d: map<Id, Entry>)
    ensures d.Keys == d0.Keys
    ensures forall id :: id in d ==> d[id] == Synced(d0[id], items, id)
  {
    d := d0;
    var i := 0;
    while i < |items|
      invariant 0 <= i <= |items|
      invariant d.Keys == d0.Keys
      invariant forall id :: id in d ==> d[id] == Synced(d0[id], items[..i], id)
    {
      SyncStep(d0, d, items, i);
      var item := items[i];
      if item.id.Some? && item.id.value in d {
        d := d[item.id.value := d[item.id.value].(item := item)];
      }
      i := i + 1;
    }
    assert items[..|items|] == items;
  }

  /** The map without the given keys. */
  function Without(m: map<Id, Entry>, ks: set<Id>): (r: map<Id, Entry>)
  {
    map k | k in m && k !in ks :: m[k]
  }

  lemma WithoutSpec(m: map<Id, Entry>, ks: set<Id>)
    ensures Without(m, ks).Keys == m.Keys - ks
    ensures forall k :: k in Without(m, ks) ==> Without(m, ks)[k] == m[k]
  {
  }

  lemma WithoutNothing(m: map<Id, Entry>)
    ensures Without(m, {}) == m
  {
  }

  lemma WithoutOneMore(m: map<Id, Entry>, ks: set<Id>, x: Id)
    ensures Without(m, ks) - {x} == Without(m, ks + {x})
  {
  }

  /** The least id of a non-empty set. */
  method Least(s: set<Id>) returns (m: Id)
    requires s != {}
    ensures m in s && forall x :: x in s ==> m <= x
  {
    ghost var least := LeastOf(s);
    m :| m in s && forall x :: x in s ==> m <= x;
  }

  /** A listing row agrees with the maps it was read from. */
  predicate Agrees(l: Listing, d: map<Id, Entry>, c: map<Id, Progress>)
  {
    l.id in d && l.id in c && l.item == d[l.id].item && l.progress == c[l.id]
  }

  /** The ids of a set in ascending order (the key order of a `BTreeMap`). */
  method Ascending(s: set<Id>) returns (ks: seq<Id>)
    ensures forall i, j :: 0 <= i < j < |ks| ==> ks[i] < ks[j]
    ensures forall i :: 0 <= i < |ks| ==> ks[i] in s
    ensures forall x :: x in s ==> x in ks
  {
    var rest := s;
    ks := [];
    while rest != {}
      invariant rest <= s
      invariant forall i, j :: 0 <= i < j < |ks| ==> ks[i] < ks[j]
      invariant forall i, x :: 0 <= i < |ks| && x in rest ==> ks[i] < x
      invariant forall i :: 0 <= i < |ks| ==> ks[i] in s
      invariant forall x :: x in s && x !in rest ==> x in ks
      decreases |rest|
    {
      var m := Least(rest);
      ks := ks + [m];
      rest := rest - {m};
    }
  }

  /**
   * Walk the keys of `d` in ascending order, keeping those in `w`, each
   * paired with its item and its value in `c`.
   */
  method Walk(d: map<Id, Entry>, w: set<Id>, c: map<Id, Progress>) returns (r: seq<Listing>)
    requires d.Keys == w && w <= c.Keys
    ensures forall i, j :: 0 <= i < j < |r| ==> r[i].id < r[j].id
    ensures forall i :: 0 <= i < |r| ==> Agrees(r[i], d, c)
    ensures forall id :: id in d ==> id in Ids(r)
  {
    var ks := Ascending(d.Keys);
    r := [];
    var i := 0;
    while i < |ks|
      invariant 0 <= i <= |ks| && |r| == i
      invariant forall j :: 0 <= j < i ==> r[j].id == ks[j]
      invariant forall j :: 0 <= j < i ==> Agrees(r[j], d, c)
    {
      if ks[i] in w {
        r := r + [Listing(ks[i], d[ks[i]].item, c[ks[i]])];
      }
      i := i + 1;
    }
    assert Ids(r) == ks;
  }

  class DownloadQueue {
    /** `downloads`: the queued items and their tasks. */
    var downloads: map<Id, Entry>
    /** The keys of `progress_watchers`: the channels whose sender the queue still holds. */
    var watchers: set<Id>
    /** The value last published on each download's watch channel. */
    var channel: map<Id, Progress>

    /** The two maps have the same keys, and each item carries its own id. */
    predicate Valid()
      reads this
    {
      downloads.Keys == watchers && watchers <= channel.Keys &&
      forall id :: id in downloads ==> downloads[id].item.id == Some(id)
    }

    /** `DownloadQueue::new`: both maps empty. */
    constructor()
      ensures Valid()
      ensures downloads == map[] && watchers == {} && channel == map[]
    {
      downloads := map[];
      watchers := {};
      channel := map[];
    }

    /** `get_item`. */
    function GetItem(id: Id): (r: Option<DownloadQueueItem>)
      reads this
      ensures r.Some? <==> id in downloads
      ensures r.Some? ==> r.value == downloads[id].item
    {
      if id in downloads then Some(downloads[id].item) else None
    }

    /** `get_progress`: the current value of the channel, while the queue holds its sender. */
    function GetProgress(id: Id): (r: Option<Progress>)
      reads this
      requires Valid()
      ensures r.Some? <==> id in watchers
      ensures r.Some? ==> r.value == channel[id]
    {
      if id in watchers then Some(channel[id]) else None
    }

    /** The entries `cleanup` removes: a finished task, or a status that has ended. */
    predicate Removable(id: Id)
      reads this
      requires id in downloads
    {
      downloads[id].finished || (id in watchers && id in channel && IsComplete(channel[id]))
    }

    /** The set of ids `cleanup` removes. */
    function RemovableIds(): (r: set<Id>)
      reads this
      ensures r <= downloads.Keys
      ensures forall id :: id in downloads ==> (id in r <==> Removable(id))
    {
      set id | id in downloads && Removable(id)
    }

    /**
     * `add`: stamp the item with the fresh id and the creation time, open its
     * channel with the default progress and queue it with a running task.
     * `newId` is the ULID the generator returns, assumed never handed out before.
     */
    method Add(item: DownloadQueueItem, newId: Id, now: nat) returns (id: Id)
      requires Valid()
      requires newId !in channel
      modifies this
      ensures Valid()
      ensures id == newId
      ensures downloads == old(downloads)[id := Entry(item.(id := Some(id), createdAt := Some(now)), false)]
      ensures watchers == old(watchers) + {id}
      ensures channel == old(channel)[id := DefaultProgress()]
    {
      id := newId;
      var stamped := item.(id := Some(id), createdAt := Some(now));
      watchers := watchers + {id};
      channel := channel[id := DefaultProgress()];
      downloads := downloads[id := Entry(stamped, false)];
    }

    /** The forwarding task publishes a progress update of a download. */
    method Report(id: Id, p: Progress)
      requires Valid() && id in channel
      modifies this
      ensures Valid()
      ensures channel == old(channel)[id := p]
      ensures downloads == old(downloads) && watchers == old(watchers)
    {
      channel := channel[id := p];
    }

    /** The download task ends with `result` and publishes its final progress. */
    method Finish(id: Id, result: Result<string, string>)
      requires Valid() && id in channel
      modifies this
      ensures Valid()
      ensures channel == old(channel)[id := FinalProgress(old(channel)[id], result)]
      ensures id in old(downloads) ==> downloads == old(downloads)[id := old(downloads)[id].(finished := true)]
      ensures id !in old(downloads) ==> downloads == old(downloads)
      ensures watchers == old(watchers)
      ensures id in downloads ==> Removable(id)
    {
      channel := channel[id := FinalProgress(channel[id], result)];
      if id in downloads {
        downloads := downloads[id := downloads[id].(finished := true)];
      }
    }

    /**
     * `cancel`: a queued download gets status `Cancelled` published on its
     * channel and leaves both maps; an unknown id changes nothing.
     */
    method Cancel(id: Id) returns (ok: bool)
      requires Valid()
      modifies this
      ensures Valid()
      ensures ok <==> id in old(downloads)
      ensures ok ==> downloads == old(downloads) - {id} && watchers == old(watchers) - {id}
      ensures ok ==> channel == old(channel)[id := old(channel)[id].(status := Cancelled)]
      ensures !ok ==> downloads == old(downloads) && watchers == old(watchers) && channel == old(channel)
    {
      if id in downloads {
        if id in watchers {
          channel := channel[id := channel[id].(status := Cancelled)];
        }
        downloads := downloads - {id};
        watchers := watchers - {id};
        ok := true;
      } else {
        ok := false;
      }
    }

    /**
     * `list_downloads`: the queued items whose sender is still held, in
     * ascending id order, each with the current progress.
     */
    method ListDownloads() returns (r: seq<Listing>)
      requires Valid()
      ensures forall i, j :: 0 <= i < j < |r| ==> r[i].id < r[j].id
      ensures forall i :: 0 <= i < |r| ==> r[i].id in downloads
      ensures forall i :: 0 <= i < |r| ==> r[i].item == downloads[r[i].id].item && r[i].progress == channel[r[i].id]
      ensures forall id :: id in downloads ==> id in Ids(r)
    {
      r := Walk(downloads, watchers, channel);
    }

    /** The `for id in all_ids_to_remove` loop of `cleanup`: drop each id from both maps. */
    method RemoveAll(ks: set<Id>) returns (count: nat)
      requires ks <= downloads.Keys && watchers == downloads.Keys
      modifies this
      ensures count == |ks|
      ensures downloads == Without(old(downloads), ks)
      ensures watchers == downloads.Keys
      ensures channel == old(channel)
    {
      ghost var d0 := downloads;
      var rest := ks;
      count := 0;
      WithoutNothing(d0);
      while rest != {}
        invariant rest <= ks
        invariant count + |rest| == |ks|
        invariant downloads == Without(d0, ks - rest)
        invariant watchers == downloads.Keys
        invariant channel == old(channel)
        decreases |rest|
      {
        var x :| x in rest;
        WithoutOneMore(d0, ks - rest, x);
        downloads := downloads - {x};
        watchers := watchers - {x};
        rest := rest - {x};
        count := count + 1;
      }
    }

    /**
     * `cleanup`: remove every entry whose task has finished or whose status
     * has ended, and return how many were removed.
     */
    method Cleanup() returns (count: nat)
      requires Valid()
      modifies this
      ensures Valid()
      ensures count == |old(RemovableIds())|
      ensures downloads == Without(old(downloads), old(RemovableIds()))
      ensures watchers == old(watchers) - old(RemovableIds())
      ensures channel == old(channel)
      ensures RemovableIds() == {}
    {
      var doomed := RemovableIds();
      ghost var d0 := downloads;
      ghost var w0 := watchers;
      count := RemoveAll(doomed);
      WithoutSpec(d0, doomed);
      assert watchers == w0 - doomed;
      forall id | id in downloads
        ensures !Removable(id)
      {
        assert id in d0 && id !in doomed;
      }
    }

    /**
     * `sync_with_db`: refresh each queued item from the database read
     * `fetched`; items of downloads not in the queue are ignored. A failed
     * read is returned and changes nothing.
     */
    method SyncWithDb(fetched: Result<seq<DownloadQueueItem>, string>) returns (r: Result<(), string>)
      requires Valid()
      modifies this
      ensures Valid()
      ensures r.Err? <==> fetched.Err?
      ensures downloads.Keys == old(downloads).Keys
      ensures fetched.Err? ==> downloads == old(downloads)
      ensures fetched.Ok? ==> forall id :: id in downloads ==> downloads[id] == Synced(old(downloads)[id], fetched.value, id)
      ensures watchers == old(watchers) && channel == old(channel)
    {
      if fetched.Err? {
        return Err(fetched.error);
      }
      downloads := SyncItems(downloads, fetched.value);
      r := Ok(());
    }
  }
}
