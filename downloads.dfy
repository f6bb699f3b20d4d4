/**
 * The in-memory registry of downloads in progress. The desktop client keeps
 * a map from episode id to byte counts together with an ordered cache of the
 * episodes being downloaded, and broadcasts a report built from both after
 * every change; the legacy client keeps the map alone and broadcasts it.
 * A broadcast is modelled as appending the event's payload to `broadcasts`.
 */
module Downloads {
  import opened Entities

  /** `EpisodeDownloadProgress`: two `u64` byte counts. */
  datatype DownloadProgress = DownloadProgress(downloadedBytes: nat, totalBytes: nat)

  /** `EpisodeDownloadProgressReport`: one line of the desktop broadcast. */
  datatype ProgressReport = ProgressReport(downloadedBytes: nat, totalBytes: nat, episode: Episode)

  /** The ids of the cached episodes, in cache order. */
  function Ids(cache: seq<Episode>): (r: seq<int>)
    ensures |r| == |cache|
    ensures forall i :: 0 <= i < |cache| ==> r[i] == cache[i].id
  {
    if cache == [] then [] else [cache[0].id] + Ids(cache[1..])
  }

  predicate Distinct(ids: seq<int>)
  {
    forall i, j :: 0 <= i < j < |ids| ==> ids[i] != ids[j]
  }

  /** The correspondence the desktop registry keeps: one cache entry per key, no duplicates. */
  ghost predicate CacheMatches(inProgress: map<int, DownloadProgress>, cache: seq<Episode>)
  {
    && Distinct(Ids(cache))
    && (forall id :: id in inProgress <==> id in Ids(cache))
  }

  /** Position `k` holds the first episode of the cache carrying `id`. */
  predicate FirstAt(cache: seq<Episode>, id: int, k: int)
    requires 0 <= k < |cache|
  {
    cache[k].id == id && id !in Ids(cache[..k])
  }

  /** The cache with the first episode carrying `id` removed (`position` then `remove`). */
  function RemoveFirst(cache: seq<Episode>, id: int): (r: seq<Episode>)
    ensures id !in Ids(cache) ==> r == cache
  {
    if cache == [] then []
    else if cache[0].id == id then cache[1..]
    else [cache[0]] + RemoveFirst(cache[1..], id)
  }

  /** The report line for one cached episode, when the map has an entry for it. */
  function LineFor(inProgress: map<int, DownloadProgress>, episode: Episode): seq<ProgressReport>
  {
    if episode.id in inProgress then
      [ProgressReport(inProgress[episode.id].downloadedBytes, inProgress[episode.id].totalBytes, episode)]
    else []
  }

  /** The report `broadcast_change` builds: cached episodes in cache order, skipping those without an entry. */
  function ReportOf(cache: seq<Episode>, inProgress: map<int, DownloadProgress>): seq<ProgressReport>
  {
    if cache == [] then []
    else ReportOf(cache[..|cache| - 1], inProgress) + LineFor(inProgress, cache[|cache| - 1])
  }

  /** The new (map, cache) after `set_progress(episode, progress)`. */
  function SetProgressSpec(inProgress: map<int, DownloadProgress>, cache: seq<Episode>,
                           episode: Episode, progress: DownloadProgress)
    : (r: (map<int, DownloadProgress>, seq<Episode>))
    ensures r.0 == inProgress[episode.id := progress]
    ensures episode.id in inProgress ==> r.1 == cache
    ensures episode.id !in inProgress ==> r.1 == cache + [episode]
  {
    (inProgress[episode.id := progress], if episode.id in inProgress then cache else cache + [episode])
  }

  /** The new (map, cache) after `mark_done(id)`. */
  function MarkDoneSpec(inProgress: map<int, DownloadProgress>, cache: seq<Episode>, id: int)
    : (r: (map<int, DownloadProgress>, seq<Episode>))
    ensures r.0 == inProgress - {id}
    ensures id !in Ids(cache) ==> r.1 == cache
    ensures id in Ids(cache) ==> exists k :: 0 <= k < |cache| && FirstAt(cache, id, k) && r.1 == cache[..k] + cache[k + 1..]
  {
    var r := (inProgress - {id}, RemoveFirst(cache, id));
    if id in Ids(cache) then RemoveFirstAt(cache, id); r else r
  }

  /** Exactly the first episode carrying `id` is removed; the others stay, in order. */
  lemma {:induction false} RemoveFirstAt(cache: seq<Episode>, id: int)
    requires id in Ids(cache)
    ensures exists k :: 0 <= k < |cache| && FirstAt(cache, id, k) && RemoveFirst(cache, id) == cache[..k] + cache[k + 1..]
  {
    assert cache != [];
    if cache[0].id == id {
      assert cache[..0] == [] && FirstAt(cache, id, 0);
      assert RemoveFirst(cache, id) == cache[..0] + cache[1..];
    } else {
      var tail := cache[1..];
      assert Ids(cache) == [cache[0].id] + Ids(tail);
      RemoveFirstAt(tail, id);
      var k :| 0 <= k < |tail| && FirstAt(tail, id, k) && RemoveFirst(tail, id) == tail[..k] + tail[k + 1..];
      FirstAtShift(cache, id, k);
      SpliceShift(cache, k);
    }
  }

  lemma FirstAtShift(cache: seq<Episode>, id: int, k: int)
    requires cache != [] && cache[0].id != id && 0 <= k < |cache| - 1 && FirstAt(cache[1..], id, k)
    ensures FirstAt(cache, id, k + 1)
  {
    var pre := cache[..k + 1];
    assert pre[0] == cache[0] && pre[1..] == cache[1..][..k];
    assert Ids(pre) == [cache[0].id] + Ids(cache[1..][..k]);
  }

  lemma SpliceShift(cache: seq<Episode>, k: int)
    requires 0 <= k < |cache| - 1
    ensures [cache[0]] + (cache[1..][..k] + cache[1..][k + 1..]) == cache[..k + 1] + cache[k + 2..]
  {
    assert cache[..k + 1] == [cache[0]] + cache[1..][..k];
    assert cache[k + 2..] == cache[1..][k + 1..];
  }

  lemma IdsAppend(cache: seq<Episode>, e: Episode)
    ensures Ids(cache + [e]) == Ids(cache) + [e.id]
  {
  }

  /** Removing the first occurrence of `id` from a duplicate-free cache removes exactly `id`. */
  lemma {:induction false} RemoveFirstIds(cache: seq<Episode>, id: int)
    requires Distinct(Ids(cache))
    ensures Distinct(Ids(RemoveFirst(cache, id)))
    ensures forall x :: x in Ids(RemoveFirst(cache, id)) <==> (x in Ids(cache) && x != id)
  {
    if cache == [] {
    } else if cache[0].id == id {
      assert Ids(cache) == [id] + Ids(cache[1..]);
      assert id !in Ids(cache[1..]) by {
        forall k | 0 <= k < |cache[1..]| ensures Ids(cache[1..])[k] != id {
          assert Ids(cache)[k + 1] == Ids(cache[1..])[k];
        }
      }
    } else {
      var tail := cache[1..];
      assert Ids(cache) == [cache[0].id] + Ids(tail);
      assert Distinct(Ids(tail)) by {
        forall i, j | 0 <= i < j < |Ids(tail)| ensures Ids(tail)[i] != Ids(tail)[j] {
          assert Ids(cache)[i + 1] == Ids(tail)[i] && Ids(cache)[j + 1] == Ids(tail)[j];
        }
      }
      RemoveFirstIds(tail, id);
      var rest := RemoveFirst(tail, id);
      assert RemoveFirst(cache, id) == [cache[0]] + rest;
      assert Ids(RemoveFirst(cache, id)) == [cache[0].id] + Ids(rest);
      assert cache[0].id !in Ids(tail) by {
        forall k | 0 <= k < |Ids(tail)| ensures Ids(tail)[k] != cache[0].id {
          assert Ids(cache)[k + 1] == Ids(tail)[k];
        }
      }
      var ids := Ids(RemoveFirst(cache, id));
      forall i, j | 0 <= i < j < |ids| ensures ids[i] != ids[j] {
        if i == 0 {
          assert ids[j] == Ids(rest)[j - 1];
          assert Ids(rest)[j - 1] in Ids(rest);
        } else {
          assert ids[i] == Ids(rest)[i - 1] && ids[j] == Ids(rest)[j - 1];
        }
      }
    }
  }

  /** `set_progress` keeps the map and the cache in correspondence. */
  lemma SetProgressKeepsMatch(inProgress: map<int, DownloadProgress>, cache: seq<Episode>,
                              episode: Episode, progress: DownloadProgress)
    requires CacheMatches(inProgress, cache)
    ensures CacheMatches(SetProgressSpec(inProgress, cache, episode, progress).0,
                         SetProgressSpec(inProgress, cache, episode, progress).1)
  {
    if episode.id !in inProgress {
      IdsAppend(cache, episode);
      var ids := Ids(cache + [episode]);
      forall i, j | 0 <= i < j < |ids| ensures ids[i] != ids[j] {
        if j == |cache| {
          assert ids[i] == Ids(cache)[i];
          assert Ids(cache)[i] in Ids(cache);
        } else {
          assert ids[i] == Ids(cache)[i] && ids[j] == Ids(cache)[j];
        }
      }
    }
  }

  /** `mark_done` keeps the map and the cache in correspondence. */
  lemma MarkDoneKeepsMatch(inProgress: map<int, DownloadProgress>, cache: seq<Episode>, id: int)
    requires CacheMatches(inProgress, cache)
    ensures CacheMatches(MarkDoneSpec(inProgress, cache, id).0, MarkDoneSpec(inProgress, cache, id).1)
  {
    RemoveFirstIds(cache, id);
  }

  /** `mark_done` of an id the registry does not hold changes nothing. */
  lemma MarkDoneAbsent(inProgress: map<int, DownloadProgress>, cache: seq<Episode>, id: int)
    requires CacheMatches(inProgress, cache)
    requires id !in inProgress
    ensures MarkDoneSpec(inProgress, cache, id) == (inProgress, cache)
  {
    assert id !in Ids(cache);
    assert inProgress - {id} == inProgress;
  }

  /** One call on the desktop registry. */
  datatype Op = SetProgress(episode: Episode, progress: DownloadProgress) | MarkDone(id: int)

  function Apply(state: (map<int, DownloadProgress>, seq<Episode>), op: Op): (map<int, DownloadProgress>, seq<Episode>)
  {
    match op
      case SetProgress(e, p) => SetProgressSpec(state.0, state.1, e, p)
      case MarkDone(id) => MarkDoneSpec(state.0, state.1, id)
  }

  function Run(state: (map<int, DownloadProgress>, seq<Episode>), ops: seq<Op>): (map<int, DownloadProgress>, seq<Episode>)
    decreases |ops|
  {
    if ops == [] then state else Run(Apply(state, ops[0]), ops[1..])
  }

  /** From an empty registry, every sequence of calls keeps the cache ids duplicate-free and equal to the map's keys. */
  lemma {:induction false} RunKeepsMatch(state: (map<int, DownloadProgress>, seq<Episode>), ops: seq<Op>)
    requires CacheMatches(state.0, state.1)
    ensures CacheMatches(Run(state, ops).0, Run(state, ops).1)
    decreases |ops|
  {
    if ops != [] {
      match ops[0] {
        case SetProgress(e, p) => SetProgressKeepsMatch(state.0, state.1, e, p);
        case MarkDone(id) => MarkDoneKeepsMatch(state.0, state.1, id);
      }
      RunKeepsMatch(Apply(state, ops[0]), ops[1..]);
    }
  }

  lemma RunFromEmpty(ops: seq<Op>)
    ensures CacheMatches(Run((map[], []), ops).0, Run((map[], []), ops).1)
  {
    RunKeepsMatch((map[], []), ops);
  }

  /** When the registry is consistent, the report has one line per cached episode, in cache order. */
  lemma {:induction false} ReportOfComplete(cache: seq<Episode>, inProgress: map<int, DownloadProgress>)
    requires forall i :: 0 <= i < |cache| ==> cache[i].id in inProgress
    ensures |ReportOf(cache, inProgress)| == |cache|
    ensures forall i :: 0 <= i < |cache| ==>
      ReportOf(cache, inProgress)[i] ==
        ProgressReport(inProgress[cache[i].id].downloadedBytes, inProgress[cache[i].id].totalBytes, cache[i])
  {
    if cache != [] {
      var init := cache[..|cache| - 1];
      ReportOfComplete(init, inProgress);
    }
  }

  /** Every line of any report belongs to a cached episode and copies that episode's map entry. */
  lemma {:induction false} ReportOfSound(cache: seq<Episode>, inProgress: map<int, DownloadProgress>)
    ensures |ReportOf(cache, inProgress)| <= |cache|
    ensures forall k :: 0 <= k < |ReportOf(cache, inProgress)| ==>
      var line := ReportOf(cache, inProgress)[k];
      && line.episode in cache
      && line.episode.id in inProgress
      && line.downloadedBytes == inProgress[line.episode.id].downloadedBytes
      && line.totalBytes == inProgress[line.episode.id].totalBytes
  {
    if cache != [] {
      var init := cache[..|cache| - 1];
      ReportOfSound(init, inProgress);
      assert forall e :: e in init ==> e in cache;
    }
  }

  /** The desktop `EpisodeDownloads`. */
  class EpisodeDownloads {
    var inProgress: map<int, DownloadProgress>
    var cache: seq<Episode>
    var broadcasts: seq<seq<ProgressReport>>

    ghost predicate Valid()
      reads this
    {
      CacheMatches(inProgress, cache)
    }

    constructor ()
      ensures inProgress == map[] && cache == [] && broadcasts == []
      ensures Valid()
    {
      inProgress := map[];
      cache := [];
      broadcasts := [];
    }

    /** A copy of the current map. */
    method InProgress() returns (m: map<int, DownloadProgress>)
      ensures m == inProgress
    {
      m := inProgress;
    }

    /** `broadcast_change`'s report loop over the cache. */
    method BuildReport() returns (report: seq<ProgressReport>)
      ensures report == ReportOf(cache, inProgress)
    {
      report := [];
      var i := 0;
      while i < |cache|
        invariant 0 <= i <= |cache|
        invariant report == ReportOf(cache[..i], inProgress)
      {
        var episode := cache[i];
        assert cache[..i + 1][..i] == cache[..i];
        if episode.id in inProgress {
          var progress := inProgress[episode.id];
          report := report + [ProgressReport(progress.downloadedBytes, progress.totalBytes, episode)];
        }
        i := i + 1;
      }
      assert cache[..i] == cache;
    }

    method SetProgress(episode: Episode, progress: DownloadProgress)
      modifies this
      ensures (inProgress, cache) == SetProgressSpec(old(inProgress), old(cache), episode, progress)
      ensures broadcasts == old(broadcasts) + [ReportOf(cache, inProgress)]
      ensures old(Valid()) ==> Valid()
    {
      if episode.id !in inProgress {
        cache := cache + [episode];
      }
      ghost var before := (old(inProgress), old(cache));
      inProgress := inProgress[episode.id := progress];
      var report := BuildReport();
      broadcasts := broadcasts + [report];
      if CacheMatches(before.0, before.1) {
        SetProgressKeepsMatch(before.0, before.1, episode, progress);
      }
    }

    method MarkDone(id: int)
      modifies this
      ensures (inProgress, cache) == MarkDoneSpec(old(inProgress), old(cache), id)
      ensures broadcasts == old(broadcasts) + [ReportOf(cache, inProgress)]
      ensures old(Valid()) ==> Valid()
    {
      inProgress := inProgress - {id};
      cache := RemoveFirst(cache, id);
      var report := BuildReport();
      broadcasts := broadcasts + [report];
      if CacheMatches(old(inProgress), old(cache)) {
        MarkDoneKeepsMatch(old(inProgress), old(cache), id);
      }
    }
  }

  /** The legacy `EpisodeDownloads`: the map alone, broadcast as is. */
  class LegacyEpisodeDownloads {
    var inProgress: map<int, DownloadProgress>
    var broadcasts: seq<map<int, DownloadProgress>>

    constructor ()
      ensures inProgress == map[] && broadcasts == []
    {
      inProgress := map[];
      broadcasts := [];
    }

    method InProgress() returns (m: map<int, DownloadProgress>)
      ensures m == inProgress
    {
      m := inProgress;
    }

    method SetProgress(id: int, progress: DownloadProgress)
      modifies this
      ensures inProgress == old(inProgress)[id := progress]
      ensures id in inProgress && inProgress[id] == progress
      ensures forall k :: k != id ==> (k in inProgress <==> k in old(inProgress))
      ensures forall k :: k != id && k in inProgress ==> inProgress[k] == old(inProgress)[k]
      ensures broadcasts == old(broadcasts) + [inProgress]
    {
      inProgress := inProgress[id := progress];
      broadcasts := broadcasts + [inProgress];
    }

    method MarkDone(id: int)
      modifies this
      ensures inProgress == old(inProgress) - {id}
      ensures id !in old(inProgress) ==> inProgress == old(inProgress)
      ensures broadcasts == old(broadcasts) + [inProgress]
    {
      inProgress := inProgress - {id};
      broadcasts := broadcasts + [inProgress];
    }
  }
}
