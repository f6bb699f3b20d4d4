/**
 * The episode-table operations of the desktop client (models/episode.rs):
 * creating missing progress rows, picking the last played episode,
 * listing downloads by size, marking progress and erasing a download.
 * The tables are sequences of rows in row-id order; a joined query is a
 * sequence of joined rows.
 */
module EpisodeModel {
  import opened Wrappers
  import opened Entities
  import PodcastModel

  /** `AppError` as far as these operations raise it. */
  datatype AppError = Db(error: PodcastModel.DbError) | Io

  // ---------------------------------------------------------------- fix_missing_progress_entries

  /** The ids of the podcast's episodes, in row order (`Episode::belonging_to`). */
  function EpisodeIdsOf(episodes: seq<Episode>, podcastId: int): (r: seq<int>)
    ensures forall id :: id in r <==> exists i :: 0 <= i < |episodes| && episodes[i].podcastId == podcastId && episodes[i].id == id
  {
    if episodes == [] then []
    else
      var rest := EpisodeIdsOf(episodes[1..], podcastId);
      assert forall i :: 0 <= i < |episodes[1..]| ==> episodes[1..][i] == episodes[i + 1];
      if episodes[0].podcastId == podcastId then [episodes[0].id] + rest else rest
  }

  /** The episode ids of the progress rows that belong to one of `ids` (the `eq_any` query). */
  function ProgressEpisodeIds(rows: seq<EpisodeProgress>, ids: seq<int>): (r: seq<int>)
    ensures forall id :: id in r <==> id in ids && PodcastModel.HasProgress(rows, id)
  {
    if rows == [] then []
    else
      var rest := ProgressEpisodeIds(rows[1..], ids);
      assert forall id :: PodcastModel.HasProgress(rows, id) <==>
        rows[0].episodeId == id || PodcastModel.HasProgress(rows[1..], id) by {
        forall id | PodcastModel.HasProgress(rows, id)
          ensures rows[0].episodeId == id || PodcastModel.HasProgress(rows[1..], id)
        {
          var i :| 0 <= i < |rows| && rows[i].episodeId == id;
          if i > 0 {
            assert rows[1..][i - 1] == rows[i];
          }
        }
        forall id | PodcastModel.HasProgress(rows[1..], id)
          ensures PodcastModel.HasProgress(rows, id)
        {
          var i :| 0 <= i < |rows[1..]| && rows[1..][i].episodeId == id;
          assert rows[i + 1] == rows[1..][i];
        }
        if rows[0].episodeId in ids {
          assert PodcastModel.HasProgress(rows, rows[0].episodeId) by {
            assert rows[0].episodeId == rows[0].episodeId;
          }
        }
      }
      if rows[0].episodeId in ids then [rows[0].episodeId] + rest else rest
  }

  /** The default row `fix_missing_progress_entries` inserts: not started, stamped now. */
  function DefaultProgress(id: int, episodeId: int, now: Timestamp): EpisodeProgress
  {
    EpisodeProgress(id, episodeId, false, 0, now)
  }

  /** The ids, in order, that the snapshot `have` does not contain. */
  function Missing(ids: seq<int>, have: seq<int>): (r: seq<int>)
    ensures forall id :: id in r <==> id in ids && id !in have
  {
    if ids == [] then []
    else
      var rest := Missing(ids[1..], have);
      assert forall id :: id in ids <==> id == ids[0] || id in ids[1..];
      if ids[0] in have then rest else [ids[0]] + rest
  }

  /** The progress table after the insert loop, checked against the snapshot `have` taken before it. */
  function MissingInserted(rows: seq<EpisodeProgress>, ids: seq<int>, have: seq<int>, now: Timestamp): seq<EpisodeProgress>
    decreases |ids|
  {
    if ids == [] then rows
    else
      var next := if ids[0] in have then rows else rows + [DefaultProgress(PodcastModel.NextProgressId(rows), ids[0], now)];
      MissingInserted(next, ids[1..], have, now)
  }

  /**
   * The loop only appends, one default row per id missing from the
   * snapshot and in the order of `ids`, each with an id above every row
   * before it.
   */
  lemma MissingInsertedShape(rows: seq<EpisodeProgress>, ids: seq<int>, have: seq<int>, now: Timestamp)
    ensures var r := MissingInserted(rows, ids, have, now);
      && |r| == |rows| + |Missing(ids, have)|
      && r[..|rows|] == rows
      && (forall k :: 0 <= k < |Missing(ids, have)| ==>
            r[|rows| + k] == DefaultProgress(r[|rows| + k].id, Missing(ids, have)[k], now))
      && (forall j, k :: 0 <= j < k < |r| && |rows| <= k ==> r[j].id < r[k].id)
  {
    MissingInsertedPrefix(rows, ids, have, now);
    MissingInsertedDefaults(rows, ids, have, now);
    MissingInsertedFreshIds(rows, ids, have, now);
  }

  lemma {:induction false} MissingInsertedPrefix(rows: seq<EpisodeProgress>, ids: seq<int>, have: seq<int>, now: Timestamp)
    ensures |MissingInserted(rows, ids, have, now)| == |rows| + |Missing(ids, have)|
    ensures MissingInserted(rows, ids, have, now)[..|rows|] == rows
    decreases |ids|
  {
    if ids != [] {
      var next := if ids[0] in have then rows else rows + [DefaultProgress(PodcastModel.NextProgressId(rows), ids[0], now)];
      MissingInsertedPrefix(next, ids[1..], have, now);
      var r := MissingInserted(next, ids[1..], have, now);
      assert r[..|rows|] == next[..|rows|];
      if ids[0] !in have {
        assert Missing(ids, have) == [ids[0]] + Missing(ids[1..], have);
      } else {
        assert Missing(ids, have) == Missing(ids[1..], have);
      }
    }
  }

  lemma {:induction false} MissingInsertedDefaults(rows: seq<EpisodeProgress>, ids: seq<int>, have: seq<int>, now: Timestamp)
    ensures var r := MissingInserted(rows, ids, have, now);
      |r| == |rows| + |Missing(ids, have)|
      && forall k :: 0 <= k < |Missing(ids, have)| ==>
           r[|rows| + k] == DefaultProgress(r[|rows| + k].id, Missing(ids, have)[k], now)
    decreases |ids|
  {
    MissingInsertedPrefix(rows, ids, have, now);
    if ids != [] {
      var next := if ids[0] in have then rows else rows + [DefaultProgress(PodcastModel.NextProgressId(rows), ids[0], now)];
      MissingInsertedDefaults(next, ids[1..], have, now);
      MissingInsertedPrefix(next, ids[1..], have, now);
      var r := MissingInserted(next, ids[1..], have, now);
      assert MissingInserted(rows, ids, have, now) == r;
      var m := Missing(ids, have);
      var mt := Missing(ids[1..], have);
      if ids[0] !in have {
        assert m == [ids[0]] + mt;
        assert |next| == |rows| + 1;
        forall k | 0 <= k < |m|
          ensures r[|rows| + k] == DefaultProgress(r[|rows| + k].id, m[k], now)
        {
          if k > 0 {
            var k' := k - 1;
            assert m[k] == mt[k'];
            assert |rows| + k == |next| + k';
            assert r[|next| + k'] == DefaultProgress(r[|next| + k'].id, mt[k'], now);
          } else {
            assert r[..|next|][|rows|] == next[|rows|];
          }
        }
      } else {
        assert m == mt;
      }
    }
  }

  lemma {:induction false} MissingInsertedFreshIds(rows: seq<EpisodeProgress>, ids: seq<int>, have: seq<int>, now: Timestamp)
    ensures var r := MissingInserted(rows, ids, have, now);
      forall j, k :: 0 <= j < k < |r| && |rows| <= k ==> r[j].id < r[k].id
    decreases |ids|
  {
    if ids != [] {
      var next := if ids[0] in have then rows else rows + [DefaultProgress(PodcastModel.NextProgressId(rows), ids[0], now)];
      MissingInsertedFreshIds(next, ids[1..], have, now);
      MissingInsertedPrefix(next, ids[1..], have, now);
      var r := MissingInserted(next, ids[1..], have, now);
      if ids[0] !in have {
        forall j, k | 0 <= j < k < |r| && |rows| <= k
          ensures r[j].id < r[k].id
        {
          if k == |rows| {
            assert r[..|next|][j] == rows[j];
            assert r[..|next|][k] == next[|rows|];
          }
        }
      }
    }
  }

  /** Every id in `ids` ends with a progress row, whether it had one before or not. */
  lemma {:induction false} MissingInsertedCovers(rows: seq<EpisodeProgress>, ids: seq<int>, have: seq<int>, now: Timestamp)
    requires forall id :: id in have ==> PodcastModel.HasProgress(rows, id)
    ensures forall id :: id in ids ==> PodcastModel.HasProgress(MissingInserted(rows, ids, have, now), id)
    decreases |ids|
  {
    if ids != [] {
      var next := if ids[0] in have then rows else rows + [DefaultProgress(PodcastModel.NextProgressId(rows), ids[0], now)];
      forall id | PodcastModel.HasProgress(rows, id)
        ensures PodcastModel.HasProgress(next, id)
      {
        var i :| 0 <= i < |rows| && rows[i].episodeId == id;
        assert next[i] == rows[i];
      }
      assert PodcastModel.HasProgress(next, ids[0]) by {
        if ids[0] !in have {
          assert next[|rows|].episodeId == ids[0];
        }
      }
      MissingInsertedCovers(next, ids[1..], have, now);
      var r := MissingInserted(next, ids[1..], have, now);
      MissingInsertedShape(next, ids[1..], have, now);
      assert r[..|next|] == next;
      assert PodcastModel.HasProgress(r, ids[0]) by {
        var i :| 0 <= i < |next| && next[i].episodeId == ids[0];
        assert r[i] == next[i];
      }
    }
  }

  /** `podcast::find_one`: whether a podcast row has the id. */
  predicate PodcastExists(podcasts: seq<Podcast>, podcastId: int)
  {
    exists i :: 0 <= i < |podcasts| && podcasts[i].id == podcastId
  }

  /**
   * `fix_missing_progress_entries`: for every episode of the podcast that
   * had no progress row when the loop started, insert a default one.
   */
  method FixMissingProgressEntries(podcasts: seq<Podcast>, podcastId: int, episodes: seq<Episode>,
                                   progresses: seq<EpisodeProgress>, now: Timestamp)
    returns (r: Result<(), AppError>, progressesOut: seq<EpisodeProgress>)
    ensures r.Err? <==> !PodcastExists(podcasts, podcastId)
    ensures r.Err? ==> r.error == Db(PodcastModel.NotFound) && progressesOut == progresses
    ensures r.Ok? ==>
      var ids := EpisodeIdsOf(episodes, podcastId);
      progressesOut == MissingInserted(progresses, ids, ProgressEpisodeIds(progresses, ids), now)
    ensures progresses <= progressesOut
    ensures r.Ok? ==> forall i :: 0 <= i < |episodes| && episodes[i].podcastId == podcastId ==>
      PodcastModel.HasProgress(progressesOut, episodes[i].id)
  {
    if !PodcastExists(podcasts, podcastId) {
      return Err(Db(PodcastModel.NotFound)), progresses;
    }
    var ids := EpisodeIdsOf(episodes, podcastId);
    var idsWithProgress := ProgressEpisodeIds(progresses, ids);
    progressesOut := progresses;
    var i := 0;
    while i < |ids|
      invariant 0 <= i <= |ids|
      invariant MissingInserted(progressesOut, ids[i..], idsWithProgress, now)
             == MissingInserted(progresses, ids, idsWithProgress, now)
    {
      var episodeId := ids[i];
      if episodeId !in idsWithProgress {
        progressesOut := progressesOut + [DefaultProgress(PodcastModel.NextProgressId(progressesOut), episodeId, now)];
      }
      assert ids[i..][1..] == ids[i + 1..];
      i := i + 1;
    }
    assert ids[i..] == [];
    MissingInsertedShape(progresses, ids, idsWithProgress, now);
    MissingInsertedCovers(progresses, ids, idsWithProgress, now);
    forall j | 0 <= j < |episodes| && episodes[j].podcastId == podcastId
      ensures PodcastModel.HasProgress(progressesOut, episodes[j].id)
    {
      assert episodes[j].id in ids;
    }
    r := Ok(());
  }

  /** Each appended row is a default row for an id of `ids` that the snapshot lacks. */
  lemma MissingInsertedAdds(rows: seq<EpisodeProgress>, ids: seq<int>, have: seq<int>, now: Timestamp)
    ensures var r := MissingInserted(rows, ids, have, now);
      forall k :: |rows| <= k < |r| ==>
        && r[k].episodeId in ids && r[k].episodeId !in have
        && !r[k].completed && r[k].listenedSeconds == 0 && r[k].updatedAt == now
  {
    var r := MissingInserted(rows, ids, have, now);
    var m := Missing(ids, have);
    MissingInsertedDefaults(rows, ids, have, now);
    forall k | |rows| <= k < |r|
      ensures r[k].episodeId in ids && r[k].episodeId !in have
      ensures !r[k].completed && r[k].listenedSeconds == 0 && r[k].updatedAt == now
    {
      var k' := k - |rows|;
      assert |rows| + k' == k;
      assert r[k] == DefaultProgress(r[k].id, m[k'], now);
      assert m[k'] in m;
    }
  }

  /**
   * An inserted row is a default row for an episode of the podcast that
   * had no progress row before the call.
   */
  lemma InsertedRowsWereMissing(progresses: seq<EpisodeProgress>, episodes: seq<Episode>, podcastId: int, now: Timestamp)
    ensures var ids := EpisodeIdsOf(episodes, podcastId);
      var r := MissingInserted(progresses, ids, ProgressEpisodeIds(progresses, ids), now);
      forall k :: |progresses| <= k < |r| ==>
        && r[k].episodeId in ids && !PodcastModel.HasProgress(progresses, r[k].episodeId)
        && !r[k].completed && r[k].listenedSeconds == 0 && r[k].updatedAt == now
  {
    var ids := EpisodeIdsOf(episodes, podcastId);
    MissingInsertedAdds(progresses, ids, ProgressEpisodeIds(progresses, ids), now);
  }

  // ---------------------------------------------------------------- find_last_played

  /** A row of the episodes ⋈ progresses ⋈ podcasts join. */
  datatype EpisodeWithPodcast = EpisodeWithPodcast(episode: Episode, progress: EpisodeProgress, podcast: Podcast)

  predicate Listened(row: EpisodeWithPodcast)
  {
    row.progress.listenedSeconds > 0
  }

  /**
   * The first row of `listened_seconds > 0 ORDER BY updated_at DESC`:
   * among the listened rows, the first one with the largest `updated_at`.
   */
  function NewestListened(rows: seq<EpisodeWithPodcast>): (r: Option<nat>)
    ensures r.None? <==> forall j :: 0 <= j < |rows| ==> !Listened(rows[j])
    ensures r.Some? ==> r.value < |rows| && Listened(rows[r.value])
    ensures r.Some? ==> forall j :: 0 <= j < |rows| && Listened(rows[j]) ==>
      rows[j].progress.updatedAt <= rows[r.value].progress.updatedAt
  {
    if rows == [] then None
    else
      var rest := NewestListened(rows[1..]);
      assert forall j :: 0 < j < |rows| ==> rows[j] == rows[1..][j - 1];
      if !Listened(rows[0]) then
        if rest.Some? then Some(rest.value + 1) else None
      else if rest.Some? && rows[rest.value + 1].progress.updatedAt > rows[0].progress.updatedAt then
        Some(rest.value + 1)
      else Some(0)
  }

  /** `find_last_played`: the newest listened row, dropped when it is completed. */
  function FindLastPlayed(rows: seq<EpisodeWithPodcast>): (r: Option<EpisodeWithPodcast>)
    ensures r.Some? ==> r.value in rows && Listened(r.value) && !r.value.progress.completed
    ensures r.Some? ==> forall j :: 0 <= j < |rows| && Listened(rows[j]) ==>
      rows[j].progress.updatedAt <= r.value.progress.updatedAt
    ensures (forall j :: 0 <= j < |rows| ==> !Listened(rows[j])) ==> r.None?
  {
    match NewestListened(rows)
      case None => None
      case Some(i) => if rows[i].progress.completed then None else Some(rows[i])
  }

  /**
   * No fall-back: when the newest listened row is completed there is no
   * last played episode, even if an older listened row is still open.
   */
  lemma NoFallbackPastCompleted(rows: seq<EpisodeWithPodcast>, i: nat)
    requires i < |rows| && Listened(rows[i]) && rows[i].progress.completed
    requires forall j :: 0 <= j < |rows| && j != i && Listened(rows[j]) ==>
      rows[j].progress.updatedAt < rows[i].progress.updatedAt
    ensures FindLastPlayed(rows) == None
  {
    assert NewestListened(rows) == Some(i);
  }

  /** A single open listened row with the newest timestamp is what is found. */
  lemma NewestOpenRowFound(rows: seq<EpisodeWithPodcast>, i: nat)
    requires i < |rows| && Listened(rows[i]) && !rows[i].progress.completed
    requires forall j :: 0 <= j < |rows| && j != i && Listened(rows[j]) ==>
      rows[j].progress.updatedAt < rows[i].progress.updatedAt
    ensures FindLastPlayed(rows) == Some(rows[i])
  {
    assert NewestListened(rows) == Some(i);
  }

  // ---------------------------------------------------------------- find_all_downloaded

  datatype EpisodeWithFileSize = EpisodeWithFileSize(episode: Episode, progress: EpisodeProgress, podcast: Podcast, fileSize: nat)

  /**
   * The `content_local_path != ""` filter and the `filter_map` that keeps
   * rows whose file opens; `sizes` maps each path that opens (and whose
   * metadata reads) to its length.
   */
  function OpenableDownloads(rows: seq<EpisodeWithPodcast>, sizes: map<string, nat>): (r: seq<EpisodeWithFileSize>)
    ensures |r| <= |rows|
    ensures forall k :: 0 <= k < |r| ==>
      && r[k].episode.contentLocalPath != ""
      && r[k].episode.contentLocalPath in sizes
      && r[k].fileSize == sizes[r[k].episode.contentLocalPath]
      && EpisodeWithPodcast(r[k].episode, r[k].progress, r[k].podcast) in rows
  {
    if rows == [] then []
    else
      var rest := OpenableDownloads(rows[1..], sizes);
      var path := rows[0].episode.contentLocalPath;
      if path != "" && path in sizes then
        [EpisodeWithFileSize(rows[0].episode, rows[0].progress, rows[0].podcast, sizes[path])] + rest
      else rest
  }

  /** A row with a non-empty path that opens is listed. */
  lemma {:induction false} OpenableDownloadsComplete(rows: seq<EpisodeWithPodcast>, sizes: map<string, nat>, i: nat)
    requires i < |rows|
    requires rows[i].episode.contentLocalPath != "" && rows[i].episode.contentLocalPath in sizes
    ensures EpisodeWithFileSize(rows[i].episode, rows[i].progress, rows[i].podcast, sizes[rows[i].episode.contentLocalPath])
            in OpenableDownloads(rows, sizes)
  {
    if i > 0 {
      assert rows[1..][i - 1] == rows[i];
      OpenableDownloadsComplete(rows[1..], sizes, i - 1);
    }
  }

  predicate SortedBySizeDesc(s: seq<EpisodeWithFileSize>)
  {
    forall i, j :: 0 <= i < j < |s| ==> s[i].fileSize >= s[j].fileSize
  }

  /** Puts `x` before the first element that is not larger, keeping equal sizes in their order. */
  function InsertBySize(x: EpisodeWithFileSize, s: seq<EpisodeWithFileSize>): (r: seq<EpisodeWithFileSize>)
    requires SortedBySizeDesc(s)
    ensures SortedBySizeDesc(r)
    ensures multiset(r) == multiset(s) + multiset{x}
  {
    if s == [] || s[0].fileSize <= x.fileSize then [x] + s
    else
      var rest := InsertBySize(x, s[1..]);
      assert [s[0]] + s[1..] == s;
      assert multiset(s[1..] + [x]) == multiset(s[1..]) + multiset{x};
      BoundedBySize(rest, s[1..] + [x], s[0].fileSize);
      ConsSortedBySize(s[0], rest);
      assert multiset([s[0]] + rest) == multiset{s[0]} + multiset(rest);
      [s[0]] + rest
  }

  lemma ConsSortedBySize(h: EpisodeWithFileSize, s: seq<EpisodeWithFileSize>)
    requires SortedBySizeDesc(s)
    requires forall k :: 0 <= k < |s| ==> s[k].fileSize <= h.fileSize
    ensures SortedBySizeDesc([h] + s)
  {
    var r := [h] + s;
    forall i, j | 0 <= i < j < |r|
      ensures r[i].fileSize >= r[j].fileSize
    {
      assert r[j] == s[j - 1];
      if i > 0 {
        assert r[i] == s[i - 1];
      }
    }
  }

  /** A rearrangement of elements no larger than `bound` has no element larger than `bound`. */
  lemma BoundedBySize(r: seq<EpisodeWithFileSize>, s: seq<EpisodeWithFileSize>, bound: nat)
    requires multiset(r) == multiset(s)
    requires forall k :: 0 <= k < |s| ==> s[k].fileSize <= bound
    ensures forall k :: 0 <= k < |r| ==> r[k].fileSize <= bound
  {
    forall k | 0 <= k < |r|
      ensures r[k].fileSize <= bound
    {
      assert r[k] in multiset(s);
      var m :| 0 <= m < |s| && s[m] == r[k];
    }
  }

  /** `sort_by_key(|k| Reverse(k.file_size))`: largest file first. */
  function SortBySizeDesc(s: seq<EpisodeWithFileSize>): (r: seq<EpisodeWithFileSize>)
    ensures SortedBySizeDesc(r)
    ensures multiset(r) == multiset(s)
  {
    if s == [] then []
    else
      assert [s[0]] + s[1..] == s;
      InsertBySize(s[0], SortBySizeDesc(s[1..]))
  }

  /** `find_all_downloaded`: the openable downloads, largest file first. */
  function FindAllDownloaded(rows: seq<EpisodeWithPodcast>, sizes: map<string, nat>): (r: seq<EpisodeWithFileSize>)
    ensures SortedBySizeDesc(r)
    ensures multiset(r) == multiset(OpenableDownloads(rows, sizes))
  {
    SortBySizeDesc(OpenableDownloads(rows, sizes))
  }

  /** A listed download is a joined row whose path is non-empty and opens, carrying that file's size. */
  lemma FindAllDownloadedSound(rows: seq<EpisodeWithPodcast>, sizes: map<string, nat>, d: EpisodeWithFileSize)
    requires d in FindAllDownloaded(rows, sizes)
    ensures d.episode.contentLocalPath != "" && d.episode.contentLocalPath in sizes
    ensures d.fileSize == sizes[d.episode.contentLocalPath]
    ensures EpisodeWithPodcast(d.episode, d.progress, d.podcast) in rows
  {
    var o := OpenableDownloads(rows, sizes);
    assert d in multiset(FindAllDownloaded(rows, sizes));
    assert d in multiset(o);
    var k :| 0 <= k < |o| && o[k] == d;
  }

  /** Every joined row with a non-empty path that opens is listed. */
  lemma FindAllDownloadedComplete(rows: seq<EpisodeWithPodcast>, sizes: map<string, nat>, i: nat)
    requires i < |rows|
    requires rows[i].episode.contentLocalPath != "" && rows[i].episode.contentLocalPath in sizes
    ensures EpisodeWithFileSize(rows[i].episode, rows[i].progress, rows[i].podcast, sizes[rows[i].episode.contentLocalPath])
            in FindAllDownloaded(rows, sizes)
  {
    var d := EpisodeWithFileSize(rows[i].episode, rows[i].progress, rows[i].podcast, sizes[rows[i].episode.contentLocalPath]);
    OpenableDownloadsComplete(rows, sizes, i);
    assert d in multiset(OpenableDownloads(rows, sizes));
    assert d in multiset(FindAllDownloaded(rows, sizes));
  }

  // ---------------------------------------------------------------- mark_as_complete / mark_as_not_complete

  /** `find_one_progress`: the first progress row of the episode. */
  function FindOneProgress(rows: seq<EpisodeProgress>, episodeId: int): (r: Result<EpisodeProgress, PodcastModel.DbError>)
    ensures r.Ok? <==> PodcastModel.HasProgress(rows, episodeId)
    ensures r.Ok? ==> r.value in rows && r.value.episodeId == episodeId
  {
    if rows == [] then Err(PodcastModel.NotFound)
    else if rows[0].episodeId == episodeId then Ok(rows[0])
    else
      var rest := FindOneProgress(rows[1..], episodeId);
      assert PodcastModel.HasProgress(rows, episodeId) <==> PodcastModel.HasProgress(rows[1..], episodeId) by {
        if PodcastModel.HasProgress(rows, episodeId) {
          var i :| 0 <= i < |rows| && rows[i].episodeId == episodeId;
          assert rows[1..][i - 1] == rows[i];
        }
        if PodcastModel.HasProgress(rows[1..], episodeId) {
          var i :| 0 <= i < |rows[1..]| && rows[1..][i].episodeId == episodeId;
          assert rows[i + 1] == rows[1..][i];
        }
      }
      rest
  }

  /** The `UPDATE ... WHERE episode_id = ?` both mark operations run: `completed`, optionally `listened_seconds = 0`, and `updated_at`. */
  function MarkRows(rows: seq<EpisodeProgress>, episodeId: int, completed: bool, resetListened: bool, now: Timestamp): (r: seq<EpisodeProgress>)
    ensures |r| == |rows|
    ensures forall i :: 0 <= i < |rows| && rows[i].episodeId != episodeId ==> r[i] == rows[i]
    ensures forall i :: 0 <= i < |rows| && rows[i].episodeId == episodeId ==>
      && r[i].id == rows[i].id && r[i].episodeId == episodeId
      && r[i].completed == completed && r[i].updatedAt == now
      && r[i].listenedSeconds == (if resetListened then 0 else rows[i].listenedSeconds)
  {
    seq(|rows|, i requires 0 <= i < |rows| =>
      if rows[i].episodeId != episodeId then rows[i]
      else if resetListened then rows[i].(completed := completed, listenedSeconds := 0, updatedAt := now)
      else rows[i].(completed := completed, updatedAt := now))
  }

  /** `mark_as_complete`: every progress row of the episode completed; returns the first row's id. */
  function MarkAsComplete(rows: seq<EpisodeProgress>, episodeId: int, now: Timestamp)
    : (r: (Result<int, AppError>, seq<EpisodeProgress>))
    ensures r.1 == MarkRows(rows, episodeId, true, false, now)
    ensures r.0.Err? <==> !PodcastModel.HasProgress(rows, episodeId)
  {
    var updated := MarkRows(rows, episodeId, true, false, now);
    MarkRowsKeepsPresence(rows, episodeId, true, false, now);
    match FindOneProgress(updated, episodeId)
      case Ok(p) => (Ok(p.id), updated)
      case Err(e) => (Err(Db(e)), updated)
  }

  /** `mark_as_not_complete`: every progress row of the episode reset to not started. */
  function MarkAsNotComplete(rows: seq<EpisodeProgress>, episodeId: int, now: Timestamp)
    : (r: (Result<int, AppError>, seq<EpisodeProgress>))
    ensures r.1 == MarkRows(rows, episodeId, false, true, now)
    ensures r.0.Err? <==> !PodcastModel.HasProgress(rows, episodeId)
  {
    var updated := MarkRows(rows, episodeId, false, true, now);
    MarkRowsKeepsPresence(rows, episodeId, false, true, now);
    match FindOneProgress(updated, episodeId)
      case Ok(p) => (Ok(p.id), updated)
      case Err(e) => (Err(Db(e)), updated)
  }

  /** Marking never adds or removes rows, so whether the episode has a row is unchanged. */
  lemma MarkRowsKeepsPresence(rows: seq<EpisodeProgress>, episodeId: int, completed: bool, resetListened: bool, now: Timestamp)
    ensures PodcastModel.HasProgress(MarkRows(rows, episodeId, completed, resetListened, now), episodeId)
        <==> PodcastModel.HasProgress(rows, episodeId)
  {
    var r := MarkRows(rows, episodeId, completed, resetListened, now);
    if PodcastModel.HasProgress(rows, episodeId) {
      var i :| 0 <= i < |rows| && rows[i].episodeId == episodeId;
      assert r[i].episodeId == episodeId;
    }
    if PodcastModel.HasProgress(r, episodeId) {
      var i :| 0 <= i < |r| && r[i].episodeId == episodeId;
      assert rows[i].episodeId == episodeId;
    }
  }

  /** The id returned is that of the episode's first progress row, which marking does not move. */
  lemma MarkReturnsFirstRowId(rows: seq<EpisodeProgress>, episodeId: int, now: Timestamp)
    requires PodcastModel.HasProgress(rows, episodeId)
    ensures MarkAsComplete(rows, episodeId, now).0 == Ok(FindOneProgress(rows, episodeId).value.id)
    ensures MarkAsNotComplete(rows, episodeId, now).0 == Ok(FindOneProgress(rows, episodeId).value.id)
  {
    MarkFirstRowId(rows, episodeId, true, false, now);
    MarkFirstRowId(rows, episodeId, false, true, now);
  }

  lemma {:induction false} MarkFirstRowId(rows: seq<EpisodeProgress>, episodeId: int, completed: bool, resetListened: bool, now: Timestamp)
    requires PodcastModel.HasProgress(rows, episodeId)
    ensures FindOneProgress(MarkRows(rows, episodeId, completed, resetListened, now), episodeId).Ok?
    ensures FindOneProgress(MarkRows(rows, episodeId, completed, resetListened, now), episodeId).value.id
         == FindOneProgress(rows, episodeId).value.id
  {
    var r := MarkRows(rows, episodeId, completed, resetListened, now);
    MarkRowsKeepsPresence(rows, episodeId, completed, resetListened, now);
    if rows[0].episodeId != episodeId {
      assert PodcastModel.HasProgress(rows[1..], episodeId) by {
        var i :| 0 <= i < |rows| && rows[i].episodeId == episodeId;
        assert rows[1..][i - 1] == rows[i];
      }
      MarkFirstRowId(rows[1..], episodeId, completed, resetListened, now);
      assert r[1..] == MarkRows(rows[1..], episodeId, completed, resetListened, now);
    }
  }

  // ---------------------------------------------------------------- erase_downloaded_file

  /** `find_one`: the first episode row with the id. */
  function FindOneEpisode(episodes: seq<Episode>, id: int): (r: Option<nat>)
    ensures r.Some? ==> r.value < |episodes| && episodes[r.value].id == id
    ensures r.None? <==> forall i :: 0 <= i < |episodes| ==> episodes[i].id != id
  {
    if episodes == [] then None
    else if episodes[0].id == id then Some(0)
    else
      var rest := FindOneEpisode(episodes[1..], id);
      assert forall i :: 0 < i < |episodes| ==> episodes[i] == episodes[1..][i - 1];
      if rest.Some? then Some(rest.value + 1) else None
  }

  /**
   * `erase_downloaded_file`. `fileExists` is `path.exists()` and
   * `removeOk` whether `fs::remove_file` succeeds. The table is the same
   * unless the path of every row with the id is cleared.
   */
  function EraseDownloadedFile(episodes: seq<Episode>, id: int, fileExists: bool, removeOk: bool)
    : (r: (Result<(), AppError>, seq<Episode>))
    ensures FindOneEpisode(episodes, id).None? ==> r == (Err(Db(PodcastModel.NotFound)), episodes)
    ensures FindOneEpisode(episodes, id).Some? && episodes[FindOneEpisode(episodes, id).value].contentLocalPath == "" ==>
      r == (Ok(()), episodes)
    ensures r.0.Err? ==> r.1 == episodes
    ensures r.0 == Err(Io) <==>
      (FindOneEpisode(episodes, id).Some?
       && episodes[FindOneEpisode(episodes, id).value].contentLocalPath != "" && fileExists && !removeOk)
    ensures r.0.Ok? && r.1 != episodes ==> r.1 == ClearPath(episodes, id)
    ensures (FindOneEpisode(episodes, id).Some? && episodes[FindOneEpisode(episodes, id).value].contentLocalPath != ""
             && !(fileExists && !removeOk)) ==> r == (Ok(()), ClearPath(episodes, id))
  {
    match FindOneEpisode(episodes, id)
      case None => (Err(Db(PodcastModel.NotFound)), episodes)
      case Some(i) =>
        if episodes[i].contentLocalPath == "" then (Ok(()), episodes)
        else if fileExists && !removeOk then (Err(Io), episodes)
        else
          (Ok(()), ClearPath(episodes, id))
  }

  /** The `UPDATE episodes SET content_local_path = '' WHERE id = ?`. */
  function ClearPath(episodes: seq<Episode>, id: int): (r: seq<Episode>)
    ensures |r| == |episodes|
    ensures forall i :: 0 <= i < |episodes| ==>
      r[i] == (if episodes[i].id == id then episodes[i].(contentLocalPath := "") else episodes[i])
  {
    seq(|episodes|, i requires 0 <= i < |episodes| =>
      if episodes[i].id == id then episodes[i].(contentLocalPath := "") else episodes[i])
  }

  /** Erasing twice is the same as erasing once: the second call finds an empty path and does nothing. */
  lemma EraseIdempotent(episodes: seq<Episode>, id: int, fileExists: bool, removeOk: bool, exists2: bool, remove2: bool)
    requires EraseDownloadedFile(episodes, id, fileExists, removeOk).0.Ok?
    ensures var once := EraseDownloadedFile(episodes, id, fileExists, removeOk).1;
      EraseDownloadedFile(once, id, exists2, remove2) == (Ok(()), once)
  {
    var once := EraseDownloadedFile(episodes, id, fileExists, removeOk).1;
    var f := FindOneEpisode(episodes, id);
    var g := FindOneEpisode(once, id);
    assert f.Some?;
    assert g.Some? by {
      assert once[f.value].id == id;
    }
    assert once[g.value].contentLocalPath == "";
  }
}
