/**
 * The server's `update_progress`: a guarded UPDATE of the podcast_episodes
 * table, with the table modelled as a map from row id to row and the
 * podcasts table as a list searched in order.
 */
module ServerProgress {
  import opened Wrappers
  import opened Entities

  /** The columns of a server podcast row that the update reads. */
  datatype ServerPodcast = ServerPodcast(id: int, userId: int, guid: string, url: string)

  /** A row of the server's podcast_episodes table. */
  datatype EpisodeRow = EpisodeRow(
    id: int,
    podcastId: int,
    guid: string,
    url: string,
    listenedSeconds: int,
    completed: bool,
    updatedAt: Timestamp)

  datatype SaveResult = Saved | NotSaved

  /** The database errors the handler can see; only "no such podcast" is modelled. */
  datatype DbError = NotFound

  /** The first podcast of `userId` with the given guid (`.filter(..).limit(1).first()`). */
  function FindPodcast(podcasts: seq<ServerPodcast>, userId: int, guid: string): (r: Option<ServerPodcast>)
    ensures r.Some? ==> r.value in podcasts && r.value.userId == userId && r.value.guid == guid
    ensures r.None? <==> (forall p :: p in podcasts ==> !(p.userId == userId && p.guid == guid))
  {
    if podcasts == [] then None
    else if podcasts[0].userId == userId && podcasts[0].guid == guid then Some(podcasts[0])
    else FindPodcast(podcasts[1..], userId, guid)
  }

  /** The UPDATE's filter: the episode of that podcast with that guid, stored strictly older than the request. */
  predicate Targets(row: EpisodeRow, podcastId: int, request: ProgressUpdateRequest)
  {
    row.podcastId == podcastId && row.guid == request.episodeGuid && row.updatedAt < request.updatedAt
  }

  /** The UPDATE's SET clause. */
  function Applied(row: EpisodeRow, request: ProgressUpdateRequest): EpisodeRow
  {
    row.(listenedSeconds := request.listenedSeconds, completed := request.completed, updatedAt := request.updatedAt)
  }

  function GuardedUpdate(rows: map<int, EpisodeRow>, podcastId: int, request: ProgressUpdateRequest): (r: map<int, EpisodeRow>)
    ensures r.Keys == rows.Keys
  {
    map k | k in rows :: if Targets(rows[k], podcastId, request) then Applied(rows[k], request) else rows[k]
  }

  /** The number of rows the UPDATE affects. */
  function AffectedCount(rows: map<int, EpisodeRow>, podcastId: int, request: ProgressUpdateRequest): nat
  {
    |set k | k in rows && Targets(rows[k], podcastId, request)|
  }

  /** `SaveResult` from the affected-row count. */
  function SaveResultOf(count: nat): SaveResult
  {
    if count > 0 then Saved else NotSaved
  }

  /** `update_progress`: the outcome and the new episodes table. */
  function UpdateProgress(podcasts: seq<ServerPodcast>, rows: map<int, EpisodeRow>, userId: int,
                          request: ProgressUpdateRequest): (r: (Result<SaveResult, DbError>, map<int, EpisodeRow>))
    ensures r.1.Keys == rows.Keys
    ensures r.0.Err? <==> FindPodcast(podcasts, userId, request.podcastGuid).None?
    ensures r.0.Err? ==> r.1 == rows
  {
    match FindPodcast(podcasts, userId, request.podcastGuid)
      case None => (Err(NotFound), rows)
      case Some(podcast) =>
        (Ok(SaveResultOf(AffectedCount(rows, podcast.id, request))), GuardedUpdate(rows, podcast.id, request))
  }

  /** An updated row carries the request's three values and keeps its identity columns. */
  lemma UpdateSetsRequestValues(podcasts: seq<ServerPodcast>, rows: map<int, EpisodeRow>, userId: int,
                                request: ProgressUpdateRequest, k: int)
    requires k in rows
    requires FindPodcast(podcasts, userId, request.podcastGuid).Some?
    requires Targets(rows[k], FindPodcast(podcasts, userId, request.podcastGuid).value.id, request)
    ensures var row := UpdateProgress(podcasts, rows, userId, request).1[k];
      && row.listenedSeconds == request.listenedSeconds
      && row.completed == request.completed
      && row.updatedAt == request.updatedAt
      && row.id == rows[k].id && row.podcastId == rows[k].podcastId
      && row.guid == rows[k].guid && row.url == rows[k].url
  {
  }

  /**
   * Only the episode with the request's guid, under that user's podcast, and
   * stored with an older timestamp, changes.
   */
  lemma UpdateTouchesOnlyTarget(podcasts: seq<ServerPodcast>, rows: map<int, EpisodeRow>, userId: int,
                                request: ProgressUpdateRequest, k: int)
    requires k in rows
    requires UpdateProgress(podcasts, rows, userId, request).1[k] != rows[k]
    ensures rows[k].guid == request.episodeGuid
    ensures rows[k].updatedAt < request.updatedAt
    ensures exists p :: p in podcasts && p.userId == userId && p.guid == request.podcastGuid && p.id == rows[k].podcastId
  {
    var p := FindPodcast(podcasts, userId, request.podcastGuid).value;
    assert Targets(rows[k], p.id, request);
  }

  /** The result is Saved exactly when some row passes the filter. */
  lemma SavedIffSomeRowMatches(podcasts: seq<ServerPodcast>, rows: map<int, EpisodeRow>, userId: int,
                               request: ProgressUpdateRequest)
    requires FindPodcast(podcasts, userId, request.podcastGuid).Some?
    ensures var pid := FindPodcast(podcasts, userId, request.podcastGuid).value.id;
      UpdateProgress(podcasts, rows, userId, request).0 == Ok(Saved) <==>
      exists k :: k in rows && Targets(rows[k], pid, request)
  {
    var pid := FindPodcast(podcasts, userId, request.podcastGuid).value.id;
    var hits := set k | k in rows && Targets(rows[k], pid, request);
    if exists k :: k in rows && Targets(rows[k], pid, request) {
      var k :| k in rows && Targets(rows[k], pid, request);
      assert k in hits;
    } else {
      assert hits == {};
    }
  }

  /** A request no newer than the stored row is NotSaved and leaves the table as it was. */
  lemma OlderRequestNotSaved(podcasts: seq<ServerPodcast>, rows: map<int, EpisodeRow>, userId: int,
                             request: ProgressUpdateRequest)
    requires FindPodcast(podcasts, userId, request.podcastGuid).Some?
    requires forall k :: k in rows && rows[k].guid == request.episodeGuid ==> rows[k].updatedAt >= request.updatedAt
    ensures UpdateProgress(podcasts, rows, userId, request) == (Ok(NotSaved), rows)
  {
    var pid := FindPodcast(podcasts, userId, request.podcastGuid).value.id;
    forall k | k in rows ensures !Targets(rows[k], pid, request) {
      if rows[k].guid == request.episodeGuid {
        assert rows[k].updatedAt >= request.updatedAt;
      }
    }
    var hits := set k | k in rows && Targets(rows[k], pid, request);
    assert hits == {};
    assert GuardedUpdate(rows, pid, request) == rows;
  }
}
