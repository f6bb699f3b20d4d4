/** The desktop client's conversions from local rows to the sync payloads it sends to the server. */
module BackendModels {
  import opened Wrappers
  import opened Entities

  datatype SyncPodcast = SyncPodcast(guid: string, url: string, deletedAt: Option<Timestamp>, updatedAt: Timestamp)

  datatype SyncPodcastEpisode = SyncPodcastEpisode(
    guid: string,
    url: string,
    listenedSeconds: int,
    completed: bool,
    updatedAt: Timestamp)

  /** `From<Podcast> for SyncPodcast`: guid and updated_at kept, the feed url as url, never deleted. */
  function SyncPodcastFrom(p: Podcast): (r: SyncPodcast)
    ensures r.guid == p.guid && r.url == p.feedUrl && r.updatedAt == p.updatedAt
    ensures r.deletedAt == None
  {
    SyncPodcast(p.guid, p.feedUrl, None, p.updatedAt)
  }

  /** `From<EpisodeWithProgress> for SyncPodcastEpisode`: identity from the episode, state from the progress. */
  function SyncEpisodeFrom(e: EpisodeWithProgress): (r: SyncPodcastEpisode)
    ensures r.guid == e.episode.guid && r.url == e.episode.contentUrl
    ensures r.listenedSeconds == e.progress.listenedSeconds && r.completed == e.progress.completed
    ensures r.updatedAt == e.progress.updatedAt
  {
    SyncPodcastEpisode(e.episode.guid, e.episode.contentUrl, e.progress.listenedSeconds,
                       e.progress.completed, e.progress.updatedAt)
  }

  /** The podcast conversion reads only guid, feed url and updated_at (a soft delete is not sent). */
  lemma SyncPodcastReadsOnly(p: Podcast, q: Podcast)
    requires p.guid == q.guid && p.feedUrl == q.feedUrl && p.updatedAt == q.updatedAt
    ensures SyncPodcastFrom(p) == SyncPodcastFrom(q)
  {
  }

  /** The episode conversion reads only guid and content url of the episode and the three progress columns. */
  lemma SyncEpisodeReadsOnly(a: EpisodeWithProgress, b: EpisodeWithProgress)
    requires a.episode.guid == b.episode.guid && a.episode.contentUrl == b.episode.contentUrl
    requires a.progress.listenedSeconds == b.progress.listenedSeconds
    requires a.progress.completed == b.progress.completed && a.progress.updatedAt == b.progress.updatedAt
    ensures SyncEpisodeFrom(a) == SyncEpisodeFrom(b)
  {
  }
}
