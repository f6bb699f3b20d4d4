/**
 * The rows of the desktop client's local database (podcasts, episodes,
 * episode_progresses). A `NaiveDateTime` is an integer count of
 * nanoseconds; an `i32` column is an `int` kept in the 32-bit range by
 * the code that writes it.
 */
module Entities {
  import opened Wrappers

  type Timestamp = int

  datatype Podcast = Podcast(
    id: int,
    guid: string,
    author: string,
    localImagePath: string,
    imageUrl: string,
    feedUrl: string,
    name: string,
    description: string,
    createdAt: Timestamp,
    updatedAt: Timestamp,
    deletedAt: Option<Timestamp>)

  datatype Episode = Episode(
    id: int,
    guid: string,
    podcastId: int,
    contentLocalPath: string,
    contentUrl: string,
    description: string,
    imageLocalPath: string,
    imageUrl: string,
    length: int,
    link: string,
    episodeDate: Timestamp,
    title: string)

  datatype EpisodeProgress = EpisodeProgress(
    id: int,
    episodeId: int,
    completed: bool,
    listenedSeconds: int,
    updatedAt: Timestamp)

  datatype EpisodeWithProgress = EpisodeWithProgress(episode: Episode, progress: EpisodeProgress)

  /** What the player broadcasts on "player-status" and keeps as its latest status. */
  datatype PlayerStatus = PlayerStatus(
    isPaused: bool,
    episode: Option<Episode>,
    podcast: Option<Podcast>,
    elapsed: int,
    duration: int,
    loading: bool)

  /** The progress report a client sends to the server (shared between client and server). */
  datatype ProgressUpdateRequest = ProgressUpdateRequest(
    podcastGuid: string,
    episodeGuid: string,
    listenedSeconds: int,
    completed: bool,
    updatedAt: Timestamp)

  /** Front-end routes the back end can navigate to. */
  datatype AppRoute = Home | PodcastPage(id: int) | EpisodePage(id: int) | Settings | Podcasts | Downloads
}
