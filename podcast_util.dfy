/**
 * Image selection in the front end: a downloaded image is served through
 * the `localimages://` protocol, keyed by the row id; otherwise the remote
 * URL is used, and an episode without any image of its own shows its
 * podcast's.
 */
module PodcastUtil {
  import opened Wrappers
  import opened Entities
  import opened Decimal

  const PodcastPrefix: string := "localimages://podcast/"
  const EpisodePrefix: string := "localimages://episode/"

  /** `imageUrl`. */
  function ImageUrl(podcast: Podcast): (r: string)
    ensures |podcast.localImagePath| != 0 ==> r == PodcastPrefix + IntToString(podcast.id)
    ensures |podcast.localImagePath| == 0 ==> r == podcast.imageUrl
  {
    if |podcast.localImagePath| != 0 then PodcastPrefix + IntToString(podcast.id) else podcast.imageUrl
  }

  /** `episodeImage`: local episode image, else the episode's URL, else the podcast's image. */
  function EpisodeImage(episode: Episode, podcast: Podcast): (r: string)
    ensures |episode.imageLocalPath| != 0 ==> r == EpisodePrefix + IntToString(episode.id)
    ensures |episode.imageLocalPath| == 0 && |episode.imageUrl| != 0 ==> r == episode.imageUrl
    ensures |episode.imageLocalPath| == 0 && |episode.imageUrl| == 0 ==> r == ImageUrl(podcast)
  {
    if |episode.imageLocalPath| != 0 then EpisodePrefix + IntToString(episode.id)
    else if |episode.imageUrl| != 0 then episode.imageUrl
    else ImageUrl(podcast)
  }

  datatype LocalImage = PodcastImage(podcastId: int) | EpisodeImageOf(episodeId: int)

  /** What a `localimages://` URL refers to: the reading the image protocol gives it. */
  function LocalImageTarget(url: string): Option<LocalImage>
  {
    if PodcastPrefix <= url then
      match ParseInt(url[|PodcastPrefix|..])
        case Some(id) => Some(PodcastImage(id))
        case None => None
    else if EpisodePrefix <= url then
      match ParseInt(url[|EpisodePrefix|..])
        case Some(id) => Some(EpisodeImageOf(id))
        case None => None
    else None
  }

  /** A local podcast image URL names exactly its own podcast. */
  lemma PodcastLocalUrlIdentifies(podcast: Podcast)
    requires |podcast.localImagePath| != 0
    ensures LocalImageTarget(ImageUrl(podcast)) == Some(PodcastImage(podcast.id))
  {
    var url := ImageUrl(podcast);
    assert url[..|PodcastPrefix|] == PodcastPrefix;
    assert url[|PodcastPrefix|..] == IntToString(podcast.id);
    IntRoundTrip(podcast.id);
  }

  /** A local episode image URL names exactly its own episode, never a podcast. */
  lemma EpisodeLocalUrlIdentifies(episode: Episode, podcast: Podcast)
    requires |episode.imageLocalPath| != 0
    ensures LocalImageTarget(EpisodeImage(episode, podcast)) == Some(EpisodeImageOf(episode.id))
  {
    var url := EpisodeImage(episode, podcast);
    assert url[..|EpisodePrefix|] == EpisodePrefix;
    assert url[|EpisodePrefix|..] == IntToString(episode.id);
    assert url[14] == 'e' && PodcastPrefix[14] == 'p';
    IntRoundTrip(episode.id);
  }
}
