/**
 * Cache invalidation keys the desktop client emits on the
 * "invalidate-cache" event after a database change: each entity change
 * maps to the list of front-end query keys it makes stale.
 */
module FrontendChangeTracking {
  import opened Wrappers
  import opened Decimal

  datatype EntityChange =
    | AllPodcasts
    | Podcast(id: int)
    | PodcastEpisodes(id: int)
    | Episode(id: int)
    | EpisodeProgress(id: int)
    | AllDownloads
    | AllEpisodes

  /** `cache_strings`. */
  function CacheStrings(change: EntityChange): (keys: seq<string>)
    ensures 1 <= |keys| <= 2
    ensures |keys| == 2 <==> change.AllPodcasts? || change.Podcast? || change.PodcastEpisodes? || change.Episode?
    ensures |keys| == 2 ==> keys[1] == "podcastStats"
  {
    match change
      case AllPodcasts => ["allPodcasts", "podcastStats"]
      case Podcast(id) => ["podcast-" + IntToString(id), "podcastStats"]
      case PodcastEpisodes(id) => ["podcast-" + IntToString(id), "podcastStats"]
      case Episode(id) => ["episode-" + IntToString(id), "podcastStats"]
      case EpisodeProgress(id) => ["episodeProgress-" + IntToString(id)]
      case AllDownloads => ["allDownloads"]
      case AllEpisodes => ["allEpisodes"]
  }

  /** The change a key list stands for, with `PodcastEpisodes` folded into `Podcast`. */
  function Canonical(change: EntityChange): EntityChange
  {
    if change.PodcastEpisodes? then Podcast(change.id) else change
  }

  function IdAfter(prefix: string, key: string): Option<int>
    requires prefix <= key
  {
    ParseInt(key[|prefix|..])
  }

  /** Reads the first key of a list back into the (canonical) change. */
  function ParseFirstKey(key: string): Option<EntityChange>
  {
    if key == "allPodcasts" then Some(AllPodcasts)
    else if key == "allDownloads" then Some(AllDownloads)
    else if key == "allEpisodes" then Some(AllEpisodes)
    else if "podcast-" <= key then
      (match IdAfter("podcast-", key) case Some(id) => Some(Podcast(id)) case None => None)
    else if "episode-" <= key then
      (match IdAfter("episode-", key) case Some(id) => Some(Episode(id)) case None => None)
    else if "episodeProgress-" <= key then
      (match IdAfter("episodeProgress-", key) case Some(id) => Some(EpisodeProgress(id)) case None => None)
    else None
  }

  lemma SuffixAfter(prefix: string, id: int)
    ensures prefix <= prefix + IntToString(id)
    ensures (prefix + IntToString(id))[|prefix|..] == IntToString(id)
    ensures ParseInt((prefix + IntToString(id))[|prefix|..]) == Some(id)
  {
    IntRoundTrip(id);
  }

  lemma ParsePodcastKey(id: int)
    ensures ParseFirstKey("podcast-" + IntToString(id)) == Some(Podcast(id))
  {
    var key := "podcast-" + IntToString(id);
    assert key[0] == 'p';
    SuffixAfter("podcast-", id);
  }

  lemma ParseEpisodeKey(id: int)
    ensures ParseFirstKey("episode-" + IntToString(id)) == Some(Episode(id))
  {
    var key := "episode-" + IntToString(id);
    assert key[0] == 'e';
    assert !("podcast-" <= key);
    SuffixAfter("episode-", id);
  }

  lemma ParseEpisodeProgressKey(id: int)
    ensures ParseFirstKey("episodeProgress-" + IntToString(id)) == Some(EpisodeProgress(id))
  {
    var key := "episodeProgress-" + IntToString(id);
    assert key[0] == 'e' && key[7] == 'P';
    assert !("podcast-" <= key);
    assert !("episode-" <= key);
    SuffixAfter("episodeProgress-", id);
  }

  /** The first key of every list names its change. */
  lemma FirstKeyRoundTrip(change: EntityChange)
    ensures ParseFirstKey(CacheStrings(change)[0]) == Some(Canonical(change))
  {
    match change
      case AllPodcasts =>
      case AllDownloads =>
      case AllEpisodes =>
      case Podcast(id) => ParsePodcastKey(id);
      case PodcastEpisodes(id) => ParsePodcastKey(id);
      case Episode(id) => ParseEpisodeKey(id);
      case EpisodeProgress(id) => ParseEpisodeProgressKey(id);
  }

  /**
   * Two changes invalidate the same keys only if they are equal, or are
   * `Podcast(id)` and `PodcastEpisodes(id)` for the same id, which the
   * desktop client deliberately folds together.
   */
  lemma CacheStringsCollisions(a: EntityChange, b: EntityChange)
    requires CacheStrings(a) == CacheStrings(b)
    ensures a == b || ((a.Podcast? || a.PodcastEpisodes?) && (b.Podcast? || b.PodcastEpisodes?) && a.id == b.id)
  {
    FirstKeyRoundTrip(a);
    FirstKeyRoundTrip(b);
  }

  /**
   * `send_invalidate_cache`: emits the keys in list order and stops at the
   * first emit that fails. `emitOk` says which emits the front end accepts;
   * `attempted` lists the keys whose emit was tried.
   */
  method SendInvalidateCache(change: EntityChange, emitOk: string -> bool)
    returns (attempted: seq<string>, r: Result<(), string>)
    ensures attempted <= CacheStrings(change)
    ensures r.Ok? <==> forall k :: k in CacheStrings(change) ==> emitOk(k)
    ensures r.Ok? ==> attempted == CacheStrings(change)
    ensures r.Err? ==> |attempted| > 0 && !emitOk(attempted[|attempted| - 1])
    ensures forall j :: 0 <= j < |attempted| - 1 ==> emitOk(attempted[j])
  {
    var keys := CacheStrings(change);
    attempted := [];
    var i := 0;
    while i < |keys|
      invariant 0 <= i <= |keys|
      invariant attempted == keys[..i]
      invariant forall j :: 0 <= j < i ==> emitOk(keys[j])
    {
      attempted := attempted + [keys[i]];
      if !emitOk(keys[i]) {
        assert keys[i] in keys;
        return attempted, Err("emit failed");
      }
      i := i + 1;
    }
    assert attempted == keys;
    return attempted, Ok(());
  }
}

/**
 * The older client's invalidation keys: one key per change, with the id
 * printed in decimal after a fixed prefix.
 */
module LegacyChangeTracking {
  import opened Wrappers
  import opened Decimal

  datatype EntityChange =
    | AllPodcasts
    | Podcast(id: int)
    | PodcastEpisodes(id: int)
    | Episode(id: int)
    | EpisodeProgress(id: int)

  /** `From<EntityChange> for String`. */
  function CacheKey(change: EntityChange): string
  {
    match change
      case AllPodcasts => "allPodcasts"
      case Podcast(id) => "podcast-" + IntToString(id)
      case PodcastEpisodes(id) => "podcastEpisodes-" + IntToString(id)
      case Episode(id) => "episode-" + IntToString(id)
      case EpisodeProgress(id) => "episodeProgress-" + IntToString(id)
  }

  function IdAfter(prefix: string, key: string): Option<int>
    requires prefix <= key
  {
    ParseInt(key[|prefix|..])
  }

  /** Reads a key back into the change it names. */
  function ParseCacheKey(key: string): Option<EntityChange>
  {
    if key == "allPodcasts" then Some(AllPodcasts)
    else if "podcast-" <= key then
      (match IdAfter("podcast-", key) case Some(id) => Some(Podcast(id)) case None => None)
    else if "podcastEpisodes-" <= key then
      (match IdAfter("podcastEpisodes-", key) case Some(id) => Some(PodcastEpisodes(id)) case None => None)
    else if "episode-" <= key then
      (match IdAfter("episode-", key) case Some(id) => Some(Episode(id)) case None => None)
    else if "episodeProgress-" <= key then
      (match IdAfter("episodeProgress-", key) case Some(id) => Some(EpisodeProgress(id)) case None => None)
    else None
  }

  lemma SuffixAfter(prefix: string, id: int)
    ensures prefix <= prefix + IntToString(id)
    ensures (prefix + IntToString(id))[|prefix|..] == IntToString(id)
    ensures ParseInt((prefix + IntToString(id))[|prefix|..]) == Some(id)
  {
    IntRoundTrip(id);
  }

  lemma ParsePodcastKey(id: int)
    ensures ParseCacheKey("podcast-" + IntToString(id)) == Some(Podcast(id))
  {
    var key := "podcast-" + IntToString(id);
    assert key[0] == 'p';
    SuffixAfter("podcast-", id);
  }

  lemma ParsePodcastEpisodesKey(id: int)
    ensures ParseCacheKey("podcastEpisodes-" + IntToString(id)) == Some(PodcastEpisodes(id))
  {
    var key := "podcastEpisodes-" + IntToString(id);
    assert key[0] == 'p' && key[7] == 'E';
    assert !("podcast-" <= key);
    SuffixAfter("podcastEpisodes-", id);
  }

  lemma ParseEpisodeKey(id: int)
    ensures ParseCacheKey("episode-" + IntToString(id)) == Some(Episode(id))
  {
    var key := "episode-" + IntToString(id);
    assert key[0] == 'e';
    assert !("podcast-" <= key);
    assert !("podcastEpisodes-" <= key);
    SuffixAfter("episode-", id);
  }

  lemma ParseEpisodeProgressKey(id: int)
    ensures ParseCacheKey("episodeProgress-" + IntToString(id)) == Some(EpisodeProgress(id))
  {
    var key := "episodeProgress-" + IntToString(id);
    assert key[0] == 'e' && key[7] == 'P';
    assert !("podcast-" <= key);
    assert !("podcastEpisodes-" <= key);
    assert !("episode-" <= key);
    SuffixAfter("episodeProgress-", id);
  }

  /** The key determines the variant and the id. */
  lemma CacheKeyRoundTrip(change: EntityChange)
    ensures ParseCacheKey(CacheKey(change)) == Some(change)
  {
    match change
      case AllPodcasts =>
      case Podcast(id) => ParsePodcastKey(id);
      case PodcastEpisodes(id) => ParsePodcastEpisodesKey(id);
      case Episode(id) => ParseEpisodeKey(id);
      case EpisodeProgress(id) => ParseEpisodeProgressKey(id);
  }

  /** Distinct changes produce distinct keys. */
  lemma CacheKeyInjective(a: EntityChange, b: EntityChange)
    ensures CacheKey(a) == CacheKey(b) ==> a == b
  {
    CacheKeyRoundTrip(a);
    CacheKeyRoundTrip(b);
  }

  /**
   * `send_invalidate_cache`: exactly one "invalidate-cache" event carrying
   * the key; the call fails exactly when that emit fails.
   */
  function SendInvalidateCache(change: EntityChange, emitOk: string -> bool): (r: (seq<string>, Result<(), string>))
    ensures r.0 == [CacheKey(change)]
    ensures r.1.Ok? <==> emitOk(CacheKey(change))
  {
    var key := CacheKey(change);
    ([key], if emitOk(key) then Ok(()) else Err("emit failed"))
  }
}
