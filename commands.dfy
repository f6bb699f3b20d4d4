/**
 * The player commands of both clients' command layer (commands.rs):
 * starting an episode where it was left off, the four transport actions
 * by name, the volume (saved in the configuration first) and seeking.
 * Both clients have the same handlers. The threads they spawn are run to
 * completion in place.
 */
module Commands {
  import opened Wrappers
  import opened Entities
  import Numbers
  import PodcastModel
  import EpisodeModel
  import Player

  const TwoTo64: int := 0x1_0000_0000_0000_0000

  /** The position to start from: 0 for a completed episode, otherwise `listened_seconds as u64`. */
  function StartSeconds(progress: EpisodeProgress): (r: nat)
    ensures r < TwoTo64
    ensures progress.completed ==> r == 0
    ensures !progress.completed ==> r == progress.listenedSeconds % TwoTo64
    ensures !progress.completed && 0 <= progress.listenedSeconds < TwoTo64 ==> r == progress.listenedSeconds
  {
    if progress.completed then 0 else progress.listenedSeconds % TwoTo64
  }

  /**
   * The `as u64` of the command and the `as i32` of the player's wrapper
   * undo each other: the player starts exactly at the stored seconds, even
   * a negative value.
   */
  lemma StartSecondsRoundTrip(progress: EpisodeProgress)
    requires Numbers.InI32(progress.listenedSeconds)
    ensures Numbers.WrapI32(StartSeconds(progress)) == (if progress.completed then 0 else progress.listenedSeconds)
  {
    var x := progress.listenedSeconds;
    if !progress.completed && x < 0 {
      assert x % TwoTo64 == x + TwoTo64;
      assert (x + TwoTo64) % Numbers.TwoTo32 == x % Numbers.TwoTo32;
    }
  }

  /**
   * The look-ups of `play_episode`: the episode row, then its progress
   * row, each failing with the database's not-found error; the result is
   * the episode and the start position.
   */
  function PlayEpisodeCommand(episodes: seq<Episode>, progresses: seq<EpisodeProgress>, id: int)
    : (r: Result<(Episode, nat), EpisodeModel.AppError>)
    ensures r.Ok? <==> EpisodeModel.FindOneEpisode(episodes, id).Some? && PodcastModel.HasProgress(progresses, id)
    ensures r.Err? ==> r.error == EpisodeModel.Db(PodcastModel.NotFound)
    ensures r.Ok? ==> r.value.0 in episodes && r.value.0.id == id
    ensures r.Ok? ==> exists p :: p in progresses && p.episodeId == id && r.value.1 == StartSeconds(p)
  {
    match EpisodeModel.FindOneEpisode(episodes, id)
      case None => Err(EpisodeModel.Db(PodcastModel.NotFound))
      case Some(i) =>
        match EpisodeModel.FindOneProgress(progresses, id)
          case Err(_) => Err(EpisodeModel.Db(PodcastModel.NotFound))
          case Ok(p) => Ok((episodes[i], StartSeconds(p)))
  }

  /** After `mark_as_complete` the episode starts from the beginning. */
  lemma ResumeAfterMarkComplete(episodes: seq<Episode>, progresses: seq<EpisodeProgress>, id: int, now: Timestamp)
    requires EpisodeModel.FindOneEpisode(episodes, id).Some? && PodcastModel.HasProgress(progresses, id)
    ensures var r := PlayEpisodeCommand(episodes, EpisodeModel.MarkAsComplete(progresses, id, now).1, id);
      r.Ok? && r.value.1 == 0
  {
    var marked := EpisodeModel.MarkRows(progresses, id, true, false, now);
    EpisodeModel.MarkRowsKeepsPresence(progresses, id, true, false, now);
    var p := EpisodeModel.FindOneProgress(marked, id).value;
    var k :| 0 <= k < |marked| && marked[k] == p;
    assert p.completed;
  }

  /** After `mark_as_not_complete` the episode also starts from the beginning. */
  lemma ResumeAfterMarkNotComplete(episodes: seq<Episode>, progresses: seq<EpisodeProgress>, id: int, now: Timestamp)
    requires EpisodeModel.FindOneEpisode(episodes, id).Some? && PodcastModel.HasProgress(progresses, id)
    ensures var r := PlayEpisodeCommand(episodes, EpisodeModel.MarkAsNotComplete(progresses, id, now).1, id);
      r.Ok? && r.value.1 == 0
  {
    var marked := EpisodeModel.MarkRows(progresses, id, false, true, now);
    EpisodeModel.MarkRowsKeepsPresence(progresses, id, false, true, now);
    var p := EpisodeModel.FindOneProgress(marked, id).value;
    var k :| 0 <= k < |marked| && marked[k] == p;
    assert !p.completed && p.listenedSeconds == 0;
  }

  /**
   * `play_episode`: on a failed look-up the player is not touched;
   * otherwise the player is asked to play the episode from the start
   * position converted back to `i32`, and the command succeeds whatever
   * the player returns.
   */
  method PlayEpisode(episodes: seq<Episode>, progresses: seq<EpisodeProgress>, id: int, player: Player.NewPlayer,
                     media: Player.MediaFile, now: Timestamp)
    returns (r: Result<(), EpisodeModel.AppError>)
    modifies player
    ensures var found := PlayEpisodeCommand(episodes, progresses, id);
      && (found.Err? ==> r == Err(found.error) && player.Snapshot() == old(player.Snapshot()))
      && (found.Ok? ==> r == Ok(()))
      && (found.Ok? ==> (player.Snapshot() ==
            Player.PlayEpisodeSpec(old(player.Snapshot()), player.variant, found.value.0,
                                   Numbers.WrapI32(found.value.1), media, now).0))
  {
    var found := PlayEpisodeCommand(episodes, progresses, id);
    if found.Err? {
      return Err(found.error);
    }
    var (episode, start) := found.value;
    var _ := player.PlayEpisode(episode, Numbers.WrapI32(start), media, now);
    r := Ok(());
  }

  /** `player_action`: the four action names reach the player; any other name is ignored. */
  method PlayerAction(action: string, player: Player.NewPlayer, now: Timestamp)
    returns (r: Result<(), EpisodeModel.AppError>)
    modifies player
    ensures r.Ok?
    ensures action == "play" ==> player.Snapshot() == Player.PlaySpec(old(player.Snapshot()), player.variant, now)
    ensures action == "pause" ==> player.Snapshot() == Player.PauseSpec(old(player.Snapshot()), player.variant, now)
    ensures action == "skip_forwards" ==> player.Snapshot() == Player.SkipForwardsSpec(old(player.Snapshot()))
    ensures action == "skip_backwards" ==> player.Snapshot() == Player.SkipBackwardsSpec(old(player.Snapshot()))
    ensures action !in ["play", "pause", "skip_forwards", "skip_backwards"] ==> player.Snapshot() == old(player.Snapshot())
  {
    if action == "play" {
      player.Play(now);
    } else if action == "pause" {
      player.Pause(now);
    } else if action == "skip_forwards" {
      player.SkipForwards();
    } else if action == "skip_backwards" {
      player.SkipBackwards();
    }
    r := Ok(());
  }

  /**
   * The configuration holder the volume command calls. Its definition is not
   * part of this model; the class is an assumed collaborator with only what
   * `set_volume` relies on: a volume, and an `update` that saves and may fail.
   */
  class ConfigWrapper {
    var volume: real

    constructor(volume: real)
      ensures this.volume == volume
    {
      this.volume := volume;
    }

    /** The assumed `update`: a successful save replaces the configuration; a failed one leaves it. */
    method Update(volume: real, saveOk: bool) returns (r: Result<(), EpisodeModel.AppError>)
      modifies this
      ensures r.Ok? <==> saveOk
      ensures r.Err? ==> r.error == EpisodeModel.Io
      ensures this.volume == (if saveOk then volume else old(this.volume))
    {
      if !saveOk {
        return Err(EpisodeModel.Io);
      }
      this.volume := volume;
      r := Ok(());
    }
  }

  /** `set_volume`: save the configuration first; only when that succeeds does the player's volume change. */
  method SetVolume(v: real, desktopGain: real, saveOk: bool, config: ConfigWrapper, player: Player.NewPlayer)
    returns (r: Result<(), EpisodeModel.AppError>)
    modifies config, player
    ensures r.Ok? <==> saveOk
    ensures config.volume == (if saveOk then v else old(config.volume))
    ensures saveOk ==> (player.Snapshot() ==
      old(player.Snapshot()).(volume := if player.variant == Player.Legacy then v else desktopGain))
    ensures !saveOk ==> player.Snapshot() == old(player.Snapshot())
  {
    r := config.Update(v, saveOk);
    if r.Err? {
      return;
    }
    player.SetVolume(v, desktopGain);
  }

  /** `seek`: straight to the player. */
  method Seek(to: int, player: Player.NewPlayer) returns (r: Result<(), EpisodeModel.AppError>)
    modifies player
    ensures r.Ok?
    ensures player.Snapshot() == Player.SeekToSpec(old(player.Snapshot()), to)
  {
    player.SeekTo(to);
    r := Ok(());
  }
}
