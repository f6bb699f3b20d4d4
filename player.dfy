/**
 * The playback controller of both clients (player/new_player.rs in the
 * desktop app and in the older app): the shared "now playing" fields,
 * the transport calls that act on them, session replacement in
 * `play_track`, and the render loop as a step function over packets.
 *
 * The decoder is an abstract sequence of packets; each pass of the render
 * loop receives one `Tick` (what `try_recv` returned, the outcome of a
 * seek, and the two broadcast timers). Senders and thread handles are
 * numbered; the model records every command sent on a channel, every
 * handle joined, every status emitted and every progress write made.
 */
module Player {
  import opened Wrappers
  import opened Entities
  import Numbers

  datatype Variant = Desktop | Legacy

  /** `PlayerCommand`, as sent over a render thread's channel. */
  datatype Command = Pause | Resume | Seek(seconds: nat) | Stop

  /** A track of the opened file; `codecIsNull` is `codec == CODEC_TYPE_NULL`. */
  datatype Track = Track(id: int, codecIsNull: bool)

  /** What `reader.seek` returns. */
  datatype SeekOutcome = Seeked(requiredTs: nat) | ResetRequired | SeekFailed

  /** One `UPDATE episode_progresses ... WHERE episode_id = ?`; `completed` is None when the column is not written. */
  datatype ProgressWrite = ProgressWrite(episodeId: int, listenedSeconds: int, completed: Option<bool>, updatedAt: Timestamp)

  /** The fields of `NewPlayer`, plus what it has sent, joined, emitted and written so far. */
  datatype PlayerState = PlayerState(
    playing: Option<(Episode, Podcast)>,
    playedMillis: int,
    episodeLength: int,
    isPaused: bool,
    volume: real,
    sender: Option<nat>,
    handle: Option<nat>,
    nextId: nat,
    sent: seq<(nat, Command)>,
    joined: seq<nat>,
    emitted: seq<PlayerStatus>,
    writes: seq<ProgressWrite>)

  /** `NewPlayer::new`. */
  function Initial(): PlayerState
  {
    PlayerState(None, 0, 0, false, 1.0, None, None, 0, [], [], [], [])
  }

  /**
   * Session replacement keeps at most one render thread un-joined: every
   * thread ever spawned other than the current one has been joined, its
   * channel was sent Stop, and the current sender and handle belong to the
   * same (latest) spawn.
   */
  predicate OneLiveThread(s: PlayerState)
  {
    && s.sender == s.handle
    && (s.handle.Some? ==> s.handle.value + 1 == s.nextId)
    && (forall h :: 0 <= h < s.nextId && s.handle != Some(h) ==> h in s.joined)
    && (forall h :: 0 <= h < s.nextId && s.sender != Some(h) ==> (h, Stop) in s.sent)
  }

  lemma InitialIsValid()
    ensures OneLiveThread(Initial())
    ensures Initial().playing.None? && !Initial().isPaused
  {
  }

  // ---------------------------------------------------------------- first_supported_track

  /** `tracks.iter().find(|t| t.codec_params.codec != CODEC_TYPE_NULL)`, as an index. */
  function FirstSupportedTrack(tracks: seq<Track>): (r: Option<nat>)
    ensures r.Some? ==> r.value < |tracks| && !tracks[r.value].codecIsNull
    ensures r.Some? ==> forall j :: 0 <= j < r.value ==> tracks[j].codecIsNull
    ensures r.None? <==> forall j :: 0 <= j < |tracks| ==> tracks[j].codecIsNull
  {
    if tracks == [] then None
    else if !tracks[0].codecIsNull then Some(0)
    else
      var rest := FirstSupportedTrack(tracks[1..]);
      assert forall j :: 0 < j < |tracks| ==> tracks[j] == tracks[1..][j - 1];
      if rest.Some? then Some(rest.value + 1) else None
  }

  // ---------------------------------------------------------------- broadcast_status

  /** `elapsed / 1000` on an `i64`: whole seconds, truncated toward zero. */
  function ElapsedSeconds(millis: int): int
  {
    Numbers.TruncDiv(millis, 1000)
  }

  /** `completed_listening`: fewer than 300 seconds of the stored length remain. */
  predicate CompletedListening(length: int, elapsedMillis: int)
  {
    length - ElapsedSeconds(elapsedMillis) < 300
  }

  /** The `PlayerStatus` emitted on "player-status"; `loading` is always false here. */
  function StatusOf(s: PlayerState): PlayerStatus
  {
    PlayerStatus(
      s.isPaused,
      if s.playing.Some? then Some(s.playing.value.0) else None,
      if s.playing.Some? then Some(s.playing.value.1) else None,
      ElapsedSeconds(s.playedMillis),
      s.episodeLength,
      false)
  }

  /**
   * `broadcast_status`: with `save` and an episode loaded, write the
   * progress (the desktop app also writes `completed`); then emit the
   * status.
   */
  function Broadcast(s: PlayerState, v: Variant, save: bool, now: Timestamp): PlayerState
  {
    var writes :=
      if save && s.playing.Some? then
        var episode := s.playing.value.0;
        var completed := if v == Desktop then Some(CompletedListening(episode.length, s.playedMillis)) else None;
        s.writes + [ProgressWrite(episode.id, Numbers.WrapI32(ElapsedSeconds(s.playedMillis)), completed, now)]
      else s.writes;
    s.(emitted := s.emitted + [StatusOf(s)], writes := writes)
  }

  /** `broadcast_status_self`: the desktop app always saves here, the older app never does. */
  function SelfBroadcast(s: PlayerState, v: Variant, now: Timestamp): PlayerState
  {
    Broadcast(s, v, v == Desktop, now)
  }

  /**
   * The timer branch after a decoded packet: the 1 s timer broadcasts with
   * saving, otherwise the 100 ms timer broadcasts with saving only in the
   * desktop app.
   */
  function TimerBroadcast(s: PlayerState, v: Variant, saveDue: bool, updateDue: bool, now: Timestamp): PlayerState
  {
    if saveDue then Broadcast(s, v, true, now)
    else if updateDue then Broadcast(s, v, v == Desktop, now)
    else s
  }

  /** A broadcast emits exactly the current status and writes at most one progress row. */
  lemma BroadcastEffect(s: PlayerState, v: Variant, save: bool, now: Timestamp)
    ensures var r := Broadcast(s, v, save, now);
      && r.emitted == s.emitted + [StatusOf(s)]
      && !r.emitted[|r.emitted| - 1].loading
      && r.emitted[|r.emitted| - 1].elapsed == ElapsedSeconds(s.playedMillis)
      && (r.writes != s.writes <==> save && s.playing.Some?)
      && s.writes <= r.writes && |r.writes| <= |s.writes| + 1
      && r.(emitted := s.emitted, writes := s.writes) == s
  {
  }

  /**
   * The persisted row: `listened_seconds` is the elapsed whole seconds as
   * an `i32`; the desktop app sets `completed` exactly when fewer than 300
   * seconds of the stored episode length remain, the older app leaves
   * `completed` alone.
   */
  lemma BroadcastWrite(s: PlayerState, v: Variant, now: Timestamp)
    requires s.playing.Some?
    ensures var w := Broadcast(s, v, true, now).writes[|s.writes|];
      && w.episodeId == s.playing.value.0.id
      && w.listenedSeconds == Numbers.WrapI32(ElapsedSeconds(s.playedMillis))
      && w.updatedAt == now
      && (v == Legacy ==> w.completed == None)
      && (v == Desktop ==> w.completed.Some?)
      && (v == Desktop ==> (w.completed.value <==> ElapsedSeconds(s.playedMillis) > s.playing.value.0.length - 300))
  {
  }

  /** The completion test reads the episode row's length, never the file duration the player keeps. */
  lemma CompletedIgnoresFileDuration(s: PlayerState, v: Variant, save: bool, now: Timestamp, duration: int)
    ensures Broadcast(s.(episodeLength := duration), v, save, now).writes == Broadcast(s, v, save, now).writes
  {
  }

  /** Once completed, listening further keeps it completed. */
  lemma CompletedMonotone(length: int, a: int, b: int)
    requires 0 <= a <= b
    ensures CompletedListening(length, a) ==> CompletedListening(length, b)
  {
    assert ElapsedSeconds(a) == a / 1000 && ElapsedSeconds(b) == b / 1000;
    assert a / 1000 <= b / 1000;
  }

  /** In the older app only the 1 s timer persists, and never `completed`; the desktop app persists on both. */
  lemma TimerPersistence(s: PlayerState, v: Variant, saveDue: bool, updateDue: bool, now: Timestamp)
    ensures var r := TimerBroadcast(s, v, saveDue, updateDue, now);
      && s.writes <= r.writes
      && (v == Legacy && r.writes != s.writes ==> saveDue && r.writes[|s.writes|].completed == None)
      && (v == Desktop && s.playing.Some? && (saveDue || updateDue) ==>
            |r.writes| == |s.writes| + 1 && r.writes[|s.writes|].completed.Some?)
  {
  }

  // ---------------------------------------------------------------- transport calls

  /** `play`: with an episode loaded, send Resume (when there is a sender), clear the pause flag and broadcast. */
  function PlaySpec(s: PlayerState, v: Variant, now: Timestamp): PlayerState
  {
    if s.playing.None? then s
    else
      var sent := if s.sender.Some? then s.sent + [(s.sender.value, Resume)] else s.sent;
      SelfBroadcast(s.(sent := sent, isPaused := false), v, now)
  }

  /** `pause`: the same with Pause, setting the pause flag. */
  function PauseSpec(s: PlayerState, v: Variant, now: Timestamp): PlayerState
  {
    if s.playing.None? then s
    else
      var sent := if s.sender.Some? then s.sent + [(s.sender.value, Pause)] else s.sent;
      SelfBroadcast(s.(sent := sent, isPaused := true), v, now)
  }

  /** `seek_to`: drop the call without an episode or for a negative target, otherwise send Seek. */
  function SeekToSpec(s: PlayerState, seconds: int): PlayerState
  {
    if s.playing.None? || seconds < 0 then s
    else if s.sender.Some? then s.(sent := s.sent + [(s.sender.value, Seek(seconds))])
    else s
  }

  function SkipForwardsSpec(s: PlayerState): PlayerState
  {
    SeekToSpec(s, ElapsedSeconds(s.playedMillis) + 30)
  }

  function SkipBackwardsSpec(s: PlayerState): PlayerState
  {
    SeekToSpec(s, ElapsedSeconds(s.playedMillis) - 15)
  }

  /** Without an episode loaded, none of the transport calls changes anything. */
  lemma TransportWithoutSession(s: PlayerState, v: Variant, now: Timestamp, seconds: int)
    requires s.playing.None?
    ensures PlaySpec(s, v, now) == s && PauseSpec(s, v, now) == s
    ensures SeekToSpec(s, seconds) == s && SkipForwardsSpec(s) == s && SkipBackwardsSpec(s) == s
  {
  }

  /** With an episode loaded, play and pause set the pause flag, send their command, and touch no session field. */
  lemma PlayPauseEffect(s: PlayerState, v: Variant, now: Timestamp)
    requires s.playing.Some?
    ensures var p := PlaySpec(s, v, now);
      && !p.isPaused && p.playing == s.playing && p.playedMillis == s.playedMillis
      && p.sender == s.sender && p.handle == s.handle && p.joined == s.joined
      && p.sent == s.sent + (if s.sender.Some? then [(s.sender.value, Resume)] else [])
      && p.emitted[|p.emitted| - 1].isPaused == false
    ensures var q := PauseSpec(s, v, now);
      && q.isPaused && q.playing == s.playing && q.playedMillis == s.playedMillis
      && q.sender == s.sender && q.handle == s.handle && q.joined == s.joined
      && q.sent == s.sent + (if s.sender.Some? then [(s.sender.value, Pause)] else [])
      && q.emitted[|q.emitted| - 1].isPaused == true
  {
  }

  /** A seek sends exactly one Seek with the target, and only for a loaded episode, a sender and a target of at least 0. */
  lemma SeekToEffect(s: PlayerState, seconds: int)
    ensures var r := SeekToSpec(s, seconds);
      && r.(sent := s.sent) == s
      && (r.sent != s.sent <==> s.playing.Some? && seconds >= 0 && s.sender.Some?)
      && (r.sent != s.sent ==> r.sent == s.sent + [(s.sender.value, Seek(seconds))])
  {
  }

  /**
   * Skips target 30 s ahead of or 15 s behind the elapsed whole seconds;
   * a backward skip within the first 15 s is dropped.
   */
  lemma SkipTargets(s: PlayerState)
    requires s.playing.Some? && s.sender.Some? && s.playedMillis >= 0
    ensures SkipForwardsSpec(s).sent == s.sent + [(s.sender.value, Seek(s.playedMillis / 1000 + 30))]
    ensures s.playedMillis >= 15000 ==>
      SkipBackwardsSpec(s).sent == s.sent + [(s.sender.value, Seek(s.playedMillis / 1000 - 15))]
    ensures s.playedMillis < 15000 ==> SkipBackwardsSpec(s) == s
  {
  }

  /** The desktop app's media-control events. */
  datatype MediaEvent =
    | MediaPlay | MediaPause | MediaToggle | MediaNext | MediaPrevious | MediaStop
    | MediaSkipBackward(backSeconds: nat) | MediaSkipForward(forwardSeconds: nat)
    | MediaSeek(forward: bool) | MediaSeekBy(byForward: bool, bySeconds: nat)
    | MediaSetPosition(position: nat) | MediaOpenUri | MediaRaise | MediaQuit

  /** The `attach` handler. Raise and Quit act on the window and the app, not on the player. */
  function MediaEventSpec(s: PlayerState, e: MediaEvent, now: Timestamp): PlayerState
  {
    var elapsed := ElapsedSeconds(s.playedMillis);
    match e
      case MediaPlay => PlaySpec(s, Desktop, now)
      case MediaPause => PauseSpec(s, Desktop, now)
      case MediaToggle => if s.isPaused then PlaySpec(s, Desktop, now) else PauseSpec(s, Desktop, now)
      case MediaNext => SkipForwardsSpec(s)
      case MediaPrevious => SkipBackwardsSpec(s)
      case MediaStop => s
      case MediaSkipBackward(d) => SeekToSpec(s, elapsed - d)
      case MediaSkipForward(d) => SeekToSpec(s, elapsed + d)
      case MediaSeek(forward) => if forward then SkipForwardsSpec(s) else SkipBackwardsSpec(s)
      case MediaSeekBy(forward, d) => SeekToSpec(s, elapsed + (if forward then d as int else -(d as int)))
      case MediaSetPosition(p) => SeekToSpec(s, p)
      case MediaOpenUri => s
      case MediaRaise => s
      case MediaQuit => s
  }

  /** Toggle resumes a paused player and pauses a playing one; the relative events seek from the elapsed seconds. */
  lemma MediaEventMapping(s: PlayerState, now: Timestamp, d: nat)
    ensures s.isPaused ==> MediaEventSpec(s, MediaToggle, now) == PlaySpec(s, Desktop, now)
    ensures !s.isPaused ==> MediaEventSpec(s, MediaToggle, now) == PauseSpec(s, Desktop, now)
    ensures MediaEventSpec(s, MediaSeekBy(true, d), now) == MediaEventSpec(s, MediaSkipForward(d), now)
    ensures MediaEventSpec(s, MediaSeekBy(false, d), now) == MediaEventSpec(s, MediaSkipBackward(d), now)
    ensures MediaEventSpec(s, MediaSetPosition(d), now) == SeekToSpec(s, d)
    ensures MediaEventSpec(s, MediaNext, now) == SkipForwardsSpec(s)
  {
  }

  // ---------------------------------------------------------------- play_track and play_episode

  /** What a newly spawned render thread starts from; `channel` numbers its sender and its handle. */
  datatype ThreadStart = ThreadStart(trackId: int, seekTs: nat, channel: nat)

  datatype PlayError = NoContentPath | PodcastMissing | UnreadableFile | NoTrackAfterReset

  /** `calculate_seek_timestamp`: the required timestamp, or 0 when the seek fails for any reason. */
  function InitialSeekTs(outcome: SeekOutcome): nat
  {
    if outcome.Seeked? then outcome.requiredTs else 0
  }

  /** Stop to the old sender, join and clear the old handle, then install the new sender and handle. */
  function Replaced(s: PlayerState): PlayerState
  {
    s.(sent := s.sent + (if s.sender.Some? then [(s.sender.value, Stop)] else []),
       joined := s.joined + (if s.handle.Some? then [s.handle.value] else []),
       sender := Some(s.nextId),
       handle := Some(s.nextId),
       nextId := s.nextId + 1)
  }

  /**
   * The track and start timestamp `play_track` picks. The older app, on
   * ResetRequired, takes the first supported track of the reset reader
   * (`tracksAfterReset`); its `unwrap` fails when there is none.
   */
  function ChooseStart(v: Variant, tracks: seq<Track>, startingAt: int, seek: SeekOutcome, tracksAfterReset: seq<Track>)
    : Result<Option<(int, nat)>, PlayError>
  {
    match FirstSupportedTrack(tracks)
      case None => Ok(None)
      case Some(i) =>
        if v == Legacy && startingAt != 0 && seek.ResetRequired? then
          match FirstSupportedTrack(tracksAfterReset)
            case None => Err(NoTrackAfterReset)
            case Some(j) => Ok(Some((tracksAfterReset[j].id, 0)))
        else Ok(Some((tracks[i].id, if startingAt != 0 then InitialSeekTs(seek) else 0)))
  }

  /** `play_track`: when a track is chosen, replace the session and start a thread on it. */
  function PlayTrackSpec(s: PlayerState, v: Variant, tracks: seq<Track>, startingAt: int,
                         seek: SeekOutcome, tracksAfterReset: seq<Track>)
    : (PlayerState, Result<Option<ThreadStart>, PlayError>)
  {
    match ChooseStart(v, tracks, startingAt, seek, tracksAfterReset)
      case Err(e) => (s, Err(e))
      case Ok(None) => (s, Ok(None))
      case Ok(Some((trackId, seekTs))) => (Replaced(s), Ok(Some(ThreadStart(trackId, seekTs, s.nextId))))
  }

  /** Without a track whose codec is set, nothing changes and the call succeeds. */
  lemma PlayTrackNoTrack(s: PlayerState, v: Variant, tracks: seq<Track>, startingAt: int, seek: SeekOutcome, after: seq<Track>)
    requires forall j :: 0 <= j < |tracks| ==> tracks[j].codecIsNull
    ensures PlayTrackSpec(s, v, tracks, startingAt, seek, after) == (s, Ok(None))
  {
  }

  /**
   * A started thread replaces the old session: the old sender got Stop,
   * the old handle was joined, the new sender and handle are the fresh
   * spawn, and every other field is untouched.
   */
  lemma PlayTrackReplaces(s: PlayerState, v: Variant, tracks: seq<Track>, startingAt: int, seek: SeekOutcome, after: seq<Track>)
    requires PlayTrackSpec(s, v, tracks, startingAt, seek, after).1.Ok?
    requires PlayTrackSpec(s, v, tracks, startingAt, seek, after).1.value.Some?
    ensures var (r, start) := PlayTrackSpec(s, v, tracks, startingAt, seek, after);
      && r == Replaced(s)
      && start.value.value.channel == s.nextId
      && r.sender == Some(s.nextId) && r.handle == Some(s.nextId)
      && (s.sender.Some? ==> r.sent == s.sent + [(s.sender.value, Stop)])
      && (s.handle.Some? ==> r.joined == s.joined + [s.handle.value])
      && r.(sent := s.sent, joined := s.joined, sender := s.sender, handle := s.handle, nextId := s.nextId) == s
  {
  }

  /** Session replacement keeps at most one render thread live. */
  lemma ReplacedKeepsOneLiveThread(s: PlayerState)
    requires OneLiveThread(s)
    ensures OneLiveThread(Replaced(s))
  {
    var r := Replaced(s);
    forall h | 0 <= h < r.nextId && r.handle != Some(h)
      ensures h in r.joined
    {
      if h < s.nextId && s.handle != Some(h) {
        assert h in s.joined;
      } else {
        assert s.handle == Some(h);
        assert r.joined[|s.joined|] == h;
      }
    }
    forall h | 0 <= h < r.nextId && r.sender != Some(h)
      ensures (h, Stop) in r.sent
    {
      if h < s.nextId && s.sender != Some(h) {
        assert (h, Stop) in s.sent;
      } else {
        assert s.sender == Some(h);
        assert r.sent[|s.sent|] == (h, Stop);
      }
    }
  }

  /** The older app's initial seek: ResetRequired re-selects the track and starts from timestamp 0; other failures also start from 0. */
  lemma LegacyInitialSeek(s: PlayerState, tracks: seq<Track>, startingAt: int, seek: SeekOutcome, after: seq<Track>)
    requires FirstSupportedTrack(tracks).Some? && startingAt != 0
    ensures var start := PlayTrackSpec(s, Legacy, tracks, startingAt, seek, after).1;
      && (seek.ResetRequired? && FirstSupportedTrack(after).Some? ==>
            start == Ok(Some(ThreadStart(after[FirstSupportedTrack(after).value].id, 0, s.nextId))))
      && (seek.SeekFailed? ==> start.value.value.seekTs == 0)
      && (seek.Seeked? ==> start.value.value.seekTs == seek.requiredTs)
  {
  }

  /** The outcome of each fallible step of `play_episode`, in the order they happen. */
  datatype MediaFile = MediaFile(
    podcast: Option<Podcast>,
    fileDuration: Option<nat>,
    tracks: Option<seq<Track>>,
    initialSeek: SeekOutcome,
    tracksAfterReset: seq<Track>)

  /**
   * `play_episode`: reject an empty path, look up the podcast, load the
   * episode, read the duration, reset the counters, broadcast, open the
   * file and hand the reader to `play_track`.
   */
  function PlayEpisodeSpec(s: PlayerState, v: Variant, episode: Episode, startingAt: int, media: MediaFile, now: Timestamp)
    : (PlayerState, Result<Option<ThreadStart>, PlayError>)
  {
    if episode.contentLocalPath == "" then (s, Err(NoContentPath))
    else if media.podcast.None? then (s, Err(PodcastMissing))
    else
      var loaded := s.(playing := Some((episode, media.podcast.value)));
      if media.fileDuration.None? then (loaded, Err(UnreadableFile))
      else
        var reset := loaded.(episodeLength := media.fileDuration.value, playedMillis := startingAt * 1000, isPaused := false);
        var shown := SelfBroadcast(reset, v, now);
        if media.tracks.None? then (shown, Err(UnreadableFile))
        else PlayTrackSpec(shown, v, media.tracks.value, startingAt, media.initialSeek, media.tracksAfterReset)
  }

  /** An episode without a local file is refused before any field changes. */
  lemma PlayEpisodeNeedsFile(s: PlayerState, v: Variant, episode: Episode, startingAt: int, media: MediaFile, now: Timestamp)
    requires episode.contentLocalPath == ""
    ensures PlayEpisodeSpec(s, v, episode, startingAt, media, now) == (s, Err(NoContentPath))
  {
  }

  /**
   * After the setup the episode and podcast are loaded, the position is
   * `starting_at * 1000` ms, the player is not paused, the length is the
   * file's duration, and the status just emitted says `loading: false`.
   */
  lemma PlayEpisodeSetup(s: PlayerState, v: Variant, episode: Episode, startingAt: int, media: MediaFile, now: Timestamp)
    requires episode.contentLocalPath != "" && media.podcast.Some? && media.fileDuration.Some?
    ensures var r := PlayEpisodeSpec(s, v, episode, startingAt, media, now).0;
      && r.playing == Some((episode, media.podcast.value))
      && r.playedMillis == startingAt * 1000
      && !r.isPaused
      && r.episodeLength == media.fileDuration.value
      && |r.emitted| == |s.emitted| + 1
      && r.emitted[|s.emitted|] == PlayerStatus(false, Some(episode), media.podcast, ElapsedSeconds(startingAt * 1000),
                                                media.fileDuration.value, false)
  {
    var loaded := s.(playing := Some((episode, media.podcast.value)));
    var reset := loaded.(episodeLength := media.fileDuration.value, playedMillis := startingAt * 1000, isPaused := false);
    BroadcastEffect(reset, v, v == Desktop, now);
  }

  /** Every step of `play_episode` keeps at most one render thread live. */
  lemma PlayEpisodeKeepsOneLiveThread(s: PlayerState, v: Variant, episode: Episode, startingAt: int, media: MediaFile, now: Timestamp)
    requires OneLiveThread(s)
    ensures OneLiveThread(PlayEpisodeSpec(s, v, episode, startingAt, media, now).0)
  {
    if episode.contentLocalPath != "" && media.podcast.Some? && media.fileDuration.Some? && media.tracks.Some? {
      var loaded := s.(playing := Some((episode, media.podcast.value)));
      var reset := loaded.(episodeLength := media.fileDuration.value, playedMillis := startingAt * 1000, isPaused := false);
      var shown := SelfBroadcast(reset, v, now);
      assert OneLiveThread(shown);
      ReplacedKeepsOneLiveThread(shown);
    }
  }

  // ---------------------------------------------------------------- the render loop

  /** What `decoder.decode` returns for a packet. */
  datatype Decode = Decoded | DecodeError | FatalError

  /** A packet of the reader; `seconds` is `calc_time(ts).seconds`. */
  datatype Packet = Packet(trackId: int, ts: nat, seconds: nat, decode: Decode)

  /**
   * One pass of the loop: what `try_recv` returned, the outcome of the
   * seek a Seek command triggers (None when it fails), the two timers and
   * the clock.
   */
  datatype Tick = Tick(command: Option<Command>, seekTo: Option<nat>, saveDue: bool, updateDue: bool, now: Timestamp)

  /** The loop's local state: the shared player fields, `is_paused`, `seek_ts`, the next packet, `interrupted`, and whether the loop has broken out. */
  datatype LoopState = LoopState(player: PlayerState, paused: bool, seekTs: nat, next: nat, interrupted: bool, done: bool)

  /** The command part of a pass. */
  function ApplyCommand(ls: LoopState, tick: Tick): LoopState
  {
    match tick.command
      case None => ls
      case Some(Pause) => ls.(paused := true)
      case Some(Resume) => ls.(paused := false)
      case Some(Seek(_)) => ls.(seekTs := if tick.seekTo.Some? then tick.seekTo.value else ls.seekTs)
      case Some(Stop) => ls.(interrupted := true, done := true)
  }

  /** A decoded packet of the selected track: move the position (at or after `seek_ts`, with a time base), then the timers. */
  function Advance(s: PlayerState, p: Packet, seekTs: nat, timeBase: bool, tick: Tick, v: Variant): PlayerState
  {
    var played := if p.ts >= seekTs && timeBase then s.(playedMillis := p.seconds * 1000) else s;
    TimerBroadcast(played, v, tick.saveDue, tick.updateDue, tick.now)
  }

  /** The packet part of a pass: `next_packet`, the track filter and the decode. */
  function Pull(c: LoopState, tick: Tick, packets: seq<Packet>, trackId: int, timeBase: bool, v: Variant): LoopState
  {
    if c.next >= |packets| then c.(done := true)
    else
      var p := packets[c.next];
      var d := c.(next := c.next + 1);
      if p.trackId != trackId then d
      else match p.decode
        case FatalError => d.(done := true)
        case DecodeError => d
        case Decoded => d.(player := Advance(d.player, p, d.seekTs, timeBase, tick, v))
  }

  /** One pass of `player_thread_loop` (the desktop app) or of the spawned closure (the older app). */
  function Step(ls: LoopState, tick: Tick, packets: seq<Packet>, trackId: int, timeBase: bool, v: Variant): LoopState
  {
    var c := ApplyCommand(ls, tick);
    if c.done || c.paused then c else Pull(c, tick, packets, trackId, timeBase, v)
  }

  /** The loop over the passes, until it breaks out or the passes run out. */
  function RunLoop(ls: LoopState, ticks: seq<Tick>, packets: seq<Packet>, trackId: int, timeBase: bool, v: Variant): LoopState
    decreases |ticks|
  {
    if ticks == [] || ls.done then ls
    else RunLoop(Step(ls, ticks[0], packets, trackId, timeBase, v), ticks[1..], packets, trackId, timeBase, v)
  }

  /** After the loop: unless it was stopped, the desktop app saves, clears the session and broadcasts again. */
  function AfterLoop(s: PlayerState, v: Variant, interrupted: bool, now: Timestamp): PlayerState
  {
    if v == Desktop && !interrupted then
      var saved := Broadcast(s, Desktop, true, now);
      Broadcast(saved.(playing := None, playedMillis := 0, episodeLength := 0), Desktop, true, now)
    else s
  }

  predicate TrackExists(tracks: seq<Track>, trackId: int)
  {
    exists i :: 0 <= i < |tracks| && tracks[i].id == trackId
  }

  /**
   * The whole render thread. Without the track, or when the decoder cannot
   * be made, it returns at once. When the passes run out before the loop
   * breaks out, the thread is still running and the after-loop code has
   * not run.
   */
  function ThreadSpec(s: PlayerState, v: Variant, start: ThreadStart, tracks: seq<Track>, decoderOk: bool,
                      timeBase: bool, packets: seq<Packet>, ticks: seq<Tick>, endNow: Timestamp): (r: LoopState)
  {
    if !TrackExists(tracks, start.trackId) || !decoderOk then LoopState(s, false, start.seekTs, 0, false, false)
    else
      var final := RunLoop(LoopState(s, false, start.seekTs, 0, false, false), ticks, packets, start.trackId, timeBase, v);
      if final.done then final.(player := AfterLoop(final.player, v, final.interrupted, endNow)) else final
  }

  /** Pause and Resume set and clear the loop's flag, Seek moves `seek_ts` or keeps it on failure, Stop breaks out. */
  lemma StepCommands(ls: LoopState, tick: Tick, packets: seq<Packet>, trackId: int, timeBase: bool, v: Variant)
    ensures tick.command == Some(Pause) ==> Step(ls, tick, packets, trackId, timeBase, v) == ls.(paused := true)
    ensures tick.command == Some(Resume) ==> Step(ls, tick, packets, trackId, timeBase, v).paused == false
    ensures tick.command.Some? && tick.command.value.Seek? ==>
      Step(ls, tick, packets, trackId, timeBase, v).seekTs == (if tick.seekTo.Some? then tick.seekTo.value else ls.seekTs)
    ensures tick.command == Some(Stop) ==> Step(ls, tick, packets, trackId, timeBase, v) == ls.(interrupted := true, done := true)
  {
  }

  /** While paused no packet is pulled and nothing else changes. */
  lemma PausedPullsNothing(ls: LoopState, tick: Tick, packets: seq<Packet>, trackId: int, timeBase: bool, v: Variant)
    requires ApplyCommand(ls, tick).paused
    ensures Step(ls, tick, packets, trackId, timeBase, v) == ApplyCommand(ls, tick)
    ensures Step(ls, tick, packets, trackId, timeBase, v).next == ls.next
    ensures Step(ls, tick, packets, trackId, timeBase, v).player == ls.player
  {
  }

  /**
   * Packets of other tracks and packets that fail to decode are skipped; a
   * fatal error breaks out; only a decoded packet of the track at or after
   * `seek_ts` moves the position, to that packet's whole seconds.
   */
  lemma StepPackets(ls: LoopState, tick: Tick, packets: seq<Packet>, trackId: int, timeBase: bool, v: Variant)
    requires tick.command.None? && !ls.done && !ls.paused && ls.next < |packets|
    ensures var p := packets[ls.next];
      var r := Step(ls, tick, packets, trackId, timeBase, v);
      && r.next == ls.next + 1
      && (p.trackId != trackId ==> r == ls.(next := ls.next + 1))
      && (p.trackId == trackId && p.decode == DecodeError ==> r == ls.(next := ls.next + 1))
      && (p.trackId == trackId && p.decode == FatalError ==> r == ls.(next := ls.next + 1, done := true))
      && (r.player.playedMillis != ls.player.playedMillis ==>
            p.trackId == trackId && p.decode == Decoded && p.ts >= ls.seekTs && timeBase
            && r.player.playedMillis == p.seconds * 1000)
  {
  }

  /** The end of the packets breaks out of the loop like any read error. */
  lemma StepEndOfStream(ls: LoopState, tick: Tick, packets: seq<Packet>, trackId: int, timeBase: bool, v: Variant)
    requires tick.command.None? && !ls.done && !ls.paused && ls.next >= |packets|
    ensures Step(ls, tick, packets, trackId, timeBase, v) == ls.(done := true)
  {
  }

  /** The fields the loop never writes. */
  predicate SameSession(a: PlayerState, b: PlayerState)
  {
    && a.playing == b.playing && a.episodeLength == b.episodeLength && a.isPaused == b.isPaused
    && a.volume == b.volume && a.sender == b.sender && a.handle == b.handle && a.nextId == b.nextId
    && a.sent == b.sent && a.joined == b.joined
  }

  /** Writes made by the loop: the older app never writes `completed`. */
  predicate NoCompletedFrom(writes: seq<ProgressWrite>, from: nat)
  {
    forall k :: from <= k < |writes| ==> writes[k].completed.None?
  }

  lemma AdvanceKeepsSession(s: PlayerState, p: Packet, seekTs: nat, timeBase: bool, tick: Tick, v: Variant)
    ensures var r := Advance(s, p, seekTs, timeBase, tick, v);
      && SameSession(r, s)
      && s.writes <= r.writes
      && s.emitted <= r.emitted
      && (v == Legacy ==> NoCompletedFrom(r.writes, |s.writes|))
  {
    var played := if p.ts >= seekTs && timeBase then s.(playedMillis := p.seconds * 1000) else s;
    BroadcastEffect(played, v, true, tick.now);
    BroadcastEffect(played, v, v == Desktop, tick.now);
    TimerPersistence(played, v, tick.saveDue, tick.updateDue, tick.now);
  }

  lemma StepKeepsSession(ls: LoopState, tick: Tick, packets: seq<Packet>, trackId: int, timeBase: bool, v: Variant)
    ensures var r := Step(ls, tick, packets, trackId, timeBase, v);
      && SameSession(r.player, ls.player)
      && ls.player.writes <= r.player.writes
      && ls.player.emitted <= r.player.emitted
      && (v == Legacy ==> NoCompletedFrom(r.player.writes, |ls.player.writes|))
  {
    var c := ApplyCommand(ls, tick);
    assert c.player == ls.player;
    if !(c.done || c.paused) && c.next < |packets| {
      var p := packets[c.next];
      var d := c.(next := c.next + 1);
      if p.trackId == trackId && p.decode == Decoded {
        AdvanceKeepsSession(d.player, p, d.seekTs, timeBase, tick, v);
      }
    }
  }

  /**
   * The render loop never touches the session fields, only adds to the
   * emitted statuses and the progress writes, and in the older app never
   * writes `completed`.
   */
  lemma {:induction false} RunLoopKeepsSession(ls: LoopState, ticks: seq<Tick>, packets: seq<Packet>, trackId: int, timeBase: bool, v: Variant)
    ensures var r := RunLoop(ls, ticks, packets, trackId, timeBase, v);
      && SameSession(r.player, ls.player)
      && ls.player.writes <= r.player.writes
      && ls.player.emitted <= r.player.emitted
      && (v == Legacy ==> NoCompletedFrom(r.player.writes, |ls.player.writes|))
    decreases |ticks|
  {
    if ticks != [] && !ls.done {
      var next := Step(ls, ticks[0], packets, trackId, timeBase, v);
      StepKeepsSession(ls, ticks[0], packets, trackId, timeBase, v);
      RunLoopKeepsSession(next, ticks[1..], packets, trackId, timeBase, v);
      var r := RunLoop(next, ticks[1..], packets, trackId, timeBase, v);
      forall k | |ls.player.writes| <= k < |r.player.writes| && v == Legacy
        ensures r.player.writes[k].completed.None?
      {
        if k < |next.player.writes| {
          assert r.player.writes[k] == next.player.writes[k];
        }
      }
    }
  }

  /**
   * The end of the stream (or an error) clears the desktop session and
   * zeroes the counters; after Stop, and always in the older app, the
   * fields stay as the loop left them.
   */
  lemma ThreadEnd(s: PlayerState, v: Variant, start: ThreadStart, tracks: seq<Track>, decoderOk: bool,
                  timeBase: bool, packets: seq<Packet>, ticks: seq<Tick>, endNow: Timestamp)
    requires TrackExists(tracks, start.trackId) && decoderOk
    ensures var final := RunLoop(LoopState(s, false, start.seekTs, 0, false, false), ticks, packets, start.trackId, timeBase, v);
      var r := ThreadSpec(s, v, start, tracks, decoderOk, timeBase, packets, ticks, endNow);
      && (final.done && !final.interrupted && v == Desktop ==>
            r.player.playing.None? && r.player.playedMillis == 0 && r.player.episodeLength == 0)
      && (final.interrupted || v == Legacy || !final.done ==> r.player == final.player)
  {
  }

  /** The render thread, like every operation, keeps at most one render thread live. */
  lemma ThreadKeepsOneLiveThread(s: PlayerState, v: Variant, start: ThreadStart, tracks: seq<Track>, decoderOk: bool,
                                 timeBase: bool, packets: seq<Packet>, ticks: seq<Tick>, endNow: Timestamp)
    requires OneLiveThread(s)
    ensures OneLiveThread(ThreadSpec(s, v, start, tracks, decoderOk, timeBase, packets, ticks, endNow).player)
  {
    var init := LoopState(s, false, start.seekTs, 0, false, false);
    RunLoopKeepsSession(init, ticks, packets, start.trackId, timeBase, v);
  }

  /** In the older app nothing the render thread persists carries `completed`. */
  lemma LegacyThreadNeverCompletes(s: PlayerState, start: ThreadStart, tracks: seq<Track>, decoderOk: bool,
                                   timeBase: bool, packets: seq<Packet>, ticks: seq<Tick>, endNow: Timestamp)
    ensures NoCompletedFrom(ThreadSpec(s, Legacy, start, tracks, decoderOk, timeBase, packets, ticks, endNow).player.writes, |s.writes|)
  {
    var init := LoopState(s, false, start.seekTs, 0, false, false);
    RunLoopKeepsSession(init, ticks, packets, start.trackId, timeBase, Legacy);
  }

  // ---------------------------------------------------------------- NewPlayer

  /** `NewPlayer`, with its shared fields as fields and its effects recorded as sequences. */
  class NewPlayer {
    const variant: Variant
    var playing: Option<(Episode, Podcast)>
    var playedMillis: int
    var episodeLength: int
    var isPaused: bool
    var volume: real
    var sender: Option<nat>
    var handle: Option<nat>
    var nextId: nat
    var sent: seq<(nat, Command)>
    var joined: seq<nat>
    var emitted: seq<PlayerStatus>
    var writes: seq<ProgressWrite>

    function Snapshot(): PlayerState
      reads this
    {
      PlayerState(playing, playedMillis, episodeLength, isPaused, volume, sender, handle, nextId, sent, joined, emitted, writes)
    }

    constructor(v: Variant)
      ensures variant == v && Snapshot() == Initial()
    {
      variant := v;
      playing := None;
      playedMillis := 0;
      episodeLength := 0;
      isPaused := false;
      volume := 1.0;
      sender := None;
      handle := None;
      nextId := 0;
      sent := [];
      joined := [];
      emitted := [];
      writes := [];
    }

    /** `broadcast_status` on this player's fields. */
    method BroadcastStatus(save: bool, now: Timestamp)
      modifies this
      ensures Snapshot() == Broadcast(old(Snapshot()), variant, save, now)
    {
      var status := StatusOf(Snapshot());
      if save && playing.Some? {
        var episode := playing.value.0;
        var completed := if variant == Desktop then Some(CompletedListening(episode.length, playedMillis)) else None;
        writes := writes + [ProgressWrite(episode.id, Numbers.WrapI32(ElapsedSeconds(playedMillis)), completed, now)];
      }
      emitted := emitted + [status];
    }

    method Play(now: Timestamp)
      modifies this
      ensures Snapshot() == PlaySpec(old(Snapshot()), variant, now)
    {
      if playing.None? {
        return;
      }
      if sender.Some? {
        sent := sent + [(sender.value, Resume)];
      }
      isPaused := false;
      BroadcastStatus(variant == Desktop, now);
    }

    method Pause(now: Timestamp)
      modifies this
      ensures Snapshot() == PauseSpec(old(Snapshot()), variant, now)
    {
      if playing.None? {
        return;
      }
      if sender.Some? {
        sent := sent + [(sender.value, Command.Pause)];
      }
      isPaused := true;
      BroadcastStatus(variant == Desktop, now);
    }

    method SeekTo(seconds: int)
      modifies this
      ensures Snapshot() == SeekToSpec(old(Snapshot()), seconds)
    {
      if playing.None? || seconds < 0 {
        return;
      }
      if sender.Some? {
        sent := sent + [(sender.value, Seek(seconds))];
      }
    }

    method SkipForwards()
      modifies this
      ensures Snapshot() == SkipForwardsSpec(old(Snapshot()))
    {
      SeekTo(ElapsedSeconds(playedMillis) + 30);
    }

    method SkipBackwards()
      modifies this
      ensures Snapshot() == SkipBackwardsSpec(old(Snapshot()))
    {
      SeekTo(ElapsedSeconds(playedMillis) - 15);
    }

    /**
     * `set_volume`. The older app stores the value as given; the desktop
     * app stores `(e^v - 1) / (e - 1)`, a floating-point value the caller
     * supplies as `desktopGain`.
     */
    method SetVolume(v: real, desktopGain: real)
      modifies this
      ensures Snapshot() == old(Snapshot()).(volume := if variant == Legacy then v else desktopGain)
    {
      volume := if variant == Legacy then v else desktopGain;
    }

    /** The desktop app's media-control handler. */
    method HandleMediaEvent(e: MediaEvent, now: Timestamp)
      requires variant == Desktop
      modifies this
      ensures Snapshot() == MediaEventSpec(old(Snapshot()), e, now)
    {
      var elapsed := ElapsedSeconds(playedMillis);
      match e {
        case MediaPlay => Play(now);
        case MediaPause => Pause(now);
        case MediaToggle => if isPaused { Play(now); } else { Pause(now); }
        case MediaNext => SkipForwards();
        case MediaPrevious => SkipBackwards();
        case MediaStop =>
        case MediaSkipBackward(d) => SeekTo(elapsed - d);
        case MediaSkipForward(d) => SeekTo(elapsed + d);
        case MediaSeek(forward) => if forward { SkipForwards(); } else { SkipBackwards(); }
        case MediaSeekBy(forward, d) => SeekTo(elapsed + (if forward then d as int else -(d as int)));
        case MediaSetPosition(p) => SeekTo(p);
        case MediaOpenUri =>
        case MediaRaise =>
        case MediaQuit =>
      }
    }

    method PlayTrack(tracks: seq<Track>, startingAt: int, seek: SeekOutcome, tracksAfterReset: seq<Track>)
      returns (r: Result<Option<ThreadStart>, PlayError>)
      modifies this
      ensures (Snapshot(), r) == PlayTrackSpec(old(Snapshot()), variant, tracks, startingAt, seek, tracksAfterReset)
    {
      var first := FirstSupportedTrack(tracks);
      if first.None? {
        return Ok(None);
      }
      var trackId := tracks[first.value].id;
      var seekTs: nat := 0;
      if startingAt != 0 {
        if variant == Legacy && seek.ResetRequired? {
          var again := FirstSupportedTrack(tracksAfterReset);
          if again.None? {
            return Err(NoTrackAfterReset);
          }
          trackId := tracksAfterReset[again.value].id;
        } else {
          seekTs := InitialSeekTs(seek);
        }
      }
      assert ChooseStart(variant, tracks, startingAt, seek, tracksAfterReset) == Ok(Some((trackId, seekTs)));
      var channel := ReplaceSession();
      r := Ok(Some(ThreadStart(trackId, seekTs, channel)));
    }

    /** Stop and join the old render thread, then install a fresh sender and handle. */
    method ReplaceSession() returns (channel: nat)
      modifies this
      ensures channel == old(nextId)
      ensures Snapshot() == Replaced(old(Snapshot()))
    {
      channel := nextId;
      if sender.Some? {
        sent := sent + [(sender.value, Stop)];
      }
      if handle.Some? {
        joined := joined + [handle.value];
      }
      handle := None;
      sender := Some(channel);
      nextId := nextId + 1;
      handle := Some(channel);
    }

    method PlayEpisode(episode: Episode, startingAt: int, media: MediaFile, now: Timestamp)
      returns (r: Result<Option<ThreadStart>, PlayError>)
      modifies this
      ensures (Snapshot(), r) == PlayEpisodeSpec(old(Snapshot()), variant, episode, startingAt, media, now)
    {
      if episode.contentLocalPath == "" {
        return Err(NoContentPath);
      }
      if media.podcast.None? {
        return Err(PodcastMissing);
      }
      playing := Some((episode, media.podcast.value));
      if media.fileDuration.None? {
        return Err(UnreadableFile);
      }
      episodeLength := media.fileDuration.value;
      playedMillis := startingAt * 1000;
      isPaused := false;
      BroadcastStatus(variant == Desktop, now);
      if media.tracks.None? {
        return Err(UnreadableFile);
      }
      r := PlayTrack(media.tracks.value, startingAt, media.initialSeek, media.tracksAfterReset);
    }

    /** One pass of the render loop over this player's shared fields and the loop's locals. */
    method RenderPass(tick: Tick, packets: seq<Packet>, trackId: int, timeBase: bool,
                      paused: bool, seekTs: nat, next: nat, interrupted: bool)
      returns (paused': bool, seekTs': nat, next': nat, interrupted': bool, done': bool)
      modifies this
      ensures LoopState(Snapshot(), paused', seekTs', next', interrupted', done')
           == Step(LoopState(old(Snapshot()), paused, seekTs, next, interrupted, false), tick, packets, trackId, timeBase, variant)
    {
      paused', seekTs', next', interrupted', done' := paused, seekTs, next, interrupted, false;
      if tick.command.Some? {
        match tick.command.value {
          case Pause => paused' := true;
          case Resume => paused' := false;
          case Seek(_) => if tick.seekTo.Some? { seekTs' := tick.seekTo.value; }
          case Stop => interrupted' := true; done' := true;
        }
      }
      if done' || paused' {
        return;
      }
      paused', seekTs', next', interrupted', done' := PullPacket(tick, packets, trackId, timeBase, paused', seekTs', next', interrupted');
    }

    /** The packet part of a pass. */
    method PullPacket(tick: Tick, packets: seq<Packet>, trackId: int, timeBase: bool,
                      paused: bool, seekTs: nat, next: nat, interrupted: bool)
      returns (paused': bool, seekTs': nat, next': nat, interrupted': bool, done': bool)
      modifies this
      ensures LoopState(Snapshot(), paused', seekTs', next', interrupted', done')
           == Pull(LoopState(old(Snapshot()), paused, seekTs, next, interrupted, false), tick, packets, trackId, timeBase, variant)
    {
      paused', seekTs', next', interrupted', done' := paused, seekTs, next, interrupted, false;
      if next >= |packets| {
        done' := true;
        return;
      }
      var packet := packets[next];
      next' := next + 1;
      if packet.trackId != trackId {
        return;
      }
      match packet.decode {
        case FatalError => done' := true;
        case DecodeError =>
        case Decoded =>
          if packet.ts >= seekTs && timeBase {
            playedMillis := packet.seconds * 1000;
          }
          if tick.saveDue {
            BroadcastStatus(true, tick.now);
          } else if tick.updateDue {
            BroadcastStatus(variant == Desktop, tick.now);
          }
      }
    }

    /** The render thread's body, run over the given passes. */
    method RenderThread(start: ThreadStart, tracks: seq<Track>, decoderOk: bool, timeBase: bool,
                        packets: seq<Packet>, ticks: seq<Tick>, endNow: Timestamp)
      returns (final: LoopState)
      modifies this
      ensures final == ThreadSpec(old(Snapshot()), variant, start, tracks, decoderOk, timeBase, packets, ticks, endNow)
      ensures Snapshot() == final.player
    {
      var found := false;
      var k := 0;
      while k < |tracks|
        invariant 0 <= k <= |tracks|
        invariant found <==> exists i :: 0 <= i < k && tracks[i].id == start.trackId
      {
        if tracks[k].id == start.trackId {
          found := true;
        }
        k := k + 1;
      }
      if !found || !decoderOk {
        return LoopState(Snapshot(), false, start.seekTs, 0, false, false);
      }
      ghost var init := LoopState(Snapshot(), false, start.seekTs, 0, false, false);
      var paused, seekTs, next, interrupted, done := false, start.seekTs, 0, false, false;
      var i := 0;
      while i < |ticks| && !done
        invariant 0 <= i <= |ticks|
        invariant RunLoop(LoopState(Snapshot(), paused, seekTs, next, interrupted, done), ticks[i..], packets, start.trackId, timeBase, variant)
               == RunLoop(init, ticks, packets, start.trackId, timeBase, variant)
      {
        paused, seekTs, next, interrupted, done := RenderPass(ticks[i], packets, start.trackId, timeBase, paused, seekTs, next, interrupted);
        assert ticks[i..][1..] == ticks[i + 1..];
        i := i + 1;
      }
      if i == |ticks| {
        assert ticks[i..] == [];
      }
      if done && !interrupted && variant == Desktop {
        BroadcastStatus(true, endNow);
        playing := None;
        playedMillis := 0;
        episodeLength := 0;
        BroadcastStatus(true, endNow);
      }
      final := LoopState(Snapshot(), paused, seekTs, next, interrupted, done);
    }
  }
}
