# dimppl: a Dafny model of the podcast client's core rules

dimppl is a podcast player made of a desktop client (Tauri, Rust back end
with a TypeScript front end), an older Tauri client, and a sync server. This
project models, in Dafny, the parts of it that decide things:

- the playback controller of both clients: the "now playing" fields, the
  transport calls, the media-key mapping, session replacement in
  `play_track`, and the render loop as a step function over an abstract
  packet stream;
- the progress rules: the resume position, the "completed when under 300 s
  remain" flag, the strictly-newer `updated_at` guard on the server and on
  the client, and the submit throttle of the progress updater;
- the feed and episode data rules: `hms_to_seconds`, reading RSS items, the
  episode upsert with its progress rows, creation of missing progress rows,
  the last-played choice, listing downloads by size, marking progress and
  erasing downloads;
- downloading: the choice of file extension, the file names, the bounded
  byte counter, and the download registry (a map plus an ordered cache that
  must stay in step);
- the menus: the episode context menu's options, labels and tagged ids, the
  main menu's ids, and what each clicked option does;
- the cache keys the back end tells the front end to invalidate;
- small parsers and formatters: the `filename` of a Content-Disposition
  header (a simplified reading of section 4.1 of RFC 6266),
  `truncate_up_to`, bearer-token extraction (section 2.1 of RFC 6750), the
  server's access-token shape, `hms`, `formatHms`, `formatHumane`, and the
  image-URL choice of the front end.

One Dafny module stands for each source file or pair of files. Where the
two clients share code, one module covers both and a `Variant` parameter
(`Desktop` or `Legacy`) or a `Legacy...` module tells them apart.

- Mutable objects are classes with the source's fields:
  - the player (`Player.NewPlayer`);
  - the download registries (`Downloads.EpisodeDownloads`,
    `Downloads.LegacyEpisodeDownloads`);
  - the progress updater (`ProgressUpdater.Updater`).
- `Commands.ConfigWrapper` is an assumed stand-in for the configuration
  holder that the volume command calls. It is built from those call sites
  only, because the holder's own definition is not part of this model.
- Each method is proved equal to a pure function of the old state, and the
  properties are lemmas about those functions.
- Database tables are sequences of rows in row-id order, or maps from row
  id to row.
- Time is an integer count of nanoseconds.
- Rust's `i64` division truncates toward zero. An `as i32` cast is
  `Numbers.WrapI32`.
- The JSON that serde produces for the menu enums is modelled concretely,
  as its externally tagged, compact form. Numbers follow JSON's grammar, so
  leading zeros are rejected. Decoding inverts encoding, and a number the
  decoder accepts is the value's own spelling, except that "-0" reads as 0.

The inputs a Rust or TypeScript function takes from the outside world
become parameters: the HTTP response, whether a file exists or can be
removed, the random characters of a token, and the clock. The audio
decoder is a sequence of packets. Each pass of the render loop receives one
`Tick`, which carries:

- the command `try_recv` returned;
- the outcome of a seek;
- the two broadcast timers.

## Model

| member | source | states |
|---|---|---|
| Player.InitialIsValid | desktop/src-tauri/src/player/new_player.rs:61-76 | a new player has no episode, is not paused, and satisfies the one-live-render-thread invariant |
| Player.FirstSupportedTrack | desktop/src-tauri/src/player/new_player.rs:519-521 | the result is the first track whose codec is not null; None exactly when every track's codec is null |
| Player.BroadcastEffect | desktop/src-tauri/src/player/new_player.rs:258-332 | a broadcast emits exactly the current status, with `loading` false and elapsed = played millis / 1000; it writes one progress row exactly when saving with an episode loaded; no other field changes |
| Player.BroadcastWrite | desktop/src-tauri/src/player/new_player.rs:270-288 | the written row has `listened_seconds` = elapsed whole seconds as an i32 and `updated_at` = now; the desktop app sets `completed` exactly when under 300 s of the episode's length remain, the older app never writes `completed` |
| Player.CompletedIgnoresFileDuration | desktop/src-tauri/src/player/new_player.rs:274 | the persisted rows do not depend on the file duration the player keeps; completion reads the stored episode length |
| Player.CompletedMonotone | desktop/src-tauri/src/player/new_player.rs:274 | once the completed test holds, listening further keeps it true |
| Player.TimerPersistence | src-tauri/src/player/new_player.rs:370-392 | in the older app only the save timer writes progress, and never with `completed`; in the desktop app either timer, with an episode loaded, writes exactly one row carrying `completed` |
| Player.TransportWithoutSession | desktop/src-tauri/src/player/new_player.rs:194-231 | with no episode loaded, play, pause, seek_to and both skips change nothing |
| Player.PlayPauseEffect | desktop/src-tauri/src/player/new_player.rs:194-214 | with an episode loaded, play sends Resume and clears `is_paused`, pause sends Pause and sets it; the session, position, sender and handle are untouched and the emitted status shows the new flag |
| Player.SeekToEffect | desktop/src-tauri/src/player/new_player.rs:224-231 | seek_to sends exactly one Seek(target), and only with an episode loaded, a sender, and a target of at least 0; nothing else changes |
| Player.SkipTargets | desktop/src-tauri/src/player/new_player.rs:216-222 | skip forwards seeks to played_millis/1000 + 30 and skip backwards to played_millis/1000 - 15; a backward skip within the first 15 s is dropped as a negative seek |
| Player.MediaEventMapping | desktop/src-tauri/src/player/new_player.rs:94-154 | Toggle plays a paused player and pauses a playing one; SeekBy forwards or backwards acts as SkipForward or SkipBackward by the same seconds; SetPosition seeks to the absolute position; Next skips forwards |
| Player.PlayTrackNoTrack | desktop/src-tauri/src/player/new_player.rs:335-339 | when every track's codec is null, play_track changes nothing and returns Ok |
| Player.PlayTrackReplaces | desktop/src-tauri/src/player/new_player.rs:347-367 | a started track sends Stop to the old sender, joins the old handle, installs a fresh sender and handle of the same spawn, and leaves every other field as it was |
| Player.ReplacedKeepsOneLiveThread | desktop/src-tauri/src/player/new_player.rs:347-367 | session replacement preserves the invariant that at most one render thread is un-joined and every older channel was sent Stop |
| Player.LegacyInitialSeek | src-tauri/src/player/new_player.rs:218-241 | in the older app the initial seek starts at the required timestamp on success; on ResetRequired it re-selects the first supported track and starts at 0; any other failure also starts at 0 |
| Player.PlayEpisodeNeedsFile | desktop/src-tauri/src/player/new_player.rs:161-164 | an episode with an empty local path is refused with an error before any field changes |
| Player.PlayEpisodeSetup | desktop/src-tauri/src/player/new_player.rs:165-192 | after set-up the session is (episode, podcast), played millis = starting_at*1000, not paused, the length is the file duration, and the one status emitted carries `loading` false |
| Player.PlayEpisodeKeepsOneLiveThread | desktop/src-tauri/src/player/new_player.rs:161-192 | every outcome of play_episode keeps at most one render thread live |
| Player.StepCommands | desktop/src-tauri/src/player/new_player.rs:405-431 | in a loop pass Pause and Resume set and clear the loop's paused flag, Seek replaces `seek_ts` with the required timestamp or keeps it when the seek fails, and Stop sets `interrupted` and breaks out |
| Player.PausedPullsNothing | desktop/src-tauri/src/player/new_player.rs:428-431 | while paused, a pass pulls no packet and changes nothing beyond the command |
| Player.StepPackets | desktop/src-tauri/src/player/new_player.rs:433-484 | a packet of another track or one that fails to decode is skipped; any other error breaks out; only a decoded packet of the track at or after `seek_ts` moves the position, to that packet's whole seconds times 1000 |
| Player.StepEndOfStream | desktop/src-tauri/src/player/new_player.rs:433-436 | running out of packets breaks out of the loop like a read error |
| Player.AdvanceKeepsSession | desktop/src-tauri/src/player/new_player.rs:442-477 | handling a decoded packet never touches the session fields, only adds statuses and progress writes, and in the older app never writes `completed` |
| Player.StepKeepsSession | desktop/src-tauri/src/player/new_player.rs:405-484 | a loop pass never touches the session fields and only adds statuses and writes |
| Player.RunLoopKeepsSession | desktop/src-tauri/src/player/new_player.rs:384-486 | the whole loop never touches session, sender or handle, only appends statuses and writes, and in the older app never writes `completed` |
| Player.ThreadEnd | desktop/src-tauri/src/player/new_player.rs:487-494 | when the desktop loop ends without Stop the session is cleared and played millis and length are zeroed; after Stop, and always in the older app, the fields stay as the loop left them |
| Player.ThreadKeepsOneLiveThread | desktop/src-tauri/src/player/new_player.rs:384-497 | the render thread keeps the one-live-thread invariant |
| Player.LegacyThreadNeverCompletes | src-tauri/src/player/new_player.rs:185-191 | nothing the older app's render thread persists carries `completed` |
| Player.NewPlayer.constructor | desktop/src-tauri/src/player/new_player.rs:61-76 | a new player's fields are the initial state |
| Player.NewPlayer.BroadcastStatus | desktop/src-tauri/src/player/new_player.rs:258-332 | updates the fields exactly as `Broadcast` on the old state |
| Player.NewPlayer.Play | desktop/src-tauri/src/player/new_player.rs:194-203 | updates the fields exactly as `PlaySpec` on the old state |
| Player.NewPlayer.Pause | desktop/src-tauri/src/player/new_player.rs:205-214 | updates the fields exactly as `PauseSpec` on the old state |
| Player.NewPlayer.SeekTo | desktop/src-tauri/src/player/new_player.rs:224-231 | updates the fields exactly as `SeekToSpec` on the old state |
| Player.NewPlayer.SkipForwards | desktop/src-tauri/src/player/new_player.rs:216-218 | updates the fields exactly as `SkipForwardsSpec` on the old state |
| Player.NewPlayer.SkipBackwards | desktop/src-tauri/src/player/new_player.rs:220-222 | updates the fields exactly as `SkipBackwardsSpec` on the old state |
| Player.NewPlayer.SetVolume | src-tauri/src/player/new_player.rs:144-146 | the older app stores the given volume unchanged; the desktop app stores the precomputed gain; nothing else changes |
| Player.NewPlayer.HandleMediaEvent | desktop/src-tauri/src/player/new_player.rs:94-154 | updates the fields exactly as `MediaEventSpec` on the old state |
| Player.NewPlayer.PlayTrack | desktop/src-tauri/src/player/new_player.rs:334-369 | updates the fields and returns exactly as `PlayTrackSpec` on the old state |
| Player.NewPlayer.ReplaceSession | src-tauri/src/player/new_player.rs:243-258 | Stop to the old sender, join of the old handle, then the fresh sender and handle; the new channel number is returned |
| Player.NewPlayer.PlayEpisode | desktop/src-tauri/src/player/new_player.rs:161-192 | updates the fields and returns exactly as `PlayEpisodeSpec` on the old state |
| Player.NewPlayer.RenderPass | desktop/src-tauri/src/player/new_player.rs:405-484 | one pass of the loop over the shared fields and the loop locals, equal to `Step` |
| Player.NewPlayer.PullPacket | desktop/src-tauri/src/player/new_player.rs:433-484 | the packet half of a pass, equal to `Pull` |
| Player.NewPlayer.RenderThread | desktop/src-tauri/src/player/new_player.rs:384-497 | the render thread over the given passes, equal to `ThreadSpec`, with the fields left as its final state |
| Commands.StartSeconds | desktop/src-tauri/src/commands.rs:238-242 | the resume position is 0 for completed progress, otherwise `listened_seconds as u64`: the value modulo 2^64, which is the stored value itself when that is non-negative |
| Commands.StartSecondsRoundTrip | src-tauri/src/player.rs:34-36 | the `as u64` of the command and the `as i32` of the player wrapper cancel out: the player starts at the stored seconds, or 0 when completed |
| Commands.PlayEpisodeCommand | desktop/src-tauri/src/commands.rs:233-247 | succeeds exactly when the episode and a progress row for it exist, yielding that episode and the start position of one of its progress rows; otherwise the not-found error |
| Commands.ResumeAfterMarkComplete | desktop/src-tauri/src/commands.rs:238-242 | after mark_as_complete the episode starts from 0 |
| Commands.ResumeAfterMarkNotComplete | desktop/src-tauri/src/commands.rs:238-242 | after mark_as_not_complete the episode also starts from 0 |
| Commands.PlayEpisode | desktop/src-tauri/src/commands.rs:233-247 | a failed look-up returns its error and leaves the player alone; otherwise the player plays the episode from the start position and the command returns Ok |
| Commands.PlayerAction | desktop/src-tauri/src/commands.rs:250-262 | "play", "pause", "skip_forwards" and "skip_backwards" reach the same-named player call; any other string changes nothing; the result is always Ok |
| Commands.ConfigWrapper.constructor | desktop/src-tauri/src/commands.rs:273-276 | the assumed holder starts with the given volume, which `set_volume` reads back from it |
| Commands.ConfigWrapper.Update | desktop/src-tauri/src/commands.rs:276-278 | the assumed `update`, used the same way at src-tauri/src/commands.rs:228-230: a successful save replaces the volume; a failed one is an I/O error that `?` returns, and the volume is kept |
| Commands.SetVolume | desktop/src-tauri/src/commands.rs:271-281 | the configuration is saved first; only on success does the player's volume change; the result is Ok exactly when the save succeeds |
| Commands.Seek | desktop/src-tauri/src/commands.rs:284-287 | `to` reaches seek_to unchanged; always Ok |
| ProgressUpdater.ShouldSubmit | desktop/src-tauri/src/progress_updater.rs:85-102 | false exactly when there is a previous success for the same episode within 5 s and `completed` does not flip from false to true |
| ProgressUpdater.ThrottledAfterSuccess | desktop/src-tauri/src/progress_updater.rs:90-101 | within 5 s of a success, a not-completed update of the same episode is held back |
| ProgressUpdater.SubmitsGetThrough | desktop/src-tauri/src/progress_updater.rs:87-101 | no previous success, another episode, a false-to-true completion, or more than 5 s elapsed always lets a submit through |
| ProgressUpdater.Updater.constructor | desktop/src-tauri/src/progress_updater.rs:25-35 | a new updater is not in flight, has no last update, and its last-update time is now |
| ProgressUpdater.Updater.SubmitProgress | desktop/src-tauri/src/progress_updater.rs:37-49 | a submission starts exactly when none is in flight and the throttle allows it; starting sets the in-flight flag; the last update is untouched |
| ProgressUpdater.Updater.CompleteSubmit | desktop/src-tauri/src/progress_updater.rs:51-65 | the in-flight flag is cleared whatever the outcome; only a success records the request and the time |
| ServerProgress.FindPodcast | server/src/models/episode.rs:10-15 | the first podcast of that user with that guid; None exactly when there is none |
| ServerProgress.GuardedUpdate | server/src/models/episode.rs:17-29 | the update keeps the table's row ids |
| ServerProgress.UpdateProgress | server/src/models/episode.rs:9-32 | an unknown podcast guid for the user is an error and changes nothing; otherwise the guarded update runs and no row id is added or removed |
| ServerProgress.UpdateSetsRequestValues | server/src/models/episode.rs:18-22 | an updated row takes listened seconds, completed and updated_at exactly from the request and keeps its identity columns |
| ServerProgress.UpdateTouchesOnlyTarget | server/src/models/episode.rs:24-28 | a row changes only if it has the request's episode guid, belongs to the user's podcast with the request's guid, and is stored strictly older |
| ServerProgress.SavedIffSomeRowMatches | server/src/models/episode.rs:17-31 | the result is Saved exactly when some row passes the filter |
| ServerProgress.Targets | server/src/models/episode.rs:24-28 | no contract of its own; the UPDATE's filter, used by `SavedIffSomeRowMatches` |
| ServerProgress.AffectedCount | server/src/models/episode.rs:19-29 | no contract of its own; `SavedIffSomeRowMatches` states that it is nonzero exactly when some row passes the filter |
| ServerProgress.SaveResultOf | server/src/models/episode.rs:31 | no contract of its own; `SavedIffSomeRowMatches` states which count gives Saved |
| ServerProgress.OlderRequestNotSaved | server/src/models/episode.rs:80-112 | a request no newer than every stored row of the episode gives NotSaved and leaves the table unchanged |
| PodcastModel.ParsedFields | desktop/src-tauri/src/models/podcast.rs:451-452 | the kept values are i32s and never more than the fields; every field is kept exactly when every field parses |
| PodcastModel.HmsToSeconds | desktop/src-tauri/src/models/podcast.rs:449-456 | the result is an i32; None gives 0; anything but exactly three parsed fields gives 0 |
| PodcastModel.SecondsOfFields | desktop/src-tauri/src/models/podcast.rs:452-455 | the result is an i32; anything but three values gives 0; three values whose h*3600 + m*60 + s fits in an i32 give exactly that sum |
| PodcastModel.HmsToSecondsOfClock | desktop/src-tauri/src/models/podcast.rs:449-456 | the shortest spellings "H:M:S" of in-range h, m and s read back as h*3600 + m*60 + s |
| PodcastModel.HmsToSecondsOfFields | desktop/src-tauri/src/models/podcast.rs:449-456 | any three colon-free fields that parse as i32 in any spelling ("01", "+1", "-2") give h*3600 + m*60 + s, wrapped to i32 |
| PodcastModel.ZeroPaddedDuration | desktop/src-tauri/src/models/podcast.rs:449-456 | the zero-padded form "01:02:03" gives 3723 |
| PodcastModel.ParsedFieldsConcat | desktop/src-tauri/src/models/podcast.rs:451-452 | `filter_map` reads fields one by one: the values of a concatenation are the concatenated values, in order |
| PodcastModel.UnparsableFieldDropped | desktop/src-tauri/src/models/podcast.rs:451-452 | a field that does not parse is dropped wherever it stands, leaving the other values in order |
| PodcastModel.UnparsableFieldIgnored | desktop/src-tauri/src/models/podcast.rs:449-456 | a colon-free field that does not parse can be inserted between any two parts of the duration without changing the seconds |
| PodcastModel.MinutesSecondsGiveZero | desktop/src-tauri/src/models/podcast.rs:453-455 | a two-field "M:S" duration gives 0 |
| PodcastModel.FromItem | desktop/src-tauri/src/models/podcast.rs:418-439 | a missing enclosure, guid, link or title fails, with the source's message, checked in that order; otherwise the fields are copied, the length fits an i32, and the description falls back to the iTunes summary, then to "" |
| PodcastModel.NewPodcastFromParsed | desktop/src-tauri/src/models/podcast.rs:289-303 | the feed's fields and the given url; created now, updated at the feed's publication time |
| PodcastModel.UpdatedPodcastNew | desktop/src-tauri/src/models/podcast.rs:250-272 | copies every field of the new podcast except guid and created_at |
| PodcastModel.RefreshKeepsIdentity | desktop/src-tauri/src/models/podcast.rs:250-272 | refreshing a podcast row keeps its id, guid, creation and deletion times |
| PodcastModel.UpdatedPodcastIgnoresGuid | desktop/src-tauri/src/models/podcast.rs:250-272 | the change set does not depend on the new podcast's guid or creation time |
| PodcastModel.NewEpisodeFromParsed | desktop/src-tauri/src/models/podcast.rs:321-337 | starts with empty content and image local paths, under the given podcast, and copies every parsed field |
| PodcastModel.NextEpisodeId | desktop/src-tauri/src/models/podcast.rs:117-138 | a new episode row gets an id above every id in use |
| PodcastModel.NextProgressId | desktop/src-tauri/src/models/podcast.rs:139-157 | a new progress row gets an id above every id in use |
| PodcastModel.FindEpisodeFrom | desktop/src-tauri/src/models/podcast.rs:117-121 | the first row from `from` on of that podcast with that guid; None when there is none |
| PodcastModel.FindEpisode | desktop/src-tauri/src/models/podcast.rs:117-121 | the first row of that podcast with that guid; None when there is none |
| PodcastModel.EnsureProgress | desktop/src-tauri/src/models/podcast.rs:139-157 | the episode ends with a progress row; an existing one leaves the table as it was; otherwise one not-started row is appended |
| PodcastModel.SyncStepUpserts | desktop/src-tauri/src/models/podcast.rs:117-138 | an existing guid gets only its content url updated; an unknown guid is inserted and `new_episodes` grows by one |
| PodcastModel.SyncStepProgress | desktop/src-tauri/src/models/podcast.rs:139-157 | progress rows are only appended, at most one, not started, and only for an episode that had none |
| PodcastModel.FindEpisodeFromStable | desktop/src-tauri/src/models/podcast.rs:117-138 | a found row stays found when later steps keep ids, guids and podcast ids |
| PodcastModel.SyncStepKeepsFound | desktop/src-tauri/src/models/podcast.rs:117-157 | a step keeps an already-synced episode found, with the same id and its progress row |
| PodcastModel.SyncStepCovers | desktop/src-tauri/src/models/podcast.rs:117-157 | after a step the parsed episode has a row under the podcast, and that row has a progress row |
| PodcastModel.SyncAllCovers | desktop/src-tauri/src/models/podcast.rs:116-158 | after the loop every feed episode has a row under the podcast with a progress row |
| PodcastModel.SyncStep | desktop/src-tauri/src/models/podcast.rs:117-157 | no contract of its own; `SyncStepUpserts` states what one iteration does |
| PodcastModel.SyncAll | desktop/src-tauri/src/models/podcast.rs:116-158 | no contract of its own; `SyncAllCovers` states what the whole loop leaves behind |
| PodcastModel.ApplyUpdatedPodcast | desktop/src-tauri/src/models/podcast.rs:108-114 | the change set leaves the row's id, guid, creation and deletion times as they were; `UpdatedPodcast::new` at podcast.rs:250-273 copies the other fields |
| PodcastModel.SyncAllKeepsFound | desktop/src-tauri/src/models/podcast.rs:116-158 | an episode synced before the loop is still found, with a progress row, after it |
| PodcastModel.SyncAllCounts | desktop/src-tauri/src/models/podcast.rs:116-158 | `new_episodes` counts exactly the inserted rows, at most one per feed episode |
| PodcastModel.SyncEpisodes | desktop/src-tauri/src/models/podcast.rs:104-161 | the upsert loop yields the same tables and counter as `SyncAll` from a counter of 0 |
| PodcastModel.GuardedProgress | desktop/src-tauri/src/models/podcast.rs:196-207 | only rows of that episode stored strictly older take the synced values; every other row is unchanged |
| PodcastModel.ApplySynced | desktop/src-tauri/src/models/podcast.rs:187-208 | the table keeps its size; the result is the not-found error exactly when some synced episode's guid is not among the podcast's episodes |
| PodcastModel.ApplySyncedNeverOlder | desktop/src-tauri/src/models/podcast.rs:196-207 | synced progress never moves a row's `updated_at` backwards |
| PodcastModel.ApplySyncedOnlyNewer | desktop/src-tauri/src/models/podcast.rs:196-207 | a row changes only when some synced entry for its episode is strictly newer than the stored row |
| PodcastModel.StoreSyncedProgress | desktop/src-tauri/src/models/podcast.rs:187-208 | the loop gives the same table and result as `ApplySynced` |
| EpisodeModel.EpisodeIdsOf | desktop/src-tauri/src/models/episode.rs:331-334 | exactly the ids of the podcast's episode rows |
| EpisodeModel.ProgressEpisodeIds | desktop/src-tauri/src/models/episode.rs:335-341 | exactly the ids among the given ones that have a progress row |
| EpisodeModel.Missing | desktop/src-tauri/src/models/episode.rs:342-354 | exactly the ids not in the snapshot |
| EpisodeModel.MissingInsertedShape | desktop/src-tauri/src/models/episode.rs:342-354 | the loop only appends, one default row per missing id, in order, each with a fresh increasing id |
| EpisodeModel.MissingInsertedPrefix | desktop/src-tauri/src/models/episode.rs:342-354 | the old rows are kept as a prefix and one row is added per missing id |
| EpisodeModel.MissingInsertedDefaults | desktop/src-tauri/src/models/episode.rs:342-354 | each appended row is a not-started row for the matching missing id, stamped now |
| EpisodeModel.MissingInsertedFreshIds | desktop/src-tauri/src/models/episode.rs:342-354 | each appended row's id is above every id before it |
| EpisodeModel.MissingInsertedCovers | desktop/src-tauri/src/models/episode.rs:342-354 | afterwards every given id has a progress row |
| EpisodeModel.FixMissingProgressEntries | desktop/src-tauri/src/models/episode.rs:329-356 | an unknown podcast is a not-found error and inserts nothing; otherwise the table only grows, to `MissingInserted` over the podcast's episodes, and each of them ends with a progress row. The same method stands for the older client's copy at src-tauri/src/models/episode.rs:154-184, whose inserting loop is at lines 170-182 |
| EpisodeModel.MissingInsertedAdds | desktop/src-tauri/src/models/episode.rs:342-354 | each appended row is a default row for an id the snapshot lacked |
| EpisodeModel.InsertedRowsWereMissing | desktop/src-tauri/src/models/episode.rs:342-354 | each inserted row is a default row for an episode of the podcast that had no progress row before the call |
| EpisodeModel.NewestListened | desktop/src-tauri/src/models/episode.rs:142-150 | a listened row with the largest `updated_at`; None exactly when no row is listened |
| EpisodeModel.FindLastPlayed | desktop/src-tauri/src/models/episode.rs:135-153 | a result is a listened, not completed row with the newest `updated_at` of the listened rows; no listened row gives None |
| EpisodeModel.NoFallbackPastCompleted | desktop/src-tauri/src/models/episode.rs:142-152 | when the newest listened row is completed the result is None, even if an older open row exists |
| EpisodeModel.NewestOpenRowFound | desktop/src-tauri/src/models/episode.rs:142-152 | a single newest listened open row is what is found |
| EpisodeModel.OpenableDownloads | desktop/src-tauri/src/models/episode.rs:110-129 | only joined rows with a non-empty path whose file opens, each carrying that file's size |
| EpisodeModel.OpenableDownloadsComplete | desktop/src-tauri/src/models/episode.rs:110-129 | every row with a non-empty path that opens is kept |
| EpisodeModel.InsertBySize | desktop/src-tauri/src/models/episode.rs:130-131 | inserting into a list sorted by size, largest first, keeps it sorted and is a permutation plus the new element |
| EpisodeModel.SortBySizeDesc | desktop/src-tauri/src/models/episode.rs:130-131 | the result is sorted by file size, largest first, and is a permutation of the input |
| EpisodeModel.FindAllDownloaded | desktop/src-tauri/src/models/episode.rs:102-133 | the openable downloads, sorted by size, largest first, as a permutation |
| EpisodeModel.FindAllDownloadedSound | desktop/src-tauri/src/models/episode.rs:118-131 | every listed download is a joined row with a non-empty path that opens, carrying that file's size |
| EpisodeModel.FindAllDownloadedComplete | desktop/src-tauri/src/models/episode.rs:118-131 | every joined row with a non-empty path that opens is listed |
| EpisodeModel.FindOneProgress | desktop/src-tauri/src/models/episode.rs:77-81 | Ok exactly when the episode has a progress row, and then one of its rows |
| EpisodeModel.MarkRows | desktop/src-tauri/src/models/episode.rs:198-220 | every row of the episode gets the completed flag and `updated_at` = now, and optionally listened seconds 0; other rows are unchanged |
| EpisodeModel.MarkAsComplete | desktop/src-tauri/src/models/episode.rs:198-206 | sets `completed` on the episode's rows; an error exactly when there is no row |
| EpisodeModel.MarkAsNotComplete | desktop/src-tauri/src/models/episode.rs:208-220 | clears `completed` and zeroes listened seconds on the episode's rows; an error exactly when there is no row |
| EpisodeModel.MarkRowsKeepsPresence | desktop/src-tauri/src/models/episode.rs:198-220 | marking never removes the episode's progress row |
| EpisodeModel.MarkReturnsFirstRowId | desktop/src-tauri/src/models/episode.rs:198-220 | both mark operations return the id of the episode's first progress row |
| EpisodeModel.MarkFirstRowId | desktop/src-tauri/src/models/episode.rs:198-220 | marking does not move the first progress row of the episode |
| EpisodeModel.FindOneEpisode | desktop/src-tauri/src/models/episode.rs:71-75 | the first row with the id; None exactly when there is none |
| EpisodeModel.EraseDownloadedFile | desktop/src-tauri/src/models/episode.rs:222-239 | an unknown id is not found; an empty path does nothing; a file that exists but cannot be removed is an I/O error leaving the table; otherwise the path is cleared |
| EpisodeModel.ClearPath | desktop/src-tauri/src/models/episode.rs:233-235 | rows with the id get an empty content path; nothing else changes |
| EpisodeModel.EraseIdempotent | desktop/src-tauri/src/models/episode.rs:224-236 | erasing twice leaves the same table as erasing once |
| EpisodeDownload.ExtensionPriority | desktop/src-tauri/src/models/episode.rs:306-327 | the extension comes from the Content-Disposition filename, else the url path, else the MIME type, else "mp3" |
| EpisodeDownload.ExtractExtension | desktop/src-tauri/src/models/episode.rs:306-327 | no contract of its own; `ExtensionPriority` states the order of the candidates and the "mp3" fallback |
| EpisodeDownload.ExtensionOf | desktop/src-tauri/src/models/episode.rs:306-327 | no contract of its own; it applies `ExtractExtension` to the response's header and MIME type and the url path |
| EpisodeDownload.FirstOfThree | desktop/src-tauri/src/models/episode.rs:320-326 | `find(is_some)` over three candidates picks the first present one, else the fallback |
| EpisodeDownload.ExtensionHasNoDot | desktop/src-tauri/src/models/episode.rs:306-327 | an extension taken from the header or the url is the text after the last `.` and has no `.` |
| EpisodeDownload.DotlessUrlPathIsWholeExtension | desktop/src-tauri/src/models/episode.rs:306-327 | with no header filename, a url path without `.` is taken whole as the extension |
| EpisodeDownload.DesktopFileNameParts | desktop/src-tauri/src/models/episode.rs:266 | the name "{podcast_id}-{id}.{ext}" splits back into the podcast id, the episode id and the extension |
| EpisodeDownload.DesktopFileNameInjective | desktop/src-tauri/src/models/episode.rs:266 | episodes with different (podcast id, id) never share a file name |
| EpisodeDownload.DesktopFileName | desktop/src-tauri/src/models/episode.rs:266 | no contract of its own; `DesktopFileNameParts` and `DesktopFileNameInjective` state what the name determines |
| EpisodeDownload.LegacyFileName | src-tauri/src/models/episode.rs:89-94 | the name starts with the title cut to 50 characters, and is no longer than 52 characters plus the lengths of the id and the extension |
| EpisodeDownload.Counted | src-tauri/src/models/episode.rs:105-106 | the counter never exceeds the total |
| EpisodeDownload.CountedMonotone | desktop/src-tauri/src/models/episode.rs:277-278 | the counter never decreases from chunk to chunk |
| EpisodeDownload.CountedUnknownLength | desktop/src-tauri/src/models/episode.rs:258-259 | with an unknown length the counter stays 0 |
| EpisodeDownload.CountedExact | desktop/src-tauri/src/models/episode.rs:277-278 | while the data stays within the total, the counter is the number of bytes received |
| EpisodeDownload.FirstFailure | desktop/src-tauri/src/models/episode.rs:273-276 | the first failing chunk, if any; None exactly when every chunk is data |
| EpisodeDownload.ReceiveChunks | desktop/src-tauri/src/models/episode.rs:273-285 | the loop stops at the first failed chunk with its error; the counter is `Counted` of the chunks before it; the registry keeps its other entries and reports no more than counted |
| EpisodeDownload.StartDownload | desktop/src-tauri/src/models/episode.rs:241-304 | a failed request leaves a (0, 0) registry entry; a non-success status marks the download done; a failing chunk returns its error and keeps the entry; a full download records the "{podcast_id}-{id}.{ext}" path and marks it done |
| EpisodeDownload.ReceiveFile | desktop/src-tauri/src/models/episode.rs:258-304 | the successful-response half of start_download, with the same outcomes |
| EpisodeDownload.LegacyReceiveChunks | src-tauri/src/models/episode.rs:101-116 | the older client's loop, with the same counter and registry outcomes |
| EpisodeDownload.LegacyStartDownload | src-tauri/src/models/episode.rs:61-129 | the same flow as the desktop one; a non-success status marks the download done and writes nothing; a full download records the legacy file name |
| Downloads.Ids | desktop/src-tauri/src/models/episode_downloads.rs:46 | the cache's episode ids, in cache order |
| Downloads.RemoveFirst | desktop/src-tauri/src/models/episode_downloads.rs:44-50 | a cache without the id is unchanged; `RemoveFirstAt` states what happens otherwise |
| Downloads.RemoveFirstAt | desktop/src-tauri/src/models/episode_downloads.rs:44-50 | when the id is cached exactly the entry at its first position is removed, and the other entries stay in their old order |
| Downloads.SetProgressSpec | desktop/src-tauri/src/models/episode_downloads.rs:31-39 | the map entry is inserted or overwritten; the episode is appended to the cache only if its id was not a key |
| Downloads.MarkDoneSpec | desktop/src-tauri/src/models/episode_downloads.rs:41-52 | the map entry is removed; a cache without the id is unchanged; otherwise the cache loses exactly the entry at the first position with the id and keeps the others in order |
| Downloads.IdsAppend | desktop/src-tauri/src/models/episode_downloads.rs:35 | appending an episode appends its id |
| Downloads.RemoveFirstIds | desktop/src-tauri/src/models/episode_downloads.rs:44-50 | removing the first occurrence from a duplicate-free cache removes exactly that id and keeps it duplicate-free |
| Downloads.SetProgressKeepsMatch | desktop/src-tauri/src/models/episode_downloads.rs:31-39 | set_progress keeps the cache duplicate-free and its ids equal to the map's keys |
| Downloads.MarkDoneKeepsMatch | desktop/src-tauri/src/models/episode_downloads.rs:41-52 | mark_done keeps the cache duplicate-free and its ids equal to the map's keys |
| Downloads.MarkDoneAbsent | desktop/src-tauri/src/models/episode_downloads.rs:41-52 | mark_done of an id not held changes nothing |
| Downloads.RunKeepsMatch | desktop/src-tauri/src/models/episode_downloads.rs:31-52 | any sequence of calls preserves the correspondence |
| Downloads.RunFromEmpty | desktop/src-tauri/src/models/episode_downloads.rs:18-24 | from a new registry, any sequence of calls keeps the cache ids duplicate-free and equal to the map's keys |
| Downloads.ReportOfComplete | desktop/src-tauri/src/models/episode_downloads.rs:54-72 | when every cached episode has an entry, the report has one line per cached episode, in cache order, with its byte counts |
| Downloads.ReportOfSound | desktop/src-tauri/src/models/episode_downloads.rs:54-72 | every report line names a cached episode with a map entry and copies its byte counts |
| Downloads.EpisodeDownloads.constructor | desktop/src-tauri/src/models/episode_downloads.rs:18-24 | an empty map, an empty cache, no broadcast yet |
| Downloads.EpisodeDownloads.InProgress | desktop/src-tauri/src/models/episode_downloads.rs:26-29 | returns a copy equal to the current map |
| Downloads.EpisodeDownloads.BuildReport | desktop/src-tauri/src/models/episode_downloads.rs:54-72 | the report loop yields `ReportOf` the cache and the map |
| Downloads.EpisodeDownloads.SetProgress | desktop/src-tauri/src/models/episode_downloads.rs:31-39 | the new map and cache are `SetProgressSpec` of the old; the new report is broadcast; the correspondence is kept |
| Downloads.EpisodeDownloads.MarkDone | desktop/src-tauri/src/models/episode_downloads.rs:41-52 | the new map and cache are `MarkDoneSpec` of the old; the new report is broadcast; the correspondence is kept |
| Downloads.LegacyEpisodeDownloads.constructor | src-tauri/src/models/episode_downloads.rs:14-20 | a new registry starts with an empty map |
| Downloads.LegacyEpisodeDownloads.InProgress | src-tauri/src/models/episode_downloads.rs:23-26 | returns a copy of the map |
| Downloads.LegacyEpisodeDownloads.SetProgress | src-tauri/src/models/episode_downloads.rs:28-32 | the id maps to the new progress, every other key is unchanged, and the map is broadcast |
| Downloads.LegacyEpisodeDownloads.MarkDone | src-tauri/src/models/episode_downloads.rs:34-38 | only the id is removed, nothing changes when it is absent, and the map is broadcast |
| ContextMenus.ToTaggedWellNamed | desktop/src-tauri/src/context_menus.rs:17-30 | every option's variant and field names are plain identifiers |
| ContextMenus.FromToTagged | desktop/src-tauri/src/context_menus.rs:17-30 | reading an option's serde shape gives it back |
| ContextMenus.DecodeEncode | desktop/src-tauri/src/context_menus.rs:55-81 | decoding an option's JSON encoding gives the option back, so distinct options have distinct encodings |
| ContextMenus.Encode | desktop/src-tauri/src/context_menus.rs:55 | no contract of its own; `DecodeEncode` states that `Decode` inverts it |
| ContextMenus.Decode | desktop/src-tauri/src/context_menus.rs:74 | no contract of its own; `DecodeEncode` states that it inverts `Encode` |
| Json.ParseNumber | desktop/src-tauri/src/context_menus.rs:74 | a number `serde_json::from_str` reads follows JSON's integer grammar, and any number accepted is the value's own spelling or "-0" |
| Json.LeadingZeroRejected | desktop/src-tauri/src/context_menus.rs:74 | a number with a leading zero before further digits is rejected, with or without a sign |
| ContextMenus.Label | desktop/src-tauri/src/context_menus.rs:33-47 | the label is empty exactly for Separator; the strings are the desktop literals as written, four of them with a Hangul syllable where "ó" or "ã" belongs |
| ContextMenus.MenuItem | desktop/src-tauri/src/context_menus.rs:49-62 | Separator gives a separator; every other option is a text item with its non-empty label and an id "ContextMenuOption--" + encoding that decodes back to it; desktop/src-tauri/src/menu_support.rs:104-118 builds the same id but with the correctly spelled labels, which is `LegacyMenus.SupportMenuItem` |
| ContextMenus.TryFromId | desktop/src-tauri/src/context_menus.rs:69-82 | a string without the tag is rejected; the same tag and rule at desktop/src-tauri/src/menu_support.rs:15 and 126-139, through which every menu click is decoded (desktop/src-tauri/src/lib.rs:97) |
| ContextMenus.TaggedIdRoundTrip | desktop/src-tauri/src/context_menus.rs:69-82 | the tagged encoding of an option is accepted and decodes back to it; the same holds for the ids built at desktop/src-tauri/src/menu_support.rs:111 and decoded at desktop/src-tauri/src/menu_support.rs:126-139 |
| ContextMenus.ExpectedOptions | desktop/src-tauri/src/context_menus.rs:100-125 | the list has five to seven entries, the fifth a Separator; the second copy at desktop/src-tauri/src/menu_support.rs:35-59 builds the same list; and so does the older client at src-tauri/src/menus.rs:81-106 |
| ContextMenus.FirstOptionPausesIff | desktop/src-tauri/src/context_menus.rs:101-109 | the first option is PauseEpisode exactly when a status exists, is not paused and is for this episode; otherwise PlayEpisode; the same rule at desktop/src-tauri/src/menu_support.rs:35-43; and at src-tauri/src/menus.rs:82-90 |
| ContextMenus.MiddleSection | desktop/src-tauri/src/context_menus.rs:110-117 | GoToEpisode, GoToPodcast, then MarkAsNotCompleted when completed or else MarkAsCompleted, then Separator; the same rule at desktop/src-tauri/src/menu_support.rs:44-51; and at src-tauri/src/menus.rs:91-98 |
| ContextMenus.DownloadSection | desktop/src-tauri/src/context_menus.rs:118-125 | nothing while downloading; otherwise StartEpisodeDownload for an empty path, else RemoveEpisodeDownload then ShowFileInFolder; the same rule at desktop/src-tauri/src/menu_support.rs:52-59; and at src-tauri/src/menus.rs:99-106 |
| ContextMenus.ShowContextMenu | desktop/src-tauri/src/context_menus.rs:90-135 | a missing episode is an error; otherwise the pushes build exactly the expected options; the same steps at desktop/src-tauri/src/menu_support.rs:24-69; and at src-tauri/src/menus.rs:71-117 |
| ContextMenus.Route | desktop/src-tauri/src/context_menus.rs:145-177 | GoToPodcast and Separator do nothing; PauseEpisode is the "pause" action whatever its id; GoToEpisode navigates to that episode; every other option acts on its own episode id |
| LegacyMenus.LegacyItemId | src-tauri/src/menus.rs:45-58 | the older menu id is the bare encoding, which decodes to the option |
| LegacyMenus.HandleEvent | src-tauri/src/menus.rs:126-159 | an id that does not decode is an error; otherwise the decoded option is routed |
| LegacyMenus.ClickRoundTrip | src-tauri/src/menus.rs:126-159 | clicking an item performs the action of the option it was built from |
| LegacyMenus.LegacyLabel | src-tauri/src/menus.rs:28-43 | the older labels, spelled correctly; empty exactly for Separator; the labels of desktop/src-tauri/src/menu_support.rs:88-101 are these correct spellings too, not the desktop literals of `ContextMenus.Label` |
| LegacyMenus.LabelsAgreeExceptMisencoded | desktop/src-tauri/src/context_menus.rs:33-47 | the desktop and older labels differ exactly for PlayEpisode, PauseEpisode, MarkAsNotCompleted and GoToEpisode, the four mis-encoded ones |
| LegacyMenus.LegacyMenuItem | src-tauri/src/menus.rs:45-58 | Separator gives a separator; every other option is a text item with its non-empty older label and an id that the event handler routes back to the option |
| LegacyMenus.SupportMenuItem | desktop/src-tauri/src/menu_support.rs:104-118 | Separator gives a separator; every other option is a text item with the correctly spelled label and the same tagged id as `ContextMenus.MenuItem`, which `TryFromId` decodes back to the option |
| MainMenu.ToTaggedWellNamed | desktop/src-tauri/src/main_menu.rs:13-29 | every main-menu option's variant names are plain identifiers |
| MainMenu.MenuId | desktop/src-tauri/src/main_menu.rs:31-35 | the id is "MainMenuOption--" followed by the option's encoding |
| MainMenu.TryFrom | desktop/src-tauri/src/main_menu.rs:37-50 | an untagged string, or a tagged one that does not decode, is an error |
| MainMenu.MenuIdRoundTrip | desktop/src-tauri/src/main_menu.rs:31-50 | every option's id is accepted and decodes back to the option |
| MainMenu.Encode | desktop/src-tauri/src/main_menu.rs:33 | no contract of its own; `MenuIdRoundTrip` states that `Decode` inverts it |
| MainMenu.Decode | desktop/src-tauri/src/main_menu.rs:42 | no contract of its own; `MenuIdRoundTrip` states that it inverts `Encode` |
| MainMenu.FromToTagged | desktop/src-tauri/src/main_menu.rs:13-29 | reading an option's serde shape gives it back |
| MainMenu.TryFromRendered | desktop/src-tauri/src/main_menu.rs:37-50 | a tagged rendering of an option's shape decodes to that option |
| MainMenu.ContextMenuIdsRejected | desktop/src-tauri/src/main_menu.rs:37-50 | context-menu ids are never accepted as main-menu ids |
| MainMenu.Route | desktop/src-tauri/src/main_menu.rs:297-322 | Settings navigates to the settings page, ManageFeeds to the podcasts page, ManageDownloads to the downloads page; every other option does nothing |
| FrontendChangeTracking.CacheStrings | desktop/src-tauri/src/frontend_change_tracking.rs:16-40 | one or two keys; "podcastStats" is the second key exactly for all podcasts, a podcast, its episodes or an episode |
| FrontendChangeTracking.FirstKeyRoundTrip | desktop/src-tauri/src/frontend_change_tracking.rs:16-40 | the first key names its change, with the id in decimal after the prefix; `PodcastEpisodes` reads as `Podcast` |
| FrontendChangeTracking.CacheStringsCollisions | desktop/src-tauri/src/frontend_change_tracking.rs:21-26 | two changes give the same keys only when equal, or when they are Podcast and PodcastEpisodes of the same id |
| FrontendChangeTracking.SendInvalidateCache | desktop/src-tauri/src/frontend_change_tracking.rs:48-53 | keys are emitted in list order, stopping at the first failed emit; Ok exactly when every emit succeeds |
| LegacyChangeTracking.CacheKeyRoundTrip | src-tauri/src/frontend_change_tracking.rs:12-21 | the key gives back the variant and the id |
| LegacyChangeTracking.CacheKeyInjective | src-tauri/src/frontend_change_tracking.rs:12-21 | distinct changes give distinct keys |
| LegacyChangeTracking.CacheKey | src-tauri/src/frontend_change_tracking.rs:12-21 | no contract of its own; `CacheKeyRoundTrip` and `CacheKeyInjective` state that the key determines the change |
| LegacyChangeTracking.SendInvalidateCache | src-tauri/src/frontend_change_tracking.rs:29-32 | exactly one event carrying the key; the call fails exactly when that emit fails |
| Extensions.ContentDispositionFileName | src-tauri/src/extensions.rs:11-33 | the segment loop returns what the `filename` rule gives for the header, including its early errors |
| Extensions.FileNameInSkip | src-tauri/src/extensions.rs:22-30 | a leading `key=value` segment with another key is skipped |
| Extensions.FileNameInFound | src-tauri/src/extensions.rs:22-30 | the first `filename` segment after `key=value` segments gives its value, trimmed and stripped of quotes |
| Extensions.FileNameInMissingValue | src-tauri/src/extensions.rs:24-26 | a segment without `=` before the filename is an error, not skipped |
| Extensions.FileNameInAbsent | src-tauri/src/extensions.rs:32 | no filename segment is an error |
| Extensions.FileNameIn | src-tauri/src/extensions.rs:22-32 | a filename found is the value of one of the sections whose key is `filename`; the only errors are "no filename in header" and "no val" |
| Extensions.IsVisibleAscii | src-tauri/src/extensions.rs:15-18 | no contract of its own; the check `to_str` makes, specified through `VisibleAsciiConcat` and used by `ContentDispositionFileName` and `UserDevice.TokenFromRequest` |
| Extensions.VisibleAsciiConcat | src-tauri/src/extensions.rs:15-18 | a concatenation is visible ASCII exactly when both parts are |
| Extensions.DispositionTypeIgnored | src-tauri/src/extensions.rs:17-21 | the disposition type before the first `;` never changes the result |
| Extensions.TruncateUpTo | src-tauri/src/extensions.rs:41-50 | the result is the prefix of length min(n, length); strings of at most n characters are unchanged |
| Extensions.TruncateUpToIdempotent | src-tauri/src/extensions.rs:41-50 | truncating twice to n is truncating once |
| Extensions.ToMaybeString | src-tauri/src/extensions.rs:57-61 | presence and content of the optional text are kept |
| BackendModels.SyncPodcastFrom | desktop/src-tauri/src/backend/models.rs:32-47 | keeps guid and updated_at, takes the feed url as url, and is never deleted |
| BackendModels.SyncEpisodeFrom | desktop/src-tauri/src/backend/models.rs:58-68 | guid and url from the episode; listened seconds, completed and updated_at from the progress |
| BackendModels.SyncPodcastReadsOnly | desktop/src-tauri/src/backend/models.rs:34-39 | the podcast conversion reads no other field |
| BackendModels.SyncEpisodeReadsOnly | desktop/src-tauri/src/backend/models.rs:60-67 | the episode conversion reads no other field |
| CreatePodcast.EpisodeFrom | server/src/endpoints/create_podcast.rs:26-33 | url and guid are copied |
| CreatePodcast.EpisodesFrom | server/src/endpoints/create_podcast.rs:41 | episodes map one to one, in order |
| CreatePodcast.IntoRequest | server/src/endpoints/create_podcast.rs:35-44 | the given user id, the same url and guid, and the episodes one to one in order |
| CreatePodcast.IntoRequestLossless | server/src/endpoints/create_podcast.rs:35-44 | the web request can be read back from the storage request |
| CreatePodcast.CreatePodcastHandler | server/src/endpoints/create_podcast.rs:47-57 | 401 exactly when authentication fails; on 201 the podcast is stored under the token owner's user; on 500 the pair was already stored; only 201 changes the table |
| CreatePodcast.StoredForTokenOwner | server/src/endpoints/create_podcast.rs:53-54 | a created podcast is stored under the user owning the device that holds the bearer token |
| CreatePodcast.UnknownTokenUnauthorized | server/src/endpoints/create_podcast.rs:149-154 | a token no device holds gives 401 and stores nothing |
| CreatePodcast.DuplicateCreateFails | server/src/endpoints/create_podcast.rs:185-198 | creating the same podcast twice: the second attempt gives 500 and stores nothing |
| UserDevice.TokenFromRequest | server/src/models/user_device.rs:112-123 | a missing header is an error; Ok exactly for a visible-ASCII header starting with "Bearer ", giving the text after it |
| UserDevice.BearerRoundTrip | server/src/models/user_device.rs:118-122 | a header built from a visible-ASCII token gives that token back |
| UserDevice.FindDevice | server/src/models/user_device.rs:91-97 | a device holding the token; None exactly when no device holds it |
| UserDevice.DeviceFromRequest | server/src/models/user_device.rs:84-104 | every failure is unauthorized; success exactly when the token parses and a device holds it |
| UserDevice.UserAndDeviceFromRequest | server/src/models/user_device.rs:70-82 | every failure is unauthorized, including a device whose user is gone; on success the device and its user |
| UserDevice.ToUpperAscii | server/src/models/user_device.rs:43 | an alphanumeric character becomes a token character; only lower-case letters change |
| UserDevice.GenerateAccessToken | server/src/models/user_device.rs:39-46 | 64 characters, each the upper-cased draw at its position |
| UserDevice.GeneratedTokenAccepted | server/src/models/user_device.rs:39-46 | a generated token sent back as a bearer header is recognised |
| TimeUtil.SplitHms | desktop/src/timeUtil.ts:17-22 | the fields recombine to the input; for input of at least 0, seconds and minutes are in [0, 60) |
| TimeUtil.PadTwo | desktop/src/timeUtil.ts:3 | at least two characters ending in the input; longer inputs are unchanged |
| TimeUtil.ClockRoundTrip | desktop/src/timeUtil.ts:1-9 | a clock of fields in range reads back as the same fields |
| TimeUtil.ClockRoundTripHours | desktop/src/timeUtil.ts:1-9 | a clock of one hour or more, with minutes and seconds in range, reads back as the same fields |
| TimeUtil.ClockRoundTripMinutes | desktop/src/timeUtil.ts:1-9 | a clock under an hour, with minutes and seconds in range, reads back as the same fields |
| TimeUtil.ClockFields | desktop/src/timeUtil.ts:1-9 | the clock has an hours field exactly when the hours are positive |
| TimeUtil.FormatHmsRoundTrip | desktop/src/timeUtil.ts:1-9 | formatHms reads back as the split of the input, which stands for the input |
| TimeUtil.FormatHms | desktop/src/timeUtil.ts:1-9 | no contract of its own; `FormatHmsRoundTrip` states that the text reads back as the split of its input |
| TimeUtil.FormatHmsFields | desktop/src/timeUtil.ts:1-9 | minutes and seconds always show; "H:" appears exactly from one hour on |
| TimeUtil.HoursShownFromAnHour | desktop/src/timeUtil.ts:17-22 | the hours are positive exactly from 3600 s on |
| TimeUtil.PadTwoDigits | desktop/src/timeUtil.ts:3 | a number under 60 pads to two digits reading back as itself |
| TimeUtil.HumaneCases | desktop/src/timeUtil.ts:24-29 | the template gives "{h}h {m}min" with zero parts left out and spaces trimmed |
| TimeUtil.HumaneMinutesOnly | desktop/src/timeUtil.ts:24-29 | zero hours and some minutes print as "{m}min" |
| TimeUtil.HumaneHoursOnly | desktop/src/timeUtil.ts:24-29 | some hours and zero minutes print as "{h}h" |
| TimeUtil.HumaneBoth | desktop/src/timeUtil.ts:24-29 | both parts print as "{h}h {m}min" |
| TimeUtil.FormatHumaneCases | desktop/src/timeUtil.ts:24-29 | zero parts are omitted, the space appears only between two parts, and seconds never show |
| TimeUtil.FormatHumane | desktop/src/timeUtil.ts:24-29 | no contract of its own; `FormatHumaneCases` states which parts it shows |
| TimeUtil.FormatHumaneUnderAMinute | desktop/src/timeUtil.ts:24-29 | a duration under a minute prints as "" |
| TimeUtil.FormatHumaneIgnoresSeconds | desktop/src/timeUtil.ts:24-29 | dropping the seconds part changes nothing |
| TimeUtil.WholeMinutesSplit | desktop/src/timeUtil.ts:17-22 | dropping the seconds part keeps hours and minutes |
| TimeUtil.HmsUnique | desktop/src/timeUtil.ts:17-22 | fields in range are determined by the seconds they stand for |
| PodcastUtil.ImageUrl | desktop/src/backend/podcastUtil.ts:4-9 | "localimages://podcast/{id}" when the local image path is non-empty, else the podcast's image url |
| PodcastUtil.EpisodeImage | desktop/src/backend/podcastUtil.ts:10-18 | the local episode image, else the episode's non-empty image url, else the podcast's image |
| PodcastUtil.PodcastLocalUrlIdentifies | desktop/src/backend/podcastUtil.ts:4-9 | a local podcast image URL names exactly that podcast |
| PodcastUtil.EpisodeLocalUrlIdentifies | desktop/src/backend/podcastUtil.ts:10-13 | a local episode image URL names exactly that episode, never a podcast |

## Left out

- Audio decoding and output. Symphonia's probe and decoder, the output device, sample conversion and the file-duration reader are foreign libraries. Packets, decode outcomes, seek outcomes and the duration are inputs.
- Floating point. The desktop volume gain `(e^v - 1)/(e - 1)`, per-sample scaling, `calc_time`, and the percentage helpers are not modelled. The gain is passed in precomputed, and a packet carries its whole seconds.
- Threads, locks, channels and timers. They are modelled sequentially:
  - commands sent to a render thread are recorded as a sequence;
  - a spawned thread is run in place over the passes it is given;
  - timers are booleans in each pass;
  - the 10 ms sleep is not modelled.
- OS media controls. Registering with the OS and setting metadata and playback state are not modelled; only the event-to-call mapping is. Raise and Quit act on the window and the app, not the player, and are not modelled.
- Other player members:
  - `latest_status` is not modelled;
  - the cache-invalidation events the player sends are not modelled;
  - `set_playback_speed` is not part of the core;
  - `first_supported_track(reader.tracks()).unwrap()` in the older player's reset path (src-tauri/src/player/new_player.rs:229) is modelled as an error result rather than a panic;
  - `.first(&mut conn).unwrap()` in the desktop player's end-of-episode update, desktop/src-tauri/src/player/new_player.rs:289-293, would panic if the episode had no progress row. The model records the write instead. `play_episode` only starts an episode after loading its progress row (desktop/src-tauri/src/commands.rs:236-237), so the panic cannot be reached that way.
- Player.ThreadEnd: both render loops call `output::try_open(..).unwrap()` and `audio_output.write(..).unwrap()` (desktop/src-tauri/src/player/new_player.rs:447 and 467, src-tauri/src/player/new_player.rs:342 and 366). The audio device is not modelled, so a device error that panics the thread before the clearing at desktop lines 487-494 is not either.
- EpisodeDownload.StartDownload: `lofty::read_from_path(path)?` (desktop/src-tauri/src/models/episode.rs:287) can fail after the file is written. The source then returns the error without `mark_done`, so the registry entry stays. The file duration is a `nat` input, which cannot express that failure.
- The desktop client's `player.rs` wrapper is not part of this model. Its conversion of the start position is assumed to match the older client's `src-tauri/src/player.rs`.
- Commands.ConfigWrapper.Update: `ConfigWrapper` and its `update` are defined outside the modelled files, so the class is an assumed collaborator and not a model of that definition. It keeps only the volume, and a save either succeeds or fails, given as a parameter. How the configuration is written to disk is not modelled.
- Player.NewPlayer.PlayEpisode: the millisecond counter `starting_at * 1000` and the file duration's conversion are unbounded integers. This does not model an `i64` overflow.
- Databases, networking and randomness:
  - diesel queries are functions on sequences or maps of rows;
  - HTTP responses are inputs, as are the random characters of a token;
  - RSS parsing, RFC 2822 dates, `Url::parse` and the MIME table give their results as inputs.
- JSON. Only the canonical compact serde encoding of the menu enums is modelled. Whitespace and field-order variants that serde would also accept are not.
- ContextMenus.Decode: the option ids are unbounded integers. serde rejects an `id` outside `i32` for the `i32` fields, but the model's decoder accepts any integer, and the same holds for `MainMenu.Decode`. Restricting the ids to `i32` would have to reach every place that builds an option from an episode id.
- The file system. Whether a file opens, exists or can be removed, and its size, are inputs. Paths are joined with "/". Errors while writing the downloaded file are not modelled.
- CreatePodcast.CreatePodcastHandler: the podcasts table is a set of (user id, guid) pairs, and its uniqueness constraint is what makes a duplicate fail. The constraint itself is in a migration that is not part of this model.
- ServerProgress.SaveResultOf: `From<usize> for SaveResult` is not part of this model. A count above 0 is taken as Saved, in line with the server's tests.
- Menu and window construction (`build_main_menu`, menu item builders, the Tauri setup) is not modelled; only the option lists, labels, ids and routing are.
- PodcastModel.HmsToSeconds: the `i32` arithmetic is modelled with wrap-around (a release build). A debug build would panic instead.
