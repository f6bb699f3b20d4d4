/**
 * The desktop client's throttle in front of the server's progress endpoint.
 * The HTTP request is left out: a submission that gets past the throttle is
 * reported as started, and its completion is a separate call carrying the
 * outcome and the clock reading.
 */
module ProgressUpdater {
  import opened Wrappers
  import opened Entities

  /** `PROGRESS_UPDATE_INTERVAL`: five seconds, in nanoseconds. */
  const UpdateInterval: int := 5_000_000_000

  /** `should_submit`, over a snapshot of the updater's fields and the clock. */
  function ShouldSubmit(lastUpdate: Option<ProgressUpdateRequest>, lastUpdateAt: Timestamp,
                        now: Timestamp, progress: ProgressUpdateRequest): (r: bool)
    // A submission is held back exactly when a previous one succeeded, at most
    // five seconds ago, for the same episode, and this is not a completion flip.
    ensures !r <==> (&& lastUpdate.Some?
                     && now - lastUpdateAt <= UpdateInterval
                     && lastUpdate.value.episodeGuid == progress.episodeGuid
                     && (lastUpdate.value.completed || !progress.completed))
  {
    if lastUpdate.None? then true
    else if now - lastUpdateAt > UpdateInterval then true
    else if lastUpdate.value.episodeGuid != progress.episodeGuid then true
    else if lastUpdate.value.episodeGuid == progress.episodeGuid && progress.completed && !lastUpdate.value.completed then true
    else false
  }

  /** Right after a successful submit, the same episode's ordinary updates are held back for five seconds. */
  lemma ThrottledAfterSuccess(last: ProgressUpdateRequest, at: Timestamp, now: Timestamp, progress: ProgressUpdateRequest)
    requires at <= now <= at + UpdateInterval
    requires progress.episodeGuid == last.episodeGuid && !progress.completed
    ensures !ShouldSubmit(Some(last), at, now, progress)
  {
  }

  /** Switching episodes, marking an episode completed, or waiting out the interval always lets a submit through. */
  lemma SubmitsGetThrough(last: ProgressUpdateRequest, at: Timestamp, now: Timestamp, progress: ProgressUpdateRequest)
    ensures progress.episodeGuid != last.episodeGuid ==> ShouldSubmit(Some(last), at, now, progress)
    ensures progress.completed && !last.completed ==> ShouldSubmit(Some(last), at, now, progress)
    ensures now > at + UpdateInterval ==> ShouldSubmit(Some(last), at, now, progress)
    ensures ShouldSubmit(None, at, now, progress)
  {
  }

  /** `ProgressUpdater`: the in-flight flag and the last successful submission. */
  class Updater {
    var inFlight: bool
    var lastUpdateAt: Timestamp
    var lastUpdate: Option<ProgressUpdateRequest>

    constructor (now: Timestamp)
      ensures !inFlight && lastUpdateAt == now && lastUpdate == None
    {
      inFlight := false;
      lastUpdateAt := now;
      lastUpdate := None;
    }

    /**
     * `submit_progress`: always `Ok`; `started` says whether a submission was
     * spawned, which happens only when none is in flight and the throttle allows it.
     */
    method SubmitProgress(progress: ProgressUpdateRequest, now: Timestamp) returns (started: bool)
      modifies this
      ensures started <==> !old(inFlight) && ShouldSubmit(old(lastUpdate), old(lastUpdateAt), now, progress)
      ensures inFlight == (old(inFlight) || started)
      ensures lastUpdate == old(lastUpdate) && lastUpdateAt == old(lastUpdateAt)
    {
      if inFlight {
        return false;
      }
      if !ShouldSubmit(lastUpdate, lastUpdateAt, now, progress) {
        return false;
      }
      inFlight := true;
      started := true;
    }

    /** `do_submit` once the request has finished: record a success, and always clear the flag. */
    method CompleteSubmit(progress: ProgressUpdateRequest, success: bool, now: Timestamp)
      modifies this
      ensures !inFlight
      ensures success ==> lastUpdate == Some(progress) && lastUpdateAt == now
      ensures !success ==> lastUpdate == old(lastUpdate) && lastUpdateAt == old(lastUpdateAt)
    {
      if success {
        lastUpdateAt := now;
        lastUpdate := Some(progress);
      }
      inFlight := false;
    }
  }
}
