/**
 * Downloading an episode file, in both clients: the choice of file
 * extension, the file name, and the download loop with its bounded byte
 * counter and its progress reports to the download registry. The HTTP
 * response is an input: its status, headers and the stream of chunks, each
 * chunk saying whether the progress-report interval (100 ms on the desktop,
 * 250 ms in the legacy client) had elapsed when it arrived.
 */
module EpisodeDownload {
  import opened Wrappers
  import opened Entities
  import opened Text
  import Numbers
  import Decimal
  import Extensions
  import Downloads

  // ---------------------------------------------------------------- extension

  /** The first present candidate, else the fallback (`iter().find(is_some).unwrap_or(..)`). */
  function FirstPresent(candidates: seq<Option<string>>, fallback: string): string
  {
    if candidates == [] then fallback
    else if candidates[0].Some? then candidates[0].value
    else FirstPresent(candidates[1..], fallback)
  }

  /**
   * `extract_episode_filename_extension`: the text after the last `.` of the
   * Content-Disposition filename, else of the url's path (when the url
   * parses), else the extension registered for the Content-Type, else "mp3".
   */
  function ExtractExtension(contentDisposition: Option<string>, urlPath: Option<string>,
                            mimeExtension: Option<string>): (r: string)
  {
    var header := Extensions.ContentDispositionSpec(contentDisposition);
    var fromHeader := if header.Ok? then Some(LastPiece(header.value, '.')) else None;
    var fromUrl := if urlPath.Some? then Some(LastPiece(urlPath.value, '.')) else None;
    FirstPresent([fromHeader, fromUrl, Extensions.ToMaybeString(mimeExtension)], "mp3")
  }

  /** The candidates are tried in order: header filename, url path, MIME type, then "mp3". */
  lemma ExtensionPriority(contentDisposition: Option<string>, urlPath: Option<string>, mimeExtension: Option<string>)
    ensures var r := ExtractExtension(contentDisposition, urlPath, mimeExtension);
      var header := Extensions.ContentDispositionSpec(contentDisposition);
      && (header.Ok? ==> r == LastPiece(header.value, '.'))
      && (header.Err? && urlPath.Some? ==> r == LastPiece(urlPath.value, '.'))
      && (header.Err? && urlPath.None? && mimeExtension.Some? ==> r == mimeExtension.value)
      && (header.Err? && urlPath.None? && mimeExtension.None? ==> r == "mp3")
  {
    var header := Extensions.ContentDispositionSpec(contentDisposition);
    var fromHeader := if header.Ok? then Some(LastPiece(header.value, '.')) else None;
    var fromUrl := if urlPath.Some? then Some(LastPiece(urlPath.value, '.')) else None;
    var mime := Extensions.ToMaybeString(mimeExtension);
    assert ExtractExtension(contentDisposition, urlPath, mimeExtension) == FirstPresent([fromHeader, fromUrl, mime], "mp3");
    FirstOfThree(fromHeader, fromUrl, mime, "mp3");
  }

  lemma FirstOfThree(a: Option<string>, b: Option<string>, c: Option<string>, fallback: string)
    ensures FirstPresent([a, b, c], fallback) ==
      if a.Some? then a.value else if b.Some? then b.value else if c.Some? then c.value else fallback
  {
    assert [c][1..] == [];
    assert FirstPresent([c], fallback) == if c.Some? then c.value else fallback;
    assert [b, c][1..] == [c];
    assert FirstPresent([b, c], fallback) == if b.Some? then b.value else FirstPresent([c], fallback);
    assert [a, b, c][1..] == [b, c];
  }

  /** The chosen extension never contains a `.` unless it came from the MIME table. */
  lemma ExtensionHasNoDot(contentDisposition: Option<string>, urlPath: Option<string>)
    requires Extensions.ContentDispositionSpec(contentDisposition).Ok? || urlPath.Some?
    ensures '.' !in ExtractExtension(contentDisposition, urlPath, None)
  {
    ExtensionPriority(contentDisposition, urlPath, None);
  }

  /** A url path with no `.` at all is taken whole as the "extension" (the MIME type and "mp3" are not reached). */
  lemma DotlessUrlPathIsWholeExtension(urlPath: string, mimeExtension: Option<string>)
    requires '.' !in urlPath
    ensures ExtractExtension(None, Some(urlPath), mimeExtension) == urlPath
  {
    ExtensionPriority(None, Some(urlPath), mimeExtension);
  }

  // ---------------------------------------------------------------- file names

  /** `podcast_downloads_dir().join(file_name)` on a Unix path. */
  function JoinPath(dir: string, name: string): string
  {
    dir + "/" + name
  }

  /** The desktop file name `{podcast_id}-{id}.{ext}`. */
  function DesktopFileName(episode: Episode, extension: string): string
  {
    Decimal.IntToString(episode.podcastId) + "-" + Decimal.IntToString(episode.id) + "." + extension
  }

  lemma SplitOnceAfter(d: string, c: char, rest: string)
    requires c !in d
    ensures SplitOnce(d + [c] + rest, c) == Some((d, rest))
  {
    var s := d + [c] + rest;
    IndexOfAfter(d, c, rest);
    assert s[..|d|] == d;
    assert s[|d| + 1..] == rest;
  }

  lemma DigitsHaveNoSeparators(n: nat)
    ensures '-' !in Decimal.NatToString(n) && '.' !in Decimal.NatToString(n)
  {
    var s := Decimal.NatToString(n);
    assert forall k :: 0 <= k < |s| ==> Decimal.IsDigit(s[k]);
  }

  lemma NamePartsSplit(p: string, i: string, extension: string)
    requires '-' !in p && '.' !in i
    ensures SplitOnce(p + "-" + i + "." + extension, '-') == Some((p, i + "." + extension))
    ensures SplitOnce(i + "." + extension, '.') == Some((i, extension))
  {
    var tail := i + "." + extension;
    assert p + "-" + i + "." + extension == p + ['-'] + tail;
    SplitOnceAfter(p, '-', tail);
    assert tail == i + ['.'] + extension;
    SplitOnceAfter(i, '.', extension);
  }

  /** For non-negative ids, the desktop file name gives back the podcast id, the episode id and the extension. */
  lemma DesktopFileNameParts(podcastId: nat, id: nat, extension: string)
    ensures SplitOnce(Decimal.NatToString(podcastId) + "-" + Decimal.NatToString(id) + "." + extension, '-')
            == Some((Decimal.NatToString(podcastId), Decimal.NatToString(id) + "." + extension))
    ensures SplitOnce(Decimal.NatToString(id) + "." + extension, '.') == Some((Decimal.NatToString(id), extension))
  {
    DigitsHaveNoSeparators(podcastId);
    DigitsHaveNoSeparators(id);
    NamePartsSplit(Decimal.NatToString(podcastId), Decimal.NatToString(id), extension);
  }

  /** Different episodes (non-negative ids) never share a desktop file name, whatever the extensions. */
  lemma DesktopFileNameInjective(a: Episode, b: Episode, extA: string, extB: string)
    requires a.podcastId >= 0 && a.id >= 0 && b.podcastId >= 0 && b.id >= 0
    requires DesktopFileName(a, extA) == DesktopFileName(b, extB)
    ensures a.podcastId == b.podcastId && a.id == b.id && extA == extB
  {
    DesktopFileNameParts(a.podcastId, a.id, extA);
    DesktopFileNameParts(b.podcastId, b.id, extB);
    Decimal.NatRoundTrip(a.podcastId);
    Decimal.NatRoundTrip(b.podcastId);
    Decimal.NatRoundTrip(a.id);
    Decimal.NatRoundTrip(b.id);
  }

  /** The legacy file name: the title cut to 50 characters, then `-{id}.{ext}`. */
  function LegacyFileName(episode: Episode, extension: string): (r: string)
    ensures Extensions.TruncateUpTo(episode.title, 50) <= r
    ensures |r| <= 50 + 2 + |Decimal.IntToString(episode.id)| + |extension|
  {
    Extensions.TruncateUpTo(episode.title, 50) + "-" + Decimal.IntToString(episode.id) + "." + extension
  }

  // ---------------------------------------------------------------- the byte counter

  /** One item of the response's byte stream. */
  datatype Chunk = Data(length: nat, emitDue: bool) | Failed(message: string)

  /** `downloaded` after the given chunks: each adds its length, capped at the total. */
  function Counted(chunks: seq<Chunk>, total: nat): (r: nat)
    ensures r <= total
  {
    if chunks == [] then 0
    else
      var prev := Counted(chunks[..|chunks| - 1], total);
      match chunks[|chunks| - 1]
        case Data(n, _) => Numbers.Min(prev + n, total)
        case Failed(_) => prev
  }

  /** The counter never decreases from one chunk to the next. */
  lemma {:induction false} CountedMonotone(chunks: seq<Chunk>, total: nat, i: nat)
    requires i <= |chunks|
    ensures Counted(chunks[..i], total) <= Counted(chunks, total)
    decreases |chunks|
  {
    if i < |chunks| {
      var init := chunks[..|chunks| - 1];
      assert chunks[..i] == init[..i];
      CountedMonotone(init, total, i);
    } else {
      assert chunks[..i] == chunks;
    }
  }

  /** With an unknown length (`content_length()` absent, so 0) the counter stays 0. */
  lemma CountedUnknownLength(chunks: seq<Chunk>)
    ensures Counted(chunks, 0) == 0
  {
  }

  function DataTotal(chunks: seq<Chunk>): nat
  {
    if chunks == [] then 0
    else DataTotal(chunks[..|chunks| - 1]) + (if chunks[|chunks| - 1].Data? then chunks[|chunks| - 1].length else 0)
  }

  /** While the bytes received stay within the announced total, the counter is exact. */
  lemma {:induction false} CountedExact(chunks: seq<Chunk>, total: nat)
    requires DataTotal(chunks) <= total
    ensures Counted(chunks, total) == DataTotal(chunks)
  {
    if chunks != [] {
      CountedExact(chunks[..|chunks| - 1], total);
    }
  }

  function FirstFailure(chunks: seq<Chunk>): (r: Option<nat>)
    ensures r.Some? ==> r.value < |chunks| && chunks[r.value].Failed? &&
                        forall j :: 0 <= j < r.value ==> chunks[j].Data?
    ensures r.None? ==> forall j :: 0 <= j < |chunks| ==> chunks[j].Data?
  {
    if chunks == [] then None
    else if chunks[0].Failed? then Some(0)
    else match FirstFailure(chunks[1..])
      case None => None
      case Some(k) => Some(k + 1)
  }

  /** The parts of the HTTP response a download reads; `mimeExtension` is what the MIME table gives for its Content-Type. */
  datatype Response = Response(
    success: bool,
    contentLength: Option<nat>,
    contentDisposition: Option<string>,
    mimeExtension: Option<string>,
    chunks: seq<Chunk>)

  // ---------------------------------------------------------------- desktop start_download

  /**
   * The desktop download loop: count each chunk, report the count when the
   * interval has elapsed, stop at the first failing chunk.
   */
  method ReceiveChunks(episode: Episode, registry: Downloads.EpisodeDownloads, chunks: seq<Chunk>, total: nat)
    returns (downloaded: nat, failure: Option<string>)
    modifies registry
    requires episode.id in registry.inProgress && registry.inProgress[episode.id] == Downloads.DownloadProgress(0, total)
    ensures old(registry.Valid()) ==> registry.Valid()
    ensures failure.None? <==> FirstFailure(chunks).None?
    ensures failure.Some? ==> failure.value == chunks[FirstFailure(chunks).value].message
    ensures failure.Some? ==> downloaded == Counted(chunks[..FirstFailure(chunks).value], total)
    ensures failure.None? ==> downloaded == Counted(chunks, total)
    ensures registry.inProgress - {episode.id} == old(registry.inProgress) - {episode.id}
    ensures episode.id in registry.inProgress
    ensures registry.inProgress[episode.id].totalBytes == total
    ensures registry.inProgress[episode.id].downloadedBytes <= downloaded
  {
    ghost var start := registry.inProgress;
    ghost var shown: nat := 0;
    assert start == start[episode.id := Downloads.DownloadProgress(shown, total)];
    downloaded := 0;
    var i := 0;
    while i < |chunks|
      invariant 0 <= i <= |chunks|
      invariant forall j :: 0 <= j < i ==> chunks[j].Data?
      invariant downloaded == Counted(chunks[..i], total)
      invariant shown <= downloaded
      invariant registry.inProgress == start[episode.id := Downloads.DownloadProgress(shown, total)]
      invariant old(registry.Valid()) ==> registry.Valid()
    {
      assert chunks[..i + 1][..i] == chunks[..i];
      if chunks[i].Failed? {
        assert FirstFailure(chunks) == Some(i);
        return downloaded, Some(chunks[i].message);
      }
      downloaded := Numbers.Min(downloaded + chunks[i].length, total);
      if chunks[i].emitDue {
        registry.SetProgress(episode, Downloads.DownloadProgress(downloaded, total));
        shown := downloaded;
      }
      i := i + 1;
    }
    assert chunks[..i] == chunks;
    failure := None;
  }

  /**
   * Desktop `start_download` from the point the episode row is loaded. The
   * new episode row (when the download finishes) is returned; the registry
   * records progress as it goes. A failed request or chunk leaves the
   * episode in the registry.
   */
  method StartDownload(episode: Episode, registry: Downloads.EpisodeDownloads, response: Result<Response, string>,
                       urlPath: Option<string>, downloadsDir: string, fileDuration: nat)
    returns (updated: Option<Episode>, r: Result<(), string>)
    modifies registry
    ensures old(registry.Valid()) ==> registry.Valid()
    ensures response.Err? ==>
      && r == Err(response.error) && updated == None
      && registry.inProgress == old(registry.inProgress)[episode.id := Downloads.DownloadProgress(0, 0)]
    ensures response.Ok? && !response.value.success ==>
      r == Ok(()) && updated == None && registry.inProgress == old(registry.inProgress) - {episode.id}
    ensures response.Ok? && response.value.success && FirstFailure(response.value.chunks).Some? ==>
      && r == Err(response.value.chunks[FirstFailure(response.value.chunks).value].message) && updated == None
      && episode.id in registry.inProgress
      && registry.inProgress - {episode.id} == old(registry.inProgress) - {episode.id}
      && registry.inProgress[episode.id].totalBytes == TotalOf(response.value)
      && registry.inProgress[episode.id].downloadedBytes
         <= Counted(response.value.chunks[..FirstFailure(response.value.chunks).value], TotalOf(response.value))
    ensures response.Ok? && response.value.success && FirstFailure(response.value.chunks).None? ==>
      && r == Ok(())
      && updated == Some(episode.(contentLocalPath := JoinPath(downloadsDir, DesktopFileName(episode, ExtensionOf(response.value, urlPath))),
                                  length := Numbers.WrapI32(fileDuration)))
      && registry.inProgress == old(registry.inProgress) - {episode.id}
  {
    ghost var start := registry.inProgress;
    registry.SetProgress(episode, Downloads.DownloadProgress(0, 0));
    if response.Err? {
      return None, Err(response.error);
    }
    var resp := response.value;
    if !resp.success {
      registry.MarkDone(episode.id);
      assert registry.inProgress == start - {episode.id};
      return None, Ok(());
    }
    updated, r := ReceiveFile(episode, registry, resp, urlPath, downloadsDir, fileDuration);
  }

  /** The successful-response half of desktop `start_download`. */
  method ReceiveFile(episode: Episode, registry: Downloads.EpisodeDownloads, resp: Response,
                     urlPath: Option<string>, downloadsDir: string, fileDuration: nat)
    returns (updated: Option<Episode>, r: Result<(), string>)
    modifies registry
    requires episode.id in registry.inProgress
    ensures old(registry.Valid()) ==> registry.Valid()
    ensures FirstFailure(resp.chunks).Some? ==>
      && r == Err(resp.chunks[FirstFailure(resp.chunks).value].message) && updated == None
      && episode.id in registry.inProgress
      && registry.inProgress - {episode.id} == old(registry.inProgress) - {episode.id}
      && registry.inProgress[episode.id].totalBytes == TotalOf(resp)
      && registry.inProgress[episode.id].downloadedBytes
         <= Counted(resp.chunks[..FirstFailure(resp.chunks).value], TotalOf(resp))
    ensures FirstFailure(resp.chunks).None? ==>
      && r == Ok(())
      && updated == Some(episode.(contentLocalPath := JoinPath(downloadsDir, DesktopFileName(episode, ExtensionOf(resp, urlPath))),
                                  length := Numbers.WrapI32(fileDuration)))
      && registry.inProgress == old(registry.inProgress) - {episode.id}
  {
    ghost var start := registry.inProgress;
    var total := TotalOf(resp);
    registry.SetProgress(episode, Downloads.DownloadProgress(0, total));
    assert registry.inProgress - {episode.id} == start - {episode.id};
    var extension := ExtensionOf(resp, urlPath);
    var path := JoinPath(downloadsDir, DesktopFileName(episode, extension));
    var downloaded, failure := ReceiveChunks(episode, registry, resp.chunks, total);
    if failure.Some? {
      return None, Err(failure.value);
    }
    registry.MarkDone(episode.id);
    assert registry.inProgress == start - {episode.id};
    updated := Some(episode.(contentLocalPath := path, length := Numbers.WrapI32(fileDuration)));
    r := Ok(());
  }

  /** `content_length().unwrap_or(0)`. */
  function TotalOf(resp: Response): nat
  {
    if resp.contentLength.Some? then resp.contentLength.value else 0
  }

  function ExtensionOf(resp: Response, urlPath: Option<string>): string
  {
    ExtractExtension(resp.contentDisposition, urlPath, resp.mimeExtension)
  }

  // ---------------------------------------------------------------- legacy start_download

  /** The legacy download loop, reporting to the legacy registry. */
  method LegacyReceiveChunks(id: int, registry: Downloads.LegacyEpisodeDownloads, chunks: seq<Chunk>, total: nat)
    returns (downloaded: nat, failure: Option<string>)
    modifies registry
    requires id in registry.inProgress && registry.inProgress[id] == Downloads.DownloadProgress(0, total)
    ensures failure.None? <==> FirstFailure(chunks).None?
    ensures failure.Some? ==> failure.value == chunks[FirstFailure(chunks).value].message
    ensures failure.Some? ==> downloaded == Counted(chunks[..FirstFailure(chunks).value], total)
    ensures failure.None? ==> downloaded == Counted(chunks, total)
    ensures registry.inProgress - {id} == old(registry.inProgress) - {id}
    ensures id in registry.inProgress
    ensures registry.inProgress[id].totalBytes == total
    ensures registry.inProgress[id].downloadedBytes <= downloaded
  {
    ghost var start := registry.inProgress;
    ghost var shown: nat := 0;
    assert start == start[id := Downloads.DownloadProgress(shown, total)];
    downloaded := 0;
    var i := 0;
    while i < |chunks|
      invariant 0 <= i <= |chunks|
      invariant forall j :: 0 <= j < i ==> chunks[j].Data?
      invariant downloaded == Counted(chunks[..i], total)
      invariant shown <= downloaded
      invariant registry.inProgress == start[id := Downloads.DownloadProgress(shown, total)]
    {
      assert chunks[..i + 1][..i] == chunks[..i];
      if chunks[i].Failed? {
        assert FirstFailure(chunks) == Some(i);
        return downloaded, Some(chunks[i].message);
      }
      downloaded := Numbers.Min(downloaded + chunks[i].length, total);
      if chunks[i].emitDue {
        registry.SetProgress(id, Downloads.DownloadProgress(downloaded, total));
        shown := downloaded;
      }
      i := i + 1;
    }
    assert chunks[..i] == chunks;
    failure := None;
  }

  /** Legacy `start_download`: the same flow, the legacy file name, and only the local path recorded. */
  method LegacyStartDownload(episode: Episode, registry: Downloads.LegacyEpisodeDownloads,
                             response: Result<Response, string>, urlPath: Option<string>, downloadsDir: string)
    returns (updated: Option<Episode>, r: Result<(), string>)
    modifies registry
    ensures response.Err? ==>
      && r == Err(response.error) && updated == None
      && registry.inProgress == old(registry.inProgress)[episode.id := Downloads.DownloadProgress(0, 0)]
    ensures response.Ok? && !response.value.success ==>
      r == Ok(()) && updated == None && registry.inProgress == old(registry.inProgress) - {episode.id}
    ensures response.Ok? && response.value.success && FirstFailure(response.value.chunks).Some? ==>
      && r == Err(response.value.chunks[FirstFailure(response.value.chunks).value].message) && updated == None
      && episode.id in registry.inProgress
      && registry.inProgress - {episode.id} == old(registry.inProgress) - {episode.id}
      && registry.inProgress[episode.id].totalBytes == TotalOf(response.value)
      && registry.inProgress[episode.id].downloadedBytes
         <= Counted(response.value.chunks[..FirstFailure(response.value.chunks).value], TotalOf(response.value))
    ensures response.Ok? && response.value.success && FirstFailure(response.value.chunks).None? ==>
      && r == Ok(())
      && updated == Some(episode.(contentLocalPath := JoinPath(downloadsDir, LegacyFileName(episode, ExtensionOf(response.value, urlPath)))))
      && registry.inProgress == old(registry.inProgress) - {episode.id}
  {
    ghost var start := registry.inProgress;
    registry.SetProgress(episode.id, Downloads.DownloadProgress(0, 0));
    if response.Err? {
      return None, Err(response.error);
    }
    var resp := response.value;
    if !resp.success {
      registry.MarkDone(episode.id);
      assert registry.inProgress == start - {episode.id};
      return None, Ok(());
    }
    var total := TotalOf(resp);
    registry.SetProgress(episode.id, Downloads.DownloadProgress(0, total));
    var extension := ExtensionOf(resp, urlPath);
    var path := JoinPath(downloadsDir, LegacyFileName(episode, extension));
    var downloaded, failure := LegacyReceiveChunks(episode.id, registry, resp.chunks, total);
    if failure.Some? {
      assert registry.inProgress - {episode.id} == start - {episode.id};
      return None, Err(failure.value);
    }
    registry.MarkDone(episode.id);
    assert registry.inProgress == start - {episode.id};
    updated := Some(episode.(contentLocalPath := path));
    r := Ok(());
  }
}
