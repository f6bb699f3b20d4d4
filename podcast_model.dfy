/**
 * The desktop client's feed rules: reading an RSS item into a parsed episode,
 * the iTunes duration, the rows built from a parsed feed, the per-feed upsert
 * of episodes with their progress rows, and the strictly-newer guard applied
 * to progress that arrives from the server. Tables are sequences of rows in
 * row-id order; a new row takes the next free id.
 */
module PodcastModel {
  import opened Wrappers
  import opened Entities
  import opened Text
  import Decimal
  import Numbers
  import BackendModels

  // ---------------------------------------------------------------- durations

  /** `filter_map(|v| v.parse().ok())`: the fields that read as an `i32`, in order. */
  function ParsedFields(fields: seq<string>): (r: seq<int>)
    ensures |r| <= |fields|
    ensures forall i :: 0 <= i < |r| ==> Numbers.InI32(r[i])
    ensures |r| == |fields| <==> forall j :: 0 <= j < |fields| ==> Decimal.ParseI32(fields[j]).Some?
  {
    if fields == [] then []
    else match Decimal.ParseI32(fields[0])
      case None => ParsedFields(fields[1..])
      case Some(v) => [v] + ParsedFields(fields[1..])
  }

  /**
   * `hms_to_seconds`: 0 for a missing duration or unless exactly three fields
   * parse; otherwise hours, minutes and seconds combined in `i32` arithmetic,
   * which wraps in a release build.
   */
  function HmsToSeconds(duration: Option<string>): (r: int)
    ensures Numbers.InI32(r)
    ensures duration.None? ==> r == 0
    ensures duration.Some? && |ParsedFields(Split(duration.value, ':'))| != 3 ==> r == 0
  {
    match duration
      case None => 0
      case Some(s) => SecondsOfFields(ParsedFields(Split(s, ':')))
  }

  /**
   * The length check and the `i32` sum over the parsed values: 0 unless there
   * are exactly three; the plain sum whenever it fits in an `i32`.
   */
  function SecondsOfFields(values: seq<int>): (r: int)
    ensures Numbers.InI32(r)
    ensures |values| != 3 ==> r == 0
    ensures |values| == 3 && Numbers.InI32(values[0] * 3600 + values[1] * 60 + values[2])
            ==> r == values[0] * 3600 + values[1] * 60 + values[2]
  {
    if |values| != 3 then 0
    else Numbers.WrapI32(values[0] * 3600 + values[1] * 60 + values[2])
  }

  lemma NatToStringParses(n: nat)
    requires Numbers.InI32(n)
    ensures Decimal.ParseI32(Decimal.NatToString(n)) == Some(n)
    ensures ':' !in Decimal.NatToString(n)
  {
    Decimal.ParseI32OfIntToString(n);
    var s := Decimal.NatToString(n);
    assert forall i :: 0 <= i < |s| ==> Decimal.IsDigit(s[i]);
  }

  /** A well-formed "H:M:S" duration reads back as its number of seconds. */
  lemma HmsToSecondsOfClock(h: nat, m: nat, s: nat)
    requires Numbers.InI32(h) && Numbers.InI32(m) && Numbers.InI32(s)
    requires Numbers.InI32(h * 3600 + m * 60 + s)
    ensures HmsToSeconds(Some(Decimal.NatToString(h) + ":" + Decimal.NatToString(m) + ":" + Decimal.NatToString(s)))
            == h * 3600 + m * 60 + s
  {
    var hh, mm, ss := Decimal.NatToString(h), Decimal.NatToString(m), Decimal.NatToString(s);
    NatToStringParses(h);
    NatToStringParses(m);
    NatToStringParses(s);
    SplitThreeFields(hh, mm, ss);
    assert ParsedFields([ss]) == [s];
    assert ParsedFields([mm, ss]) == [m, s] by { assert [mm, ss][1..] == [ss]; }
    assert ParsedFields([hh, mm, ss]) == [h, m, s] by { assert [hh, mm, ss][1..] == [mm, ss]; }
  }

  /** The fields are read one by one: parsing a concatenation concatenates the results. */
  lemma {:induction false} ParsedFieldsConcat(xs: seq<string>, ys: seq<string>)
    ensures ParsedFields(xs + ys) == ParsedFields(xs) + ParsedFields(ys)
    decreases |xs|
  {
    if xs != [] {
      assert (xs + ys)[0] == xs[0];
      assert (xs + ys)[1..] == xs[1..] + ys;
      ParsedFieldsConcat(xs[1..], ys);
      match Decimal.ParseI32(xs[0])
        case None =>
        case Some(v) =>
          assert [v] + ParsedFields(xs[1..]) + ParsedFields(ys) == [v] + (ParsedFields(xs[1..]) + ParsedFields(ys));
    } else {
      assert xs + ys == ys;
    }
  }

  /** A field that does not parse is dropped wherever it stands. */
  lemma UnparsableFieldDropped(xs: seq<string>, x: string, ys: seq<string>)
    requires Decimal.ParseI32(x).None?
    ensures ParsedFields(xs + [x] + ys) == ParsedFields(xs + ys)
  {
    assert [x][1..] == [];
    var single := ParsedFields([x]);
    assert single == [];
    ParsedFieldsConcat(xs + [x], ys);
    ParsedFieldsConcat(xs, [x]);
    ParsedFieldsConcat(xs, ys);
    assert ParsedFields(xs + [x]) == ParsedFields(xs);
  }

  /** The duration depends on the text only through the fields that parse. */
  lemma SameFieldsSameSeconds(d1: string, d2: string)
    requires ParsedFields(Split(d1, ':')) == ParsedFields(Split(d2, ':'))
    ensures HmsToSeconds(Some(d1)) == HmsToSeconds(Some(d2))
  {
  }

  /**
   * Any three colon-free fields that parse as `i32`, however written
   * ("01", "+1", "-2"), combine to hours, minutes and seconds.
   */
  lemma HmsToSecondsOfFields(a: string, b: string, c: string, h: int, m: int, s: int)
    requires ':' !in a && ':' !in b && ':' !in c
    requires Decimal.ParseI32(a) == Some(h) && Decimal.ParseI32(b) == Some(m) && Decimal.ParseI32(c) == Some(s)
    ensures HmsToSeconds(Some(a + ":" + b + ":" + c)) == Numbers.WrapI32(h * 3600 + m * 60 + s)
  {
    var d := a + ":" + b + ":" + c;
    SplitThreeFields(a, b, c);
    var fields := Split(d, ':');
    assert fields == [a, b, c];
    ThreeParsed(a, b, c, h, m, s);
    var values := ParsedFields(fields);
    assert values == [h, m, s];
    assert HmsToSeconds(Some(d)) == SecondsOfFields(values);
    SecondsOfThree(h, m, s);
  }

  lemma SecondsOfThree(h: int, m: int, s: int)
    ensures SecondsOfFields([h, m, s]) == Numbers.WrapI32(h * 3600 + m * 60 + s)
  {
    var values := [h, m, s];
    assert values[0] == h && values[1] == m && values[2] == s;
  }

  lemma ThreeParsed(a: string, b: string, c: string, h: int, m: int, s: int)
    requires Decimal.ParseI32(a) == Some(h) && Decimal.ParseI32(b) == Some(m) && Decimal.ParseI32(c) == Some(s)
    ensures ParsedFields([a, b, c]) == [h, m, s]
  {
    assert ParsedFields([c]) == [s];
    assert ParsedFields([b, c]) == [m, s] by { assert [b, c][1..] == [c]; }
    assert [a, b, c][1..] == [b, c];
  }

  lemma ParseTwoDigits(t: string)
    requires |t| == 2 && Decimal.IsDigit(t[0]) && Decimal.IsDigit(t[1])
    ensures Decimal.ParseI32(t) == Some(Decimal.DigitValue(t[0]) * 10 + Decimal.DigitValue(t[1]))
  {
    assert Decimal.AllDigits(t);
    var first := t[..1];
    assert first == [t[0]] && first[..0] == [];
    assert Decimal.ParseDigits(first) == Decimal.DigitValue(t[0]);
    assert t[..|t| - 1] == first;
    assert Decimal.ParseDigits(t) == Decimal.DigitValue(t[0]) * 10 + Decimal.DigitValue(t[1]);
  }

  /** The zero-padded iTunes form reads as expected. */
  lemma ZeroPaddedDuration()
    ensures HmsToSeconds(Some("01:02:03")) == 3723
  {
    assert "01:02:03" == "01" + ":" + "02" + ":" + "03";
    ParseTwoDigits("01");
    ParseTwoDigits("02");
    ParseTwoDigits("03");
    HmsToSecondsOfFields("01", "02", "03", 1, 2, 3);
  }

  /** A colon-free field that does not parse as `i32` can be inserted anywhere without changing the result. */
  lemma UnparsableFieldIgnored(p: string, x: string, q: string)
    requires ':' !in x && Decimal.ParseI32(x).None?
    ensures HmsToSeconds(Some(p + ":" + x + ":" + q)) == HmsToSeconds(Some(p + ":" + q))
  {
    var d1, d2 := p + ":" + x + ":" + q, p + ":" + q;
    assert d1 == p + [':'] + (x + [':'] + q);
    assert d2 == p + [':'] + q;
    SplitAround(p, ':', x + [':'] + q);
    SplitConcat(x, ':', q);
    SplitAround(p, ':', q);
    var ps, qs := Split(p, ':'), Split(q, ':');
    assert Split(d1, ':') == ps + [x] + qs;
    assert Split(d2, ':') == ps + qs;
    UnparsableFieldDropped(ps, x, qs);
    SameFieldsSameSeconds(d1, d2);
  }

  lemma SplitThreeFields(hh: string, mm: string, ss: string)
    requires ':' !in hh && ':' !in mm && ':' !in ss
    ensures Split(hh + ":" + mm + ":" + ss, ':') == [hh, mm, ss]
  {
    assert hh + ":" + mm + ":" + ss == hh + [':'] + (mm + [':'] + ss);
    SplitConcat(hh, ':', mm + [':'] + ss);
    SplitConcat(mm, ':', ss);
    SplitNone(ss, ':');
  }

  /** A two-field "M:S" duration is not understood and gives 0. */
  lemma MinutesSecondsGiveZero(m: nat, s: nat)
    requires Numbers.InI32(m) && Numbers.InI32(s)
    ensures HmsToSeconds(Some(Decimal.NatToString(m) + ":" + Decimal.NatToString(s))) == 0
  {
    var mm, ss := Decimal.NatToString(m), Decimal.NatToString(s);
    NatToStringParses(m);
    NatToStringParses(s);
    assert mm + ":" + ss == mm + [':'] + ss;
    SplitConcat(mm, ':', ss);
    SplitNone(ss, ':');
    assert ParsedFields([ss]) == [s];
    assert ParsedFields([mm, ss]) == [m, s] by { assert [mm, ss][1..] == [ss]; }
  }

  // ---------------------------------------------------------------- RSS items

  datatype ItunesExt = ItunesExt(summary: Option<string>, image: Option<string>, duration: Option<string>)

  /**
   * The parts of an `rss::Item` the client reads; the publication date is
   * given already converted (the RFC 2822 parser is not part of this model).
   */
  datatype RssItem = RssItem(
    description: Option<string>,
    itunes: Option<ItunesExt>,
    enclosureUrl: Option<string>,
    guid: Option<string>,
    link: Option<string>,
    title: Option<string>,
    episodeDate: Timestamp)

  datatype ParsedEpisode = ParsedEpisode(
    guid: string,
    contentUrl: string,
    description: string,
    imageUrl: string,
    length: int,
    link: string,
    episodeDate: Timestamp,
    title: string)

  function OrEmpty(o: Option<string>): string
  {
    if o.Some? then o.value else ""
  }

  /** `ParsedEpisode::from_item`. */
  function FromItem(item: RssItem): (r: Result<ParsedEpisode, string>)
    // The required fields are checked in this order.
    ensures item.enclosureUrl.None? ==> r == Err("episode with no enclosure")
    ensures item.enclosureUrl.Some? && item.guid.None? ==> r == Err("no guid for episode!")
    ensures item.enclosureUrl.Some? && item.guid.Some? && item.link.None? ==> r == Err("episode with no link")
    ensures item.enclosureUrl.Some? && item.guid.Some? && item.link.Some? && item.title.None? ==>
              r == Err("episode with no title")
    ensures r.Ok? <==> item.enclosureUrl.Some? && item.guid.Some? && item.link.Some? && item.title.Some?
    ensures r.Ok? ==>
      && r.value.guid == item.guid.value
      && r.value.contentUrl == item.enclosureUrl.value
      && r.value.link == item.link.value
      && r.value.title == item.title.value
      && r.value.episodeDate == item.episodeDate
      && Numbers.InI32(r.value.length)
      // The description falls back to the iTunes summary, then to "".
      && (item.description.Some? ==> r.value.description == item.description.value)
      && (item.description.None? && item.itunes.Some? && item.itunes.value.summary.Some? ==>
            r.value.description == item.itunes.value.summary.value)
      && (item.description.None? && (item.itunes.None? || item.itunes.value.summary.None?) ==>
            r.value.description == "")
  {
    var ext := if item.itunes.Some? then item.itunes.value else ItunesExt(None, None, None);
    var description := if item.description.Some? then item.description.value else OrEmpty(ext.summary);
    if item.enclosureUrl.None? then Err("episode with no enclosure")
    else if item.guid.None? then Err("no guid for episode!")
    else if item.link.None? then Err("episode with no link")
    else if item.title.None? then Err("episode with no title")
    else Ok(ParsedEpisode(item.guid.value, item.enclosureUrl.value, description, OrEmpty(ext.image),
                          HmsToSeconds(ext.duration), item.link.value, item.episodeDate, item.title.value))
  }

  // ---------------------------------------------------------------- rows from a parsed feed

  datatype ParsedPodcast = ParsedPodcast(
    guid: string,
    author: string,
    localImagePath: string,
    imageUrl: string,
    name: string,
    description: string,
    publishedAt: Timestamp,
    episodes: seq<ParsedEpisode>)

  datatype NewPodcast = NewPodcast(
    guid: string,
    author: string,
    localImagePath: string,
    imageUrl: string,
    name: string,
    description: string,
    feedUrl: string,
    createdAt: Timestamp,
    updatedAt: Timestamp)

  /** `UpdatedPodcast`: the change set written over an existing podcast row. */
  datatype UpdatedPodcast = UpdatedPodcast(
    id: int,
    author: string,
    localImagePath: string,
    imageUrl: string,
    name: string,
    description: string,
    feedUrl: string,
    updatedAt: Timestamp)

  /** `NewPodcast::from_parsed`: the feed's fields, the given url, created now, updated at publication. */
  function NewPodcastFromParsed(parsed: ParsedPodcast, url: string, now: Timestamp): (r: NewPodcast)
    ensures r.guid == parsed.guid && r.author == parsed.author && r.localImagePath == parsed.localImagePath
    ensures r.imageUrl == parsed.imageUrl && r.name == parsed.name && r.description == parsed.description
    ensures r.feedUrl == url && r.createdAt == now && r.updatedAt == parsed.publishedAt
  {
    NewPodcast(parsed.guid, parsed.author, parsed.localImagePath, parsed.imageUrl, parsed.name,
               parsed.description, url, now, parsed.publishedAt)
  }

  /** `UpdatedPodcast::new`: every field of the new podcast but its guid and creation time. */
  function UpdatedPodcastNew(id: int, p: NewPodcast): (r: UpdatedPodcast)
    ensures r.id == id && r.author == p.author && r.localImagePath == p.localImagePath
    ensures r.imageUrl == p.imageUrl && r.name == p.name && r.description == p.description
    ensures r.feedUrl == p.feedUrl && r.updatedAt == p.updatedAt
  {
    UpdatedPodcast(id, p.author, p.localImagePath, p.imageUrl, p.name, p.description, p.feedUrl, p.updatedAt)
  }

  /** Writing the change set over a podcast row (`diesel::update(..).set(updated_podcast)`). */
  function ApplyUpdatedPodcast(row: Podcast, u: UpdatedPodcast): (r: Podcast)
    ensures r.id == row.id && r.guid == row.guid && r.createdAt == row.createdAt && r.deletedAt == row.deletedAt
  {
    row.(author := u.author, localImagePath := u.localImagePath, imageUrl := u.imageUrl, name := u.name,
         description := u.description, feedUrl := u.feedUrl, updatedAt := u.updatedAt)
  }

  /** Refreshing a podcast from its feed keeps its id, guid, creation and deletion times. */
  lemma RefreshKeepsIdentity(row: Podcast, parsed: ParsedPodcast, now: Timestamp)
    ensures var after := ApplyUpdatedPodcast(row, UpdatedPodcastNew(row.id, NewPodcastFromParsed(parsed, row.feedUrl, now)));
      && after.id == row.id && after.guid == row.guid
      && after.createdAt == row.createdAt && after.deletedAt == row.deletedAt
      && after.feedUrl == row.feedUrl && after.name == parsed.name && after.updatedAt == parsed.publishedAt
  {
  }

  /** The change set does not depend on the new podcast's guid or creation time. */
  lemma UpdatedPodcastIgnoresGuid(id: int, p: NewPodcast, q: NewPodcast)
    requires p.(guid := q.guid, createdAt := q.createdAt) == q
    ensures UpdatedPodcastNew(id, p) == UpdatedPodcastNew(id, q)
  {
  }

  datatype NewEpisode = NewEpisode(
    guid: string,
    podcastId: int,
    contentLocalPath: string,
    contentUrl: string,
    description: string,
    imageLocalPath: string,
    imageUrl: string,
    length: int,
    link: string,
    episodeDate: Timestamp,
    title: string)

  /** `NewEpisode::from_parsed`: nothing downloaded yet, so both local paths are empty. */
  function NewEpisodeFromParsed(parsed: ParsedEpisode, podcastId: int): (r: NewEpisode)
    ensures r.contentLocalPath == "" && r.imageLocalPath == ""
    ensures r.podcastId == podcastId
    ensures r.guid == parsed.guid && r.contentUrl == parsed.contentUrl && r.description == parsed.description
    ensures r.imageUrl == parsed.imageUrl && r.length == parsed.length && r.link == parsed.link
    ensures r.episodeDate == parsed.episodeDate && r.title == parsed.title
  {
    NewEpisode(parsed.guid, podcastId, "", parsed.contentUrl, parsed.description, "", parsed.imageUrl,
               parsed.length, parsed.link, parsed.episodeDate, parsed.title)
  }

  /** The row an insert of `e` creates under `id`. */
  function InsertedEpisode(e: NewEpisode, id: int): Episode
  {
    Episode(id, e.guid, e.podcastId, e.contentLocalPath, e.contentUrl, e.description, e.imageLocalPath,
            e.imageUrl, e.length, e.link, e.episodeDate, e.title)
  }

  // ---------------------------------------------------------------- the episode upsert

  /** The id a new episode row receives: one past the largest in use. */
  function NextEpisodeId(rows: seq<Episode>): (r: int)
    ensures r >= 1
    ensures forall i :: 0 <= i < |rows| ==> rows[i].id < r
  {
    if rows == [] then 1
    else var rest := NextEpisodeId(rows[1..]); if rows[0].id < rest then rest else rows[0].id + 1
  }

  function NextProgressId(rows: seq<EpisodeProgress>): (r: int)
    ensures r >= 1
    ensures forall i :: 0 <= i < |rows| ==> rows[i].id < r
  {
    if rows == [] then 1
    else var rest := NextProgressId(rows[1..]); if rows[0].id < rest then rest else rows[0].id + 1
  }

  predicate IsEpisodeOf(row: Episode, podcastId: int, guid: string)
  {
    row.podcastId == podcastId && row.guid == guid
  }

  /** `Episode::belonging_to(podcast).filter(guid.eq(..)).first()`, searched from row `from` on. */
  function FindEpisodeFrom(rows: seq<Episode>, podcastId: int, guid: string, from: nat): (r: Option<nat>)
    requires from <= |rows|
    ensures r.Some? ==> from <= r.value < |rows| && IsEpisodeOf(rows[r.value], podcastId, guid)
    ensures r.Some? ==> forall j :: from <= j < r.value ==> !IsEpisodeOf(rows[j], podcastId, guid)
    ensures r.None? ==> forall j :: from <= j < |rows| ==> !IsEpisodeOf(rows[j], podcastId, guid)
    decreases |rows| - from
  {
    if from == |rows| then None
    else if IsEpisodeOf(rows[from], podcastId, guid) then Some(from)
    else FindEpisodeFrom(rows, podcastId, guid, from + 1)
  }

  function FindEpisode(rows: seq<Episode>, podcastId: int, guid: string): (r: Option<nat>)
    ensures r.Some? ==> r.value < |rows| && IsEpisodeOf(rows[r.value], podcastId, guid)
    ensures r.Some? ==> forall j :: 0 <= j < r.value ==> !IsEpisodeOf(rows[j], podcastId, guid)
    ensures r.None? ==> forall j :: 0 <= j < |rows| ==> !IsEpisodeOf(rows[j], podcastId, guid)
  {
    FindEpisodeFrom(rows, podcastId, guid, 0)
  }

  /** Whether the progress table has a row for the episode (`.first().optional()` is `Some`). */
  predicate HasProgress(rows: seq<EpisodeProgress>, episodeId: int)
  {
    exists i :: 0 <= i < |rows| && rows[i].episodeId == episodeId
  }

  /** The tables and the `new_episodes` counter during `sync_single_podcast_inner`. */
  datatype SyncState = SyncState(episodes: seq<Episode>, progresses: seq<EpisodeProgress>, newEpisodes: nat)

  /** The progress table after making sure the episode has a row, created as not started. */
  function EnsureProgress(rows: seq<EpisodeProgress>, episodeId: int, now: Timestamp): (r: seq<EpisodeProgress>)
    ensures HasProgress(r, episodeId)
    ensures HasProgress(rows, episodeId) ==> r == rows
    ensures !HasProgress(rows, episodeId) ==>
      r == rows + [EpisodeProgress(NextProgressId(rows), episodeId, false, 0, now)]
  {
    if HasProgress(rows, episodeId) then rows
    else
      var r := rows + [EpisodeProgress(NextProgressId(rows), episodeId, false, 0, now)];
      assert r[|rows|].episodeId == episodeId;
      r
  }

  /** One iteration of the upsert loop, for one parsed episode. */
  function SyncStep(s: SyncState, p: ParsedEpisode, podcastId: int, now: Timestamp): SyncState
  {
    match FindEpisode(s.episodes, podcastId, p.guid)
      case Some(j) =>
        var row := s.episodes[j];
        SyncState(s.episodes[j := row.(contentUrl := p.contentUrl)], EnsureProgress(s.progresses, row.id, now),
                  s.newEpisodes)
      case None =>
        var id := NextEpisodeId(s.episodes);
        SyncState(s.episodes + [InsertedEpisode(NewEpisodeFromParsed(p, podcastId), id)],
                  EnsureProgress(s.progresses, id, now), s.newEpisodes + 1)
  }

  /** The whole loop over the feed's episodes. */
  function SyncAll(s: SyncState, parsed: seq<ParsedEpisode>, podcastId: int, now: Timestamp): SyncState
    decreases |parsed|
  {
    if parsed == [] then s else SyncAll(SyncStep(s, parsed[0], podcastId, now), parsed[1..], podcastId, now)
  }

  /** An existing episode gets only its content url refreshed; an unknown guid is inserted and counted. */
  lemma SyncStepUpserts(s: SyncState, p: ParsedEpisode, podcastId: int, now: Timestamp)
    ensures var r := SyncStep(s, p, podcastId, now);
      match FindEpisode(s.episodes, podcastId, p.guid)
        case Some(j) =>
          && r.episodes == s.episodes[j := s.episodes[j].(contentUrl := p.contentUrl)]
          && r.newEpisodes == s.newEpisodes
        case None =>
          && r.episodes == s.episodes + [InsertedEpisode(NewEpisodeFromParsed(p, podcastId), NextEpisodeId(s.episodes))]
          && r.newEpisodes == s.newEpisodes + 1
  {
  }

  /** Progress rows are only ever added, never changed, and only when the episode has none. */
  lemma SyncStepProgress(s: SyncState, p: ParsedEpisode, podcastId: int, now: Timestamp)
    ensures var r := SyncStep(s, p, podcastId, now);
      && s.progresses <= r.progresses
      && |r.progresses| <= |s.progresses| + 1
      && (|r.progresses| == |s.progresses| + 1 ==>
            var added := r.progresses[|s.progresses|];
            && !HasProgress(s.progresses, added.episodeId)
            && !added.completed && added.listenedSeconds == 0)
  {
  }

  /** A row that matched keeps matching after a step: steps never change ids, guids or podcast ids. */
  lemma {:induction false} FindEpisodeFromStable(a: seq<Episode>, b: seq<Episode>, podcastId: int, guid: string, from: nat)
    requires from <= |a| <= |b|
    requires forall i :: 0 <= i < |a| ==> b[i].podcastId == a[i].podcastId && b[i].guid == a[i].guid
    requires FindEpisodeFrom(a, podcastId, guid, from).Some?
    ensures FindEpisodeFrom(b, podcastId, guid, from) == FindEpisodeFrom(a, podcastId, guid, from)
    decreases |a| - from
  {
    if !IsEpisodeOf(a[from], podcastId, guid) {
      FindEpisodeFromStable(a, b, podcastId, guid, from + 1);
    }
  }

  lemma SyncStepKeepsFound(s: SyncState, p: ParsedEpisode, podcastId: int, now: Timestamp, guid: string)
    requires FindEpisode(s.episodes, podcastId, guid).Some?
    requires HasProgress(s.progresses, s.episodes[FindEpisode(s.episodes, podcastId, guid).value].id)
    ensures var r := SyncStep(s, p, podcastId, now);
      && FindEpisode(r.episodes, podcastId, guid) == FindEpisode(s.episodes, podcastId, guid)
      && r.episodes[FindEpisode(s.episodes, podcastId, guid).value].id
         == s.episodes[FindEpisode(s.episodes, podcastId, guid).value].id
      && HasProgress(r.progresses, s.episodes[FindEpisode(s.episodes, podcastId, guid).value].id)
  {
    var r := SyncStep(s, p, podcastId, now);
    FindEpisodeFromStable(s.episodes, r.episodes, podcastId, guid, 0);
    var k := FindEpisode(s.episodes, podcastId, guid).value;
    var id := s.episodes[k].id;
    var i :| 0 <= i < |s.progresses| && s.progresses[i].episodeId == id;
    assert r.progresses[i] == s.progresses[i];
  }

  lemma SyncStepCovers(s: SyncState, p: ParsedEpisode, podcastId: int, now: Timestamp)
    ensures var r := SyncStep(s, p, podcastId, now);
      && FindEpisode(r.episodes, podcastId, p.guid).Some?
      && HasProgress(r.progresses, r.episodes[FindEpisode(r.episodes, podcastId, p.guid).value].id)
  {
    var r := SyncStep(s, p, podcastId, now);
    match FindEpisode(s.episodes, podcastId, p.guid) {
      case Some(j) =>
        FindEpisodeFromStable(s.episodes, r.episodes, podcastId, p.guid, 0);
      case None =>
        var k := FindEpisode(r.episodes, podcastId, p.guid);
        assert IsEpisodeOf(r.episodes[|s.episodes|], podcastId, p.guid);
        assert k.Some? && k.value == |s.episodes|;
    }
  }

  /**
   * After the upsert, every episode of the feed has a row under the podcast,
   * and that row has a progress row.
   */
  lemma {:induction false} SyncAllCovers(s: SyncState, parsed: seq<ParsedEpisode>, podcastId: int, now: Timestamp,
                                         i: nat)
    requires i < |parsed|
    ensures var r := SyncAll(s, parsed, podcastId, now);
      && FindEpisode(r.episodes, podcastId, parsed[i].guid).Some?
      && HasProgress(r.progresses, r.episodes[FindEpisode(r.episodes, podcastId, parsed[i].guid).value].id)
    decreases |parsed|
  {
    var next := SyncStep(s, parsed[0], podcastId, now);
    if i == 0 {
      SyncStepCovers(s, parsed[0], podcastId, now);
      SyncAllKeepsFound(next, parsed[1..], podcastId, now, parsed[0].guid);
    } else {
      SyncAllCovers(next, parsed[1..], podcastId, now, i - 1);
    }
  }

  lemma {:induction false} SyncAllKeepsFound(s: SyncState, parsed: seq<ParsedEpisode>, podcastId: int, now: Timestamp,
                                             guid: string)
    requires FindEpisode(s.episodes, podcastId, guid).Some?
    requires HasProgress(s.progresses, s.episodes[FindEpisode(s.episodes, podcastId, guid).value].id)
    ensures var r := SyncAll(s, parsed, podcastId, now);
      && FindEpisode(r.episodes, podcastId, guid).Some?
      && HasProgress(r.progresses, r.episodes[FindEpisode(r.episodes, podcastId, guid).value].id)
    decreases |parsed|
  {
    if parsed != [] {
      SyncStepKeepsFound(s, parsed[0], podcastId, now, guid);
      SyncAllKeepsFound(SyncStep(s, parsed[0], podcastId, now), parsed[1..], podcastId, now, guid);
    }
  }

  /** `new_episodes` counts exactly the inserted rows, at most one per feed episode. */
  lemma {:induction false} SyncAllCounts(s: SyncState, parsed: seq<ParsedEpisode>, podcastId: int, now: Timestamp)
    ensures var r := SyncAll(s, parsed, podcastId, now);
      && s.newEpisodes <= r.newEpisodes <= s.newEpisodes + |parsed|
      && |r.episodes| == |s.episodes| + (r.newEpisodes - s.newEpisodes)
    decreases |parsed|
  {
    if parsed != [] {
      SyncAllCounts(SyncStep(s, parsed[0], podcastId, now), parsed[1..], podcastId, now);
    }
  }

  /** `sync_single_podcast_inner`'s loop over the feed's episodes (the database calls are the table updates). */
  method SyncEpisodes(podcastId: int, parsed: seq<ParsedEpisode>, episodes: seq<Episode>,
                      progresses: seq<EpisodeProgress>, now: Timestamp)
    returns (episodesOut: seq<Episode>, progressesOut: seq<EpisodeProgress>, newEpisodes: nat)
    ensures SyncState(episodesOut, progressesOut, newEpisodes) == SyncAll(SyncState(episodes, progresses, 0), parsed, podcastId, now)
  {
    episodesOut, progressesOut, newEpisodes := episodes, progresses, 0;
    var i := 0;
    while i < |parsed|
      invariant 0 <= i <= |parsed|
      invariant SyncAll(SyncState(episodesOut, progressesOut, newEpisodes), parsed[i..], podcastId, now)
                == SyncAll(SyncState(episodes, progresses, 0), parsed, podcastId, now)
    {
      var episode := parsed[i];
      var found := FindEpisode(episodesOut, podcastId, episode.guid);
      var episodeId;
      if found.Some? {
        var row := episodesOut[found.value];
        episodesOut := episodesOut[found.value := row.(contentUrl := episode.contentUrl)];
        episodeId := row.id;
      } else {
        newEpisodes := newEpisodes + 1;
        episodeId := NextEpisodeId(episodesOut);
        episodesOut := episodesOut + [InsertedEpisode(NewEpisodeFromParsed(episode, podcastId), episodeId)];
      }
      if !HasProgress(progressesOut, episodeId) {
        progressesOut := progressesOut + [EpisodeProgress(NextProgressId(progressesOut), episodeId, false, 0, now)];
      }
      assert parsed[i..][1..] == parsed[i + 1..];
      i := i + 1;
    }
  }

  // ---------------------------------------------------------------- progress from the server

  datatype DbError = NotFound

  /** The progress UPDATE for one synced episode: rows of that episode stored strictly older take its values. */
  function GuardedProgress(rows: seq<EpisodeProgress>, episodeId: int, sync: BackendModels.SyncPodcastEpisode)
    : (r: seq<EpisodeProgress>)
    ensures |r| == |rows|
    ensures forall k :: 0 <= k < |rows| ==>
      if rows[k].episodeId == episodeId && rows[k].updatedAt < sync.updatedAt then
        r[k] == rows[k].(listenedSeconds := sync.listenedSeconds, completed := sync.completed, updatedAt := sync.updatedAt)
      else r[k] == rows[k]
  {
    seq(|rows|, k requires 0 <= k < |rows| =>
      if rows[k].episodeId == episodeId && rows[k].updatedAt < sync.updatedAt then
        rows[k].(listenedSeconds := sync.listenedSeconds, completed := sync.completed, updatedAt := sync.updatedAt)
      else rows[k])
  }

  /**
   * The inner loop of `store_backend_sync_response` for one podcast: each
   * synced episode is looked up by guid (a miss aborts, keeping the updates
   * already made) and its progress updated under the guard.
   */
  function ApplySynced(rows: seq<EpisodeProgress>, episodes: seq<Episode>, podcastId: int,
                       incoming: seq<BackendModels.SyncPodcastEpisode>): (r: (seq<EpisodeProgress>, Result<(), DbError>))
    ensures |r.0| == |rows|
    ensures r.1.Err? ==> r.1.error == NotFound
    ensures r.1.Err? <==> exists n :: 0 <= n < |incoming| && FindEpisode(episodes, podcastId, incoming[n].guid).None?
    decreases |incoming|
  {
    if incoming == [] then (rows, Ok(()))
    else match FindEpisode(episodes, podcastId, incoming[0].guid)
      case None => (rows, Err(NotFound))
      case Some(j) => ApplySynced(GuardedProgress(rows, episodes[j].id, incoming[0]), episodes, podcastId, incoming[1..])
  }

  /** Synced progress never moves a row's `updated_at` backwards. */
  lemma {:induction false} ApplySyncedNeverOlder(rows: seq<EpisodeProgress>, episodes: seq<Episode>, podcastId: int,
                                                 incoming: seq<BackendModels.SyncPodcastEpisode>)
    ensures forall k :: 0 <= k < |rows| ==> ApplySynced(rows, episodes, podcastId, incoming).0[k].updatedAt >= rows[k].updatedAt
    decreases |incoming|
  {
    if incoming != [] {
      match FindEpisode(episodes, podcastId, incoming[0].guid) {
        case None =>
        case Some(j) =>
          ApplySyncedNeverOlder(GuardedProgress(rows, episodes[j].id, incoming[0]), episodes, podcastId, incoming[1..]);
      }
    }
  }

  /** A row changes only when some synced entry for its episode is strictly newer than what is stored. */
  lemma {:induction false} ApplySyncedOnlyNewer(rows: seq<EpisodeProgress>, episodes: seq<Episode>, podcastId: int,
                                                incoming: seq<BackendModels.SyncPodcastEpisode>, k: nat)
    requires k < |rows|
    requires ApplySynced(rows, episodes, podcastId, incoming).0[k] != rows[k]
    ensures exists n, j ::
      && 0 <= n < |incoming| && 0 <= j < |episodes|
      && IsEpisodeOf(episodes[j], podcastId, incoming[n].guid)
      && episodes[j].id == rows[k].episodeId
      && incoming[n].updatedAt > rows[k].updatedAt
    decreases |incoming|
  {
    var j := FindEpisode(episodes, podcastId, incoming[0].guid).value;
    var next := GuardedProgress(rows, episodes[j].id, incoming[0]);
    if next[k] != rows[k] {
      assert IsEpisodeOf(episodes[j], podcastId, incoming[0].guid);
    } else {
      ApplySyncedOnlyNewer(next, episodes, podcastId, incoming[1..], k);
      var n, j' :| 0 <= n < |incoming[1..]| && 0 <= j' < |episodes|
        && IsEpisodeOf(episodes[j'], podcastId, incoming[1..][n].guid)
        && episodes[j'].id == next[k].episodeId
        && incoming[1..][n].updatedAt > next[k].updatedAt;
      assert incoming[n + 1] == incoming[1..][n];
    }
  }

  /** The same loop, as the client runs it. */
  method StoreSyncedProgress(rows: seq<EpisodeProgress>, episodes: seq<Episode>, podcastId: int,
                             incoming: seq<BackendModels.SyncPodcastEpisode>)
    returns (rowsOut: seq<EpisodeProgress>, result: Result<(), DbError>)
    ensures (rowsOut, result) == ApplySynced(rows, episodes, podcastId, incoming)
  {
    rowsOut := rows;
    var i := 0;
    while i < |incoming|
      invariant 0 <= i <= |incoming|
      invariant ApplySynced(rowsOut, episodes, podcastId, incoming[i..]) == ApplySynced(rows, episodes, podcastId, incoming)
    {
      var sync := incoming[i];
      var found := FindEpisode(episodes, podcastId, sync.guid);
      if found.None? {
        return rowsOut, Err(NotFound);
      }
      rowsOut := GuardedProgress(rowsOut, episodes[found.value].id, sync);
      assert incoming[i..][1..] == incoming[i + 1..];
      i := i + 1;
    }
    result := Ok(());
  }
}
