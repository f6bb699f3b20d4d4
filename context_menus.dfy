/**
 * The episode context menu of the desktop client: which options it
 * offers, their labels, the menu-item ids (the tag "ContextMenuOption--"
 * followed by the option's JSON encoding), decoding an id back into an
 * option, and what each clicked option does.
 */
module ContextMenus {
  import opened Wrappers
  import opened Entities
  import Json

  datatype ContextMenuOption =
    | PlayEpisode(id: int)
    | PauseEpisode(id: int)
    | StartEpisodeDownload(id: int)
    | RemoveEpisodeDownload(id: int)
    | MarkAsCompleted(id: int)
    | MarkAsNotCompleted(id: int)
    | ShowFileInFolder(id: int)
    | GoToEpisode(id: int)
    | GoToPodcast(episodeId: int)
    | Separator

  const SerTag: string := "ContextMenuOption--"

  /** The serde view of an option: struct variants carry one named field. */
  function ToTagged(o: ContextMenuOption): Json.Tagged
  {
    match o
      case PlayEpisode(id) => Json.Struct("PlayEpisode", "id", id)
      case PauseEpisode(id) => Json.Struct("PauseEpisode", "id", id)
      case StartEpisodeDownload(id) => Json.Struct("StartEpisodeDownload", "id", id)
      case RemoveEpisodeDownload(id) => Json.Struct("RemoveEpisodeDownload", "id", id)
      case MarkAsCompleted(id) => Json.Struct("MarkAsCompleted", "id", id)
      case MarkAsNotCompleted(id) => Json.Struct("MarkAsNotCompleted", "id", id)
      case ShowFileInFolder(id) => Json.Struct("ShowFileInFolder", "id", id)
      case GoToEpisode(id) => Json.Struct("GoToEpisode", "id", id)
      case GoToPodcast(e) => Json.Struct("GoToPodcast", "episode_id", e)
      case Separator => Json.Unit("Separator")
  }

  function FromTagged(t: Json.Tagged): Option<ContextMenuOption>
  {
    match t
      case Unit(n) => if n == "Separator" then Some(Separator) else None
      case Newtype(_, _) => None
      case Struct(n, f, v) =>
        if f == "id" then
          if n == "PlayEpisode" then Some(PlayEpisode(v))
          else if n == "PauseEpisode" then Some(PauseEpisode(v))
          else if n == "StartEpisodeDownload" then Some(StartEpisodeDownload(v))
          else if n == "RemoveEpisodeDownload" then Some(RemoveEpisodeDownload(v))
          else if n == "MarkAsCompleted" then Some(MarkAsCompleted(v))
          else if n == "MarkAsNotCompleted" then Some(MarkAsNotCompleted(v))
          else if n == "ShowFileInFolder" then Some(ShowFileInFolder(v))
          else if n == "GoToEpisode" then Some(GoToEpisode(v))
          else None
        else if f == "episode_id" && n == "GoToPodcast" then Some(GoToPodcast(v))
        else None
  }

  lemma StructNames()
    ensures Json.IsIdent("PlayEpisode") && Json.IsIdent("PauseEpisode") && Json.IsIdent("StartEpisodeDownload")
    ensures Json.IsIdent("RemoveEpisodeDownload") && Json.IsIdent("MarkAsCompleted")
  {
  }

  lemma MoreStructNames()
    ensures Json.IsIdent("MarkAsNotCompleted") && Json.IsIdent("ShowFileInFolder") && Json.IsIdent("GoToEpisode")
    ensures Json.IsIdent("GoToPodcast") && Json.IsIdent("Separator")
    ensures Json.IsIdent("id") && Json.IsIdent("episode_id")
  {
  }

  /** Every variant and field name is a plain identifier, as the encoding needs. */
  lemma ToTaggedWellNamed(o: ContextMenuOption)
    ensures Json.WellNamed(ToTagged(o))
  {
    StructNames();
    MoreStructNames();
  }

  lemma FromToTagged(o: ContextMenuOption)
    ensures FromTagged(ToTagged(o)) == Some(o)
  {
  }

  /** `serde_json::to_string`. */
  function Encode(o: ContextMenuOption): string
  {
    Json.Render(ToTagged(o))
  }

  /** `serde_json::from_str`, on canonical encodings. */
  function Decode(s: string): Option<ContextMenuOption>
  {
    match Json.Parse(s)
      case None => None
      case Some(t) => FromTagged(t)
  }

  /** Decoding undoes encoding, so distinct options never share an encoding. */
  lemma DecodeEncode(o: ContextMenuOption)
    ensures Decode(Encode(o)) == Some(o)
  {
    ToTaggedWellNamed(o);
    Json.RoundTrip(ToTagged(o));
    FromToTagged(o);
  }

  /**
   * Menu labels of the desktop client, in Brazilian Portuguese. Four of them
   * carry a Hangul syllable where the accented letter belongs (U+CC98 for
   * "ó", U+CC3E for "ã"), exactly as the desktop source spells them.
   */
  function Label(o: ContextMenuOption): (r: string)
    ensures r == "" <==> o.Separator?
  {
    match o
      case PlayEpisode(_) => "Reproduzir epis\U{CC98}dio"
      case PauseEpisode(_) => "Pausar epis\U{CC98}dio"
      case StartEpisodeDownload(_) => "Iniciar download"
      case RemoveEpisodeDownload(_) => "Excluir arquivo local"
      case MarkAsCompleted(_) => "Marcar como reproduzido"
      case MarkAsNotCompleted(_) => "Marcar como n\U{CC3E}o reproduzido"
      case ShowFileInFolder(_) => "Mostrar arquivo na pasta"
      case GoToEpisode(_) => "Ver detalhes do epis\U{CC98}dio"
      case GoToPodcast(_) => "Ver podcast"
      case Separator => ""
  }

  datatype MenuEntry = SeparatorEntry | TextEntry(itemId: string, caption: string)

  /** `menu_item`: a separator has no id; every other option is a text item with a tagged id. */
  function MenuItem(o: ContextMenuOption): (r: MenuEntry)
    ensures r.SeparatorEntry? <==> o.Separator?
    ensures r.TextEntry? ==> SerTag <= r.itemId && r.caption == Label(o) && r.caption != ""
    ensures r.TextEntry? ==> TryFromId(r.itemId) == Ok(o)
  {
    if o.Separator? then SeparatorEntry
    else
      TaggedIdRoundTrip(o);
      TextEntry(SerTag + Encode(o), Label(o))
  }

  /** `TryFrom<String>`: strip the tag, then decode; an untagged string is rejected. */
  function TryFromId(value: string): (r: Result<ContextMenuOption, string>)
    ensures !(SerTag <= value) ==> r == Err("incorrect tag")
  {
    if SerTag <= value then
      match Decode(value[|SerTag|..])
        case Some(o) => Ok(o)
        case None => Err("invalid encoding")
    else Err("incorrect tag")
  }

  /** A tagged encoding decodes back to the option it was made from. */
  lemma TaggedIdRoundTrip(o: ContextMenuOption)
    ensures TryFromId(SerTag + Encode(o)) == Ok(o)
  {
    var s := SerTag + Encode(o);
    assert s[|SerTag|..] == Encode(o);
    DecodeEncode(o);
  }

  /**
   * The options of `show_context_menu` for episode `id`: Pause only when
   * that very episode is playing, else Play; the two navigation entries;
   * the completion toggle; a separator; then, unless a download of the
   * episode is running, Start download (nothing on disk) or Remove and
   * Show file (already downloaded).
   */
  function ExpectedOptions(id: int, status: Option<PlayerStatus>, completed: bool, downloading: bool, localPath: string): (r: seq<ContextMenuOption>)
    ensures 5 <= |r| <= 7 && r[4] == Separator
  {
    var first := if status.Some? && !status.value.isPaused && status.value.episode.Some? && status.value.episode.value.id == id
      then PauseEpisode(id) else PlayEpisode(id);
    var toggle := if completed then MarkAsNotCompleted(id) else MarkAsCompleted(id);
    var downloads :=
      if downloading then []
      else if localPath == "" then [StartEpisodeDownload(id)]
      else [RemoveEpisodeDownload(id), ShowFileInFolder(id)];
    [first, GoToEpisode(id), GoToPodcast(id), toggle, Separator] + downloads
  }

  /** The first option pauses exactly when the episode is the one playing, unpaused. */
  lemma FirstOptionPausesIff(id: int, status: Option<PlayerStatus>, completed: bool, downloading: bool, localPath: string)
    ensures var r := ExpectedOptions(id, status, completed, downloading, localPath);
      (r[0] == PauseEpisode(id) <==>
        (status.Some? && !status.value.isPaused && status.value.episode.Some? && status.value.episode.value.id == id))
      && (r[0] == PauseEpisode(id) || r[0] == PlayEpisode(id))
  {
  }

  /** Navigation, completion toggle and separator always sit in positions 1 to 4. */
  lemma MiddleSection(id: int, status: Option<PlayerStatus>, completed: bool, downloading: bool, localPath: string)
    ensures var r := ExpectedOptions(id, status, completed, downloading, localPath);
      r[1] == GoToEpisode(id) && r[2] == GoToPodcast(id) &&
      r[3] == (if completed then MarkAsNotCompleted(id) else MarkAsCompleted(id)) && r[4] == Separator
  {
  }

  /** The download entries after the separator. */
  lemma DownloadSection(id: int, status: Option<PlayerStatus>, completed: bool, downloading: bool, localPath: string)
    ensures var r := ExpectedOptions(id, status, completed, downloading, localPath);
      r[5..] == (if downloading then []
                 else if localPath == "" then [StartEpisodeDownload(id)]
                 else [RemoveEpisodeDownload(id), ShowFileInFolder(id)])
  {
  }

  /**
   * `show_context_menu` for a `PodcastEpisode { id }`: looks the episode
   * up (failing when it is missing), then pushes the options one by one.
   */
  method ShowContextMenu(id: int, status: Option<PlayerStatus>, episodeData: Option<EpisodeWithProgress>, inProgress: set<int>)
    returns (r: Result<seq<ContextMenuOption>, string>)
    ensures episodeData.None? ==> r.Err?
    ensures episodeData.Some? ==> r == Ok(ExpectedOptions(id, status, episodeData.value.progress.completed,
      id in inProgress, episodeData.value.episode.contentLocalPath))
  {
    if episodeData.None? {
      return Err("episode not found");
    }
    var data := episodeData.value;
    var options: seq<ContextMenuOption> := [];
    if status.Some? {
      if !status.value.isPaused && status.value.episode.Some? && status.value.episode.value.id == id {
        options := options + [PauseEpisode(id)];
      } else {
        options := options + [PlayEpisode(id)];
      }
    } else {
      options := options + [PlayEpisode(id)];
    }
    options := options + [GoToEpisode(id)];
    options := options + [GoToPodcast(id)];
    if data.progress.completed {
      options := options + [MarkAsNotCompleted(id)];
    } else {
      options := options + [MarkAsCompleted(id)];
    }
    options := options + [Separator];
    assert |options| == 5;
    ghost var head := options;
    if id !in inProgress {
      if data.episode.contentLocalPath == "" {
        options := options + [StartEpisodeDownload(id)];
      } else {
        options := options + [RemoveEpisodeDownload(id)];
        options := options + [ShowFileInFolder(id)];
      }
    }
    ghost var expected := ExpectedOptions(id, status, data.progress.completed, id in inProgress, data.episode.contentLocalPath);
    assert options == head + options[5..];
    assert head == expected[..5];
    assert options[5..] == expected[5..];
    assert options == expected;
    return Ok(options);
  }

  /** What a clicked option makes the client do. */
  datatype MenuAction =
    | PlayEpisodeCommand(id: int)
    | PlayerActionCommand(action: string)
    | DownloadEpisodeCommand(id: int)
    | EraseDownloadCommand(id: int)
    | MarkCompleteCommand(id: int)
    | MarkNotCompleteCommand(id: int)
    | ShowInFolderCommand(id: int)
    | Navigate(route: AppRoute)
    | NoAction

  /**
   * `menu_event_handler_inner`: every option acts on its own episode id,
   * Pause goes through the generic "pause" player action whatever its id,
   * and GoToPodcast and Separator do nothing.
   */
  function Route(o: ContextMenuOption): (a: MenuAction)
    ensures a.NoAction? <==> o.GoToPodcast? || o.Separator?
    ensures o.PauseEpisode? <==> a == PlayerActionCommand("pause")
    ensures o.GoToEpisode? ==> a == Navigate(EpisodePage(o.id))
    ensures a.Navigate? ==> o.GoToEpisode?
    ensures (a.PlayEpisodeCommand? || a.DownloadEpisodeCommand? || a.EraseDownloadCommand? || a.MarkCompleteCommand?
             || a.MarkNotCompleteCommand? || a.ShowInFolderCommand?) ==> !o.Separator? && !o.GoToPodcast? && a.id == o.id
  {
    match o
      case PlayEpisode(id) => PlayEpisodeCommand(id)
      case PauseEpisode(_) => PlayerActionCommand("pause")
      case StartEpisodeDownload(id) => DownloadEpisodeCommand(id)
      case RemoveEpisodeDownload(id) => EraseDownloadCommand(id)
      case MarkAsCompleted(id) => MarkCompleteCommand(id)
      case MarkAsNotCompleted(id) => MarkNotCompleteCommand(id)
      case ShowFileInFolder(id) => ShowInFolderCommand(id)
      case GoToEpisode(id) => Navigate(EpisodePage(id))
      case GoToPodcast(_) => NoAction
      case Separator => NoAction
  }
}

/**
 * The older client's context menu: the same options and actions, but the
 * menu-item id is the bare JSON encoding and the click handler decodes the
 * event id directly.
 */
module LegacyMenus {
  import opened Wrappers
  import opened ContextMenus

  /** The older `menu_item` id: the bare encoding, with no tag. */
  function LegacyItemId(o: ContextMenuOption): (id: string)
    ensures Decode(id) == Some(o)
  {
    DecodeEncode(o);
    Encode(o)
  }

  /** `menu_event_handler_inner`: an id that does not decode is an error, not ignored. */
  function HandleEvent(eventId: string): (r: Result<MenuAction, string>)
    ensures Decode(eventId).None? ==> r.Err?
    ensures Decode(eventId).Some? ==> r == Ok(Route(Decode(eventId).value))
  {
    match Decode(eventId)
      case None => Err("invalid menu id")
      case Some(o) => Ok(Route(o))
  }

  /** Clicking an item performs the action of the option it was built from. */
  lemma ClickRoundTrip(o: ContextMenuOption)
    ensures HandleEvent(LegacyItemId(o)) == Ok(Route(o))
  {
  }

  /** Menu labels of the older client, with the accented letters spelled correctly. */
  function LegacyLabel(o: ContextMenuOption): (r: string)
    ensures r == "" <==> o.Separator?
  {
    match o
      case PlayEpisode(_) => "Reproduzir episódio"
      case PauseEpisode(_) => "Pausar episódio"
      case StartEpisodeDownload(_) => "Iniciar download"
      case RemoveEpisodeDownload(_) => "Excluir arquivo local"
      case MarkAsCompleted(_) => "Marcar como reproduzido"
      case MarkAsNotCompleted(_) => "Marcar como não reproduzido"
      case ShowFileInFolder(_) => "Mostrar arquivo na pasta"
      case GoToEpisode(_) => "Ver detalhes do episódio"
      case GoToPodcast(_) => "Ver podcast"
      case Separator => ""
  }

  /**
   * The two clients show the same label for an option exactly when it is not
   * one of the four whose desktop spelling is mis-encoded.
   */
  lemma LabelsAgreeExceptMisencoded(o: ContextMenuOption)
    ensures Label(o) == LegacyLabel(o) <==>
      !(o.PlayEpisode? || o.PauseEpisode? || o.MarkAsNotCompleted? || o.GoToEpisode?)
  {
    match o
      case PlayEpisode(_) =>
        assert Label(o)[15] != LegacyLabel(o)[15];
      case PauseEpisode(_) =>
        assert Label(o)[11] != LegacyLabel(o)[11];
      case MarkAsNotCompleted(_) =>
        assert Label(o)[13] != LegacyLabel(o)[13];
      case GoToEpisode(_) =>
        assert Label(o)[20] != LegacyLabel(o)[20];
      case _ =>
  }

  /** The older `menu_item`: a separator, or a text item whose id is the bare encoding. */
  function LegacyMenuItem(o: ContextMenuOption): (r: MenuEntry)
    ensures r.SeparatorEntry? <==> o.Separator?
    ensures r.TextEntry? ==> r.caption == LegacyLabel(o) && r.caption != ""
    ensures r.TextEntry? ==> HandleEvent(r.itemId) == Ok(Route(o))
  {
    if o.Separator? then SeparatorEntry
    else
      ClickRoundTrip(o);
      TextEntry(LegacyItemId(o), LegacyLabel(o))
  }

  /**
   * `menu_item` of the desktop client's second copy of the menu code
   * (menu_support.rs): the tagged id of `MenuItem`, with the correctly
   * spelled labels of the older client.
   */
  function SupportMenuItem(o: ContextMenuOption): (r: MenuEntry)
    ensures r.SeparatorEntry? <==> o.Separator?
    ensures r.TextEntry? ==> r.caption == LegacyLabel(o) && r.caption != ""
    ensures r.TextEntry? ==> MenuItem(o).TextEntry? && r.itemId == MenuItem(o).itemId
    ensures r.TextEntry? ==> TryFromId(r.itemId) == Ok(o)
  {
    if o.Separator? then SeparatorEntry
    else
      TaggedIdRoundTrip(o);
      TextEntry(SerTag + Encode(o), LegacyLabel(o))
  }
}
