/**
 * The desktop client's main (application) menu: option ids are the tag
 * "MainMenuOption--" followed by the option's JSON encoding, decoding
 * accepts only such ids, and three options navigate while the rest do
 * nothing in the back end.
 */
module MainMenu {
  import opened Wrappers
  import opened Entities
  import Json
  import ContextMenus

  datatype MainMenuOption =
    | SettingsOption
    | AddNewPodcast
    | SyncFeeds
    | ManageFeeds
    | FindEpisode
    | NavigateLatestEpisodes
    | ManageDownloads
    | PlayPause
    | SkipForward
    | SkipBackward
    | NavigateToEpisode
    | IncreaseVolume
    | DecreaseVolume
    | PlaybackSpeed(speed: int)
    | Help

  const SerTag: string := "MainMenuOption--"

  function ToTagged(o: MainMenuOption): Json.Tagged
  {
    match o
      case SettingsOption => Json.Unit("Settings")
      case AddNewPodcast => Json.Unit("AddNewPodcast")
      case SyncFeeds => Json.Unit("SyncFeeds")
      case ManageFeeds => Json.Unit("ManageFeeds")
      case FindEpisode => Json.Unit("FindEpisode")
      case NavigateLatestEpisodes => Json.Unit("NavigateLatestEpisodes")
      case ManageDownloads => Json.Unit("ManageDownloads")
      case PlayPause => Json.Unit("PlayPause")
      case SkipForward => Json.Unit("SkipForward")
      case SkipBackward => Json.Unit("SkipBackward")
      case NavigateToEpisode => Json.Unit("NavigateToEpisode")
      case IncreaseVolume => Json.Unit("IncreaseVolume")
      case DecreaseVolume => Json.Unit("DecreaseVolume")
      case PlaybackSpeed(v) => Json.Newtype("PlaybackSpeed", v)
      case Help => Json.Unit("Help")
  }

  function FromTagged(t: Json.Tagged): Option<MainMenuOption>
  {
    match t
      case Struct(_, _, _) => None
      case Newtype(n, v) => if n == "PlaybackSpeed" then Some(PlaybackSpeed(v)) else None
      case Unit(n) =>
        if n == "Settings" then Some(SettingsOption)
        else if n == "AddNewPodcast" then Some(AddNewPodcast)
        else if n == "SyncFeeds" then Some(SyncFeeds)
        else if n == "ManageFeeds" then Some(ManageFeeds)
        else if n == "FindEpisode" then Some(FindEpisode)
        else if n == "NavigateLatestEpisodes" then Some(NavigateLatestEpisodes)
        else if n == "ManageDownloads" then Some(ManageDownloads)
        else if n == "PlayPause" then Some(PlayPause)
        else if n == "SkipForward" then Some(SkipForward)
        else if n == "SkipBackward" then Some(SkipBackward)
        else if n == "NavigateToEpisode" then Some(NavigateToEpisode)
        else if n == "IncreaseVolume" then Some(IncreaseVolume)
        else if n == "DecreaseVolume" then Some(DecreaseVolume)
        else if n == "Help" then Some(Help)
        else None
  }

  lemma NamesFirst()
    ensures Json.IsIdent("Settings") && Json.IsIdent("AddNewPodcast") && Json.IsIdent("SyncFeeds")
    ensures Json.IsIdent("ManageFeeds") && Json.IsIdent("FindEpisode")
  {
  }

  lemma NamesSecond()
    ensures Json.IsIdent("NavigateLatestEpisodes") && Json.IsIdent("ManageDownloads") && Json.IsIdent("PlayPause")
    ensures Json.IsIdent("SkipForward") && Json.IsIdent("SkipBackward")
  {
  }

  lemma NamesThird()
    ensures Json.IsIdent("NavigateToEpisode") && Json.IsIdent("IncreaseVolume") && Json.IsIdent("DecreaseVolume")
    ensures Json.IsIdent("PlaybackSpeed") && Json.IsIdent("Help")
  {
  }

  lemma ToTaggedWellNamed(o: MainMenuOption)
    ensures Json.WellNamed(ToTagged(o))
  {
    NamesFirst();
    NamesSecond();
    NamesThird();
  }

  function Encode(o: MainMenuOption): string
  {
    Json.Render(ToTagged(o))
  }

  function Decode(s: string): Option<MainMenuOption>
  {
    match Json.Parse(s)
      case None => None
      case Some(t) => FromTagged(t)
  }

  /** `From<MainMenuOption> for MenuId`. */
  function MenuId(o: MainMenuOption): (id: string)
    ensures SerTag <= id && id[|SerTag|..] == Encode(o)
  {
    SerTag + Encode(o)
  }

  /** `TryFrom<String>`: only tagged strings are decoded; a decode failure is an error. */
  function TryFrom(value: string): (r: Result<MainMenuOption, string>)
    ensures !(SerTag <= value) ==> r == Err("incorrect tag")
    ensures SerTag <= value && Decode(value[|SerTag|..]).None? ==> r.Err?
  {
    if SerTag <= value then
      match Decode(value[|SerTag|..])
        case Some(o) => Ok(o)
        case None => Err("invalid encoding")
    else Err("incorrect tag")
  }

  /** Every menu id decodes back to its option. */
  lemma MenuIdRoundTrip(o: MainMenuOption)
    ensures TryFrom(MenuId(o)) == Ok(o)
  {
    ToTaggedWellNamed(o);
    FromToTagged(o);
    TryFromRendered(ToTagged(o));
  }

  lemma FromToTagged(o: MainMenuOption)
    ensures FromTagged(ToTagged(o)) == Some(o)
  {
  }

  /** A tagged rendering of a well-named value decodes as `FromTagged` reads it. */
  lemma TryFromRendered(t: Json.Tagged)
    requires Json.WellNamed(t)
    ensures FromTagged(t).Some? ==> TryFrom(SerTag + Json.Render(t)) == Ok(FromTagged(t).value)
  {
    Json.RoundTrip(t);
    assert (SerTag + Json.Render(t))[|SerTag|..] == Json.Render(t);
  }

  /** Context-menu ids never pass for main-menu ids, whatever option they carry. */
  lemma ContextMenuIdsRejected(o: ContextMenus.ContextMenuOption)
    ensures TryFrom(ContextMenus.SerTag + ContextMenus.Encode(o)) == Err("incorrect tag")
  {
    var s := ContextMenus.SerTag + ContextMenus.Encode(o);
    assert s[0] == 'C';
  }

  /** `event_handler_inner`: the route an option navigates to, if any. */
  function Route(o: MainMenuOption): (r: Option<AppRoute>)
    ensures r == Some(Settings) <==> o.SettingsOption?
    ensures r == Some(Podcasts) <==> o.ManageFeeds?
    ensures r == Some(Downloads) <==> o.ManageDownloads?
    ensures r.None? <==> !(o.SettingsOption? || o.ManageFeeds? || o.ManageDownloads?)
  {
    match o
      case SettingsOption => Some(Settings)
      case ManageFeeds => Some(Podcasts)
      case ManageDownloads => Some(Downloads)
      case _ => None
  }
}
