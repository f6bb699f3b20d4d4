/**
 * The server's `POST /podcasts` endpoint: the web request is turned into a
 * storage request for the authenticated user and stored. The podcasts table
 * is modelled as the set of (user id, guid) pairs it holds; its uniqueness
 * constraint on that pair is what makes a second create fail.
 */
module CreatePodcast {
  import opened Wrappers
  import UserDevice

  datatype EpisodeWebRequest = EpisodeWebRequest(url: string, guid: string)
  datatype WebRequest = WebRequest(url: string, guid: string, episodes: seq<EpisodeWebRequest>)

  datatype EpisodeRequest = EpisodeRequest(url: string, guid: string)
  datatype Request = Request(userId: int, url: string, guid: string, episodes: seq<EpisodeRequest>)

  /** `From<CreatePodcastEpisodeWebRequest> for CreatePodcastEpisodeRequest`. */
  function EpisodeFrom(e: EpisodeWebRequest): (r: EpisodeRequest)
    ensures r.url == e.url && r.guid == e.guid
  {
    EpisodeRequest(e.url, e.guid)
  }

  function EpisodesFrom(es: seq<EpisodeWebRequest>): (r: seq<EpisodeRequest>)
    ensures |r| == |es|
    ensures forall i :: 0 <= i < |es| ==> r[i] == EpisodeFrom(es[i])
  {
    if es == [] then [] else [EpisodeFrom(es[0])] + EpisodesFrom(es[1..])
  }

  /** `into_request`: the given user id, the same url and guid, the episodes one-to-one in order. */
  function IntoRequest(w: WebRequest, userId: int): (r: Request)
    ensures r.userId == userId && r.url == w.url && r.guid == w.guid
    ensures |r.episodes| == |w.episodes|
    ensures forall i :: 0 <= i < |w.episodes| ==>
      r.episodes[i].url == w.episodes[i].url && r.episodes[i].guid == w.episodes[i].guid
  {
    Request(userId, w.url, w.guid, EpisodesFrom(w.episodes))
  }

  /** The web request a storage request came from (the reverse copy). */
  function WebRequestOf(r: Request): WebRequest
  {
    WebRequest(r.url, r.guid, seq(|r.episodes|, i requires 0 <= i < |r.episodes| =>
      EpisodeWebRequest(r.episodes[i].url, r.episodes[i].guid)))
  }

  /** `into_request` loses nothing of the web request. */
  lemma IntoRequestLossless(w: WebRequest, userId: int)
    ensures WebRequestOf(IntoRequest(w, userId)) == w
  {
    var back := WebRequestOf(IntoRequest(w, userId));
    assert back.episodes == w.episodes;
  }

  datatype Status = Created | Unauthorized | InternalServerError

  /**
   * The handler `create_podcast`: authentication failures are 401, a failing
   * store is 500; the new table is returned alongside.
   */
  function CreatePodcastHandler(authorization: Option<string>, devices: seq<UserDevice.Device>,
                                users: map<int, UserDevice.User>, stored: set<(int, string)>,
                                w: WebRequest): (r: (Status, set<(int, string)>))
    ensures r.0 == Unauthorized <==> UserDevice.UserAndDeviceFromRequest(authorization, devices, users).Err?
    ensures r.0 != Created ==> r.1 == stored
    ensures r.0 == Created ==>
      var user := UserDevice.UserAndDeviceFromRequest(authorization, devices, users).value.0;
      (user.id, w.guid) !in stored && r.1 == stored + {(user.id, w.guid)}
    ensures r.0 == InternalServerError ==>
      (UserDevice.UserAndDeviceFromRequest(authorization, devices, users).value.0.id, w.guid) in stored
  {
    match UserDevice.UserAndDeviceFromRequest(authorization, devices, users)
      case Err(_) => (Unauthorized, stored)
      case Ok((user, _)) =>
        var request := IntoRequest(w, user.id);
        if (request.userId, request.guid) in stored then (InternalServerError, stored)
        else (Created, stored + {(request.userId, request.guid)})
  }

  /** The podcast is stored under the user who owns the device holding the bearer token. */
  lemma StoredForTokenOwner(authorization: Option<string>, devices: seq<UserDevice.Device>,
                            users: map<int, UserDevice.User>, stored: set<(int, string)>, w: WebRequest)
    requires CreatePodcastHandler(authorization, devices, users, stored, w).0 == Created
    ensures exists d ::
      && d in devices
      && authorization == Some(UserDevice.BearerPrefix + d.accessToken)
      && d.userId in users
      && (users[d.userId].id, w.guid) in CreatePodcastHandler(authorization, devices, users, stored, w).1
  {
    var d := UserDevice.DeviceFromRequest(authorization, devices).value;
    assert d in devices;
  }

  /** A token no device holds is rejected with 401. */
  lemma UnknownTokenUnauthorized(token: string, devices: seq<UserDevice.Device>,
                                 users: map<int, UserDevice.User>, stored: set<(int, string)>, w: WebRequest)
    requires forall d :: d in devices ==> d.accessToken != token
    ensures CreatePodcastHandler(Some(UserDevice.BearerPrefix + token), devices, users, stored, w) == (Unauthorized, stored)
  {
    var h := UserDevice.BearerPrefix + token;
    assert UserDevice.TokenFromRequest(Some(h)).Ok? ==> UserDevice.TokenFromRequest(Some(h)).value == token by {
      if UserDevice.TokenFromRequest(Some(h)).Ok? {
        assert h[|UserDevice.BearerPrefix|..] == token;
      }
    }
  }

  /** Creating the same podcast twice: the second attempt is 500 and stores nothing. */
  lemma DuplicateCreateFails(authorization: Option<string>, devices: seq<UserDevice.Device>,
                             users: map<int, UserDevice.User>, stored: set<(int, string)>, w: WebRequest)
    requires CreatePodcastHandler(authorization, devices, users, stored, w).0 == Created
    ensures var after := CreatePodcastHandler(authorization, devices, users, stored, w).1;
      CreatePodcastHandler(authorization, devices, users, after, w) == (InternalServerError, after)
  {
  }
}
