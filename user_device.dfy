/**
 * The server's bearer-token authentication (section 2.1 of RFC 6750: an
 * `Authorization: Bearer <token>` header) and the shape of the access
 * tokens it hands out. The user and device tables are a map and a list.
 */
module UserDevice {
  import opened Wrappers
  import opened Entities
  import Extensions

  datatype User = User(id: int, accessKey: string)

  datatype Device = Device(id: int, userId: int, name: string, accessToken: string, lastSessionAt: Timestamp)

  /**
   * Why authentication failed: no Authorization header, a header that is not
   * visible ASCII (`to_str` fails), or the `unauthorized` error.
   */
  datatype AuthError = MissingHeader | InvalidHeader | Unauthorized

  const BearerPrefix: string := "Bearer "

  /** `token_from_request`, given the Authorization header if present. */
  function TokenFromRequest(authorization: Option<string>): (r: Result<string, AuthError>)
    ensures authorization.None? ==> r == Err(MissingHeader)
    ensures r.Ok? <==> (&& authorization.Some?
                        && Extensions.IsVisibleAscii(authorization.value)
                        && BearerPrefix <= authorization.value)
    ensures r.Ok? ==> authorization.value == BearerPrefix + r.value
  {
    match authorization
      case None => Err(MissingHeader)
      case Some(h) =>
        if !Extensions.IsVisibleAscii(h) then Err(InvalidHeader)
        else if BearerPrefix <= h then Ok(h[|BearerPrefix|..])
        else Err(Unauthorized)
  }

  /** A header built from a visible-ASCII token gives that token back. */
  lemma BearerRoundTrip(token: string)
    requires Extensions.IsVisibleAscii(token)
    ensures TokenFromRequest(Some(BearerPrefix + token)) == Ok(token)
  {
    Extensions.VisibleAsciiConcat(BearerPrefix, token);
    assert (BearerPrefix + token)[|BearerPrefix|..] == token;
  }

  /** The first device holding the token (`.filter(access_token.eq(token)).first()`). */
  function FindDevice(devices: seq<Device>, token: string): (r: Option<Device>)
    ensures r.Some? ==> r.value in devices && r.value.accessToken == token
    ensures r.None? <==> (forall d :: d in devices ==> d.accessToken != token)
  {
    if devices == [] then None
    else if devices[0].accessToken == token then Some(devices[0])
    else FindDevice(devices[1..], token)
  }

  /** `device_from_http_request`: every failure, of the header or of the lookup, is `Unauthorized`. */
  function DeviceFromRequest(authorization: Option<string>, devices: seq<Device>): (r: Result<Device, AuthError>)
    ensures r.Err? ==> r.error == Unauthorized
    ensures r.Ok? <==> (TokenFromRequest(authorization).Ok? &&
                        FindDevice(devices, TokenFromRequest(authorization).value).Some?)
    ensures r.Ok? ==> r.value in devices && authorization == Some(BearerPrefix + r.value.accessToken)
  {
    match TokenFromRequest(authorization)
      case Err(_) => Err(Unauthorized)
      case Ok(token) =>
        match FindDevice(devices, token)
          case None => Err(Unauthorized)
          case Some(device) => Ok(device)
  }

  /** `user_and_device_from_http_request`: a device whose user is gone is `Unauthorized` as well. */
  function UserAndDeviceFromRequest(authorization: Option<string>, devices: seq<Device>, users: map<int, User>)
    : (r: Result<(User, Device), AuthError>)
    ensures r.Err? ==> r.error == Unauthorized
    ensures r.Ok? <==> (DeviceFromRequest(authorization, devices).Ok? &&
                        DeviceFromRequest(authorization, devices).value.userId in users)
    ensures r.Ok? ==> r.value.1 == DeviceFromRequest(authorization, devices).value && r.value.0 == users[r.value.1.userId]
  {
    match DeviceFromRequest(authorization, devices)
      case Err(e) => Err(e)
      case Ok(device) =>
        if device.userId in users then Ok((users[device.userId], device)) else Err(Unauthorized)
  }

  /** What `rand::distributions::Alphanumeric` yields. */
  predicate IsAlphanumeric(c: char)
  {
    'a' <= c <= 'z' || 'A' <= c <= 'Z' || '0' <= c <= '9'
  }

  /** The characters of an access token. */
  predicate IsTokenChar(c: char)
  {
    'A' <= c <= 'Z' || '0' <= c <= '9'
  }

  /** `char::to_uppercase` on ASCII. */
  function ToUpperAscii(c: char): (r: char)
    ensures IsAlphanumeric(c) ==> IsTokenChar(r)
    ensures !('a' <= c <= 'z') ==> r == c
  {
    if 'a' <= c <= 'z' then (c as int - 'a' as int + 'A' as int) as char else c
  }

  const TokenLength: nat := 64

  /**
   * `generate_access_token`, given the random stream of alphanumeric
   * characters the generator draws from.
   */
  function GenerateAccessToken(draws: seq<char>): (r: string)
    requires |draws| >= TokenLength
    requires forall i :: 0 <= i < |draws| ==> IsAlphanumeric(draws[i])
    ensures |r| == TokenLength
    ensures forall i :: 0 <= i < |r| ==> IsTokenChar(r[i]) && r[i] == ToUpperAscii(draws[i])
  {
    seq(TokenLength, i requires 0 <= i < TokenLength => ToUpperAscii(draws[i]))
  }

  /** A generated token, sent back as a bearer header, is recognised. */
  lemma GeneratedTokenAccepted(draws: seq<char>)
    requires |draws| >= TokenLength
    requires forall i :: 0 <= i < |draws| ==> IsAlphanumeric(draws[i])
    ensures TokenFromRequest(Some(BearerPrefix + GenerateAccessToken(draws))) == Ok(GenerateAccessToken(draws))
  {
    var token := GenerateAccessToken(draws);
    assert Extensions.IsVisibleAscii(token) by {
      forall i | 0 <= i < |token| ensures ' ' <= token[i] <= '~' {
        assert IsTokenChar(token[i]);
      }
    }
    BearerRoundTrip(token);
  }
}
