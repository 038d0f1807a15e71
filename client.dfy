/** `LaMarzoccoClient`: the installation key it signs with and the lifecycle of
    its access token. HTTP status codes and the parsed response fields are
    inputs; each response carries the clock reading taken when it was handled. */
module Client {
  import opened Ints
  import opened Wrappers
  import Auth
  import Base64
  import Prefs

  /** `TOKEN_TIME_TO_REFRESH`, seconds. */
  const TOKEN_TIME_TO_REFRESH: u32 := 600

  /** `AccessToken`; `expires_at` is an `unsigned long` of seconds. */
  datatype AccessToken = AccessToken(accessToken: string, refreshToken: string, expiresAt: u32)
  {
    /** `isValid`, against the uptime clock `millis() / 1000`. */
    predicate IsValid(uptime: u32) {
      |accessToken| > 0 && expiresAt > uptime
    }
  }

  /** The parsed reply to `/auth/signin`. `clock` is the time `expires_at` is
      computed from (`mktime` of the local time, or `millis() / 1000`). */
  datatype SignInReply = SignInReply(code: int, accessToken: string, refreshToken: string,
                                     expiresIn: u32, clock: u32)

  /** The parsed reply to `/auth/refreshtoken`; `refreshToken` is `None` when the
      document has no such key. */
  datatype RefreshReply = RefreshReply(code: int, accessToken: string, refreshToken: Option<string>,
                                       expiresIn: u32, clock: u32)

  /** `_sign_in`: on HTTP 200 both tokens and the expiry are replaced; on any
      other code the token is kept and the result is false. */
  function SignedIn(t: AccessToken, r: SignInReply): (res: (bool, AccessToken))
    ensures res.0 <==> r.code == 200
    ensures !res.0 ==> res.1 == t
    ensures res.0 ==> res.1.accessToken == r.accessToken && res.1.refreshToken == r.refreshToken
    ensures res.0 ==> res.1.expiresAt == U32(r.clock + r.expiresIn)
  {
    if r.code == 200 then (true, AccessToken(r.accessToken, r.refreshToken, U32(r.clock + r.expiresIn)))
    else (false, t)
  }

  /** `_refresh_token`: without a refresh token, or on any status but 200, it
      signs in instead. A successful refresh always replaces the access token
      and the expiry, and the refresh token only when the reply has one. */
  function Refreshed(t: AccessToken, r: RefreshReply, s: SignInReply): (res: (bool, AccessToken))
    ensures |t.refreshToken| == 0 || r.code != 200 ==> res == SignedIn(t, s)
    ensures |t.refreshToken| > 0 && r.code == 200 ==>
      res.0 && res.1.accessToken == r.accessToken && res.1.expiresAt == U32(r.clock + r.expiresIn)
      && res.1.refreshToken == r.refreshToken.GetOr(t.refreshToken)
  {
    if |t.refreshToken| == 0 then SignedIn(t, s)
    else if r.code == 200 then
      (true, AccessToken(r.accessToken, r.refreshToken.GetOr(t.refreshToken), U32(r.clock + r.expiresIn)))
    else SignedIn(t, s)
  }

  /** Whether `get_access_token` renews: the token is invalid or expires within
      `TOKEN_TIME_TO_REFRESH` of `now` (the sum wraps as an `unsigned long`). */
  predicate NeedsRenewal(t: AccessToken, now: u32, uptime: u32) {
    !t.IsValid(uptime) || t.expiresAt < U32(now + TOKEN_TIME_TO_REFRESH)
  }

  /** The renewal `get_access_token` performs on an initialised client. */
  function Renewed(t: AccessToken, now: u32, uptime: u32, r: RefreshReply, s: SignInReply): (res: (bool, AccessToken))
    ensures !NeedsRenewal(t, now, uptime) ==> res == (true, t)
    ensures NeedsRenewal(t, now, uptime) && |t.refreshToken| > 0 && t.expiresAt > now ==> res == Refreshed(t, r, s)
    ensures NeedsRenewal(t, now, uptime) && !(|t.refreshToken| > 0 && t.expiresAt > now) ==> res == SignedIn(t, s)
  {
    if NeedsRenewal(t, now, uptime) then
      if |t.refreshToken| > 0 && t.expiresAt > now then Refreshed(t, r, s) else SignedIn(t, s)
    else (true, t)
  }

  /** The request methods `api_call` knows. */
  predicate KnownMethod(m: string) {
    m == "GET" || m == "POST" || m == "PUT" || m == "DELETE"
  }

  /** What `register_client` posts: the installation id, the proof over the base
      string, and the base64 public key. */
  datatype Registration = Registration(installationId: string, proof: string, publicKey: string)

  class LaMarzoccoClient {
    const prefs: Prefs.Preferences
    var username: string
    var password: string
    var serialNumber: string
    var key: Auth.InstallationKey
    var token: AccessToken
    var initialized: bool

    /** A fresh client: not initialised, no token. */
    constructor (prefs: Prefs.Preferences, key0: Auth.InstallationKey)
      ensures this.prefs == prefs && !initialized
      ensures token == AccessToken("", "", 0)
      ensures username == "" && password == "" && serialNumber == "" && key == key0
    {
      this.prefs := prefs;
      username, password, serialNumber := "", "", "";
      key := key0;
      token := AccessToken("", "", 0);
      initialized := false;
    }

    /** `init`: the credentials are stored; the client becomes initialised, with
        the stored installation key, iff the key loads. A failed load leaves
        `initialized` and the key as they were. */
    method Init(username: string, password: string, serialNumber: string) returns (ok: bool)
      modifies this
      ensures this.username == username && this.password == password && this.serialNumber == serialNumber
      ensures ok <==> Auth.LoadInstallationKey(prefs).Some?
      ensures ok ==> initialized && key == Auth.LoadInstallationKey(prefs).value
      ensures !ok ==> initialized == old(initialized) && key == old(key)
      ensures token == old(token)
    {
      this.username := username;
      this.password := password;
      this.serialNumber := serialNumber;
      var loaded := Auth.LoadInstallationKey(prefs);
      if loaded.None? {
        return false;
      }
      key := loaded.value;
      initialized := true;
      ok := true;
    }

    /** `get_installation_key` */
    function GetInstallationKey(): (r: Option<Auth.InstallationKey>)
      reads this
      ensures r.Some? <==> initialized
      ensures r.Some? ==> r.value == key
    {
      if initialized then Some(key) else None
    }

    /** `_sign_in` */
    method SignIn(reply: SignInReply) returns (ok: bool)
      modifies this
      ensures (ok, token) == SignedIn(old(token), reply)
      ensures initialized == old(initialized) && key == old(key)
      ensures username == old(username) && password == old(password) && serialNumber == old(serialNumber)
    {
      if reply.code == 200 {
        token := AccessToken(reply.accessToken, reply.refreshToken, U32(reply.clock + reply.expiresIn));
        ok := true;
      } else {
        ok := false;
      }
    }

    /** `_refresh_token` */
    method RefreshToken(reply: RefreshReply, fallback: SignInReply) returns (ok: bool)
      modifies this
      ensures (ok, token) == Refreshed(old(token), reply, fallback)
      ensures initialized == old(initialized) && key == old(key)
      ensures username == old(username) && password == old(password) && serialNumber == old(serialNumber)
    {
      if |token.refreshToken| == 0 {
        ok := SignIn(fallback);
        return;
      }
      if reply.code == 200 {
        var refresh := token.refreshToken;
        if reply.refreshToken.Some? {
          refresh := reply.refreshToken.value;
        }
        token := AccessToken(reply.accessToken, refresh, U32(reply.clock + reply.expiresIn));
        ok := true;
      } else {
        ok := SignIn(fallback);
      }
    }

    /** `get_access_token` at wall-clock time `now` and uptime `uptime` seconds:
        false with nothing changed when not initialised, otherwise the renewal. */
    method GetAccessToken(now: u32, uptime: u32, refresh: RefreshReply, signIn: SignInReply)
      returns (ok: bool)
      modifies this
      ensures !old(initialized) ==> !ok && token == old(token)
      ensures old(initialized) ==> (ok, token) == Renewed(old(token), now, uptime, refresh, signIn)
      ensures initialized == old(initialized) && key == old(key)
      ensures username == old(username) && password == old(password) && serialNumber == old(serialNumber)
    {
      if !initialized {
        return false;
      }
      if !token.IsValid(uptime) || token.expiresAt < U32(now + TOKEN_TIME_TO_REFRESH) {
        if |token.refreshToken| > 0 && token.expiresAt > now {
          ok := RefreshToken(refresh, signIn);
        } else {
          ok := SignIn(signIn);
        }
        return;
      }
      ok := true;
    }

    /** `get_access_token_string` */
    function AccessTokenString(): string
      reads this
    {
      token.accessToken
    }

    /** `register_client`: nothing is sent unless initialised; the result is true
        iff the reply is HTTP 200 or 201. */
    method RegisterClient(code: int, sha: seq<byte> -> Auth.Digest) returns (ok: bool, sent: Option<Registration>)
      ensures sent.None? <==> !initialized
      ensures sent.Some? ==> sent.value == Registration(key.installationId,
        Auth.RequestProof(Auth.BaseString(key, sha), key.secret, sha), Base64Public(key))
      ensures ok <==> initialized && (code == 200 || code == 201)
    {
      if !initialized {
        return false, None;
      }
      var baseString := Auth.BaseString(key, sha);
      var proof := Auth.GenerateRequestProof(baseString, key.secret, sha);
      sent := Some(Registration(key.installationId, proof, Base64Public(key)));
      ok := code == 200 || code == 201;
    }

    /** `api_call`: false when no token can be had or the method is unknown,
        otherwise true iff the status is 2xx. */
    method ApiCall(apiMethod: string, now: u32, uptime: u32, refresh: RefreshReply, signIn: SignInReply, code: int)
      returns (ok: bool)
      modifies this
      ensures !old(initialized) ==> token == old(token)
      ensures old(initialized) ==> token == Renewed(old(token), now, uptime, refresh, signIn).1
      ensures ok <==> old(initialized) && Renewed(old(token), now, uptime, refresh, signIn).0
                      && KnownMethod(apiMethod) && 200 <= code < 300
      ensures initialized == old(initialized) && key == old(key)
      ensures username == old(username) && password == old(password) && serialNumber == old(serialNumber)
    {
      var haveToken := GetAccessToken(now, uptime, refresh, signIn);
      if !haveToken {
        return false;
      }
      if !KnownMethod(apiMethod) {
        return false;
      }
      ok := 200 <= code < 300;
    }
  }

  /** The `pk` field of the registration: the base64 of the DER public key. */
  function Base64Public(key: Auth.InstallationKey): string {
    Base64.EncodeSpec(key.publicKey)
  }
}
