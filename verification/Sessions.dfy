/** Immutable sessions formed from login data, and the in-memory store that holds at most one. */
module Sessions {
  import opened Wrappers
  import opened Base64
  import opened Signing
  import opened AccountPassword

  const KEY_BYTES := 32

  type Path = string

  /** What a token's payload states: an expiry, no expiry, or an unusable one; and a user name, if any. */
  datatype Expiry = Unstated | Stated(at: int) | Unreadable

  datatype Payload = Payload(exp: Expiry, userName: Option<string>)

  /** Parts of the interpreter and the platform that the session code consults. */
  datatype Platform = Platform(
    excess: ExcessPadding,
    payload: string -> Option<Payload>,
    usablePaths: ((Path, Path)) -> bool)

  /** The login answer: the account, the token and the two signing parameters, any of which may be missing. */
  datatype LoginMaterial = LoginMaterial(
    account: Account, token: Option<string>, signParam: Option<(Option<string>, Option<string>)>)

  /** The fields of a session that passed its checks. */
  datatype Session = Session(
    token: string, userId: string, deviceId: string, key: seq<bv8>, clientCert: (Path, Path),
    expiresAt: Option<int>, refreshToken: Option<string>, refreshExpiresAt: Option<int>)

  predicate Printable(text: string) {
    0 < |text| <= MAX_VALUE && forall c <- text :: 33 as char <= c <= 126 as char
  }

  /** A field is one to 16384 characters from `!` to `~`. */
  lemma PrintableMeans(text: string)
    ensures Printable(text) <==>
              1 <= |text| <= 16384 && forall i :: 0 <= i < |text| ==> '!' <= text[i] <= '~'
  {
    forall i | 0 <= i < |text| ensures text[i] in text {}
  }

  /** The device a token is bound to: the third of at least four parts of its user name, else the fallback. */
  function DeviceId(payload: Option<Payload>, fallback: string): Option<string> {
    match payload
    case None => None
    case Some(data) =>
      var parts := if data.userName.Some? then Split(data.userName.value, ',') else [];
      if |parts| >= 4 && parts[2] != "" then
        if Printable(parts[2]) then Some(parts[2]) else None
      else Some(fallback)
  }

  lemma ThirdPart(first: string, second: string, third: string, rest: string)
    requires ',' !in first && ',' !in second && ',' !in third
    ensures var parts := Split(first + "," + second + "," + third + "," + rest, ',');
            |parts| >= 4 && parts[2] == third
  {
    var two := third + [','] + rest;
    var one := second + [','] + two;
    SplitAfter(third, ',', rest);
    SplitAfter(second, ',', two);
    SplitAfter(first, ',', one);
    assert first + "," + second + "," + third + "," + rest == first + [','] + one;
  }

  /**
   * A user name of four parts or more binds the token to its third, unless that is empty; a third that is no
   * usable field is refused.
   */
  lemma BoundDevices(first: string, second: string, third: string, rest: string, exp: Expiry, fallback: string)
    requires ',' !in first && ',' !in second && ',' !in third
    ensures var name := first + "," + second + "," + third + "," + rest;
            DeviceId(Some(Payload(exp, Some(name))), fallback)
              == if third == "" then Some(fallback) else if Printable(third) then Some(third) else None
  {
    ThirdPart(first, second, third, rest);
  }

  /** Without a user name, or with one of fewer parts, the installation's own device stands. */
  lemma UnboundDevices(payload: Option<Payload>, fallback: string)
    ensures payload.None? ==> DeviceId(payload, fallback).None?
    ensures payload.Some? && (payload.value.userName.None? || |Split(payload.value.userName.value, ',')| < 4) ==>
              DeviceId(payload, fallback) == Some(fallback)
  {
  }

  /** The token's own expiry: `Some(None)` when it states none. */
  function ExpiryFromToken(payload: Option<Payload>): Option<Option<int>> {
    match payload
    case None => None
    case Some(data) =>
      match data.exp
      case Unstated => Some(None)
      case Stated(at) => Some(Some(at))
      case Unreadable => None
  }

  /** The checks every session passes when it is made. */
  predicate WellMade(s: Session, p: Platform) {
    && Printable(s.token) && Printable(s.userId) && Printable(s.deviceId)
    && |s.key| == KEY_BYTES
    && p.usablePaths(s.clientCert)
    && (s.refreshToken.Some? ==> Printable(s.refreshToken.value))
  }

  function FromLoginData(login: LoginMaterial, p: Platform, deviceId: string, clientCert: (Path, Path),
                         expiresAt: Option<int>, refreshToken: Option<string>, refreshExpiresAt: Option<int>)
    : (session: Option<Session>)
    ensures session.Some? ==> WellMade(session.value, p)
  {
    if login.signParam.None? || login.account.Unusable? || (login.account.Number? && login.account.n < 0) then None
    else
      var userId := if login.account.Number? then Decimal(login.account.n) else login.account.text;
      match DeriveKey(login.token, login.signParam.value.0, login.signParam.value.1, p.excess)
      case None => None
      case Some(key) =>
        var payload := p.payload(login.token.value);
        var expiry := if expiresAt.Some? then Some(expiresAt) else ExpiryFromToken(payload);
        var device := DeviceId(payload, deviceId);
        if expiry.None? || device.None? then None
        else
          var made := Session(login.token.value, userId, device.value, key, clientCert, expiry.value,
                              refreshToken, refreshExpiresAt);
          if WellMade(made, p) then Some(made) else None
  }

  predicate Unexpired(s: Session, now: int) {
    s.expiresAt.None? || now < s.expiresAt.value
  }

  predicate Renewable(s: Session, now: int) {
    && s.refreshToken.Some? && s.refreshToken.value != ""
    && (s.refreshExpiresAt.None? || now < s.refreshExpiresAt.value)
  }

  /** A session's checks read out: three printable fields, 32 bytes of key, usable paths, a printable refresh token. */
  lemma FormedSessionsAreAsGiven(login: LoginMaterial, p: Platform, deviceId: string, clientCert: (Path, Path),
                                 expiresAt: Option<int>, refreshToken: Option<string>, refreshExpiresAt: Option<int>)
    requires FromLoginData(login, p, deviceId, clientCert, expiresAt, refreshToken, refreshExpiresAt).Some?
    ensures var made := FromLoginData(login, p, deviceId, clientCert, expiresAt, refreshToken, refreshExpiresAt).value;
            && login.token == Some(made.token) && login.signParam.Some?
            && (login.account == Name(made.userId)
                || (login.account.Number? && login.account.n >= 0 && made.userId == Decimal(login.account.n)))
            && DeviceId(p.payload(made.token), deviceId) == Some(made.deviceId)
            && Some(made.key) == DeriveKey(login.token, login.signParam.value.0, login.signParam.value.1, p.excess)
            && made.clientCert == clientCert && p.usablePaths(clientCert)
            && made.refreshToken == refreshToken && made.refreshExpiresAt == refreshExpiresAt
            && Printable(made.token) && Printable(made.userId) && Printable(made.deviceId) && |made.key| == 32
            && (refreshToken.Some? ==> Printable(refreshToken.value))
            && p.payload(made.token).Some?
            && match (expiresAt, p.payload(made.token).value.exp)
               case (Some(t), _) => made.expiresAt == Some(t)
               case (None, Stated(t)) => made.expiresAt == Some(t)
               case (None, Unstated) => made.expiresAt == None
               case (None, Unreadable) => false
  {
  }

  /** A session is good for the seconds before its expiry, and one without an expiry for all of them. */
  lemma SessionsEndAtTheirExpiry(s: Session, e: int, now: int)
    ensures s.expiresAt == None ==> Unexpired(s, now)
    ensures s.expiresAt == Some(e) ==> Unexpired(s, e - 1) && !Unexpired(s, e)
    ensures s.expiresAt == Some(e) && Unexpired(s, now) ==> now <= e - 1
    ensures s.expiresAt == Some(e) && !Unexpired(s, now) ==> now >= e
  {
  }

  /** It is renewable with a refresh token, up to that token's own expiry if it has one. */
  lemma RefreshTokensRenew(s: Session, e: int, now: int)
    ensures Renewable(s, now) ==> s.refreshToken.Some? && s.refreshToken != Some("")
    ensures s.refreshToken.Some? && s.refreshToken != Some("") && s.refreshExpiresAt == None ==> Renewable(s, now)
    ensures s.refreshToken.Some? && s.refreshToken != Some("") && s.refreshExpiresAt == Some(e) ==>
              Renewable(s, e - 1) && !Renewable(s, e) && (Renewable(s, now) <==> now <= e - 1)
  {
  }

  /**
   * A session forms only from canonical key material whose shortest part has 32 bytes, and its key gives
   * back the head of the token's signature.
   */
  lemma SessionsHaveWholeKeys(login: LoginMaterial, p: Platform, deviceId: string, clientCert: (Path, Path),
                              expiresAt: Option<int>, refreshToken: Option<string>, refreshExpiresAt: Option<int>)
    returns (signature: seq<bv8>, second: seq<bv8>, third: seq<bv8>)
    requires FromLoginData(login, p, deviceId, clientCert, expiresAt, refreshToken, refreshExpiresAt).Some?
    ensures Least(|signature|, |second|, |third|) == KEY_BYTES
    ensures Stripped(Split(login.token.value, '.')[2]) == Unpadded(signature, UrlSafe)
    ensures login.signParam == Some((Some(Encode(second, Standard)), Some(Encode(third, Standard))))
    ensures var made := FromLoginData(login, p, deviceId, clientCert, expiresAt, refreshToken, refreshExpiresAt).value;
            Xored(made.key, second, third) == signature[..KEY_BYTES]
  {
    signature, second, third := KeyMaterialIsRecoverable(login.token, login.signParam.value.0,
                                                         login.signParam.value.1, p.excess);
  }

  /** Key material of any other length is refused, however well formed. */
  lemma ShortKeysAreRefused(login: LoginMaterial, p: Platform, deviceId: string, clientCert: (Path, Path),
                            expiresAt: Option<int>, refreshToken: Option<string>, refreshExpiresAt: Option<int>)
    requires login.signParam.Some?
    requires var key := DeriveKey(login.token, login.signParam.value.0, login.signParam.value.1, p.excess);
             key.Some? && |key.value| != KEY_BYTES
    ensures FromLoginData(login, p, deviceId, clientCert, expiresAt, refreshToken, refreshExpiresAt).None?
  {
  }

  predicate PrintableChars(text: string) {
    forall c <- text :: 33 as char <= c <= 126 as char
  }

  lemma SymbolsArePrintable(c: char)
    requires Sextet(c, UrlSafe).Some?
    ensures 33 as char <= c <= 126 as char
  {
  }

  lemma SegmentsArePrintable(part: string)
    requires Segment(part)
    ensures PrintableChars(part)
  {
    var body := Stripped(part);
    ValuesAreSymbols(body, UrlSafe);
    forall i | 0 <= i < |part| ensures 33 as char <= part[i] <= 126 as char {
      if i < |body| {
        assert part[i] == body[i];
        SymbolsArePrintable(part[i]);
      }
    }
  }

  lemma JoinedIsPrintable(a: string, b: string, c: string)
    requires PrintableChars(a) && PrintableChars(b) && PrintableChars(c)
    ensures PrintableChars(a + "." + b + "." + c)
  {
  }

  /**
   * Every compact token with canonical parameters whose shortest part has 32 bytes forms a session, as long as
   * the other fields pass their checks, and the session has just these fields.
   */
  lemma WholeKeysFormSessions(account: Account, header: string, payload: string, signature: seq<bv8>,
                              second: seq<bv8>, third: seq<bv8>, p: Platform, deviceId: string,
                              clientCert: (Path, Path), expiresAt: Option<int>, refreshToken: Option<string>,
                              refreshExpiresAt: Option<int>)
    requires Segment(header) && Segment(payload) && Least(|signature|, |second|, |third|) == KEY_BYTES
    requires Text(Some(header + "." + payload + "." + Unpadded(signature, UrlSafe)))
    requires Text(Some(Encode(second, Standard))) && Text(Some(Encode(third, Standard)))
    requires (account.Number? && account.n >= 0 && Printable(Decimal(account.n)))
             || (account.Name? && Printable(account.text))
    requires p.usablePaths(clientCert) && (refreshToken.Some? ==> Printable(refreshToken.value))
    requires var data := p.payload(header + "." + payload + "." + Unpadded(signature, UrlSafe));
             && DeviceId(data, deviceId).Some? && Printable(DeviceId(data, deviceId).value)
             && (expiresAt.Some? || ExpiryFromToken(data).Some?)
    ensures var token := header + "." + payload + "." + Unpadded(signature, UrlSafe);
            var parameters := (Some(Encode(second, Standard)), Some(Encode(third, Standard)));
            FromLoginData(LoginMaterial(account, Some(token), Some(parameters)), p, deviceId, clientCert, expiresAt,
                          refreshToken, refreshExpiresAt)
              == Some(Session(token, if account.Number? then Decimal(account.n) else account.text,
                              DeviceId(p.payload(token), deviceId).value, Xored(signature, second, third), clientCert,
                              if expiresAt.Some? then expiresAt else ExpiryFromToken(p.payload(token)).value,
                              refreshToken, refreshExpiresAt))
  {
    CompactTokensAreAccepted(header, payload, signature, second, third, p.excess);
    UnpaddedIsSegment(signature);
    SegmentsArePrintable(header);
    SegmentsArePrintable(payload);
    SegmentsArePrintable(Unpadded(signature, UrlSafe));
    JoinedIsPrintable(header, payload, Unpadded(signature, UrlSafe));
  }

  // ----- the store

  /** What a store holds after one of its sessions was rejected: only that very one is dropped. */
  function Kept<T(==)>(store: Option<T>, rejected: T): Option<T> {
    if store == Some(rejected) then None else store
  }

  datatype Availability = Available | AuthenticationRequired | SessionExpired

  class CloudSession {
    const fields: Session

    constructor (fields: Session)
      ensures this.fields == fields
    {
      this.fields := fields;
    }
  }

  class SessionStore {
    var session: CloudSession?

    function Content(): Option<CloudSession>
      reads this
    {
      if session == null then None else Some(session)
    }

    constructor ()
      ensures Content() == None
    {
      session := null;
    }

    method Replace(replacement: CloudSession)
      modifies this
      ensures Content() == Some(replacement)
    {
      session := replacement;
    }

    /** The session held, if there is one and it is unexpired at this reading. */
    method Get(now: int) returns (held: CloudSession?, availability: Availability)
      ensures availability.Available? <==> Content().Some? && Unexpired(Content().value.fields, now)
      ensures availability.SessionExpired? <==> Content().Some? && !Unexpired(Content().value.fields, now)
      ensures held == if availability.Available? then session else null
    {
      if session == null {
        return null, AuthenticationRequired;
      }
      if !Unexpired(session.fields, now) {
        return null, SessionExpired;
      }
      return session, Available;
    }

    /** Only the very object held is dropped: an equal one, or a replaced one, is not. */
    method Invalidate(expected: CloudSession) returns (dropped: bool)
      modifies this
      ensures dropped <==> old(Content()) == Some(expected)
      ensures Content() == Kept(old(Content()), expected)
    {
      if session != expected {
        return false;
      }
      session := null;
      return true;
    }
  }
}
