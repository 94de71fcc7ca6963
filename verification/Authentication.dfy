/**
 * One login attempt and one renewal attempt, with their stages and effects, and chains of both. The
 * answers of the network, the clock and the certificate provider are inputs.
 */
module Authentication {
  import opened Wrappers
  import opened AccountPassword
  import opened Sessions

  const DEFAULT_SESSION_SECONDS := 1800
  const MAX_STATED_SECONDS := 2592000

  // ----- lifetimes

  /** A lifetime field of the answer: absent, an integer, or anything else. */
  datatype Lifetime = Absent | Seconds(n: int) | Malformed

  /** The seconds stated, `Some(None)` when none are, `None` when the field is refused. */
  function StatedSeconds(field: Lifetime): (stated: Option<Option<int>>)
    ensures stated == Some(None) <==> field.Absent?
    ensures stated.Some? && stated.value.Some? <==> field.Seconds? && 0 < field.n <= MAX_STATED_SECONDS
    ensures stated.Some? && stated.value.Some? ==> stated.value.value == field.n
  {
    match field
    case Absent => Some(None)
    case Seconds(n) => if 0 < n <= MAX_STATED_SECONDS then Some(Some(n)) else None
    case Malformed => None
  }

  // ----- the answer

  datatype Code = IntCode(n: int) | TextCode(text: string) | OtherCode

  predicate Zero(code: Code) {
    code == IntCode(0) || code == TextCode("0")
  }

  /** A text field: missing or null, a text, or anything else. */
  datatype TextField = Missing | Text(text: string) | NotText

  datatype Data = Data(accessToken: TextField, tokenExpireTime: Lifetime, refreshTokenExpireTime: Lifetime,
                       refreshToken: TextField, account: Account, signParam: Option<(Option<string>, Option<string>)>)

  datatype Body = Body(codes: seq<Code>, data: Option<Data>)

  /** The transport raises, or an answer arrives whose body may fail to be an object. */
  datatype Wire = NoAnswer | Answer(status: int, tooLarge: bool, body: Option<Body>)

  predicate Readable(wire: Wire) {
    wire.Answer? && wire.status == 200 && !wire.tooLarge && wire.body.Some?
  }

  predicate Successful(codes: seq<Code>) {
    codes != [] && forall i :: 0 <= i < |codes| ==> Zero(codes[i])
  }

  // ----- what a session is made of

  type Pair = (Path, Path)

  /** Forms a session from login data, device, certificate pair, expiry, refresh token and its expiry. */
  type Former = (LoginMaterial, string, Pair, int, Option<string>, Option<int>) -> Option<Session>

  /** Session forming and token expiry as the session module defines them, or any other such pair. */
  datatype Engine = Engine(form: Former, tokenExpiry: string -> Option<Option<int>>)

  function EngineOf(p: Platform): Engine {
    Engine((login: LoginMaterial, device: string, pair: Pair, expiry: int, token: Option<string>, until: Option<int>) =>
             FromLoginData(login, p, device, pair, Some(expiry), token, until),
           (token: string) => ExpiryFromToken(p.payload(token)))
  }

  /** Formed sessions carry the certificate pair, the expiry and the refresh material they were given. */
  ghost predicate Faithful(e: Engine) {
    forall login, device, pair, expiry, token, until ::
      var made := e.form(login, device, pair, expiry, token, until);
      made.Some? ==>
        && made.value.clientCert == pair && made.value.expiresAt == Some(expiry)
        && made.value.refreshToken == token && made.value.refreshExpiresAt == until
  }

  lemma EngineIsFaithful(p: Platform)
    ensures Faithful(EngineOf(p))
  {
  }

  /** What the metadata of a successful answer comes to, at the instant it is observed. */
  datatype Terms = Terms(material: LoginMaterial, token: string, expiry: int, refreshToken: Option<string>,
                         refreshUntil: Option<int>)

  function Earlier(a: int, b: int): int { if b < a then b else a }

  function LifeOf(stated: Option<int>): int {
    if stated.Some? then stated.value else DEFAULT_SESSION_SECONDS
  }

  /** The terms an answer offers, refused when any field is malformed or the token is already over. */
  function Offered(e: Engine, data: Data, observed: int): (terms: Option<Terms>)
    ensures terms.Some? ==> observed < terms.value.expiry
  {
    if !(data.accessToken.Text? && data.accessToken.text != "") || data.refreshToken.NotText?
       || (data.refreshToken.Text? && !(0 < |data.refreshToken.text| <= Signing.MAX_VALUE))
    then None
    else
      var token := data.accessToken.text;
      match (StatedSeconds(data.tokenExpireTime), StatedSeconds(data.refreshTokenExpireTime), e.tokenExpiry(token))
      case (Some(stated), Some(renewal), Some(own)) =>
        var bound := observed + LifeOf(stated);
        var expiry := if own.Some? then Earlier(bound, own.value) else bound;
        if expiry <= observed then None
        else
          Some(Terms(LoginMaterial(data.account, Some(token), data.signParam), token, expiry,
                     if data.refreshToken.Text? then Some(data.refreshToken.text) else None,
                     if renewal.Some? then Some(observed + renewal.value) else None))
      case _ => None
  }

  /** A lifetime field that is not refused. */
  predicate Plausible(field: Lifetime) {
    field.Absent? || (field.Seconds? && 0 < field.n <= 30 * 24 * 3600)
  }

  /** Seconds from the observation that a field grants, or the default if it is absent. */
  function Granting(field: Lifetime, default: int): int {
    if field.Seconds? then field.n else default
  }

  /**
   * Terms are offered exactly if the token is there, the refresh token is missing or of a usable length, both
   * lifetimes are plausible, and the token's own expiry is readable and, if stated, still ahead. They end at the
   * earlier of lifetime and own expiry.
   */
  lemma TermsAreTheEarlier(e: Engine, data: Data, observed: int)
    ensures var terms := Offered(e, data, observed);
            var life := observed + Granting(data.tokenExpireTime, 1800);
            && (terms.Some? <==>
                  && data.accessToken.Text? && data.accessToken.text != ""
                  && (data.refreshToken.Text? ==> 0 < |data.refreshToken.text| <= 16384)
                  && !data.refreshToken.NotText?
                  && Plausible(data.tokenExpireTime) && Plausible(data.refreshTokenExpireTime)
                  && var own := e.tokenExpiry(data.accessToken.text);
                     own.Some? && (own.value.Some? ==> observed < own.value.value))
            && (terms.Some? ==>
                  && terms.value.expiry <= life
                  && (var own := e.tokenExpiry(data.accessToken.text).value;
                      && (own.Some? ==> terms.value.expiry <= own.value)
                      && (terms.value.expiry == life || own == Some(terms.value.expiry)))
                  && terms.value.material == LoginMaterial(data.account, Some(data.accessToken.text), data.signParam)
                  && (data.refreshToken.Text? ==> terms.value.refreshToken == Some(data.refreshToken.text))
                  && (data.refreshToken.Missing? ==> terms.value.refreshToken == None)
                  && (terms.value.refreshUntil.Some? <==> data.refreshTokenExpireTime.Seconds?)
                  && (data.refreshTokenExpireTime.Seconds? ==>
                        terms.value.refreshUntil == Some(observed + data.refreshTokenExpireTime.n)))
  {
  }

  // ----- one attempt

  datatype Stage = ApplicationCertificate | Transport | Response | CloudRejection | SessionMetadata
                 | AccountCertificate | SessionValidation

  /** What an attempt does outside: a request with a client certificate, a call of the material provider. */
  datatype Effect = Sent(pair: Pair) | CalledProvider

  datatype Result = Granted(session: Session, at: int) | Invalid | Unavailable(stage: Stage)

  datatype Attempt = Attempt(result: Result, effects: seq<Effect>)

  /** Everything a login meets: readings, verdicts on certificates and nonce, the wire, the provider's pair. */
  datatype LoginWorld = LoginWorld(inputsValid: bool, now: Reading, appUsable: bool, nonceValid: bool, wire: Wire,
                                   observed: Reading, provided: Option<Pair>, pathsUsable: bool,
                                   finished: Reading, pairUsable: bool)

  datatype RefreshWorld = RefreshWorld(deviceValid: bool, now: Reading, nonceValid: bool, wire: Wire, observed: Reading)

  /** The terms of an answer that is readable, successful and well formed when observed. */
  function TermsOf(e: Engine, wire: Wire, observed: Reading): Option<Terms> {
    if Readable(wire) && Successful(wire.body.value.codes) && wire.body.value.data.Some? && observed.At? then
      Offered(e, wire.body.value.data.value, observed.t)
    else None
  }

  function FormedWith(e: Engine, terms: Terms, device: string, pair: Pair): Option<Session> {
    e.form(terms.material, device, pair, terms.expiry, terms.refreshToken, terms.refreshUntil)
  }

  /** Where an answer fails before its terms are accepted. */
  function EarlyStage(wire: Wire): Stage {
    if wire.NoAnswer? then Transport
    else if !Readable(wire) then Response
    else if !Successful(wire.body.value.codes) then CloudRejection
    else SessionMetadata
  }

  /** A login, declaratively: its preconditions, its terms, the provider's pair, and the session they form. */
  function LoginAttempt(e: Engine, app: Pair, device: string, w: LoginWorld): Attempt {
    if !w.inputsValid || w.now.Naive? then Attempt(Invalid, [])
    else if !w.appUsable then Attempt(Unavailable(ApplicationCertificate), [])
    else if !w.nonceValid then Attempt(Invalid, [])
    else
      var terms := TermsOf(e, w.wire, w.observed);
      if terms.None? || FormedWith(e, terms.value, device, app).None? then
        Attempt(Unavailable(EarlyStage(w.wire)), [Sent(app)])
      else if w.provided.None? || !w.pathsUsable || w.finished.Naive? || !w.pairUsable then
        Attempt(Unavailable(AccountCertificate), [Sent(app), CalledProvider])
      else
        var session := FormedWith(e, terms.value, device, w.provided.value);
        if session.None? || !Unexpired(session.value, w.finished.t) then
          Attempt(Unavailable(SessionValidation), [Sent(app), CalledProvider])
        else Attempt(Granted(session.value, w.observed.t), [Sent(app), CalledProvider])
  }

  function RefreshAttempt(e: Engine, held: Session, device: string, w: RefreshWorld): Attempt {
    if !w.deviceValid || w.now.Naive? || !Renewable(held, w.now.t) || !w.nonceValid then Attempt(Invalid, [])
    else
      var sent := [Sent(held.clientCert)];
      var terms := TermsOf(e, w.wire, w.observed);
      if terms.None? then Attempt(Unavailable(EarlyStage(w.wire)), sent)
      else
        var session := FormedWith(e, terms.value, device, held.clientCert);
        if session.None? || !Unexpired(session.value, w.observed.t) then Attempt(Unavailable(SessionValidation), sent)
        else Attempt(Granted(session.value, w.observed.t), sent)
  }

  /** The login as the source runs it, advancing its stage around each effect. */
  method Login(e: Engine, app: Pair, device: string, w: LoginWorld) returns (result: Result, effects: seq<Effect>)
    ensures Attempt(result, effects) == LoginAttempt(e, app, device, w)
  {
    effects := [];
    if !w.inputsValid || w.now.Naive? {
      return Invalid, effects;
    }
    if !w.appUsable {
      return Unavailable(ApplicationCertificate), effects;
    }
    if !w.nonceValid {
      return Invalid, effects;
    }
    var stage := Transport;
    effects := effects + [Sent(app)];
    if w.wire.NoAnswer? {
      return Unavailable(stage), effects;
    }
    stage := Response;
    if w.wire.status != 200 || w.wire.tooLarge || w.wire.body.None? {
      return Unavailable(stage), effects;
    }
    stage := CloudRejection;
    if !Successful(w.wire.body.value.codes) {
      return Unavailable(stage), effects;
    }
    stage := SessionMetadata;
    if w.wire.body.value.data.None? || w.observed.Naive? {
      return Unavailable(stage), effects;
    }
    var terms := Offered(e, w.wire.body.value.data.value, w.observed.t);
    if terms.None? {
      return Unavailable(stage), effects;
    }
    var rehearsal := FormedWith(e, terms.value, device, app);
    if rehearsal.None? {
      return Unavailable(stage), effects;
    }
    stage := AccountCertificate;
    effects := effects + [CalledProvider];
    if w.provided.None? || !w.pathsUsable || w.finished.Naive? || !w.pairUsable {
      return Unavailable(stage), effects;
    }
    stage := SessionValidation;
    var session := FormedWith(e, terms.value, device, w.provided.value);
    if session.None? || !Unexpired(session.value, w.finished.t) {
      return Unavailable(stage), effects;
    }
    result := Granted(session.value, w.observed.t);
  }

  /** The renewal as the source runs it. */
  method Refresh(e: Engine, held: Session, device: string, w: RefreshWorld)
    returns (result: Result, effects: seq<Effect>)
    ensures Attempt(result, effects) == RefreshAttempt(e, held, device, w)
  {
    effects := [];
    if !w.deviceValid || w.now.Naive? || !Renewable(held, w.now.t) || !w.nonceValid {
      return Invalid, effects;
    }
    var stage := Transport;
    effects := effects + [Sent(held.clientCert)];
    if w.wire.NoAnswer? {
      return Unavailable(stage), effects;
    }
    stage := Response;
    if w.wire.status != 200 || w.wire.tooLarge || w.wire.body.None? {
      return Unavailable(stage), effects;
    }
    stage := CloudRejection;
    if !Successful(w.wire.body.value.codes) {
      return Unavailable(stage), effects;
    }
    stage := SessionMetadata;
    if w.wire.body.value.data.None? || w.observed.Naive? {
      return Unavailable(stage), effects;
    }
    var terms := Offered(e, w.wire.body.value.data.value, w.observed.t);
    if terms.None? {
      return Unavailable(stage), effects;
    }
    stage := SessionValidation;
    var session := FormedWith(e, terms.value, device, held.clientCert);
    if session.None? || !Unexpired(session.value, w.observed.t) {
      return Unavailable(stage), effects;
    }
    result := Granted(session.value, w.observed.t);
  }

  // ----- when attempts succeed, and where they fail

  /** A code that means success: the number zero, or its text. */
  predicate IsZero(code: Code) {
    match code
    case IntCode(n) => n == 0
    case TextCode(text) => text == "0"
    case OtherCode => false
  }

  /** The network gave an answer: status 200, a body within bounds that is an object. */
  predicate IsReadable(wire: Wire) {
    match wire
    case NoAnswer => false
    case Answer(status, tooLarge, body) => status == 200 && !tooLarge && body.Some?
  }

  /** It has a result code, and every one of them is zero. */
  predicate IsSuccess(wire: Wire)
    requires IsReadable(wire)
  {
    |wire.body.value.codes| >= 1 && forall i :: 0 <= i < |wire.body.value.codes| ==> IsZero(wire.body.value.codes[i])
  }

  /** It comes with data that offer terms, at an instant observed with a time zone. */
  predicate OffersTerms(e: Engine, wire: Wire, observed: Reading)
    requires IsReadable(wire)
  {
    wire.body.value.data.Some? && observed.At? && Offered(e, wire.body.value.data.value, observed.t).Some?
  }

  /** The terms are those offered in a readable, successful answer, if there is one. */
  lemma WhenTermsAre(e: Engine, wire: Wire, observed: Reading)
    ensures TermsOf(e, wire, observed).Some? <==>
              IsReadable(wire) && IsSuccess(wire) && OffersTerms(e, wire, observed)
    ensures TermsOf(e, wire, observed).Some? ==>
              TermsOf(e, wire, observed) == Offered(e, wire.body.value.data.value, observed.t)
  {
  }

  /** A session formed from terms, for a device and with a certificate pair. */
  function Formed(e: Engine, terms: Terms, device: string, pair: Pair): Option<Session> {
    e.form(terms.material, device, pair, terms.expiry, terms.refreshToken, terms.refreshUntil)
  }

  /** Whether a login gets as far as the network. */
  predicate MayAsk(w: LoginWorld) {
    w.inputsValid && w.now.At? && w.appUsable && w.nonceValid
  }

  /** The provider gives a pair with usable paths, usable at a reading with a time zone. */
  predicate Provides(w: LoginWorld) {
    w.provided.Some? && w.pathsUsable && w.finished.At? && w.pairUsable
  }

  /**
   * A login grants a session exactly if it may ask, the answer offers terms that form a session with the
   * application's own pair, the provider provides, and the terms form a session with the provided pair that is
   * still good at the last reading; and it is that session.
   */
  lemma WhenLoginsGrant(e: Engine, app: Pair, device: string, w: LoginWorld)
    requires Faithful(e)
    ensures var attempt := LoginAttempt(e, app, device, w);
            && (attempt.result.Granted? <==>
                  && MayAsk(w) && TermsOf(e, w.wire, w.observed).Some?
                  && Formed(e, TermsOf(e, w.wire, w.observed).value, device, app).Some?
                  && Provides(w)
                  && Formed(e, TermsOf(e, w.wire, w.observed).value, device, w.provided.value).Some?
                  && w.finished.t < TermsOf(e, w.wire, w.observed).value.expiry)
            && (attempt.result.Granted? ==>
                  && Formed(e, TermsOf(e, w.wire, w.observed).value, device, w.provided.value)
                     == Some(attempt.result.session)
                  && w.observed == At(attempt.result.at))
  {
  }

  /** A renewal grants one exactly if the session held is renewable and the answer's terms form one with its pair. */
  lemma WhenRenewalsGrant(e: Engine, held: Session, device: string, w: RefreshWorld)
    requires Faithful(e)
    ensures var attempt := RefreshAttempt(e, held, device, w);
            && (attempt.result.Granted? <==>
                  && w.deviceValid && w.now.At? && Renewable(held, w.now.t) && w.nonceValid
                  && TermsOf(e, w.wire, w.observed).Some?
                  && Formed(e, TermsOf(e, w.wire, w.observed).value, device, held.clientCert).Some?)
            && (attempt.result.Granted? ==>
                  && Formed(e, TermsOf(e, w.wire, w.observed).value, device, held.clientCert)
                     == Some(attempt.result.session)
                  && w.observed == At(attempt.result.at))
  {
    WhenTermsAre(e, w.wire, w.observed);
  }

  /** Which stage a login reports, for every way to fail. */
  lemma WhereLoginsFail(e: Engine, app: Pair, device: string, w: LoginWorld)
    ensures var result := LoginAttempt(e, app, device, w).result;
            var asked := MayAsk(w);
            && (result.Invalid? <==> !w.inputsValid || w.now.Naive? || (w.appUsable && !w.nonceValid))
            && (result == Unavailable(ApplicationCertificate) <==> w.inputsValid && w.now.At? && !w.appUsable)
            && (result == Unavailable(Transport) <==> asked && w.wire.NoAnswer?)
            && (result == Unavailable(Response) <==> asked && w.wire.Answer? && !IsReadable(w.wire))
            && (result == Unavailable(CloudRejection) <==> asked && IsReadable(w.wire) && !IsSuccess(w.wire))
            && (result == Unavailable(SessionMetadata) <==>
                  && asked && IsReadable(w.wire) && IsSuccess(w.wire)
                  && !(OffersTerms(e, w.wire, w.observed)
                       && Formed(e, TermsOf(e, w.wire, w.observed).value, device, app).Some?))
            && (result == Unavailable(AccountCertificate) <==>
                  && asked && TermsOf(e, w.wire, w.observed).Some?
                  && Formed(e, TermsOf(e, w.wire, w.observed).value, device, app).Some? && !Provides(w))
  {
    WhenTermsAre(e, w.wire, w.observed);
  }

  /** Which stage a renewal reports. */
  lemma WhereRenewalsFail(e: Engine, held: Session, device: string, w: RefreshWorld)
    ensures var result := RefreshAttempt(e, held, device, w).result;
            var asked := w.deviceValid && w.now.At? && Renewable(held, w.now.t) && w.nonceValid;
            && (result.Invalid? <==> !asked)
            && (result == Unavailable(Transport) <==> asked && w.wire.NoAnswer?)
            && (result == Unavailable(Response) <==> asked && w.wire.Answer? && !IsReadable(w.wire))
            && (result == Unavailable(CloudRejection) <==> asked && IsReadable(w.wire) && !IsSuccess(w.wire))
            && (result == Unavailable(SessionMetadata) <==>
                  asked && IsReadable(w.wire) && IsSuccess(w.wire) && !OffersTerms(e, w.wire, w.observed))
            && result != Unavailable(AccountCertificate) && result != Unavailable(ApplicationCertificate)
  {
    WhenTermsAre(e, w.wire, w.observed);
  }

  // ----- chains

  datatype Event = LoggingIn(device: string, login: LoginWorld) | Renewing(device: string, refresh: RefreshWorld)

  /** What event `i` attempts; a renewal needs a session in hand. */
  function AttemptWith(e: Engine, app: Pair, held: Option<Session>, event: Event): Option<Attempt> {
    match event
    case LoggingIn(device, w) => Some(LoginAttempt(e, app, device, w))
    case Renewing(device, w) =>
      match held case Some(session) => Some(RefreshAttempt(e, session, device, w)) case None => None
  }

  /** The session in hand after the first `n` events: an attempt that grants none leaves it as it was. */
  function Held(e: Engine, app: Pair, run: seq<Event>, n: nat): Option<Session>
    requires n <= |run|
  {
    if n == 0 then None
    else
      var before := Held(e, app, run, n - 1);
      match AttemptWith(e, app, before, run[n - 1])
      case Some(Attempt(Granted(session, _), _)) => Some(session)
      case _ => before
  }

  function AttemptAt(e: Engine, app: Pair, run: seq<Event>, i: nat): Option<Attempt>
    requires i < |run|
  {
    AttemptWith(e, app, Held(e, app, run, i), run[i])
  }

  predicate GrantsAt(e: Engine, app: Pair, run: seq<Event>, i: nat)
    requires i < |run|
  {
    AttemptAt(e, app, run, i).Some? && AttemptAt(e, app, run, i).value.result.Granted?
  }

  /** The answer event `i` receives and the instant it observes. */
  function WireAt(run: seq<Event>, i: nat): Wire
    requires i < |run|
  {
    if run[i].LoggingIn? then run[i].login.wire else run[i].refresh.wire
  }

  /** The pair of the latest login that granted a session. */
  function LoginPair(e: Engine, app: Pair, run: seq<Event>, n: nat): Option<Pair>
    requires n <= |run|
  {
    if n == 0 then None
    else if run[n - 1].LoggingIn? && GrantsAt(e, app, run, n - 1) then run[n - 1].login.provided
    else LoginPair(e, app, run, n - 1)
  }

  /** Through any number of renewals the session in hand keeps the pair of the login that began the chain. */
  lemma {:induction false} RenewalsKeepTheLoginsPair(e: Engine, app: Pair, run: seq<Event>, n: nat)
    requires Faithful(e) && n <= |run|
    ensures var held := Held(e, app, run, n);
            held.Some? ==> LoginPair(e, app, run, n) == Some(held.value.clientCert)
  {
    if n > 0 {
      RenewalsKeepTheLoginsPair(e, app, run, n - 1);
    }
  }

  lemma HeldStep(e: Engine, app: Pair, run: seq<Event>, n: nat)
    requires n < |run|
    ensures Held(e, app, run, n + 1)
         == if GrantsAt(e, app, run, n) then Some(AttemptAt(e, app, run, n).value.result.session)
            else Held(e, app, run, n)
  {
  }

  /** The latest of the first `n` events that granted a session. */
  function LastGrant(e: Engine, app: Pair, run: seq<Event>, n: nat): (i: Option<nat>)
    requires n <= |run|
    ensures i.Some? ==> i.value < n && GrantsAt(e, app, run, i.value)
  {
    if n == 0 then None
    else if GrantsAt(e, app, run, n - 1) then Some(n - 1)
    else LastGrant(e, app, run, n - 1)
  }

  /** The session in hand is the one granted last: failed attempts neither replace nor drop it. */
  lemma {:induction false} HeldWasGrantedLast(e: Engine, app: Pair, run: seq<Event>, n: nat)
    requires n <= |run|
    ensures Held(e, app, run, n)
         == match LastGrant(e, app, run, n)
            case Some(i) => Some(AttemptAt(e, app, run, i).value.result.session)
            case None => None
  {
    if n > 0 {
      HeldStep(e, app, run, n - 1);
      HeldWasGrantedLast(e, app, run, n - 1);
    }
  }

  /**
   * Every session granted in a chain ends after the moment it was observed, and exactly at the earlier of
   * the stated lifetime (30 minutes if none is stated) and the token's own expiry.
   */
  lemma GrantsEndInTime(e: Engine, app: Pair, run: seq<Event>, i: nat)
    requires Faithful(e) && i < |run| && GrantsAt(e, app, run, i)
    ensures Readable(WireAt(run, i)) && WireAt(run, i).body.value.data.Some?
    ensures var granted := AttemptAt(e, app, run, i).value.result;
            var data := WireAt(run, i).body.value.data.value;
            && data.accessToken.Text? && e.tokenExpiry(data.accessToken.text).Some?
            && StatedSeconds(data.tokenExpireTime).Some?
            && var own := e.tokenExpiry(data.accessToken.text).value;
               var life := LifeOf(StatedSeconds(data.tokenExpireTime).value);
               && granted.session.expiresAt.Some?
               && granted.at < granted.session.expiresAt.value <= granted.at + life <= granted.at + MAX_STATED_SECONDS
               && (own.Some? ==> granted.session.expiresAt.value <= own.value)
               && (granted.session.expiresAt.value == granted.at + life || own == granted.session.expiresAt)
  {
  }

  /** The session a login grants was still unexpired when the login ended. */
  lemma LoginsEndUnexpired(e: Engine, app: Pair, device: string, w: LoginWorld)
    requires Faithful(e) && LoginAttempt(e, app, device, w).result.Granted?
    ensures w.finished.At? && Unexpired(LoginAttempt(e, app, device, w).result.session, w.finished.t)
    ensures w.provided == Some(LoginAttempt(e, app, device, w).result.session.clientCert)
  {
  }

  // ----- effects

  /** An attempt costs at most one request, sent before anything else and with the right certificate. */
  lemma OneRequestPerCall(e: Engine, app: Pair, run: seq<Event>, i: nat)
    requires i < |run| && AttemptAt(e, app, run, i).Some?
    ensures var attempt := AttemptAt(e, app, run, i).value;
            var pair := if run[i].LoggingIn? then app else Held(e, app, run, i).value.clientCert;
            && (attempt.effects == [] || attempt.effects == [Sent(pair)] || attempt.effects == [Sent(pair), CalledProvider])
            && (attempt.effects == [] <==> attempt.result in {Invalid, Unavailable(ApplicationCertificate)})
  {
  }

  /** The material provider is called only by a login, and only once its answer is known to form a session. */
  lemma ProviderRunsAfterValidation(e: Engine, app: Pair, run: seq<Event>, i: nat)
    requires i < |run| && AttemptAt(e, app, run, i).Some?
    ensures CalledProvider in AttemptAt(e, app, run, i).value.effects <==>
              && run[i].LoggingIn?
              && var w := run[i].login;
                 && w.inputsValid && w.now.At? && w.appUsable && w.nonceValid
                 && TermsOf(e, w.wire, w.observed).Some?
                 && FormedWith(e, TermsOf(e, w.wire, w.observed).value, run[i].device, app).Some?
  {
  }

  /** What event `i` does outside; events past the end of the run do nothing. */
  function EffectsOf(e: Engine, app: Pair, run: seq<Event>): nat -> seq<Effect> {
    (i: nat) => if i < |run| && AttemptAt(e, app, run, i).Some? then AttemptAt(e, app, run, i).value.effects else []
  }

  function IsLogin(run: seq<Event>): nat -> bool {
    (i: nat) => i < |run| && run[i].LoggingIn?
  }

  function Joined(effects: nat -> seq<Effect>, n: nat): seq<Effect> {
    if n == 0 then [] else Joined(effects, n - 1) + effects(n - 1)
  }

  function Counted(flags: nat -> bool, n: nat): nat {
    if n == 0 then 0 else Counted(flags, n - 1) + if flags(n - 1) then 1 else 0
  }

  /** All effects of the first `n` events, in order. */
  function Effects(e: Engine, app: Pair, run: seq<Event>, n: nat): seq<Effect> {
    Joined(EffectsOf(e, app, run), n)
  }

  function Logins(run: seq<Event>, n: nat): nat {
    Counted(IsLogin(run), n)
  }

  function Requests(effects: seq<Effect>): nat {
    if effects == [] then 0
    else Requests(effects[..|effects| - 1]) + if effects[|effects| - 1].Sent? then 1 else 0
  }

  function Provisions(effects: seq<Effect>): nat {
    if effects == [] then 0
    else Provisions(effects[..|effects| - 1]) + if effects[|effects| - 1].CalledProvider? then 1 else 0
  }

  lemma {:induction false} EffectsAdd(a: seq<Effect>, b: seq<Effect>)
    ensures Requests(a + b) == Requests(a) + Requests(b)
    ensures Provisions(a + b) == Provisions(a) + Provisions(b)
  {
    if b == [] {
      assert a + b == a;
    } else {
      assert (a + b)[..|a + b| - 1] == a + b[..|b| - 1];
      EffectsAdd(a, b[..|b| - 1]);
    }
  }

  /** At most one request, and a provider call only after it and in a login. */
  predicate Cheap(effects: seq<Effect>, login: bool) {
    Provisions(effects) <= Requests(effects) <= 1 && (Provisions(effects) > 0 ==> login)
  }

  lemma SmallEffects(effects: seq<Effect>, login: bool)
    requires |effects| <= 2
    requires |effects| > 0 ==> effects[0].Sent?
    requires |effects| > 1 ==> effects[1].CalledProvider? && login
    ensures Cheap(effects, login)
  {
    if |effects| == 2 {
      assert effects[..1] == [effects[0]];
    }
  }

  lemma EventsAreCheap(e: Engine, app: Pair, run: seq<Event>, i: nat)
    ensures Cheap(EffectsOf(e, app, run)(i), IsLogin(run)(i))
  {
    var effects := EffectsOf(e, app, run)(i);
    if i < |run| && AttemptAt(e, app, run, i).Some? {
      OneRequestPerCall(e, app, run, i);
      ProviderRunsAfterValidation(e, app, run, i);
    }
    assert |effects| > 1 ==> effects[1] in effects;
    SmallEffects(effects, IsLogin(run)(i));
  }

  lemma {:induction false} CheapEventsAddUp(effects: nat -> seq<Effect>, logins: nat -> bool, n: nat)
    requires forall i: nat :: Cheap(effects(i), logins(i))
    ensures Requests(Joined(effects, n)) <= n
    ensures Provisions(Joined(effects, n)) <= Counted(logins, n)
    ensures Provisions(Joined(effects, n)) <= Requests(Joined(effects, n))
  {
    if n > 0 {
      CheapEventsAddUp(effects, logins, n - 1);
      EffectsAdd(Joined(effects, n - 1), effects(n - 1));
      assert Cheap(effects(n - 1), logins(n - 1));
    }
  }

  /** Over any chain, requests never outnumber calls, and provider calls never outnumber logins. */
  lemma ChainsAreCheap(e: Engine, app: Pair, run: seq<Event>, n: nat)
    requires n <= |run|
    ensures Requests(Effects(e, app, run, n)) <= n
    ensures Provisions(Effects(e, app, run, n)) <= Logins(run, n)
    ensures Provisions(Effects(e, app, run, n)) <= Requests(Effects(e, app, run, n))
  {
    var effects, logins := EffectsOf(e, app, run), IsLogin(run);
    forall i: nat ensures Cheap(effects(i), logins(i)) {
      EventsAreCheap(e, app, run, i);
    }
    CheapEventsAddUp(effects, logins, n);
  }
}
