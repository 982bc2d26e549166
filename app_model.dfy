/**
 * The login and enrolment flow of the Flask application: the shared user
 * table `users_db` and one client's `session`, and what each POST handler
 * (plus `index` and `logout`) does to them. Each handler is a function
 * from the state before the request to the state after it and the
 * response; the class in WebApp runs them in place.
 */
module AppModel {

  import opened Wrappers
  import opened FaceRecognition

  type Username = string
  type Password = string
  /** A base32 TOTP secret. */
  type Secret = string
  /** A submitted one-time code, as typed. */
  type Code = string

  /** One entry of `users_db`. Passwords are stored and compared in plain text. */
  datatype UserRecord = UserRecord(
    password: Password,
    mfaSecret: Secret,
    faceEncoding: Option<Encoding>,
    mfaActive: bool)

  type UsersDb = map<Username, UserRecord>

  /** The five keys the handlers store in the Flask session. */
  datatype SessionKey = TempRegUser | TempUser | FaceOk | User | MfaVerified

  datatype SessionValue = Name(name: Username) | Flag(flag: bool)

  type Session = map<SessionKey, SessionValue>

  datatype State = State(users: UsersDb, session: Session)

  /** The libraries the handlers consult, as oracles. */
  datatype Capabilities = Capabilities(
    /** `pyotp.TOTP(secret).verify(code)` at time `now` (no drift window is passed). */
    totpVerify: (Secret, Code, int) -> bool,
    face: FaceRecognizer)

  /** What a handler answers, one tag per distinct reply of the source. */
  datatype Response =
    | UserExists                       // register: the name is taken
    | RedirectSetupMfa
    | RedirectRegister
    | RedirectLogin
    | WrongSetupCode                   // setup_mfa: the code was rejected
    | BadCredentials                   // login: unknown name or wrong password, alike
    | RedirectFaceAuth(mode: string)   // "register" or "verify"
    | NoFace                           // face_auth: no face in the image
    | FaceRegistered
    | FaceMatched
    | FaceMismatch
    | FacePage                         // face_auth with a mode it does not know
    | FaceAlreadyEnrolled              // FaceAuthGuarded: register mode refused
    | WrongOtp                         // otp_verify: the code was rejected
    | RedirectIndex
    | IndexPage(user: SessionValue)
    | ServerError                      // an exception escaped the handler

  datatype Outcome = Outcome(next: State, response: Response)

  /** Python truthiness of a stored session value. */
  predicate Truthy(v: SessionValue)
  {
    match v
    case Name(n) => n != ""
    case Flag(b) => b
  }

  /** `session.get(k)` is truthy. */
  predicate Holds(session: Session, k: SessionKey)
  {
    k in session && Truthy(session[k])
  }

  /**
   * The user `users_db[session[k]]` refers to, or None where that lookup
   * raises (no such session key, or no such user).
   */
  function Account(s: State, k: SessionKey): (r: Option<Username>)
  {
    if k in s.session && s.session[k].Name? && s.session[k].name in s.users then
      Some(s.session[k].name)
    else
      None
  }

  /** Accounts are never removed, and what a record gains it keeps. */
  predicate Keeps(before: UserRecord, after: UserRecord)
  {
    && after.password == before.password
    && after.mfaSecret == before.mfaSecret
    && (before.mfaActive ==> after.mfaActive)
    && (before.faceEncoding.Some? ==> after.faceEncoding.Some?)
  }

  /** POST /register. */
  function Register(s: State, username: Username, password: Password, freshSecret: Secret): (o: Outcome)
    ensures username in s.users ==> o == Outcome(s, UserExists)
    ensures username !in s.users ==>
      && o.response == RedirectSetupMfa
      && o.next.users.Keys == s.users.Keys + {username}
      && o.next.users[username] == UserRecord(password, freshSecret, None, false)
      && (forall u :: u in s.users ==> o.next.users[u] == s.users[u])
      && o.next.session == s.session[TempRegUser := Name(username)]
  {
    if username in s.users then
      Outcome(s, UserExists)
    else
      var record := UserRecord(password, freshSecret, None, false);
      Outcome(State(s.users[username := record], s.session[TempRegUser := Name(username)]), RedirectSetupMfa)
  }

  /** The code submitted to setup_mfa is accepted for the user being enrolled. */
  predicate SetupCodeAccepted(s: State, code: Code, now: int, caps: Capabilities)
  {
    && Holds(s.session, TempRegUser)
    && Account(s, TempRegUser).Some?
    && caps.totpVerify(s.users[Account(s, TempRegUser).value].mfaSecret, code, now)
  }

  /** POST /setup_mfa. */
  function SetupMfa(s: State, code: Code, now: int, caps: Capabilities): (o: Outcome)
    ensures !Holds(s.session, TempRegUser) ==> o == Outcome(s, RedirectRegister)
    ensures o.response == RedirectLogin <==> SetupCodeAccepted(s, code, now, caps)
    ensures o.response != RedirectLogin ==> o.next == s
    ensures o.response == RedirectLogin ==>
      && o.next.session == s.session
      && Account(s, TempRegUser).Some?
      && var u := Account(s, TempRegUser).value;
         o.next.users == s.users[u := s.users[u].(mfaActive := true)]
  {
    if !Holds(s.session, TempRegUser) then
      Outcome(s, RedirectRegister)
    else
      match Account(s, TempRegUser)
      case None => Outcome(s, ServerError)
      case Some(u) =>
        var user := s.users[u];
        if caps.totpVerify(user.mfaSecret, code, now) then
          Outcome(State(s.users[u := user.(mfaActive := true)], s.session), RedirectLogin)
        else
          Outcome(s, WrongSetupCode)
  }

  /** The name and password the login form submits belong to a stored user. */
  predicate PasswordOk(s: State, username: Username, password: Password)
  {
    username in s.users && s.users[username].password == password
  }

  /** POST /login. */
  function Login(s: State, username: Username, password: Password): (o: Outcome)
    ensures o.next.users == s.users
    ensures !PasswordOk(s, username, password) ==> o == Outcome(s, BadCredentials)
    ensures PasswordOk(s, username, password) && !s.users[username].mfaActive ==>
      o == Outcome(State(s.users, s.session[TempRegUser := Name(username)]), RedirectSetupMfa)
    ensures PasswordOk(s, username, password) && s.users[username].mfaActive ==>
      && o.next.session == map[TempUser := Name(username)]
      && o.response.RedirectFaceAuth?
      && (o.response.mode == "register" <==> s.users[username].faceEncoding.None?)
      && (o.response.mode == "verify" <==> s.users[username].faceEncoding.Some?)
  {
    if PasswordOk(s, username, password) then
      var user := s.users[username];
      if !user.mfaActive then
        Outcome(State(s.users, s.session[TempRegUser := Name(username)]), RedirectSetupMfa)
      else
        var mode := if user.faceEncoding.None? then "register" else "verify";
        Outcome(State(s.users, map[TempUser := Name(username)]), RedirectFaceAuth(mode))
    else
      Outcome(s, BadCredentials)
  }

  /** The first face in `image` matches the face stored for the session's `temp_user`. */
  predicate FaceMatchesTempUser(s: State, image: Image, caps: Capabilities)
  {
    var encodings := caps.face.faceEncodings(image);
    && Account(s, TempUser).Some?
    && |encodings| > 0
    && s.users[Account(s, TempUser).value].faceEncoding.Some?
    && caps.face.matches(s.users[Account(s, TempUser).value].faceEncoding.value, encodings[0])
  }

  /** POST /face_auth/<mode>. */
  function FaceAuth(s: State, mode: string, image: Image, caps: Capabilities): (o: Outcome)
    ensures TempUser !in s.session ==> o == Outcome(s, RedirectLogin)
    ensures TempUser in s.session && |caps.face.faceEncodings(image)| == 0 ==> o == Outcome(s, NoFace)
    ensures o.response == FaceMatched <==> mode == "verify" && FaceMatchesTempUser(s, image, caps)
    ensures o.response == FaceMatched ==> o.next == State(s.users, s.session[FaceOk := Flag(true)])
    ensures o.response == FaceRegistered <==>
      mode == "register" && Account(s, TempUser).Some? && |caps.face.faceEncodings(image)| > 0
    ensures o.response == FaceRegistered ==>
      && o.next.session == s.session
      && Account(s, TempUser).Some?
      && var u := Account(s, TempUser).value;
         o.next.users == s.users[u := s.users[u].(faceEncoding := Some(caps.face.faceEncodings(image)[0]))]
    ensures o.response != FaceMatched && o.response != FaceRegistered ==> o.next == s
  {
    if TempUser !in s.session then
      Outcome(s, RedirectLogin)
    else
      var encodings := caps.face.faceEncodings(image);
      if |encodings| == 0 then
        Outcome(s, NoFace)
      else
        match Account(s, TempUser)
        case None => Outcome(s, ServerError)
        case Some(u) =>
          var user := s.users[u];
          if mode == "register" then
            Outcome(State(s.users[u := user.(faceEncoding := Some(encodings[0]))], s.session), FaceRegistered)
          else if mode == "verify" then
            match user.faceEncoding
            case None => Outcome(s, ServerError)   // compare_faces cannot measure against None
            case Some(target) =>
              if caps.face.matches(target, encodings[0]) then
                Outcome(State(s.users, s.session[FaceOk := Flag(true)]), FaceMatched)
              else
                Outcome(s, FaceMismatch)
          else
            Outcome(s, FacePage)
  }

  /** The code submitted to otp_verify is accepted for the session's `temp_user`. */
  predicate OtpAccepted(s: State, code: Code, now: int, caps: Capabilities)
  {
    && Holds(s.session, FaceOk)
    && Account(s, TempUser).Some?
    && caps.totpVerify(s.users[Account(s, TempUser).value].mfaSecret, code, now)
  }

  /** POST /otp_verify. */
  function OtpVerify(s: State, code: Code, now: int, caps: Capabilities): (o: Outcome)
    ensures !Holds(s.session, FaceOk) ==> o == Outcome(s, RedirectLogin)
    ensures o.next.users == s.users
    ensures o.response == RedirectIndex <==> OtpAccepted(s, code, now, caps)
    ensures o.response == RedirectIndex ==>
      o.next.session == s.session[User := s.session[TempUser]][MfaVerified := Flag(true)]
    ensures o.response != RedirectIndex ==> o.next == s
  {
    if !Holds(s.session, FaceOk) then
      Outcome(s, RedirectLogin)
    else
      match Account(s, TempUser)
      case None => Outcome(s, ServerError)
      case Some(u) =>
        if caps.totpVerify(s.users[u].mfaSecret, code, now) then
          var session := s.session[User := s.session[TempUser]][MfaVerified := Flag(true)];
          Outcome(State(s.users, session), RedirectIndex)
        else
          Outcome(s, WrongOtp)
  }

  /** GET /: the protected page. */
  function Index(s: State): (o: Outcome)
    ensures o.next == s
    ensures !Holds(s.session, MfaVerified) ==> o.response == RedirectLogin
    ensures o.response.IndexPage? ==>
      Holds(s.session, MfaVerified) && User in s.session && o.response.user == s.session[User]
  {
    if !Holds(s.session, MfaVerified) then
      Outcome(s, RedirectLogin)
    else if User !in s.session then
      Outcome(s, ServerError)
    else
      Outcome(s, IndexPage(s.session[User]))
  }

  /** GET /logout. */
  function Logout(s: State): (o: Outcome)
    ensures o.next.users == s.users
    ensures o.next.session == map[]
    ensures o.response == RedirectLogin
  {
    Outcome(State(s.users, map[]), RedirectLogin)
  }

  /** One request a client can send. */
  datatype Request =
    | RegisterPost(username: Username, password: Password, freshSecret: Secret)
    | SetupMfaPost(setupCode: Code, setupNow: int)
    | LoginPost(loginName: Username, loginPassword: Password)
    | FaceAuthPost(mode: string, image: Image)
    | OtpVerifyPost(otpCode: Code, otpNow: int)
    | IndexGet
    | LogoutGet

  /** The handler a request is routed to. */
  function Step(s: State, req: Request, caps: Capabilities): (o: Outcome)
    ensures forall u :: u in s.users ==> u in o.next.users && Keeps(s.users[u], o.next.users[u])
    ensures o.next.users.Keys >= s.users.Keys
  {
    match req
    case RegisterPost(username, password, secret) => Register(s, username, password, secret)
    case SetupMfaPost(code, now) => SetupMfa(s, code, now, caps)
    case LoginPost(username, password) => Login(s, username, password)
    case FaceAuthPost(mode, image) => FaceAuth(s, mode, image, caps)
    case OtpVerifyPost(code, now) => OtpVerify(s, code, now, caps)
    case IndexGet => Index(s)
    case LogoutGet => Logout(s)
  }

  /**
   * POST /face_auth/<mode> as evidently intended: register mode only
   * enrols a face for a user who has none yet. `login` sends a user to
   * register mode only in that case, but `face_auth` itself never checks
   * it, so the handler above lets any password-authenticated session
   * replace an enrolled face. This handler refuses that and otherwise
   * answers exactly as the one above.
   */
  function FaceAuthGuarded(s: State, mode: string, image: Image, caps: Capabilities): (o: Outcome)
    ensures o.response == FaceAlreadyEnrolled <==>
      && mode == "register" && TempUser in s.session && |caps.face.faceEncodings(image)| > 0
      && Account(s, TempUser).Some? && s.users[Account(s, TempUser).value].faceEncoding.Some?
    ensures o.response == FaceAlreadyEnrolled ==> o.next == s
    ensures o.response != FaceAlreadyEnrolled ==> o == FaceAuth(s, mode, image, caps)
    ensures forall u :: u in s.users && s.users[u].faceEncoding.Some? ==>
      u in o.next.users && o.next.users[u].faceEncoding == s.users[u].faceEncoding
  {
    var enrolled := Account(s, TempUser).Some? && s.users[Account(s, TempUser).value].faceEncoding.Some?;
    if mode == "register" && TempUser in s.session && |caps.face.faceEncodings(image)| > 0 && enrolled then
      Outcome(s, FaceAlreadyEnrolled)
    else
      FaceAuth(s, mode, image, caps)
  }

  /** The handlers with `face_auth` replaced by FaceAuthGuarded. */
  function StepGuarded(s: State, req: Request, caps: Capabilities): (o: Outcome)
    ensures req.FaceAuthPost? ==> o == FaceAuthGuarded(s, req.mode, req.image, caps)
    ensures !req.FaceAuthPost? ==> o == Step(s, req, caps)
    ensures forall u :: u in s.users && s.users[u].faceEncoding.Some? ==>
      u in o.next.users && o.next.users[u].faceEncoding == s.users[u].faceEncoding
  {
    match req
    case FaceAuthPost(mode, image) => FaceAuthGuarded(s, mode, image, caps)
    case _ => Step(s, req, caps)
  }
}
