/**
 * The Flask application as it runs: the global `users_db` and one
 * client's `session` are fields that each handler updates in place. Every
 * handler leaves exactly the state and response the matching function of
 * AppModel describes, and keeps the invariant of AppInvariants.
 */
module WebApp {

  import opened Wrappers
  import opened FaceRecognition
  import opened AppModel
  import opened AppInvariants

  class App {

    const caps: Capabilities

    /** The in-memory user table. */
    var usersDb: UsersDb

    /** The session of the one client being served, written only by the handlers. */
    var session: Session

    function Snapshot(): (s: State)
      reads this
    {
      State(usersDb, session)
    }

    ghost predicate Valid()
      reads this
    {
      Inv(Snapshot())
    }

    /** A freshly started application: no users, an empty session. */
    constructor (caps: Capabilities)
      ensures Valid() && this.caps == caps
      ensures Snapshot() == Init()
    {
      this.caps := caps;
      usersDb := map[];
      session := map[];
    }

    /** POST /register; `freshSecret` is the value `pyotp.random_base32()` draws. */
    method Register(username: Username, password: Password, freshSecret: Secret) returns (r: Response)
      requires Valid()
      modifies this
      ensures Valid()
      ensures Outcome(Snapshot(), r) == AppModel.Register(old(Snapshot()), username, password, freshSecret)
    {
      StepPreservesInv(Snapshot(), RegisterPost(username, password, freshSecret), caps);
      if username in usersDb {
        return UserExists;
      }
      usersDb := usersDb[username := UserRecord(password, freshSecret, None, false)];
      session := session[TempRegUser := Name(username)];
      r := RedirectSetupMfa;
    }

    /** POST /setup_mfa. */
    method SetupMfa(code: Code, now: int) returns (r: Response)
      requires Valid()
      modifies this
      ensures Valid()
      ensures Outcome(Snapshot(), r) == AppModel.SetupMfa(old(Snapshot()), code, now, caps)
    {
      StepPreservesInv(Snapshot(), SetupMfaPost(code, now), caps);
      if !Holds(session, TempRegUser) {
        return RedirectRegister;
      }
      var username := session[TempRegUser];
      if !username.Name? || username.name !in usersDb {
        return ServerError;
      }
      var user := usersDb[username.name];
      if caps.totpVerify(user.mfaSecret, code, now) {
        usersDb := usersDb[username.name := user.(mfaActive := true)];
        return RedirectLogin;
      }
      r := WrongSetupCode;
    }

    /** POST /login. */
    method Login(username: Username, password: Password) returns (r: Response)
      requires Valid()
      modifies this
      ensures Valid()
      ensures Outcome(Snapshot(), r) == AppModel.Login(old(Snapshot()), username, password)
    {
      StepPreservesInv(Snapshot(), LoginPost(username, password), caps);
      if username in usersDb && usersDb[username].password == password {
        var user := usersDb[username];
        if !user.mfaActive {
          session := session[TempRegUser := Name(username)];
          return RedirectSetupMfa;
        }
        session := map[];
        session := session[TempUser := Name(username)];
        if user.faceEncoding.None? {
          return RedirectFaceAuth("register");
        }
        return RedirectFaceAuth("verify");
      }
      r := BadCredentials;
    }

    /** POST /face_auth/<mode>, with the uploaded image already decoded. */
    method FaceAuth(mode: string, image: Image) returns (r: Response)
      requires Valid()
      modifies this
      ensures Valid()
      ensures Outcome(Snapshot(), r) == AppModel.FaceAuth(old(Snapshot()), mode, image, caps)
    {
      StepPreservesInv(Snapshot(), FaceAuthPost(mode, image), caps);
      if TempUser !in session {
        return RedirectLogin;
      }
      var encodings := caps.face.faceEncodings(image);
      if |encodings| == 0 {
        return NoFace;
      }
      var key := session[TempUser];
      if !key.Name? || key.name !in usersDb {
        return ServerError;
      }
      var user := usersDb[key.name];
      if mode == "register" {
        usersDb := usersDb[key.name := user.(faceEncoding := Some(encodings[0]))];
        return FaceRegistered;
      } else if mode == "verify" {
        if user.faceEncoding.None? {
          return ServerError;
        }
        if caps.face.matches(user.faceEncoding.value, encodings[0]) {
          session := session[FaceOk := Flag(true)];
          return FaceMatched;
        }
        return FaceMismatch;
      }
      r := FacePage;
    }

    /** POST /otp_verify. */
    method OtpVerify(code: Code, now: int) returns (r: Response)
      requires Valid()
      modifies this
      ensures Valid()
      ensures Outcome(Snapshot(), r) == AppModel.OtpVerify(old(Snapshot()), code, now, caps)
    {
      StepPreservesInv(Snapshot(), OtpVerifyPost(code, now), caps);
      if !Holds(session, FaceOk) {
        return RedirectLogin;
      }
      if TempUser !in session || !session[TempUser].Name? || session[TempUser].name !in usersDb {
        return ServerError;
      }
      var user := usersDb[session[TempUser].name];
      if caps.totpVerify(user.mfaSecret, code, now) {
        session := session[User := session[TempUser]];
        session := session[MfaVerified := Flag(true)];
        return RedirectIndex;
      }
      r := WrongOtp;
    }

    /** GET /. */
    method Index() returns (r: Response)
      requires Valid()
      ensures r == AppModel.Index(Snapshot()).response
      ensures r.IndexPage? ==> Account(Snapshot(), TempUser).Some? && r.user == Name(Account(Snapshot(), TempUser).value)
    {
      if !Holds(session, MfaVerified) {
        return RedirectLogin;
      }
      if User !in session {
        return ServerError;
      }
      r := IndexPage(session[User]);
      IndexOnlyAfterAllFactors(Snapshot());
    }

    /** GET /logout. */
    method Logout() returns (r: Response)
      requires Valid()
      modifies this
      ensures Valid()
      ensures Outcome(Snapshot(), r) == AppModel.Logout(old(Snapshot()))
    {
      session := map[];
      r := RedirectLogin;
    }
  }
}
