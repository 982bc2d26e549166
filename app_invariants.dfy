/**
 * What every handler preserves: the user table and the session stay
 * consistent with each other, so that a verified session always names an
 * active user with an enrolled face. The order in which the factors were
 * passed is a property of request sequences, stated in AppTraces.
 */
module AppInvariants {

  import opened AppModel

  /** A face is only ever enrolled for a user whose TOTP factor is active. */
  ghost predicate StoreInv(users: UsersDb)
  {
    forall u :: u in users && users[u].faceEncoding.Some? ==> users[u].mfaActive
  }

  /** The session's keys hold what the handlers put there. */
  ghost predicate SessionInv(s: State)
  {
    && (TempRegUser in s.session ==> Account(s, TempRegUser).Some?)
    && (TempUser in s.session ==>
          Account(s, TempUser).Some? && s.users[Account(s, TempUser).value].mfaActive)
    && (FaceOk in s.session ==>
          && s.session[FaceOk] == Flag(true)
          && Account(s, TempUser).Some?
          && s.users[Account(s, TempUser).value].faceEncoding.Some?)
    && (User in s.session ==> MfaVerified in s.session)
    && (MfaVerified in s.session ==>
          && s.session[MfaVerified] == Flag(true)
          && FaceOk in s.session
          && User in s.session
          && s.session[User] == s.session[TempUser])
  }

  ghost predicate Inv(s: State)
  {
    StoreInv(s.users) && SessionInv(s)
  }

  /** The application starts with no users and an empty session. */
  function Init(): (s: State)
    ensures Inv(s)
    ensures s.users == map[] && s.session == map[]
  {
    State(map[], map[])
  }

  /** Every handler preserves the invariant. */
  lemma StepPreservesInv(s: State, req: Request, caps: Capabilities)
    requires Inv(s)
    ensures Inv(Step(s, req, caps).next)
  {
    var o := Step(s, req, caps);
    match req
    case RegisterPost(username, password, secret) =>
    case SetupMfaPost(code, now) =>
    case LoginPost(username, password) =>
    case FaceAuthPost(mode, image) =>
      if o.response == FaceRegistered {
        var u := Account(s, TempUser).value;
        assert s.users[u].mfaActive;
        forall v | v in o.next.users && o.next.users[v].faceEncoding.Some?
          ensures o.next.users[v].mfaActive
        {
          if v != u { assert o.next.users[v] == s.users[v]; }
        }
      }
    case OtpVerifyPost(code, now) =>
    case IndexGet =>
    case LogoutGet =>
  }

  /**
   * The index page is served only to a session holding `mfa_verified` and
   * `face_ok`, and the user it shows is the session's `temp_user`: a user
   * whose TOTP factor is active and who has a face enrolled.
   */
  lemma IndexOnlyAfterAllFactors(s: State)
    requires Inv(s)
    requires Index(s).response.IndexPage?
    ensures Holds(s.session, MfaVerified) && Holds(s.session, FaceOk)
    ensures Account(s, TempUser).Some?
    ensures var u := Account(s, TempUser).value;
            && Index(s).response.user == Name(u)
            && s.users[u].mfaActive
            && s.users[u].faceEncoding.Some?
  {
  }
}
