/**
 * Sequences of requests from one client. These lemmas state the order in
 * which the factors must be passed: a session becomes verified only
 * through a correct password, then a match against the face stored for
 * that user at that moment, then an accepted one-time code, all within one
 * login attempt. They also state that accounts only gain state, and show
 * that register mode of `face_auth` can replace an enrolled face.
 */
module AppTraces {

  import opened Wrappers
  import opened FaceRecognition
  import opened AppModel
  import opened AppInvariants

  /** The application's handlers as one transition function. */
  function Serve(caps: Capabilities): (step: (State, Request) -> Outcome)
  {
    (t, r) => Step(t, r, caps)
  }

  /** The state after serving `reqs` in order with `step`, starting from `s`. */
  function Run(step: (State, Request) -> Outcome, s: State, reqs: seq<Request>): (t: State)
    decreases |reqs|
  {
    if reqs == [] then s
    else step(Run(step, s, reqs[..|reqs| - 1]), reqs[|reqs| - 1]).next
  }

  /** The response the `i`-th request receives. */
  function ResponseAt(step: (State, Request) -> Outcome, s: State, reqs: seq<Request>, i: nat): (r: Response)
    requires i < |reqs|
  {
    step(Run(step, s, reqs[..i]), reqs[i]).response
  }

  /** Serving the first `k` requests is serving the first `k - 1` and then the `k`-th. */
  lemma RunSnoc(step: (State, Request) -> Outcome, s: State, reqs: seq<Request>, k: nat)
    requires 0 < k <= |reqs|
    ensures Run(step, s, reqs[..k]) == step(Run(step, s, reqs[..k - 1]), reqs[k - 1]).next
  {
    assert reqs[..k][..k - 1] == reqs[..k - 1];
  }

  /** Extending a run whose state is known by one request whose effect is known. */
  lemma RunExtends(step: (State, Request) -> Outcome, s: State, reqs: seq<Request>, k: nat, before: State, after: State)
    requires 0 < k <= |reqs|
    requires Run(step, s, reqs[..k - 1]) == before
    requires step(before, reqs[k - 1]).next == after
    ensures Run(step, s, reqs[..k]) == after
  {
    RunSnoc(step, s, reqs, k);
  }

  /** A run of three requests, step by step. */
  lemma RunThree(step: (State, Request) -> Outcome, s: State, a: Request, b: Request, c: Request,
                 s1: State, s2: State, s3: State)
    requires step(s, a).next == s1 && step(s1, b).next == s2 && step(s2, c).next == s3
    ensures Run(step, s, [a, b, c]) == s3
  {
    var reqs := [a, b, c];
    assert reqs[..0] == [];
    RunExtends(step, s, reqs, 1, s, s1);
    RunExtends(step, s, reqs, 2, s1, s2);
    RunExtends(step, s, reqs, 3, s2, s3);
    assert reqs[..3] == reqs;
  }

  /** A run of four requests, step by step. */
  lemma RunFour(step: (State, Request) -> Outcome, s: State, a: Request, b: Request, c: Request, d: Request,
                s1: State, s2: State, s3: State, s4: State)
    requires step(s, a).next == s1 && step(s1, b).next == s2 && step(s2, c).next == s3 && step(s3, d).next == s4
    ensures Run(step, s, [a, b, c, d]) == s4
  {
    var reqs := [a, b, c, d];
    RunThree(step, s, a, b, c, s1, s2, s3);
    assert reqs[..3] == [a, b, c];
    RunExtends(step, s, reqs, 4, s3, s4);
    assert reqs[..4] == reqs;
  }

  /** Serving `a` and then `b` is serving `a + b`. */
  lemma {:induction false} RunAppend(step: (State, Request) -> Outcome, s: State, a: seq<Request>, b: seq<Request>)
    ensures Run(step, s, a + b) == Run(step, Run(step, s, a), b)
    decreases |b|
  {
    if b == [] {
      assert a + b == a;
    } else {
      assert (a + b)[..|a + b| - 1] == a + b[..|b| - 1];
      RunAppend(step, s, a, b[..|b| - 1]);
    }
  }

  /**
   * If a property of the state is false at the start of a run and true at
   * its end, some request `i` switched it on for good: it is false before
   * that request and true after it and after every later one.
   */
  lemma {:induction false} LastSwitchOn(step: (State, Request) -> Outcome, s: State, reqs: seq<Request>, P: State -> bool)
    returns (i: nat)
    requires !P(s) && P(Run(step, s, reqs))
    ensures i < |reqs|
    ensures !P(Run(step, s, reqs[..i]))
    ensures P(step(Run(step, s, reqs[..i]), reqs[i]).next)
    ensures forall k :: i < k <= |reqs| ==> P(Run(step, s, reqs[..k]))
    decreases |reqs|
  {
    var prefix := reqs[..|reqs| - 1];
    assert reqs[..|reqs|] == reqs;
    if P(Run(step, s, prefix)) {
      i := LastSwitchOn(step, s, prefix, P);
      forall k | i < k <= |reqs|
        ensures P(Run(step, s, reqs[..k]))
      {
        if k < |reqs| {
          assert prefix[..k] == reqs[..k];
        }
      }
      assert prefix[..i] == reqs[..i];
    } else {
      i := |reqs| - 1;
      assert reqs[..i] == prefix;
    }
    RunSnoc(step, s, reqs, i + 1);
  }

  /**
   * A property that holds after request `a` keeps holding up to request
   * `k`, if every step into a state satisfying `Q` preserves it and `Q`
   * holds after each of those requests.
   */
  lemma {:induction false} StaysFrom(step: (State, Request) -> Outcome, s: State, reqs: seq<Request>, a: nat, k: nat,
                                     P: State -> bool, Q: State -> bool)
    requires a <= k <= |reqs|
    requires P(Run(step, s, reqs[..a]))
    requires forall m :: a < m <= |reqs| ==> Q(Run(step, s, reqs[..m]))
    requires forall t, r :: P(t) && Q(step(t, r).next) ==> P(step(t, r).next)
    ensures P(Run(step, s, reqs[..k]))
    decreases k - a
  {
    if a < k {
      StaysFrom(step, s, reqs, a, k - 1, P, Q);
      RunSnoc(step, s, reqs, k);
    }
  }

  /** A property every step preserves holds after every run. */
  lemma {:induction false} InvariantAlongRun(step: (State, Request) -> Outcome, s: State, reqs: seq<Request>, P: State -> bool)
    requires forall t, r :: P(t) ==> P(step(t, r).next)
    requires P(s)
    ensures P(Run(step, s, reqs))
    decreases |reqs|
  {
    if reqs != [] {
      InvariantAlongRun(step, s, reqs[..|reqs| - 1], P);
    }
  }

  /** The invariant holds after any sequence of requests. */
  lemma RunPreservesInv(s: State, reqs: seq<Request>, caps: Capabilities)
    requires Inv(s)
    ensures Inv(Run(Serve(caps), s, reqs))
  {
    var P := (t: State) => Inv(t);
    forall t, r | P(t)
      ensures P(Serve(caps)(t, r).next)
    {
      StepPreservesInv(t, r, caps);
    }
    InvariantAlongRun(Serve(caps), s, reqs, P);
  }

  /** Every account of `before` is still in `after`, with what it had. */
  ghost predicate KeepsAll(before: State, after: State)
  {
    forall u :: u in before.users ==> u in after.users && Keeps(before.users[u], after.users[u])
  }

  /**
   * No request sequence removes a user, changes a password or a TOTP
   * secret, switches `mfa_active` off or forgets an enrolled face.
   */
  lemma RunKeepsAccounts(s: State, reqs: seq<Request>, caps: Capabilities)
    ensures forall u :: u in s.users ==>
      u in Run(Serve(caps), s, reqs).users && Keeps(s.users[u], Run(Serve(caps), s, reqs).users[u])
  {
    var P := (t: State) => KeepsAll(s, t);
    forall t, r | P(t)
      ensures P(Serve(caps)(t, r).next)
    {
      var next := Step(t, r, caps).next;
      forall u | u in s.users
        ensures u in next.users && Keeps(s.users[u], next.users[u])
      {
        assert Keeps(t.users[u], next.users[u]);
      }
    }
    InvariantAlongRun(Serve(caps), s, reqs, P);
  }

  /**
   * In a single step, `face_ok` is switched on only by a face match in
   * verify mode against the face stored, at that moment, for the
   * session's `temp_user`.
   */
  lemma FaceOkSetOnlyByMatch(t: State, req: Request, caps: Capabilities)
    requires !Holds(t.session, FaceOk)
    requires Holds(Step(t, req, caps).next.session, FaceOk)
    ensures req.FaceAuthPost? && req.mode == "verify"
    ensures FaceMatchesTempUser(t, req.image, caps)
    ensures Step(t, req, caps) == Outcome(State(t.users, t.session[FaceOk := Flag(true)]), FaceMatched)
  {
  }

  /**
   * In a single step, `mfa_verified` is switched on only by a one-time
   * code accepted for the session's `temp_user`, in a session that already
   * holds `face_ok`; that step also copies `temp_user` into `user`.
   */
  lemma MfaVerifiedSetOnlyByOtp(t: State, req: Request, caps: Capabilities)
    requires !Holds(t.session, MfaVerified)
    requires Holds(Step(t, req, caps).next.session, MfaVerified)
    ensures req.OtpVerifyPost? && OtpAccepted(t, req.otpCode, req.otpNow, caps)
    ensures Holds(t.session, FaceOk)
    ensures Step(t, req, caps).response == RedirectIndex
    ensures Step(t, req, caps).next.session == t.session[User := t.session[TempUser]][MfaVerified := Flag(true)]
  {
  }

  /** The session is in a login attempt for `n`: its `temp_user` is `n`. */
  predicate AttemptOf(t: State, n: Username)
  {
    TempUser in t.session && t.session[TempUser] == Name(n)
  }

  /** The session is verified for `n` within `n`'s login attempt. */
  predicate VerifiedFor(t: State, n: Username)
  {
    AttemptOf(t, n) && User in t.session && t.session[User] == Name(n)
  }

  /**
   * In a single step, a login attempt for `n` begins only by a correct
   * password for `n`, whose TOTP factor is active, sent to `login`.
   */
  lemma AttemptStartsOnlyAtLogin(t: State, req: Request, caps: Capabilities, n: Username)
    requires !AttemptOf(t, n) && AttemptOf(Step(t, req, caps).next, n)
    ensures req.LoginPost? && req.loginName == n
    ensures PasswordOk(t, n, req.loginPassword) && t.users[n].mfaActive
    ensures Step(t, req, caps).response.RedirectFaceAuth?
  {
  }

  /** A step into a state holding `face_ok` or `mfa_verified` stays in the same login attempt. */
  lemma AttemptKept(t: State, req: Request, caps: Capabilities, n: Username)
    requires AttemptOf(t, n)
    requires Holds(Step(t, req, caps).next.session, FaceOk) || Holds(Step(t, req, caps).next.session, MfaVerified)
    ensures AttemptOf(Step(t, req, caps).next, n)
  {
  }

  /** A step into a state holding `face_ok` or `mfa_verified` does not drop `face_ok`. */
  lemma FaceOkKept(t: State, req: Request, caps: Capabilities)
    requires Holds(t.session, FaceOk)
    requires Holds(Step(t, req, caps).next.session, FaceOk) || Holds(Step(t, req, caps).next.session, MfaVerified)
    ensures Holds(Step(t, req, caps).next.session, FaceOk)
  {
  }

  /** A step into a state holding `mfa_verified` keeps the verified user. */
  lemma VerifiedKept(t: State, req: Request, caps: Capabilities, n: Username)
    requires VerifiedFor(t, n)
    requires Holds(Step(t, req, caps).next.session, MfaVerified)
    ensures VerifiedFor(Step(t, req, caps).next, n)
  {
  }

  /** `face_ok` appears in a session only through a face match in verify mode. */
  lemma FaceOkOnlyAfterMatch(s: State, reqs: seq<Request>, caps: Capabilities)
    requires !Holds(s.session, FaceOk)
    requires Holds(Run(Serve(caps), s, reqs).session, FaceOk)
    ensures exists i :: 0 <= i < |reqs| && ResponseAt(Serve(caps), s, reqs, i) == FaceMatched
  {
    var i := LastSwitchOn(Serve(caps), s, reqs, (t: State) => Holds(t.session, FaceOk));
    FaceOkSetOnlyByMatch(Run(Serve(caps), s, reqs[..i]), reqs[i], caps);
    assert ResponseAt(Serve(caps), s, reqs, i) == FaceMatched;
  }

  /**
   * The three factors, in order, within one login attempt of user `n`:
   * request `h` is a correct password for `n`; request `i` is a face match
   * against the face stored for `n` at that moment; request `j` is a
   * one-time code accepted for `n`. From `h` on the session stays in `n`'s
   * attempt (`temp_user` is `n`: no login of another active user
   * intervenes), from `i` on it holds `face_ok`, and at the end it is
   * verified for `n`.
   */
  ghost predicate FactorsInOrder(s: State, reqs: seq<Request>, caps: Capabilities, h: nat, i: nat, j: nat)
  {
    && h < i < j < |reqs|
    && reqs[h].LoginPost?
    && var n := reqs[h].loginName;
       && PasswordOk(Run(Serve(caps), s, reqs[..h]), n, reqs[h].loginPassword)
       && ResponseAt(Serve(caps), s, reqs, h).RedirectFaceAuth?
       && reqs[i].FaceAuthPost? && reqs[i].mode == "verify"
       && FaceMatchesTempUser(Run(Serve(caps), s, reqs[..i]), reqs[i].image, caps)
       && ResponseAt(Serve(caps), s, reqs, i) == FaceMatched
       && reqs[j].OtpVerifyPost?
       && OtpAccepted(Run(Serve(caps), s, reqs[..j]), reqs[j].otpCode, reqs[j].otpNow, caps)
       && ResponseAt(Serve(caps), s, reqs, j) == RedirectIndex
       && (forall k :: h < k <= |reqs| ==> AttemptOf(Run(Serve(caps), s, reqs[..k]), n))
       && (forall k :: i < k <= |reqs| ==> Holds(Run(Serve(caps), s, reqs[..k]).session, FaceOk))
       && VerifiedFor(Run(Serve(caps), s, reqs), n)
  }

  /**
   * A session that starts outside any login attempt becomes verified only
   * through the password, the face and the one-time code of one user, in
   * that order and within one attempt: neither factor alone suffices, the
   * face matched and the code accepted are those of the user the session
   * ends up verified for, and `temp_user` stays that user from the password
   * on, so no login of another active user lies between them.
   */
  lemma VerifiedOnlyAfterPasswordFaceThenOtp(s: State, reqs: seq<Request>, caps: Capabilities)
    requires TempUser !in s.session && !Holds(s.session, FaceOk) && !Holds(s.session, MfaVerified)
    requires Holds(Run(Serve(caps), s, reqs).session, MfaVerified)
    ensures exists h, i, j :: FactorsInOrder(s, reqs, caps, h, i, j)
  {
    var step := Serve(caps);
    var i, j := FaceThenCode(s, reqs, caps);
    var n := Account(Run(step, s, reqs[..i]), TempUser).value;
    var h := PasswordBeforeFace(s, reqs, caps, i, n);
    AttemptToTheEnd(s, reqs, caps, i, j, n);
    VerifiedToTheEnd(s, reqs, caps, j, n);
    assert FactorsInOrder(s, reqs, caps, h, i, j);
  }

  /**
   * The last request `j` that switched `mfa_verified` on is an accepted
   * code, and the last request `i` before it that switched `face_ok` on is
   * a face match; `face_ok` holds from `i` to `j`, `mfa_verified` from `j`
   * to the end.
   */
  lemma FaceThenCode(s: State, reqs: seq<Request>, caps: Capabilities) returns (i: nat, j: nat)
    requires !Holds(s.session, FaceOk) && !Holds(s.session, MfaVerified)
    requires Holds(Run(Serve(caps), s, reqs).session, MfaVerified)
    ensures i < j < |reqs|
    ensures reqs[i].FaceAuthPost? && reqs[i].mode == "verify"
    ensures FaceMatchesTempUser(Run(Serve(caps), s, reqs[..i]), reqs[i].image, caps)
    ensures ResponseAt(Serve(caps), s, reqs, i) == FaceMatched
    ensures reqs[j].OtpVerifyPost?
    ensures OtpAccepted(Run(Serve(caps), s, reqs[..j]), reqs[j].otpCode, reqs[j].otpNow, caps)
    ensures ResponseAt(Serve(caps), s, reqs, j) == RedirectIndex
    ensures Run(Serve(caps), s, reqs[..j + 1]).session ==
      Run(Serve(caps), s, reqs[..j]).session[User := Run(Serve(caps), s, reqs[..j]).session[TempUser]][MfaVerified := Flag(true)]
    ensures forall k :: i < k <= j ==> Holds(Run(Serve(caps), s, reqs[..k]).session, FaceOk)
    ensures forall k :: j < k <= |reqs| ==> Holds(Run(Serve(caps), s, reqs[..k]).session, MfaVerified)
  {
    j := CodeStep(s, reqs, caps);
    i := FaceStep(s, reqs, caps, j);
  }

  /** The last request that switched `mfa_verified` on is an accepted code, sent with `face_ok` held. */
  lemma CodeStep(s: State, reqs: seq<Request>, caps: Capabilities) returns (j: nat)
    requires !Holds(s.session, MfaVerified)
    requires Holds(Run(Serve(caps), s, reqs).session, MfaVerified)
    ensures j < |reqs|
    ensures !Holds(Run(Serve(caps), s, reqs[..j]).session, MfaVerified)
    ensures Holds(Run(Serve(caps), s, reqs[..j]).session, FaceOk)
    ensures reqs[j].OtpVerifyPost?
    ensures OtpAccepted(Run(Serve(caps), s, reqs[..j]), reqs[j].otpCode, reqs[j].otpNow, caps)
    ensures ResponseAt(Serve(caps), s, reqs, j) == RedirectIndex
    ensures Run(Serve(caps), s, reqs[..j + 1]).session ==
      Run(Serve(caps), s, reqs[..j]).session[User := Run(Serve(caps), s, reqs[..j]).session[TempUser]][MfaVerified := Flag(true)]
    ensures forall k :: j < k <= |reqs| ==> Holds(Run(Serve(caps), s, reqs[..k]).session, MfaVerified)
  {
    var step := Serve(caps);
    j := LastSwitchOn(step, s, reqs, (t: State) => Holds(t.session, MfaVerified));
    var tj := Run(step, s, reqs[..j]);
    MfaVerifiedSetOnlyByOtp(tj, reqs[j], caps);
    RunSnoc(step, s, reqs, j + 1);
  }

  /** The last request before `j` that switched `face_ok` on is a face match. */
  lemma FaceStep(s: State, reqs: seq<Request>, caps: Capabilities, j: nat) returns (i: nat)
    requires j < |reqs|
    requires !Holds(s.session, FaceOk)
    requires Holds(Run(Serve(caps), s, reqs[..j]).session, FaceOk)
    ensures i < j
    ensures !Holds(Run(Serve(caps), s, reqs[..i]).session, FaceOk)
    ensures reqs[i].FaceAuthPost? && reqs[i].mode == "verify"
    ensures FaceMatchesTempUser(Run(Serve(caps), s, reqs[..i]), reqs[i].image, caps)
    ensures ResponseAt(Serve(caps), s, reqs, i) == FaceMatched
    ensures forall k :: i < k <= j ==> Holds(Run(Serve(caps), s, reqs[..k]).session, FaceOk)
  {
    var step := Serve(caps);
    var faceOk := (t: State) => Holds(t.session, FaceOk);
    i := LastSwitchOn(step, s, reqs[..j], faceOk);
    forall k | i < k <= j
      ensures faceOk(Run(step, s, reqs[..k]))
    {
      assert reqs[..j][..k] == reqs[..k];
    }
    assert reqs[..j][..i] == reqs[..i];
    FaceOkSetOnlyByMatch(Run(step, s, reqs[..i]), reqs[i], caps);
  }

  /**
   * A session outside any login attempt that is in `n`'s attempt before
   * request `i` entered it through a correct password for `n` at some
   * earlier request `h`, and stayed in it from `h` to `i`.
   */
  lemma PasswordBeforeFace(s: State, reqs: seq<Request>, caps: Capabilities, i: nat, n: Username) returns (h: nat)
    requires i < |reqs|
    requires TempUser !in s.session
    requires AttemptOf(Run(Serve(caps), s, reqs[..i]), n)
    ensures h < i
    ensures reqs[h].LoginPost? && reqs[h].loginName == n
    ensures PasswordOk(Run(Serve(caps), s, reqs[..h]), n, reqs[h].loginPassword)
    ensures ResponseAt(Serve(caps), s, reqs, h).RedirectFaceAuth?
    ensures forall k :: h < k <= i ==> AttemptOf(Run(Serve(caps), s, reqs[..k]), n)
  {
    var step := Serve(caps);
    var attempt := (t: State) => AttemptOf(t, n);
    h := LastSwitchOn(step, s, reqs[..i], attempt);
    assert reqs[..i][..h] == reqs[..h];
    AttemptStartsOnlyAtLogin(Run(step, s, reqs[..h]), reqs[h], caps, n);
    forall k | h < k <= i
      ensures attempt(Run(step, s, reqs[..k]))
    {
      assert reqs[..i][..k] == reqs[..k];
    }
  }

  /**
   * Once a face match at `i` has put the session in `n`'s attempt with
   * `face_ok`, and `face_ok` then `mfa_verified` hold to the end, the
   * session stays in `n`'s attempt and keeps `face_ok` to the end.
   */
  lemma AttemptToTheEnd(s: State, reqs: seq<Request>, caps: Capabilities, i: nat, j: nat, n: Username)
    requires i < j < |reqs|
    requires AttemptOf(Run(Serve(caps), s, reqs[..i]), n)
    requires forall k :: i < k <= j ==> Holds(Run(Serve(caps), s, reqs[..k]).session, FaceOk)
    requires forall k :: j < k <= |reqs| ==> Holds(Run(Serve(caps), s, reqs[..k]).session, MfaVerified)
    ensures forall k :: i < k <= |reqs| ==>
      AttemptOf(Run(Serve(caps), s, reqs[..k]), n) && Holds(Run(Serve(caps), s, reqs[..k]).session, FaceOk)
  {
    var step := Serve(caps);
    var faceOk := (t: State) => Holds(t.session, FaceOk);
    var attempt := (t: State) => AttemptOf(t, n);
    var either := (t: State) => Holds(t.session, FaceOk) || Holds(t.session, MfaVerified);
    forall t, r | attempt(t) && either(step(t, r).next)
      ensures attempt(step(t, r).next)
    {
      AttemptKept(t, r, caps, n);
    }
    forall t, r | faceOk(t) && either(step(t, r).next)
      ensures faceOk(step(t, r).next)
    {
      FaceOkKept(t, r, caps);
    }
    forall k | i < k <= |reqs|
      ensures attempt(Run(step, s, reqs[..k])) && faceOk(Run(step, s, reqs[..k]))
    {
      StaysFrom(step, s, reqs, i, k, attempt, either);
      StaysFrom(step, s, reqs, i + 1, k, faceOk, either);
    }
  }

  /** The code step at `j` verifies the session for `n`, and it stays so to the end. */
  lemma VerifiedToTheEnd(s: State, reqs: seq<Request>, caps: Capabilities, j: nat, n: Username)
    requires j < |reqs|
    requires AttemptOf(Run(Serve(caps), s, reqs[..j]), n)
    requires Run(Serve(caps), s, reqs[..j + 1]).session ==
      Run(Serve(caps), s, reqs[..j]).session[User := Run(Serve(caps), s, reqs[..j]).session[TempUser]][MfaVerified := Flag(true)]
    requires forall k :: j < k <= |reqs| ==> Holds(Run(Serve(caps), s, reqs[..k]).session, MfaVerified)
    ensures VerifiedFor(Run(Serve(caps), s, reqs), n)
  {
    var step := Serve(caps);
    var verifiedFor := (t: State) => VerifiedFor(t, n);
    var verified := (t: State) => Holds(t.session, MfaVerified);
    assert verifiedFor(Run(step, s, reqs[..j + 1]));
    forall t, r | verifiedFor(t) && verified(step(t, r).next)
      ensures verifiedFor(step(t, r).next)
    {
      VerifiedKept(t, r, caps, n);
    }
    StaysFrom(step, s, reqs, j + 1, |reqs|, verifiedFor, verified);
    assert reqs[..|reqs|] == reqs;
  }

  /** An inactive account under the empty name. */
  predicate EmptyNameInactive(s: State)
  {
    "" in s.users && !s.users[""].mfaActive
  }

  /**
   * An account registered under the empty name is never activated: the
   * name is stored, but `setup_mfa` reads the empty name in the session as
   * no enrolment in progress, so `mfa_active` stays false forever.
   */
  lemma EmptyNameNeverActivated(s: State, reqs: seq<Request>, caps: Capabilities)
    requires "" in s.users && !s.users[""].mfaActive
    ensures "" in Run(Serve(caps), s, reqs).users && !Run(Serve(caps), s, reqs).users[""].mfaActive
  {
    var P := (t: State) => EmptyNameInactive(t);
    forall t, r | P(t)
      ensures P(Serve(caps)(t, r).next)
    {
      assert Step(t, r, caps).next.users[""] == t.users[""] || Step(t, r, caps).response == FaceRegistered;
    }
    InvariantAlongRun(Serve(caps), s, reqs, P);
  }

  /**
   * First-time enrolment from an empty application: register, confirm the
   * authenticator, log in, enrol a face. The result is one active user with
   * that face, and a session holding only `temp_user`.
   */
  lemma {:induction false} EnrolmentFlow(caps: Capabilities, username: Username, password: Password,
                                         secret: Secret, setupCode: Code, setupNow: int, enrolImage: Image)
    requires username != ""
    requires caps.totpVerify(secret, setupCode, setupNow)
    requires |caps.face.faceEncodings(enrolImage)| > 0
    ensures var reqs := [RegisterPost(username, password, secret), SetupMfaPost(setupCode, setupNow),
                         LoginPost(username, password), FaceAuthPost("register", enrolImage)];
            var enrolled := caps.face.faceEncodings(enrolImage)[0];
            Run(Serve(caps), Init(), reqs) ==
              State(map[username := UserRecord(password, secret, Some(enrolled), true)], map[TempUser := Name(username)])
  {
    var reqs := [RegisterPost(username, password, secret), SetupMfaPost(setupCode, setupNow),
                 LoginPost(username, password), FaceAuthPost("register", enrolImage)];
    var s0 := Init();
    var enrolled := caps.face.faceEncodings(enrolImage)[0];
    var s1 := State(map[username := UserRecord(password, secret, None, false)], map[TempRegUser := Name(username)]);
    var s2 := State(map[username := UserRecord(password, secret, None, true)], s1.session);
    var s3 := State(s2.users, map[TempUser := Name(username)]);
    var s4 := State(map[username := UserRecord(password, secret, Some(enrolled), true)], s3.session);
    assert Serve(caps)(s0, reqs[0]).next == s1;
    assert Serve(caps)(s1, reqs[1]).next == s2 by {
      assert SetupCodeAccepted(s1, setupCode, setupNow, caps);
    }
    assert Serve(caps)(s2, reqs[2]).next == s3;
    assert Serve(caps)(s3, reqs[3]).next == s4;
    RunFour(Serve(caps), s0, reqs[0], reqs[1], reqs[2], reqs[3], s1, s2, s3, s4);
  }

  /**
   * A user whose TOTP factor is active and whose face is enrolled reaches
   * the protected page from any session by presenting the password, a
   * matching face and an accepted one-time code, in that order.
   */
  lemma {:induction false} LoginFlow(s: State, caps: Capabilities, username: Username, password: Password,
                                     liveImage: Image, otpCode: Code, otpNow: int)
    requires PasswordOk(s, username, password) && s.users[username].mfaActive
    requires s.users[username].faceEncoding.Some?
    requires |caps.face.faceEncodings(liveImage)| > 0
    requires caps.face.matches(s.users[username].faceEncoding.value, caps.face.faceEncodings(liveImage)[0])
    requires caps.totpVerify(s.users[username].mfaSecret, otpCode, otpNow)
    ensures var reqs := [LoginPost(username, password), FaceAuthPost("verify", liveImage), OtpVerifyPost(otpCode, otpNow)];
            Index(Run(Serve(caps), s, reqs)).response == IndexPage(Name(username))
  {
    var reqs := [LoginPost(username, password), FaceAuthPost("verify", liveImage), OtpVerifyPost(otpCode, otpNow)];
    var s1 := State(s.users, map[TempUser := Name(username)]);
    var s2 := State(s.users, map[TempUser := Name(username), FaceOk := Flag(true)]);
    var s3 := State(s.users, map[TempUser := Name(username), FaceOk := Flag(true),
                                 User := Name(username), MfaVerified := Flag(true)]);
    assert Serve(caps)(s, reqs[0]).next == s1;
    assert Serve(caps)(s1, reqs[1]).next == s2 by {
      assert FaceMatchesTempUser(s1, liveImage, caps);
    }
    assert Serve(caps)(s2, reqs[2]).next == s3 by {
      assert OtpAccepted(s2, otpCode, otpNow, caps);
    }
    RunThree(Serve(caps), s, reqs[0], reqs[1], reqs[2], s1, s2, s3);
  }

  /**
   * The full first-time flow reaches the protected page: register, confirm
   * the authenticator, log in, enrol a face, log in again, match the face,
   * enter a one-time code.
   */
  lemma {:induction false} FullFlowReachesIndex(caps: Capabilities, username: Username, password: Password, secret: Secret,
                             setupCode: Code, setupNow: int, enrolImage: Image, liveImage: Image,
                             otpCode: Code, otpNow: int)
    requires username != ""
    requires caps.totpVerify(secret, setupCode, setupNow) && caps.totpVerify(secret, otpCode, otpNow)
    requires |caps.face.faceEncodings(enrolImage)| > 0 && |caps.face.faceEncodings(liveImage)| > 0
    requires caps.face.matches(caps.face.faceEncodings(enrolImage)[0], caps.face.faceEncodings(liveImage)[0])
    ensures var reqs := [RegisterPost(username, password, secret), SetupMfaPost(setupCode, setupNow),
                         LoginPost(username, password), FaceAuthPost("register", enrolImage),
                         LoginPost(username, password), FaceAuthPost("verify", liveImage),
                         OtpVerifyPost(otpCode, otpNow)];
            Index(Run(Serve(caps), Init(), reqs)).response == IndexPage(Name(username))
  {
    var enrolment := [RegisterPost(username, password, secret), SetupMfaPost(setupCode, setupNow),
                      LoginPost(username, password), FaceAuthPost("register", enrolImage)];
    var login := [LoginPost(username, password), FaceAuthPost("verify", liveImage), OtpVerifyPost(otpCode, otpNow)];
    var all := enrolment + login;
    assert all == [RegisterPost(username, password, secret), SetupMfaPost(setupCode, setupNow),
                   LoginPost(username, password), FaceAuthPost("register", enrolImage),
                   LoginPost(username, password), FaceAuthPost("verify", liveImage),
                   OtpVerifyPost(otpCode, otpNow)];
    EnrolmentFlow(caps, username, password, secret, setupCode, setupNow, enrolImage);
    var mid := Run(Serve(caps), Init(), enrolment);
    var enrolled := caps.face.faceEncodings(enrolImage)[0];
    assert mid.users[username] == UserRecord(password, secret, Some(enrolled), true);
    LoginFlow(mid, caps, username, password, liveImage, otpCode, otpNow);
    RunAppend(Serve(caps), Init(), enrolment, login);
  }

  /**
   * As written, `face_auth` lets a session that has only passed the
   * password replace an enrolled face in register mode and then match the
   * face it just stored: `face_ok` is set whatever the face enrolled before
   * was, provided the recognizer matches an encoding with itself.
   */
  lemma {:induction false} FaceOverwriteThenMatch(s: State, caps: Capabilities, username: Username, password: Password,
                                                  image: Image)
    requires PasswordOk(s, username, password) && s.users[username].mfaActive
    requires s.users[username].faceEncoding.Some?
    requires |caps.face.faceEncodings(image)| > 0
    requires caps.face.matches(caps.face.faceEncodings(image)[0], caps.face.faceEncodings(image)[0])
    ensures var reqs := [LoginPost(username, password), FaceAuthPost("register", image), FaceAuthPost("verify", image)];
            var t := Run(Serve(caps), s, reqs);
            && Holds(t.session, FaceOk)
            && username in t.users
            && t.users[username].faceEncoding == Some(caps.face.faceEncodings(image)[0])
  {
    var reqs := [LoginPost(username, password), FaceAuthPost("register", image), FaceAuthPost("verify", image)];
    var e := caps.face.faceEncodings(image)[0];
    var users := s.users[username := s.users[username].(faceEncoding := Some(e))];
    var s1 := State(s.users, map[TempUser := Name(username)]);
    var s2 := State(users, s1.session);
    var s3 := State(users, s1.session[FaceOk := Flag(true)]);
    assert Serve(caps)(s, reqs[0]).next == s1;
    assert Serve(caps)(s1, reqs[1]).next == s2;
    assert Serve(caps)(s2, reqs[2]).next == s3 by {
      assert FaceMatchesTempUser(s2, image, caps);
    }
    RunThree(Serve(caps), s, reqs[0], reqs[1], reqs[2], s1, s2, s3);
  }

  /** The handlers with the guarded `face_auth` as one transition function. */
  function ServeGuarded(caps: Capabilities): (step: (State, Request) -> Outcome)
  {
    (t, r) => StepGuarded(t, r, caps)
  }

  /** Every account of `before` with an enrolled face still has exactly that face in `after`. */
  ghost predicate FacesKept(before: State, after: State)
  {
    forall u :: u in before.users && before.users[u].faceEncoding.Some? ==>
      u in after.users && after.users[u].faceEncoding == before.users[u].faceEncoding
  }

  /** With the guarded handler, no request sequence replaces an enrolled face. */
  lemma GuardedFaceNeverReplaced(s: State, reqs: seq<Request>, caps: Capabilities)
    ensures forall u :: u in s.users && s.users[u].faceEncoding.Some? ==>
      && u in Run(ServeGuarded(caps), s, reqs).users
      && Run(ServeGuarded(caps), s, reqs).users[u].faceEncoding == s.users[u].faceEncoding
  {
    var P := (t: State) => FacesKept(s, t);
    forall t, r | P(t)
      ensures P(ServeGuarded(caps)(t, r).next)
    {
      var next := StepGuarded(t, r, caps).next;
      forall u | u in s.users && s.users[u].faceEncoding.Some?
        ensures u in next.users && next.users[u].faceEncoding == s.users[u].faceEncoding
      {
        assert next.users[u].faceEncoding == t.users[u].faceEncoding;
      }
    }
    InvariantAlongRun(ServeGuarded(caps), s, reqs, P);
  }

  /**
   * With the guarded handler, the same three requests set `face_ok`
   * exactly when the new image matches the face enrolled before, which
   * stays stored.
   */
  lemma {:induction false} GuardedOverwriteRefused(s: State, caps: Capabilities, username: Username, password: Password,
                                                   image: Image)
    requires PasswordOk(s, username, password) && s.users[username].mfaActive
    requires s.users[username].faceEncoding.Some?
    requires |caps.face.faceEncodings(image)| > 0
    ensures var reqs := [LoginPost(username, password), FaceAuthPost("register", image), FaceAuthPost("verify", image)];
            var t := Run(ServeGuarded(caps), s, reqs);
            && (Holds(t.session, FaceOk) <==>
                  caps.face.matches(s.users[username].faceEncoding.value, caps.face.faceEncodings(image)[0]))
            && username in t.users
            && t.users[username].faceEncoding == s.users[username].faceEncoding
  {
    var reqs := [LoginPost(username, password), FaceAuthPost("register", image), FaceAuthPost("verify", image)];
    var s1 := State(s.users, map[TempUser := Name(username)]);
    var s3 := if FaceMatchesTempUser(s1, image, caps) then State(s.users, s1.session[FaceOk := Flag(true)]) else s1;
    assert ServeGuarded(caps)(s, reqs[0]).next == s1;
    assert ServeGuarded(caps)(s1, reqs[1]).next == s1;
    assert ServeGuarded(caps)(s1, reqs[2]).next == s3;
    RunThree(ServeGuarded(caps), s, reqs[0], reqs[1], reqs[2], s1, s1, s3);
  }
}
