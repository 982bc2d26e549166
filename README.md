# Three-factor login: a Dafny model

This project models the core of a small three-factor login system. A user
proves a password, a face and a time-based one-time code (TOTP), in that
order. The face is compared with the face stored for the user at that
moment; a session that has passed the password can replace that face
first (see Findings). It has two parts:

- **The Flask web application** (`app.py`). A global user table `users_db`
  maps each user name to a password, a TOTP secret, an optional face
  encoding and an `mfa_active` flag. A per-client `session` holds the flags
  `temp_reg_user`, `temp_user`, `face_ok`, `user` and `mfa_verified`. The
  handlers `register`, `setup_mfa`, `login`, `face_auth`, `otp_verify`,
  `index` and `logout` are transitions over these two maps.
  - `AppModel` gives each handler as a function from the old state to the
    new state and a tagged response.
  - `WebApp.App` is a class with the two maps as fields. Its methods update
    them in place and are proved to match those functions.
  - `AppInvariants` states what every handler preserves.
  - `AppTraces` states what holds along any sequence of requests: the
    ordering of factors, and that accounts only gain state.
- **The client-side enclave** `LocalSecureEnclave`
  (`client_logic/secure_enclave.py`). It keeps a face template and an ECDSA
  P-256 private key per user name. `enroll` stores both and returns the
  public key. `sign` signs a challenge string only when a fresh frame's
  first face matches the stored template. `AuthEngine.VerifySignature` is
  the server's check (`server_logic/auth_engine.py`).

Library capabilities are values of function type handed to the model:

- `FaceRecognition.FaceRecognizer`: `face_encodings`, and `compare_faces`
  at tolerance 0.4.
- `AppModel.Capabilities.totpVerify`: pyotp's `TOTP(secret).verify(code)`.
  The current time is an explicit argument.
- `Ecdsa.Scheme`: public key of a private key, sign and verify.
  `Ecdsa.Correct` is the one law assumed of it: a signature verifies
  under the matching public key.

Random values are parameters: the new TOTP secret, the new private key and
the per-signature ECDSA nonce.

Exceptions that escape a handler become the `ServerError` response, with
the state unchanged. Each one happens before any write, so nothing
changes. These are the lookups that can raise:

- `setup_mfa`: `users_db[username]` when `temp_reg_user` is not a stored
  user (app.py:64).
- `face_auth`: `users_db[session['temp_user']]` when `temp_user` is not a
  stored user (app.py:113), and `compare_faces` in verify mode when the
  stored encoding is `None` (app.py:118-119).
- `otp_verify`: `session['temp_user']` when `face_ok` is held without
  `temp_user`, and `users_db[...]` when it is not a stored user
  (app.py:135).
- `index`: `session['user']` when `mfa_verified` is held without `user`
  (app.py:35).

Facts about the code that shape the model:

- Passwords are stored and compared in plain text (app.py:49, app.py:86).
- `enroll` takes an already extracted face encoding, so it has no failure
  case (client_logic/secure_enclave.py:10).
- No code issues, expires or consumes challenges; `sign` and
  `verify_signature` take the challenge string as given.
- `TOTP(secret).verify(code)` is called with no drift window (app.py:69,
  app.py:136).
- The web application never calls the enclave or the server verifier.

## Model

| member | source | states |
|---|---|---|
| `AppModel.Register` | app.py:40-55 | a taken name gives "user exists" and leaves store and session unchanged; a new name adds exactly one record (the submitted password, the fresh secret, no face, `mfa_active` false), leaves every other record unchanged and sets only `temp_reg_user` |
| `AppModel.SetupMfa` | app.py:60-72 | without a truthy `temp_reg_user` nothing changes; `mfa_active` is set exactly when the TOTP oracle accepts the code for that user, and only that flag of that record changes; a rejected code changes nothing; the session is never touched |
| `AppModel.Login` | app.py:81-97 | unknown name and wrong password give the identical response and change nothing; an inactive account only sets `temp_reg_user`; an active account leaves the session holding only `temp_user`, with face mode `register` iff no face is stored, else `verify`; the store is never touched |
| `AppModel.FaceAuth` | app.py:102-123 | without `temp_user`, or with no face in the image, nothing changes; register mode overwrites that user's face with the first encoding and nothing else; verify mode sets `face_ok` iff the first encoding matches the stored one, and otherwise changes nothing |
| `AppModel.OtpVerify` | app.py:129-140 | without `face_ok` nothing changes; an accepted code sets `user` to `temp_user` and `mfa_verified`, and nothing else; a rejected code changes nothing; the store is never touched |
| `AppModel.Index` | app.py:32-35 | changes nothing; without `mfa_verified` it redirects to login; the page it serves shows the session's `user` |
| `AppModel.Logout` | app.py:145-147 | empties the session and leaves the store unchanged |
| `AppModel.Step` | app.py:38-147 | no handler removes a user, changes a password or secret, switches `mfa_active` off or forgets an enrolled face |
| `AppInvariants.Init` | app.py:14 | the initial empty table and session satisfy the invariant |
| `AppInvariants.StepPreservesInv` | app.py:86-138 | every handler preserves the invariant: an enrolled face implies `mfa_active`; `temp_user` names an active user; `face_ok` implies that user has a face; `mfa_verified` implies `face_ok` and `user == temp_user` |
| `AppInvariants.IndexOnlyAfterAllFactors` | app.py:33-35 | the page is served only to a session holding `mfa_verified` and `face_ok`, showing its `temp_user`, an active user with an enrolled face |
| `AppTraces.RunPreservesInv` | app.py:38-147 | the invariant holds after any sequence of requests |
| `AppTraces.RunKeepsAccounts` | app.py:48-53 | along any sequence of requests, accounts keep their password and secret, and `mfa_active` and an enrolled face are never lost |
| `AppTraces.FaceOkSetOnlyByMatch` | app.py:117-121 | in one request, `face_ok` appears only through a verify-mode face match against the face stored for `temp_user` at that moment, and that request changes nothing else |
| `AppTraces.MfaVerifiedSetOnlyByOtp` | app.py:130-138 | in one request, `mfa_verified` appears only through a code accepted for `temp_user`, in a session already holding `face_ok`; that request copies `temp_user` into `user` |
| `AppTraces.AttemptStartsOnlyAtLogin` | app.py:84-92 | in one request, `temp_user` becomes a name only through a correct password for that name, whose TOTP factor is active, answered with a redirect to face authentication |
| `AppTraces.AttemptKept` | app.py:91-92 | a request that leaves `face_ok` or `mfa_verified` held does not change `temp_user`: only `login` (which clears the session) and `logout` touch it |
| `AppTraces.FaceOkKept` | app.py:121 | a request that leaves `face_ok` or `mfa_verified` held does not drop `face_ok` |
| `AppTraces.VerifiedKept` | app.py:137-138 | a request that leaves `mfa_verified` held keeps `user` and `temp_user` naming the same user |
| `AppTraces.FaceOkOnlyAfterMatch` | app.py:117-121 | if `face_ok` holds after a request sequence but not before, some request in it got a face match |
| `AppTraces.CodeStep` | app.py:130-138 | the last request that switched `mfa_verified` on (off before it, on after it and to the end) was a code accepted for `temp_user` with `face_ok` held; it set `user` to `temp_user`, and `mfa_verified` held from then on |
| `AppTraces.FaceStep` | app.py:117-121 | the last request before a given point that switched `face_ok` on (off before it, on after it up to that point) was a verify-mode match against `temp_user`'s stored face, and `face_ok` held from then on |
| `AppTraces.PasswordBeforeFace` | app.py:84-96 | a session that started outside any login attempt and is in `n`'s attempt entered it through a correct password for `n`, and stayed in it since |
| `AppTraces.FaceThenCode` | app.py:117-138 | a verified session got a face match and, later, an accepted code, with `face_ok` held in between |
| `AppTraces.AttemptToTheEnd` | app.py:91-92 | after the face match, the session stays in the same user's attempt and keeps `face_ok` to the end of the run |
| `AppTraces.VerifiedToTheEnd` | app.py:137-138 | after the accepted code, the session stays verified for that user to the end of the run |
| `AppTraces.VerifiedOnlyAfterPasswordFaceThenOtp` | app.py:84-138 | a session that starts outside any login attempt and ends verified got, in this order and within one attempt of one user `n`: a correct password for `n`, a match against the face stored for `n` at that moment, and a code accepted for `n`; `temp_user` is `n` in every state from the password on, so no login of another active user lies in between (a login of an inactive account, or a repeated login as `n`, may); `face_ok` holds from the match on, and `user` is `n` at the end |
| `AppTraces.EmptyNameNeverActivated` | app.py:61-62 | an account under the empty name stays inactive forever, because `if not username` reads an empty name as no enrolment in progress |
| `AppTraces.EnrolmentFlow` | app.py:40-115 | from an empty application, register, confirm the code, log in and enrol a face: this yields one active user with that face and a session holding only `temp_user` |
| `AppTraces.LoginFlow` | app.py:84-138 | an active user with an enrolled face reaches the page from any session with password, matching face and accepted code |
| `AppTraces.FullFlowReachesIndex` | app.py:32-138 | the full first-time flow, from registration to the code, ends on the protected page |
| `AppTraces.FaceOverwriteThenMatch` | app.py:113-121 | as written: a correct password, then register mode with a new image, then verify mode with the same image sets `face_ok` and stores the new face, whatever face was enrolled before |
| `AppModel.FaceAuthGuarded` | app.py:102-123 | as intended: register mode is refused, with nothing changed, exactly when the user already has a face; otherwise it answers as `face_auth`; an enrolled face is never replaced |
| `AppModel.StepGuarded` | app.py:38-147 | the handlers with the guarded `face_auth`: every enrolled face stays exactly as it is |
| `AppTraces.GuardedFaceNeverReplaced` | app.py:114-115 | with the guarded handler, no request sequence changes an enrolled face |
| `AppTraces.GuardedOverwriteRefused` | app.py:113-121 | with the guarded handler, the same three requests set `face_ok` exactly when the image matches the face enrolled before, which stays stored |
| `WebApp.App.constructor` | app.py:14 | starts with no users and an empty session, satisfying the invariant |
| `WebApp.App.Register` | app.py:40-55 | updates the table and session in place exactly as `AppModel.Register` says, keeping the invariant |
| `WebApp.App.SetupMfa` | app.py:60-72 | updates in place exactly as `AppModel.SetupMfa` says, keeping the invariant |
| `WebApp.App.Login` | app.py:81-97 | clears and refills the session in place exactly as `AppModel.Login` says, keeping the invariant |
| `WebApp.App.FaceAuth` | app.py:102-123 | updates in place exactly as `AppModel.FaceAuth` says, keeping the invariant |
| `WebApp.App.OtpVerify` | app.py:129-140 | updates in place exactly as `AppModel.OtpVerify` says, keeping the invariant |
| `WebApp.App.Index` | app.py:32-35 | answers as `AppModel.Index`; a served page shows the session's `temp_user` |
| `WebApp.App.Logout` | app.py:145-147 | clears the session as `AppModel.Logout` says, keeping the invariant |
| `Ecdsa.Utf8` | client_logic/secure_enclave.py:49 | `str.encode()` yields one to four bytes per character, and exactly the character codes for an ASCII string |
| `AuthEngine.VerifySignature` | server_logic/auth_engine.py:7-20 | for a correct scheme, accepts every signature made with the private key of the given public key over the UTF-8 bytes of the challenge |
| `SecureEnclave.LocalSecureEnclave.constructor` | client_logic/secure_enclave.py:7-8 | the enclave sees exactly the templates and keys already stored |
| `SecureEnclave.LocalSecureEnclave.Enroll` | client_logic/secure_enclave.py:10-31 | stores the template and the fresh key under the name, overwriting earlier ones; leaves other names unchanged; returns the public key of the stored key |
| `SecureEnclave.LocalSecureEnclave.Sign` | client_logic/secure_enclave.py:33-51 | denies when no template is stored, no face is found or the first face does not match; signs only on a match, with the stored key over the UTF-8 bytes of the challenge; reads the store without changing it |
| `SecureEnclave.SignatureVerifiesUnderEnrolledKey` | server_logic/auth_engine.py:7-17 | for a scheme where signatures verify under the matching public key, a signature the enclave releases verifies under the enrolled public key for that challenge |
| `SecureEnclave.EnrollThenSign` | client_logic/secure_enclave.py:10-51 | enrolling and then signing with a matching frame yields a signature the server accepts under the returned public key |

## Findings

| source | as written | input that shows it | evidently intended | confidence | as-written member | corrected member |
|---|---|---|---|---|---|---|
| app.py:113-115 | register mode of `face_auth` overwrites the stored face of any user whose password the session has passed, even when a face is already enrolled | an active user with an enrolled face: a correct `login`, then `face_auth/register` with another person's image, then `face_auth/verify` with the same image sets `face_ok` | register mode only when no face is stored, as `login` routes to it only then (app.py:94-95) | high; not executed | `AppTraces.FaceOverwriteThenMatch` | `AppModel.FaceAuthGuarded`, `AppTraces.GuardedFaceNeverReplaced`, `AppTraces.GuardedOverwriteRefused` |

## Left out

- Flask plumbing is left out: routing, templates, redirects, form and JSON parsing, and `app.run`. Each handler's outcome is a tagged `Response`.
- GET requests to `register`, `setup_mfa`, `login`, `face_auth` and `otp_verify` are left out. They only render a page (and, for `setup_mfa`, a QR code) and change no state.
- `generate_qr_base64` and `process_base64_image` are left out: presentation and base64/temporary-file I/O. `face_auth` receives the decoded image.
- face_recognition internals are left out. Encoding extraction and the 0.4-tolerance float comparison are the `FaceRecognizer` oracle.
- pyotp internals are left out. The RFC 6238 code computation is the `totpVerify` oracle, and `random_base32` is a parameter.
- Key generation, PEM/PKCS#8 serialisation and ECDSA arithmetic are left out. They are the `Scheme` oracle; loading a stored PEM key is taken to give back the same key.
- The storage directory is modelled as two maps keyed by user name, one per file kind. File-system errors and path-name collisions are left out.
- Missing form fields (`request.form.get` returning `None`) are left out. Names, passwords and codes are always strings.
- Only one client's session is modelled. Concurrent requests racing on `users_db` are left out.
- `mfa.py` and `test_com.py` are left out: camera capture loops and console I/O.
- The session is modelled as state that only the handlers write. Flask keeps it in a cookie held by the client and signed with the fixed key at app.py:10; replaying an earlier cookie (for example one from before `logout`) or forging one with that key is left out, and every trace lemma assumes neither happens.
- The handlers and `WebApp.App` model `face_auth` as written; the guarded handler of the finding above is used only by the lemmas that state the intended behaviour.
- Strings are sequences of Unicode scalar values. A Python `str` can also hold a lone surrogate, on which `challenge.encode()` raises: in `sign` after a face match (client_logic/secure_enclave.py:49), and in `verify_signature`, which then returns False (server_logic/auth_engine.py:14, 18-20). Such challenges and names are not represented, so `Ecdsa.Utf8` is total and `SecureEnclave.LocalSecureEnclave.Sign` always signs on a match with a stored key.
