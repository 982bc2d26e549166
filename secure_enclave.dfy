/**
 * `LocalSecureEnclave`: the client-side store that keeps, per user name, a
 * face template and a private signing key, and signs a challenge only
 * after a fresh camera frame matches the stored template.
 */
module SecureEnclave {

  import opened FaceRecognition
  import opened Octets
  import opened Ecdsa
  import AuthEngine

  type Username = string

  /** The outcome of `sign`. */
  datatype SignResult =
    | Denied                      // `None`: no template, no face, or no match
    | Signed(signature: Signature)
    | KeyFileMissing              // the key file cannot be opened: an exception

  class LocalSecureEnclave {

    const face: FaceRecognizer
    const scheme: Scheme

    /** The `<username>_face.npy` files under the storage directory. */
    var templates: map<Username, Encoding>

    /** The `<username>_priv.pem` files under the storage directory. */
    var privateKeys: map<Username, PrivateKey>

    /** Every stored template has its private key beside it. */
    ghost predicate Paired()
      reads this
    {
      templates.Keys <= privateKeys.Keys
    }

    /** Opens the storage directory with whatever files it already holds. */
    constructor (face: FaceRecognizer, scheme: Scheme,
                 templatesOnDisk: map<Username, Encoding>, keysOnDisk: map<Username, PrivateKey>)
      ensures this.face == face && this.scheme == scheme
      ensures templates == templatesOnDisk && privateKeys == keysOnDisk
    {
      this.face := face;
      this.scheme := scheme;
      templates := templatesOnDisk;
      privateKeys := keysOnDisk;
    }

    /**
     * Stores the template, then a freshly generated private key, under the
     * user name (replacing any earlier files), and returns the public key
     * of that same key.
     */
    method Enroll(username: Username, faceEncoding: Encoding, freshKey: PrivateKey)
      returns (publicKey: PublicKeyPem)
      modifies this
      ensures templates == old(templates)[username := faceEncoding]
      ensures privateKeys == old(privateKeys)[username := freshKey]
      ensures publicKey == scheme.publicKeyOf(privateKeys[username])
      ensures old(Paired()) ==> Paired()
    {
      templates := templates[username := faceEncoding];
      privateKeys := privateKeys[username := freshKey];
      publicKey := scheme.publicKeyOf(freshKey);
    }

    /** The first face found in `frame` matches the template stored for `username`. */
    predicate FaceMatches(username: Username, frame: Image)
      reads this
    {
      var encodings := face.faceEncodings(frame);
      username in templates && |encodings| > 0 && face.matches(templates[username], encodings[0])
    }

    /**
     * Signs the UTF-8 bytes of `challenge` with the stored private key,
     * but only when the frame's first face matches the stored template;
     * `nonce` is the random value ECDSA draws for this signature. The
     * stored files are only read.
     */
    function Sign(username: Username, frame: Image, challenge: string, nonce: Bytes): (r: SignResult)
      reads this
      ensures !FaceMatches(username, frame) ==> r == Denied
      ensures r.Signed? <==> FaceMatches(username, frame) && username in privateKeys
      ensures r.Signed? ==> r.signature == scheme.sign(privateKeys[username], Utf8(challenge), nonce)
      ensures r.KeyFileMissing? <==> FaceMatches(username, frame) && username !in privateKeys
      ensures Paired() ==> !r.KeyFileMissing?
    {
      if username !in templates then
        Denied
      else
        var encodings := face.faceEncodings(frame);
        if |encodings| > 0 && face.matches(templates[username], encodings[0]) then
          if username in privateKeys then
            Signed(scheme.sign(privateKeys[username], Utf8(challenge), nonce))
          else
            KeyFileMissing
        else
          Denied
    }
  }

  /**
   * A signature the enclave releases for an enrolled user verifies on the
   * server against the public key enrolment returned, for exactly the
   * challenge that was signed.
   */
  lemma SignatureVerifiesUnderEnrolledKey(e: LocalSecureEnclave, username: Username, frame: Image,
                                          challenge: string, nonce: Bytes, publicKey: PublicKeyPem)
    requires Correct(e.scheme)
    requires username in e.privateKeys && publicKey == e.scheme.publicKeyOf(e.privateKeys[username])
    requires e.FaceMatches(username, frame)
    ensures e.Sign(username, frame, challenge, nonce).Signed?
    ensures AuthEngine.VerifySignature(e.scheme, publicKey, e.Sign(username, frame, challenge, nonce).signature, challenge)
  {
  }

  /**
   * Enrolment followed by signing with a frame whose first face matches
   * the enrolled template: the enclave signs, and the server accepts the
   * signature under the public key enrolment returned.
   */
  method EnrollThenSign(e: LocalSecureEnclave, username: Username, faceEncoding: Encoding,
                        freshKey: PrivateKey, frame: Image, challenge: string, nonce: Bytes)
    returns (publicKey: PublicKeyPem, r: SignResult)
    requires Correct(e.scheme)
    requires |e.face.faceEncodings(frame)| > 0 && e.face.matches(faceEncoding, e.face.faceEncodings(frame)[0])
    modifies e
    ensures r.Signed? && AuthEngine.VerifySignature(e.scheme, publicKey, r.signature, challenge)
  {
    publicKey := e.Enroll(username, faceEncoding, freshKey);
    r := e.Sign(username, frame, challenge, nonce);
    SignatureVerifiesUnderEnrolledKey(e, username, frame, challenge, nonce, publicKey);
  }
}
