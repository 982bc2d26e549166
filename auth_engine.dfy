/** The server-side verifier `ServerAuthEngine.verify_signature`. */
module AuthEngine {

  import opened Ecdsa

  /**
   * Whether `signature` is a valid signature over the UTF-8 bytes of
   * `challenge` under the given public key. The scheme's `verify` already
   * answers false for a key or signature that cannot be parsed, which is
   * where the source catches every exception and returns False. For a
   * correct scheme it accepts every signature made over the challenge with
   * the private key matching the public key.
   */
  function VerifySignature(s: Scheme, publicKeyPem: PublicKeyPem, signature: Signature, challenge: string): (ok: bool)
    ensures Correct(s) && (exists k, nonce :: publicKeyPem == s.publicKeyOf(k) && signature == s.sign(k, Utf8(challenge), nonce))
            ==> ok
  {
    s.verify(publicKeyPem, signature, Utf8(challenge))
  }
}
