/**
 * The signature scheme the enclave and the server share: ECDSA over the
 * P-256 curve with SHA-256. Key generation, PEM serialisation and the
 * arithmetic of the scheme are not modelled: a scheme is a triple of
 * functions, and `Correct` is the one law the rest of the model relies on.
 */
module Ecdsa {

  import opened Octets

  /** A private key as the enclave keeps it (PKCS#8, PEM, unencrypted). */
  type PrivateKey = Bytes

  /** A public key in SubjectPublicKeyInfo PEM form, decoded to text. */
  type PublicKeyPem = string

  type Signature = Bytes

  datatype Scheme = Scheme(
    publicKeyOf: PrivateKey -> PublicKeyPem,
    /** Signing also consumes the per-signature random value ECDSA draws. */
    sign: (PrivateKey, Bytes, Bytes) -> Signature,
    /** False on a malformed key or signature as well as on a mismatch. */
    verify: (PublicKeyPem, Signature, Bytes) -> bool)

  /** A signature made with a private key verifies under its public key. */
  ghost predicate Correct(s: Scheme)
  {
    forall k, m, nonce :: s.verify(s.publicKeyOf(k), s.sign(k, m, nonce), m)
  }

  /** The continuation byte `10xxxxxx` carrying the low six bits of `n`. */
  function Continuation(n: nat): (b: Byte)
  {
    (0x80 + n % 0x40) as Byte
  }

  /** UTF-8 encoding of one Unicode scalar value. */
  function Utf8Char(c: char): (r: Bytes)
    ensures 1 <= |r| <= 4
    ensures (c as int < 0x80) == (|r| == 1)
    ensures c as int < 0x80 ==> r[0] as int == c as int
  {
    var cp: nat := c as int;
    if cp < 0x80 then
      [cp as Byte]
    else if cp < 0x800 then
      [(0xC0 + cp / 0x40) as Byte, Continuation(cp)]
    else if cp < 0x1_0000 then
      [(0xE0 + cp / 0x1000) as Byte, Continuation(cp / 0x40), Continuation(cp)]
    else
      assert cp < 0x11_0000;
      [(0xF0 + cp / 0x4_0000) as Byte, Continuation(cp / 0x1000), Continuation(cp / 0x40), Continuation(cp)]
  }

  /** Python's `str.encode()`: the UTF-8 bytes of a string. */
  function Utf8(s: string): (r: Bytes)
    ensures |s| <= |r| <= 4 * |s|
    ensures (forall i :: 0 <= i < |s| ==> s[i] as int < 0x80) ==>
              |r| == |s| && forall i :: 0 <= i < |s| ==> r[i] as int == s[i] as int
  {
    if s == [] then [] else Utf8Char(s[0]) + Utf8(s[1..])
  }
}
