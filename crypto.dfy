/** The cryptographic primitives and the text codec the service calls from
    Python's standard library and the `cryptography` package. They are not
    modelled bit by bit: each is a function-typed field of a `Crypto` bundle,
    and the few facts the proofs need about them (UTF-8 decodes what it
    encoded, output lengths, AES-GCM opens what it sealed) are predicates
    that callers must establish. */
module Crypto {
  import opened Common

  datatype Crypto = Crypto(
    /** `str.encode('utf-8')` */
    utf8: string -> Bytes,
    /** `bytes.decode('utf-8')`; None where Python raises UnicodeDecodeError */
    fromUtf8: Bytes -> Option<string>,
    /** HMAC-SHA256 of RFC 2104: key, message */
    hmacSha256: (Bytes, Bytes) -> Bytes,
    /** SHA-256 digest */
    sha256: Bytes -> Bytes,
    /** PBKDF2-HMAC-SHA256 of section 5.2 of RFC 8018: password, salt, iterations, length */
    pbkdf2: (Bytes, Bytes, nat, nat) -> Bytes,
    /** HKDF-SHA256 of RFC 5869: salt, input key material, info, length */
    hkdf: (Bytes, Bytes, Bytes, nat) -> Bytes,
    /** AES-GCM encryption: key, nonce, plaintext; the result ends with the 16-byte tag */
    gcmSeal: (Bytes, Bytes, Bytes) -> Bytes,
    /** AES-GCM decryption: key, nonce, ciphertext and tag; None when the tag does not verify */
    gcmOpen: (Bytes, Bytes, Bytes) -> Option<Bytes>,
    /** ECDH on P-256: own private scalar, peer's uncompressed public point */
    ecdh: (nat, Bytes) -> Bytes,
    /** ECDSA on P-256 with SHA-256: private scalar, message; the integers r and s */
    ecdsaSign: (nat, Bytes) -> (nat, nat),
    /** `derive_private_key` accepts this scalar */
    ecPrivateValid: nat -> bool,
    /** the uncompressed public point (X9.62) of a private scalar */
    ecPublic: nat -> Bytes,
    /** `EllipticCurvePublicKey.from_encoded_point` accepts these bytes */
    ecPointValid: Bytes -> bool
  )

  /** UTF-8 decoding inverts encoding, so text survives `encode`/`decode`;
      and every character takes at least one byte. */
  ghost predicate Utf8RoundTrip(c: Crypto) {
    forall s: string {:trigger c.utf8(s)} :: c.fromUtf8(c.utf8(s)) == Some(s) && |c.utf8(s)| >= |s|
  }

  /** HMAC-SHA256 and SHA-256 produce 32-byte digests. */
  ghost predicate DigestLengths(c: Crypto) {
    (forall k: Bytes, m: Bytes {:trigger c.hmacSha256(k, m)} :: |c.hmacSha256(k, m)| == 32)
    && (forall m: Bytes {:trigger c.sha256(m)} :: |c.sha256(m)| == 32)
  }

  /** The key-derivation functions return the number of bytes asked for. */
  ghost predicate KdfLengths(c: Crypto) {
    (forall p: Bytes, s: Bytes, i: nat, n: nat {:trigger c.pbkdf2(p, s, i, n)} :: |c.pbkdf2(p, s, i, n)| == n)
    && (forall s: Bytes, k: Bytes, i: Bytes, n: nat {:trigger c.hkdf(s, k, i, n)} :: |c.hkdf(s, k, i, n)| == n)
  }

  /** AES-GCM appends a 16-byte tag, and opening with the same key and nonce
      gives back the plaintext. */
  ghost predicate GcmSound(c: Crypto) {
    forall k: Bytes, n: Bytes, p: Bytes {:trigger c.gcmSeal(k, n, p)} ::
      |c.gcmSeal(k, n, p)| == |p| + 16 && c.gcmOpen(k, n, c.gcmSeal(k, n, p)) == Some(p)
  }

  /** P-256 public points are 65 bytes uncompressed, and ECDSA's r and s
      are below the group order, so each fits in 32 bytes. */
  ghost predicate CurveSizes(c: Crypto) {
    (forall k: nat {:trigger c.ecPublic(k)} :: |c.ecPublic(k)| == 65)
    && (forall k: nat, m: Bytes {:trigger c.ecdsaSign(k, m)} ::
          c.ecdsaSign(k, m).0 < Pow256(32)
          && c.ecdsaSign(k, m).1 < Pow256(32))
  }
}
