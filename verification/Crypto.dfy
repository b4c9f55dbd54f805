/** The cryptographic and text-encoding libraries the daemon calls, as function
    values constrained only by their functional laws. */
module Crypto {
  import opened Bits
  import opened Types

  const KEY_LEN: nat := 32
  const NONCE_LEN: nat := 12
  const AEAD_TAG_LEN: nat := 16
  const MLKEM_PK_LEN: nat := 1184
  const MLKEM_CT_LEN: nat := 1088
  const ED25519_SIG_LEN: nat := 64
  const MLDSA_SIG_LEN: nat := 3309
  const SIGNATURE_LEN: nat := ED25519_SIG_LEN + MLDSA_SIG_LEN

  type Key = b: Bytes | |b| == KEY_LEN witness Zeros(KEY_LEN)
  type KemKey = b: Bytes | |b| == MLKEM_PK_LEN witness Zeros(MLKEM_PK_LEN)
  type KemText = b: Bytes | |b| == MLKEM_CT_LEN witness Zeros(MLKEM_CT_LEN)
  type Signature = b: Bytes | |b| == SIGNATURE_LEN witness Zeros(SIGNATURE_LEN)

  datatype RawSuite = RawSuite(
    // ChaCha20-Poly1305: key, nonce, text, associated data
    encrypt: (Bytes, Bytes, Bytes, Bytes) -> Bytes,
    decrypt: (Bytes, Bytes, Bytes, Bytes) -> Option<Bytes>,
    // BLAKE3
    hash: Bytes -> Key,
    keyedHash: (Bytes, Bytes) -> Key,
    deriveKey: (string, Bytes) -> Key,
    // X25519: secret to public, and key agreement
    dhPublic: Key -> Key,
    dhShared: (Key, Key) -> Key,
    // ML-KEM-768: secret to public, encapsulation with its random coins
    kemPublic: Bytes -> KemKey,
    kemValid: KemKey -> bool,
    kemCiphertext: (KemKey, Bytes) -> KemText,
    kemSecret: (KemKey, Bytes) -> Key,
    kemDecapsulate: (Bytes, KemText) -> Key,
    // hybrid Ed25519 + ML-DSA signatures: secret to public, sign, verify
    sigPublic: Bytes -> Bytes,
    sign: (Bytes, Bytes) -> Signature,
    verify: (Bytes, Bytes, Signature) -> bool,
    // certificates: the node's public signing key, and validity for a CA at a time
    certKey: Cert -> Bytes,
    certValid: (Bytes, Cert, nat) -> bool,
    // text forms
    showIp: Ip -> Bytes,
    parseIp: Bytes -> Option<Ip>,
    showAddr: Addr -> Bytes,
    parseAddr: Bytes -> Option<Addr>,
    showCert: Cert -> Bytes,
    parseCert: Bytes -> Option<Cert>
  )

  /** Section 2.8 of RFC 8439: decryption undoes encryption; the tag is 16 bytes. */
  ghost predicate AeadLaws(s: RawSuite) {
    && (forall k, n, p, a :: s.decrypt(k, n, s.encrypt(k, n, p, a), a) == Some(p))
    && (forall k, n, p, a :: |s.encrypt(k, n, p, a)| == |p| + AEAD_TAG_LEN)
  }

  /** Section 6.1 of RFC 7748: both sides compute the same shared secret. */
  ghost predicate DhLaws(s: RawSuite) {
    forall a, b {:trigger s.dhShared(a, s.dhPublic(b))} ::
      s.dhShared(a, s.dhPublic(b)) == s.dhShared(b, s.dhPublic(a))
  }

  /** FIPS 203: decapsulation undoes encapsulation. */
  ghost predicate KemLaws(s: RawSuite) {
    && (forall sk :: s.kemValid(s.kemPublic(sk)))
    && (forall sk, coins {:trigger s.kemCiphertext(s.kemPublic(sk), coins)} ::
          s.kemDecapsulate(sk, s.kemCiphertext(s.kemPublic(sk), coins)) == s.kemSecret(s.kemPublic(sk), coins))
  }

  ghost predicate SignatureLaws(s: RawSuite) {
    forall sk, m :: s.verify(s.sigPublic(sk), m, s.sign(sk, m))
  }

  ghost predicate TextLaws(s: RawSuite) {
    && (forall x :: s.parseIp(s.showIp(x)) == Some(x))
    && (forall x :: s.parseAddr(s.showAddr(x)) == Some(x))
    && (forall x :: s.parseCert(s.showCert(x)) == Some(x))
  }

  ghost predicate Lawful(s: RawSuite) {
    AeadLaws(s) && DhLaws(s) && KemLaws(s) && SignatureLaws(s) && TextLaws(s)
  }

  type Suite = s: RawSuite | Lawful(s) ghost witness TrivialSuite()

  function Zeros(n: nat): (z: Bytes)
    ensures |z| == n
  {
    seq(n, _ => 0)
  }

  ghost function ZeroSuite(): RawSuite {
    RawSuite(
      (k, n, p, a) => p + Zeros(AEAD_TAG_LEN),
      (k, n, c, a) => if |c| < AEAD_TAG_LEN then None else Some(c[..|c| - AEAD_TAG_LEN]),
      d => Zeros(KEY_LEN),
      (k, d) => Zeros(KEY_LEN),
      (l, d) => Zeros(KEY_LEN),
      a => Zeros(KEY_LEN),
      (a, b) => Zeros(KEY_LEN),
      sk => Zeros(MLKEM_PK_LEN),
      pk => true,
      (pk, coins) => Zeros(MLKEM_CT_LEN),
      (pk, coins) => Zeros(KEY_LEN),
      (sk, ct) => Zeros(KEY_LEN),
      sk => Zeros(KEY_LEN),
      (sk, m) => Zeros(SIGNATURE_LEN),
      (vk, m, g) => true,
      c => Zeros(KEY_LEN),
      (ca, c, now) => true,
      (ip: Ip) => match ip case V4(n) => Zeros(2 * n) case V6(n) => Zeros(2 * n + 1),
      t => if |t| % 2 == 1 then Some(V6(|t| / 2))
           else if |t| / 2 < U32_RANGE then Some(V4(|t| / 2)) else None,
      (a: Addr) => Zeros(a.endpoint),
      t => Some(Addr(|t|)),
      (c: Cert) => Zeros(c.serial),
      t => Some(Cert(|t|)))
  }

  lemma ZeroAead()
    ensures AeadLaws(ZeroSuite())
  {
    var s := ZeroSuite();
    forall k, n, p, a
      ensures s.decrypt(k, n, s.encrypt(k, n, p, a), a) == Some(p)
    {
      assert (p + Zeros(AEAD_TAG_LEN))[..|p|] == p;
    }
  }

  lemma ZeroTexts()
    ensures TextLaws(ZeroSuite())
  {
    var s := ZeroSuite();
    forall x
      ensures s.parseIp(s.showIp(x)) == Some(x)
    {
      match x
      case V4(n) =>
        assert s.showIp(x) == Zeros(2 * n);
      case V6(n) =>
        assert s.showIp(x) == Zeros(2 * n + 1);
    }
    forall x
      ensures s.parseAddr(s.showAddr(x)) == Some(x)
    {
      assert s.showAddr(x) == Zeros(x.endpoint);
    }
    forall x
      ensures s.parseCert(s.showCert(x)) == Some(x)
    {
      assert s.showCert(x) == Zeros(x.serial);
    }
  }

  lemma ZeroKeys()
    ensures DhLaws(ZeroSuite()) && KemLaws(ZeroSuite()) && SignatureLaws(ZeroSuite())
  {}

  /** The laws are consistent: this (useless) suite obeys them all. */
  ghost function TrivialSuite(): (s: RawSuite)
    ensures Lawful(s)
  {
    ZeroAead();
    ZeroTexts();
    ZeroKeys();
    ZeroSuite()
  }
}
