/** The two handshake messages: their layout, how they are sealed with the network
    key, and the key agreement between initiator and responder. */
module Handshake {
  import opened Bits
  import opened Types
  import opened Crypto
  import opened Reading
  import opened Packet

  const HANDSHAKE_VERSION: Byte := 2
  const FLAG_RELAY: nat := 1
  const MAX_CLOCK_SKEW_SECS: nat := 300
  const FRAG_PREFIX_LEN: nat := 7

  // ------------------------------------------------ sealing with the network key

  predicate IsFragment(plaintext: Bytes) {
    |plaintext| >= FRAG_PREFIX_LEN && plaintext[0] == KIND_HANDSHAKE_FRAG
  }

  /** A fragment's prefix travels in the header; anything else travels whole. */
  function HeaderAndPayload(plaintext: Bytes): (NetworkHeader, Bytes) {
    Widths();
    if IsFragment(plaintext) then
      (NetworkHeader(KIND_HANDSHAKE_FRAG, plaintext[5], plaintext[6], 0, FromBe(plaintext[1..5])),
       plaintext[FRAG_PREFIX_LEN..])
    else
      (NetworkHeader(if plaintext == [] then 0 else plaintext[0], 0, 0, 0, 0), plaintext)
  }

  function SealWithHeader(s: RawSuite, networkKey: Bytes, plaintext: Bytes, dst: Id, sessionId: u32,
                          maskNonce: MaskNonce, nonce: Nonce): Bytes
  {
    var (header, payload) := HeaderAndPayload(plaintext);
    var masked := MaskedHeader(s, header.(dstPeerId := dst, sessionId := sessionId), maskNonce, networkKey);
    maskNonce + masked + nonce + s.encrypt(networkKey, nonce, payload, maskNonce + masked)
  }

  function SealToPeer(s: RawSuite, networkKey: Bytes, plaintext: Bytes, dst: Id,
                      maskNonce: MaskNonce, nonce: Nonce): Bytes
  {
    Widths();
    var sessionId := if IsFragment(plaintext) then FromBe(plaintext[1..5]) else 0;
    SealWithHeader(s, networkKey, plaintext, dst, sessionId, maskNonce, nonce)
  }

  /** What `open_handshake` makes of a decrypted payload and its header. */
  function Reopened(header: NetworkHeader, payload: Bytes): Option<Bytes> {
    if header.kind == KIND_HANDSHAKE_FRAG then
      if header.fragTotal == 0 || header.fragIndex >= header.fragTotal then None
      else Some([KIND_HANDSHAKE_FRAG] + Be(header.sessionId, 4) + [header.fragIndex, header.fragTotal] + payload)
    else if header.fragIndex != 0 || header.fragTotal != 0 then None
    else if payload == [] || payload[0] != header.kind then None
    else Some(payload)
  }

  /** The header and payload inside a sealed datagram, if it is genuine. */
  function Unsealed(s: RawSuite, networkKey: Bytes, data: Bytes): Option<(NetworkHeader, Bytes)> {
    match Deserialize(data)
    case None => None
    case Some(p) =>
      match UnmaskPacketHeader(s, p, networkKey)
      case None => None
      case Some(header) =>
        match s.decrypt(networkKey, p.nonce, p.ciphertext, PacketAad(p))
        case None => None
        case Some(payload) => Some((header, payload))
  }

  function OpenHandshake(s: RawSuite, networkKey: Bytes, data: Bytes): Option<Bytes> {
    match Unsealed(s, networkKey, data)
    case None => None
    case Some((header, payload)) => Reopened(header, payload)
  }

  lemma OpenInvertsSeal(s: RawSuite, networkKey: Bytes, plaintext: Bytes, dst: Id, sessionId: u32,
                        maskNonce: MaskNonce, nonce: Nonce)
    requires AeadLaws(s)
    requires KnownKind(HeaderAndPayload(plaintext).0.kind)
    ensures var (header, payload) := HeaderAndPayload(plaintext);
            var sealed := SealWithHeader(s, networkKey, plaintext, dst, sessionId, maskNonce, nonce);
            && |sealed| == PACKET_OVERHEAD + |payload|
            && OpenHandshake(s, networkKey, sealed)
               == Reopened(header.(dstPeerId := dst, sessionId := sessionId), payload)
            && Deserialize(sealed).Some?
            && UnmaskPacketHeader(s, Deserialize(sealed).value, networkKey)
               == Some(header.(dstPeerId := dst, sessionId := sessionId))
  {
    var (h, payload) := HeaderAndPayload(plaintext);
    var header := h.(dstPeerId := dst, sessionId := sessionId);
    var masked := MaskedHeader(s, header, maskNonce, networkKey);
    var p := DataPacket(maskNonce, masked, nonce, s.encrypt(networkKey, nonce, payload, maskNonce + masked));
    assert SealWithHeader(s, networkKey, plaintext, dst, sessionId, maskNonce, nonce) == Serialize(p);
    DeserializeInvertsSerialize(p);
    UnmaskInvertsMask(s, header, maskNonce, networkKey);
  }

  /** Header and payload are what sealing this plaintext puts into a datagram. */
  predicate SealedAs(header: NetworkHeader, payload: Bytes, plaintext: Bytes) {
    var (h, body) := HeaderAndPayload(plaintext);
    && (h.kind, h.fragIndex, h.fragTotal) == (header.kind, header.fragIndex, header.fragTotal)
    && (header.kind == KIND_HANDSHAKE_FRAG ==> h.sessionId == header.sessionId && h.fragIndex < h.fragTotal)
    && body == payload
  }

  lemma ReopenedExactly(header: NetworkHeader, payload: Bytes, plaintext: Bytes)
    requires KnownKind(header.kind)
    ensures Reopened(header, payload) == Some(plaintext) <==> SealedAs(header, payload, plaintext)
  {
    if header.kind == KIND_HANDSHAKE_FRAG {
      var prefix := [KIND_HANDSHAKE_FRAG] + Be(header.sessionId, 4) + [header.fragIndex, header.fragTotal];
      var whole := prefix + payload;
      assert whole[1..5] == Be(header.sessionId, 4) && whole[FRAG_PREFIX_LEN..] == payload;
      Widths();
      FromBeInvertsBe(header.sessionId, 4);
      if SealedAs(header, payload, plaintext) {
        BeInvertsFromBe(plaintext[1..5]);
        assert plaintext == plaintext[..1] + plaintext[1..5] + plaintext[5..7] + plaintext[7..];
        assert plaintext == whole;
      }
    }
  }

  /** A datagram opens to a plaintext exactly when it is genuine and sealing that plaintext
      gives its header and payload; a fragment's index must be below its count. */
  lemma OpensExactly(s: RawSuite, networkKey: Bytes, data: Bytes, plaintext: Bytes)
    ensures OpenHandshake(s, networkKey, data) == Some(plaintext) <==>
            var unsealed := Unsealed(s, networkKey, data);
            unsealed.Some? && SealedAs(unsealed.value.0, unsealed.value.1, plaintext)
  {
    var unsealed := Unsealed(s, networkKey, data);
    if unsealed.Some? {
      ReopenedExactly(unsealed.value.0, unsealed.value.1, plaintext);
    }
  }

  // ------------------------------------------------ message layout

  /** The fields both messages start with. */
  datatype Preamble = Preamble(relay: bool, time: u64, random: Bytes, rxSessionId: u32, ephemeral: Key)

  function PreambleBytes(kind: Byte, p: Preamble): Bytes {
    PreambleWith(kind, if p.relay then FLAG_RELAY else 0, p)
  }

  /** A preamble with any flags in its sixteen-bit field. */
  function PreambleWith(kind: Byte, flags: nat, p: Preamble): Bytes {
    [kind] + [HANDSHAKE_VERSION] + Be(flags, 2) + Be(p.time, 8) + p.random + Be(p.rxSessionId, 4) + p.ephemeral
  }

  predicate TimestampAllowed(time: nat, now: nat) {
    now <= time + MAX_CLOCK_SKEW_SECS && time <= now + MAX_CLOCK_SKEW_SECS
  }

  /** The session id and the ephemeral key that follow the sixteen random bytes. */
  function TakeIdentity(data: Bytes): (r: Option<(u32, Key, Bytes)>)
    ensures r.Some? ==> |r.value.2| <= |data|
  {
    Widths();
    match TakeUint(data, 4)
    case None => None
    case Some((id, afterId)) =>
      match TakeBytes(afterId, KEY_LEN)
      case None => None
      case Some((ephemeral, rest)) => Some((id, ephemeral, rest))
  }

  function TakePreamble(kind: Byte, now: nat, data: Bytes): (r: Option<(Preamble, Bytes)>)
    ensures r.Some? ==> |r.value.1| <= |data|
  {
    Widths();
    match TakeUint(data, 1)
    case None => None
    case Some((k, afterKind)) =>
      if k != kind as nat then None else
      match TakeUint(afterKind, 1)
      case None => None
      case Some((version, afterVersion)) =>
        if version != HANDSHAKE_VERSION as nat then None else
        match TakeUint(afterVersion, 2)
        case None => None
        case Some((flags, afterFlags)) =>
          match TakeUint(afterFlags, 8)
          case None => None
          case Some((time, afterTime)) =>
            if !TimestampAllowed(time, now) then None else
            match TakeBytes(afterTime, 16)
            case None => None
            case Some((random, afterRandom)) =>
              match TakeIdentity(afterRandom)
              case None => None
              case Some((id, ephemeral, rest)) =>
                Some((Preamble(flags % 2 == FLAG_RELAY, time, random, id, ephemeral), rest))
  }

  lemma TakeIdentityInverts(id: u32, ephemeral: Key, rest: Bytes)
    ensures TakeIdentity(Be(id, 4) + (ephemeral + rest)) == Some((id, ephemeral, rest))
  {
    TakeU32(id, ephemeral + rest);
    TakePrefix(ephemeral, rest);
  }

  /** Clocks may differ by at most 300 s, either way. */
  lemma SkewIsExact(time: nat, now: nat)
    ensures TimestampAllowed(time, now) <==> -300 <= time - now <= 300
  {}

  /** A preamble with whatever flags is read back exactly when its timestamp is within the
      clock skew; the sender is a relay exactly when the lowest flag is set. */
  lemma TakePreambleWithFlags(kind: Byte, flags: nat, now: nat, p: Preamble, rest: Bytes)
    requires |p.random| == 16 && flags < 0x1_0000
    ensures TakePreamble(kind, now, PreambleWith(kind, flags, p) + rest)
            == if -300 <= p.time - now <= 300 then Some((p.(relay := Bit(flags, 0)), rest)) else None
  {
    var identity := Be(p.rxSessionId, 4) + (p.ephemeral + rest);
    var afterTime := p.random + identity;
    var afterFlags := Be(p.time, 8) + afterTime;
    var afterVersion := Be(flags, 2) + afterFlags;
    var afterKind := [HANDSHAKE_VERSION] + afterVersion;
    assert PreambleWith(kind, flags, p) + rest == [kind] + afterKind;
    TakeU8(kind, afterKind);
    TakeU8(HANDSHAKE_VERSION, afterVersion);
    Widths();
    TakeUintInverts(flags, 2, afterFlags);
    TakeU64(p.time, afterTime);
    TakePrefix(p.random, identity);
    TakeIdentityInverts(p.rxSessionId, p.ephemeral, rest);
  }

  /** A preamble is read back exactly when its timestamp is within the clock skew. */
  lemma TakePreambleInverts(kind: Byte, now: nat, p: Preamble, rest: Bytes)
    requires |p.random| == 16
    ensures TakePreamble(kind, now, PreambleBytes(kind, p) + rest)
            == if TimestampAllowed(p.time, now) then Some((p, rest)) else None
  {
    TakePreambleWithFlags(kind, if p.relay then FLAG_RELAY else 0, now, p, rest);
    SkewIsExact(p.time, now);
  }

  /** The certificate and the signature over everything before it close both messages. */
  function TakeAuthentication(s: RawSuite, ca: Bytes, now: nat, whole: Bytes, data: Bytes): Option<Cert>
    requires |data| <= |whole|
  {
    match TakeVec(data)
    case None => None
    case Some((certText, afterCert)) =>
      match s.parseCert(certText)
      case None => None
      case Some(cert) =>
        assert |afterCert| <= |whole|;
        var signed := whole[..|whole| - |afterCert|];
        match TakeBytes(afterCert, SIGNATURE_LEN)
        case None => None
        case Some((signature, _)) =>
          if s.certValid(ca, cert, now) && s.verify(s.certKey(cert), signed, signature) then Some(cert) else None
  }

  function Authenticated(s: RawSuite, signingKey: Bytes, cert: Cert, fields: Bytes, padding: Bytes): Bytes {
    var signed := fields + PutVec(s.showCert(cert));
    signed + s.sign(signingKey, signed) + padding
  }

  /** An honest signature under the key of the certificate it comes with is accepted
      exactly when that certificate is valid; the padding plays no part. */
  lemma TakeAuthenticationInverts(s: RawSuite, ca: Bytes, now: nat, signingKey: Bytes, cert: Cert,
                                  fields: Bytes, padding: Bytes)
    requires SignatureLaws(s) && TextLaws(s)
    requires s.certKey(cert) == s.sigPublic(signingKey) && |s.showCert(cert)| < U32_RANGE
    ensures var whole := Authenticated(s, signingKey, cert, fields, padding);
            && |fields| <= |whole| && whole[..|fields|] == fields
            && TakeAuthentication(s, ca, now, whole, whole[|fields|..])
               == if s.certValid(ca, cert, now) then Some(cert) else None
  {
    var certField := PutVec(s.showCert(cert));
    var signed := fields + certField;
    var signature := s.sign(signingKey, signed);
    Layout(fields, certField, signature, padding);
    TakeVecInverts(s.showCert(cert), signature + padding);
    TakePrefix(signature, padding);
  }

  lemma Layout(fields: Bytes, certField: Bytes, signature: Bytes, padding: Bytes)
    ensures var whole := fields + certField + signature + padding;
            var afterCert := signature + padding;
            && whole[..|fields|] == fields
            && whole[|fields|..] == certField + afterCert
            && whole[..|whole| - |afterCert|] == fields + certField
  {
    var whole := fields + certField + signature + padding;
    assert whole == fields + (certField + (signature + padding));
  }

  // ------------------------------------------------ the exchange

  /** What one end brings to an exchange: its identity, its clock, its random choices. */
  datatype Party = Party(
    cert: Cert, signingKey: Bytes, relay: bool, now: u64, random: Bytes, rxSessionId: u32,
    dhSecret: Key, padding: Bytes, maskNonce: MaskNonce, nonce: Nonce)

  function PartyPreamble(s: RawSuite, p: Party): Preamble {
    Preamble(p.relay, p.now, p.random, p.rxSessionId, s.dhPublic(p.dhSecret))
  }

  datatype Initiate = Initiate(msg: Bytes, dhSecret: Key, kemSecretKey: Bytes, rxSessionId: u32)

  /** A completed handshake as either end records it. */
  datatype Completed = Completed(peerCert: Cert, sessionKey: Key, peerIsRelay: bool,
                                 myRxSessionId: u32, peerRxSessionId: u32)

  function Fields1(s: RawSuite, p: Party, kemSecretKey: Bytes): Bytes {
    PreambleBytes(KIND_HANDSHAKE_1, PartyPreamble(s, p)) + s.kemPublic(kemSecretKey)
  }

  function CreateHandshake1(s: RawSuite, p: Party, kemSecretKey: Bytes, networkKey: Bytes): Initiate {
    var plaintext := Authenticated(s, p.signingKey, p.cert, Fields1(s, p, kemSecretKey), p.padding);
    Initiate(SealWithHeader(s, networkKey, plaintext, 0, p.rxSessionId, p.maskNonce, p.nonce),
             p.dhSecret, kemSecretKey, p.rxSessionId)
  }

  const MIN_HANDSHAKE_1: nat := 64 + MLKEM_PK_LEN + 4 + SIGNATURE_LEN
  const MIN_HANDSHAKE_2: nat := 64 + MLKEM_CT_LEN + 32 + 4 + SIGNATURE_LEN

  function ParseHandshake1(s: RawSuite, data: Bytes, ca: Bytes, now: nat): Option<(Preamble, KemKey, Cert)> {
    if |data| < MIN_HANDSHAKE_1 then None else
    match TakePreamble(KIND_HANDSHAKE_1, now, data)
    case None => None
    case Some((p, afterPreamble)) =>
      match TakeBytes(afterPreamble, MLKEM_PK_LEN)
      case None => None
      case Some((kemKey, rest)) =>
        match TakeAuthentication(s, ca, now, data, rest)
        case None => None
        case Some(cert) => Some((p, kemKey, cert))
  }

  function ParseHandshake2(s: RawSuite, data: Bytes, request: Bytes, ca: Bytes, now: nat)
    : Option<(Preamble, KemText, Cert)>
  {
    if |data| < MIN_HANDSHAKE_2 then None else
    match TakePreamble(KIND_HANDSHAKE_2, now, data)
    case None => None
    case Some((p, afterPreamble)) =>
      match TakeBytes(afterPreamble, MLKEM_CT_LEN)
      case None => None
      case Some((kemText, afterText)) =>
        match TakeBytes(afterText, KEY_LEN)
        case None => None
        case Some((digest, rest)) =>
          if digest != s.hash(request) then None else
          match TakeAuthentication(s, ca, now, data, rest)
          case None => None
          case Some(cert) => Some((p, kemText, cert))
  }

  function DeriveSession(s: RawSuite, dhShared: Key, kemShared: Key, msg1: Bytes, msg2: Bytes): Key {
    s.deriveKey("liteway-session-v2", dhShared + kemShared + s.hash(msg1) + s.hash(msg2))
  }

  function Fields2(s: RawSuite, p: Party, kemText: KemText, request: Bytes): Bytes {
    PreambleBytes(KIND_HANDSHAKE_2, PartyPreamble(s, p)) + kemText + s.hash(request)
  }

  /** A handshake_2 to `request`, addressed to the initiator's session id. */
  function SealedReply(s: RawSuite, p: Party, kemText: KemText, request: Bytes, sessionId: u32, networkKey: Bytes)
    : Bytes
  {
    var reply := Authenticated(s, p.signingKey, p.cert, Fields2(s, p, kemText, request), p.padding);
    SealWithHeader(s, networkKey, reply, 0, sessionId, p.maskNonce, p.nonce)
  }

  function ProcessHandshake1(s: RawSuite, data: Bytes, p: Party, coins: Bytes, networkKey: Bytes, ca: Bytes)
    : Option<(Bytes, Completed)>
  {
    match OpenHandshake(s, networkKey, data)
    case None => None
    case Some(plaintext) =>
      match ParseHandshake1(s, plaintext, ca, p.now)
      case None => None
      case Some((peer, kemKey, cert)) =>
        if !s.kemValid(kemKey) then None else
        var msg := SealedReply(s, p, s.kemCiphertext(kemKey, coins), data, peer.rxSessionId, networkKey);
        var key := DeriveSession(s, s.dhShared(p.dhSecret, peer.ephemeral), s.kemSecret(kemKey, coins), data, msg);
        Some((msg, Completed(cert, key, peer.relay, p.rxSessionId, peer.rxSessionId)))
  }

  function ProcessHandshake2(s: RawSuite, data: Bytes, initiate: Initiate, networkKey: Bytes, ca: Bytes, now: nat)
    : Option<Completed>
  {
    match OpenHandshake(s, networkKey, data)
    case None => None
    case Some(plaintext) =>
      match ParseHandshake2(s, plaintext, initiate.msg, ca, now)
      case None => None
      case Some((peer, kemText, cert)) =>
        var key := DeriveSession(s, s.dhShared(initiate.dhSecret, peer.ephemeral),
                                 s.kemDecapsulate(initiate.kemSecretKey, kemText), initiate.msg, data);
        Some(Completed(cert, key, peer.relay, initiate.rxSessionId, peer.rxSessionId))
  }

  /** The key for packets from `src` to `dst` under one session key. */
  function TrafficKey(s: RawSuite, sessionKey: Key, src: Id, dst: Id): Key {
    s.deriveKey("liteway-traffic-key-v2", sessionKey + Be(src, 4) + Be(dst, 4))
  }

  function TxKey(s: RawSuite, sessionKey: Key, ourId: Id, peerId: Id): Key {
    TrafficKey(s, sessionKey, ourId, peerId)
  }

  function RxKey(s: RawSuite, sessionKey: Key, ourId: Id, peerId: Id): Key {
    TrafficKey(s, sessionKey, peerId, ourId)
  }

  /** A party that holds the key of its certificate. */
  ghost predicate Honest(s: RawSuite, p: Party) {
    && s.certKey(p.cert) == s.sigPublic(p.signingKey)
    && |s.showCert(p.cert)| < U32_RANGE
    && |p.random| == 16
  }

  lemma ParseInvertsCreate1(s: Suite, a: Party, kemSecretKey: Bytes, ca: Bytes, now: nat)
    requires Honest(s, a)
    ensures var plaintext := Authenticated(s, a.signingKey, a.cert, Fields1(s, a, kemSecretKey), a.padding);
            ParseHandshake1(s, plaintext, ca, now)
            == if TimestampAllowed(a.now, now) && s.certValid(ca, a.cert, now)
               then Some((PartyPreamble(s, a), s.kemPublic(kemSecretKey), a.cert)) else None
  {
    var fields := Fields1(s, a, kemSecretKey);
    var whole := Authenticated(s, a.signingKey, a.cert, fields, a.padding);
    TakeAuthenticationInverts(s, ca, now, a.signingKey, a.cert, fields, a.padding);
    var rest := whole[|fields|..];
    var preamble := PreambleBytes(KIND_HANDSHAKE_1, PartyPreamble(s, a));
    assert whole == fields + rest == preamble + (s.kemPublic(kemSecretKey) + rest);
    TakePreambleInverts(KIND_HANDSHAKE_1, now, PartyPreamble(s, a), s.kemPublic(kemSecretKey) + rest);
    TakePrefix(s.kemPublic(kemSecretKey), rest);
  }

  lemma ParseInvertsCreate2(s: Suite, b: Party, kemText: KemText, request: Bytes, expected: Bytes, ca: Bytes, now: nat)
    requires Honest(s, b)
    ensures var plaintext := Authenticated(s, b.signingKey, b.cert, Fields2(s, b, kemText, request), b.padding);
            ParseHandshake2(s, plaintext, expected, ca, now)
            == if TimestampAllowed(b.now, now) && s.hash(request) == s.hash(expected) && s.certValid(ca, b.cert, now)
               then Some((PartyPreamble(s, b), kemText, b.cert)) else None
  {
    var fields := Fields2(s, b, kemText, request);
    var whole := Authenticated(s, b.signingKey, b.cert, fields, b.padding);
    TakeAuthenticationInverts(s, ca, now, b.signingKey, b.cert, fields, b.padding);
    var rest := whole[|fields|..];
    assert whole == fields + rest;
    ReplyFieldsRead(PartyPreamble(s, b), kemText, s.hash(request), rest, now);
    assert |whole| >= MIN_HANDSHAKE_2;
  }

  /** Reading the fixed fields of a handshake_2. */
  lemma ReplyFieldsRead(p: Preamble, kemText: KemText, digest: Key, rest: Bytes, now: nat)
    requires |p.random| == 16
    ensures var data := PreambleBytes(KIND_HANDSHAKE_2, p) + kemText + digest + rest;
            && TakePreamble(KIND_HANDSHAKE_2, now, data)
               == (if TimestampAllowed(p.time, now) then Some((p, kemText + (digest + rest))) else None)
            && TakeBytes(kemText + (digest + rest), MLKEM_CT_LEN) == Some((kemText, digest + rest))
            && TakeBytes(digest + rest, KEY_LEN) == Some((digest, rest))
  {
    var preamble := PreambleBytes(KIND_HANDSHAKE_2, p);
    assert preamble + kemText + digest + rest == preamble + (kemText + (digest + rest));
    TakePreambleInverts(KIND_HANDSHAKE_2, now, p, kemText + (digest + rest));
    TakePrefix(kemText, digest + rest);
    TakePrefix(digest, rest);
  }

  /** The session id in a sealed message's header. */
  function HeaderSession(s: RawSuite, networkKey: Bytes, msg: Bytes): Option<u32> {
    match Deserialize(msg)
    case None => None
    case Some(p) =>
      match UnmaskPacketHeader(s, p, networkKey)
      case None => None
      case Some(header) => Some(header.sessionId)
  }

  /** The responder answers exactly the requests whose certificate and timestamp it
      accepts, and addresses the answer to the initiator's pending entry. */
  lemma ResponderAnswers(s: Suite, a: Party, kemSecretKey: Bytes, b: Party, coins: Bytes, networkKey: Bytes, ca: Bytes)
    requires Honest(s, a)
    ensures var initiate := CreateHandshake1(s, a, kemSecretKey, networkKey);
            var r := ProcessHandshake1(s, initiate.msg, b, coins, networkKey, ca);
            var kemText := s.kemCiphertext(s.kemPublic(kemSecretKey), coins);
            && (r.Some? <==> TimestampAllowed(a.now, b.now) && s.certValid(ca, a.cert, b.now))
            && (r.Some? ==>
                  var reply := SealedReply(s, b, kemText, initiate.msg, a.rxSessionId, networkKey);
                  var dhShared := s.dhShared(b.dhSecret, s.dhPublic(a.dhSecret));
                  var kemShared := s.kemSecret(s.kemPublic(kemSecretKey), coins);
                  var key := DeriveSession(s, dhShared, kemShared, initiate.msg, reply);
                  r.value == (reply, Completed(a.cert, key, a.relay, b.rxSessionId, a.rxSessionId)))
  {
    var plaintext := Authenticated(s, a.signingKey, a.cert, Fields1(s, a, kemSecretKey), a.padding);
    assert plaintext[0] == KIND_HANDSHAKE_1;
    OpenInvertsSeal(s, networkKey, plaintext, 0, a.rxSessionId, a.maskNonce, a.nonce);
    ParseInvertsCreate1(s, a, kemSecretKey, ca, b.now);
  }

  lemma InitiatorCompletes(s: Suite, initiate: Initiate, b: Party, kemText: KemText, request: Bytes, sessionId: u32,
                           networkKey: Bytes, ca: Bytes, now: nat)
    requires Honest(s, b)
    ensures var reply := SealedReply(s, b, kemText, request, sessionId, networkKey);
            var dhShared := s.dhShared(initiate.dhSecret, s.dhPublic(b.dhSecret));
            var kemShared := s.kemDecapsulate(initiate.kemSecretKey, kemText);
            var key := DeriveSession(s, dhShared, kemShared, initiate.msg, reply);
            var timely := TimestampAllowed(b.now, now) && s.hash(request) == s.hash(initiate.msg);
            && HeaderSession(s, networkKey, reply) == Some(sessionId)
            && ProcessHandshake2(s, reply, initiate, networkKey, ca, now)
               == if timely && s.certValid(ca, b.cert, now)
                  then Some(Completed(b.cert, key, b.relay, initiate.rxSessionId, b.rxSessionId)) else None
  {
    var plaintext := Authenticated(s, b.signingKey, b.cert, Fields2(s, b, kemText, request), b.padding);
    assert plaintext[0] == KIND_HANDSHAKE_2;
    OpenInvertsSeal(s, networkKey, plaintext, 0, sessionId, b.maskNonce, b.nonce);
    ParseInvertsCreate2(s, b, kemText, request, initiate.msg, ca, now);
  }

  /** Both ends of one exchange agree: one session key, crossed session ids, each
      end's sending key is the other's receiving key, and the reply is addressed to
      the id under which the initiator keeps its pending entry. */
  lemma ExchangeAgrees(s: Suite, a: Party, kemSecretKey: Bytes, b: Party, coins: Bytes, networkKey: Bytes,
                       ca: Bytes, now: nat, aId: Id, bId: Id)
    requires Honest(s, a) && Honest(s, b)
    requires TimestampAllowed(a.now, b.now) && s.certValid(ca, a.cert, b.now)
    requires TimestampAllowed(b.now, now) && s.certValid(ca, b.cert, now)
    ensures var initiate := CreateHandshake1(s, a, kemSecretKey, networkKey);
            var r := ProcessHandshake1(s, initiate.msg, b, coins, networkKey, ca);
            && r.Some?
            && var (reply, responder) := r.value;
            && HeaderSession(s, networkKey, reply) == Some(initiate.rxSessionId)
            && var i := ProcessHandshake2(s, reply, initiate, networkKey, ca, now);
            && i.Some?
            && var initiator := i.value;
            && initiator.sessionKey == responder.sessionKey
            && initiator.myRxSessionId == responder.peerRxSessionId == a.rxSessionId
            && initiator.peerRxSessionId == responder.myRxSessionId == b.rxSessionId
            && initiator.peerCert == b.cert && responder.peerCert == a.cert
            && initiator.peerIsRelay == b.relay && responder.peerIsRelay == a.relay
            && TxKey(s, initiator.sessionKey, aId, bId) == RxKey(s, responder.sessionKey, bId, aId)
            && RxKey(s, initiator.sessionKey, aId, bId) == TxKey(s, responder.sessionKey, bId, aId)
  {
    var initiate := CreateHandshake1(s, a, kemSecretKey, networkKey);
    ResponderAnswers(s, a, kemSecretKey, b, coins, networkKey, ca);
    var kemText := s.kemCiphertext(s.kemPublic(kemSecretKey), coins);
    InitiatorCompletes(s, initiate, b, kemText, initiate.msg, a.rxSessionId, networkKey, ca, now);
    assert s.dhShared(a.dhSecret, s.dhPublic(b.dhSecret)) == s.dhShared(b.dhSecret, s.dhPublic(a.dhSecret));
  }

  /** The two acceptance conditions in plain terms: given valid certificates, each message
      is accepted exactly when the clocks differ by at most 300 s. */
  lemma AcceptedWithinSkew(s: Suite, a: Party, kemSecretKey: Bytes, b: Party, coins: Bytes, networkKey: Bytes,
                           ca: Bytes, now: nat)
    requires Honest(s, a) && Honest(s, b)
    requires s.certValid(ca, a.cert, b.now) && s.certValid(ca, b.cert, now)
    ensures var initiate := CreateHandshake1(s, a, kemSecretKey, networkKey);
            var r := ProcessHandshake1(s, initiate.msg, b, coins, networkKey, ca);
            && (r.Some? <==> -300 <= a.now - b.now <= 300)
            && (r.Some? ==> (ProcessHandshake2(s, r.value.0, initiate, networkKey, ca, now).Some?
                             <==> -300 <= b.now - now <= 300))
  {
    var initiate := CreateHandshake1(s, a, kemSecretKey, networkKey);
    ResponderAnswers(s, a, kemSecretKey, b, coins, networkKey, ca);
    var kemText := s.kemCiphertext(s.kemPublic(kemSecretKey), coins);
    InitiatorCompletes(s, initiate, b, kemText, initiate.msg, a.rxSessionId, networkKey, ca, now);
    SkewIsExact(a.now, b.now);
    SkewIsExact(b.now, now);
  }

  // ------------------------------------------------ what acceptance means

  /** Up to n the message is signed under this certificate's key, and the certificate,
      which is the last thing signed, is valid. */
  ghost predicate SignedUpTo(s: RawSuite, ca: Bytes, now: nat, data: Bytes, fields: nat, cert: Cert, n: nat) {
    && fields + 4 <= n && n + SIGNATURE_LEN <= |data|
    && s.parseCert(data[fields + 4..n]) == Some(cert) && s.certValid(ca, cert, now)
    && s.verify(s.certKey(cert), data[..n], data[n..n + SIGNATURE_LEN])
  }

  ghost predicate IsSigned(s: RawSuite, ca: Bytes, now: nat, data: Bytes, fields: nat, cert: Cert) {
    exists n :: SignedUpTo(s, ca, now, data, fields, cert, n)
  }

  lemma AuthenticationIsSigned(s: RawSuite, ca: Bytes, now: nat, whole: Bytes, data: Bytes)
    requires |data| <= |whole| && data == whole[|whole| - |data|..] && TakeAuthentication(s, ca, now, whole, data).Some?
    ensures IsSigned(s, ca, now, whole, |whole| - |data|, TakeAuthentication(s, ca, now, whole, data).value)
  {
    var fields := |whole| - |data|;
    var (certText, afterCert) := TakeVec(data).value;
    var n := |whole| - |afterCert|;
    assert |data| == 4 + |certText| + |afterCert|;
    assert certText == whole[fields + 4..n];
    assert afterCert == whole[n..];
    assert TakeBytes(afterCert, SIGNATURE_LEN).value.0 == whole[n..n + SIGNATURE_LEN];
    assert SignedUpTo(s, ca, now, whole, fields, TakeAuthentication(s, ca, now, whole, data).value, n);
  }

  /** Whatever the bytes, an accepted handshake_1 is signed from its first byte through its
      certificate: the relay flag, session id and both keys are all covered. */
  lemma Accepted1IsSigned(s: RawSuite, data: Bytes, ca: Bytes, now: nat)
    requires ParseHandshake1(s, data, ca, now).Some?
    ensures IsSigned(s, ca, now, data, 64 + MLKEM_PK_LEN, ParseHandshake1(s, data, ca, now).value.2)
  {
    var (_, afterPreamble) := TakePreamble(KIND_HANDSHAKE_1, now, data).value;
    PreambleIsPrefix(KIND_HANDSHAKE_1, now, data);
    var (_, rest) := TakeBytes(afterPreamble, MLKEM_PK_LEN).value;
    assert rest == data[64 + MLKEM_PK_LEN..];
    AuthenticationIsSigned(s, ca, now, data, rest);
  }

  /** The same of a handshake_2, which also covers the hash of the request it answers. */
  lemma Accepted2IsSigned(s: RawSuite, data: Bytes, request: Bytes, ca: Bytes, now: nat)
    requires ParseHandshake2(s, data, request, ca, now).Some?
    ensures var fields := 64 + MLKEM_CT_LEN + KEY_LEN;
            && |data| >= fields && data[fields - KEY_LEN..fields] == s.hash(request)
            && IsSigned(s, ca, now, data, fields, ParseHandshake2(s, data, request, ca, now).value.2)
  {
    var (_, afterPreamble) := TakePreamble(KIND_HANDSHAKE_2, now, data).value;
    PreambleIsPrefix(KIND_HANDSHAKE_2, now, data);
    var (_, afterText) := TakeBytes(afterPreamble, MLKEM_CT_LEN).value;
    assert afterText == data[64 + MLKEM_CT_LEN..];
    var (digest, rest) := TakeBytes(afterText, KEY_LEN).value;
    assert rest == data[64 + MLKEM_CT_LEN + KEY_LEN..];
    assert digest == data[64 + MLKEM_CT_LEN..64 + MLKEM_CT_LEN + KEY_LEN];
    AuthenticationIsSigned(s, ca, now, data, rest);
  }

  lemma PreambleIsPrefix(kind: Byte, now: nat, data: Bytes)
    requires TakePreamble(kind, now, data).Some?
    ensures |data| >= 64 && TakePreamble(kind, now, data).value.1 == data[64..]
  {}

  // ------------------------------------------------ what keys are bound to

  /** These two inputs do not collide under the hash. */
  predicate HashTells(s: RawSuite, x: Bytes, y: Bytes) {
    s.hash(x) == s.hash(y) ==> x == y
  }

  /** These two inputs do not collide under key derivation. */
  predicate DerivationTells(s: RawSuite, purpose: string, x: Bytes, y: Bytes) {
    s.deriveKey(purpose, x) == s.deriveKey(purpose, y) ==> x == y
  }

  lemma SplitEqual(a: Bytes, b: Bytes, c: Bytes, d: Bytes)
    requires a + b == c + d && |a| == |c|
    ensures a == c && b == d
  {
    assert a == (a + b)[..|a|] && c == (c + d)[..|c|];
    assert b == (a + b)[|a|..] && d == (c + d)[|c|..];
  }

  /** A session key belongs to one exchange: barring a collision of these very inputs, two
      derivations give the same key only from the same messages and shared secrets. */
  lemma SessionKeyNamesItsExchange(s: RawSuite, dh: Key, kem: Key, m1: Bytes, m2: Bytes,
                                   dh': Key, kem': Key, m1': Bytes, m2': Bytes)
    requires HashTells(s, m1, m1') && HashTells(s, m2, m2')
    requires DerivationTells(s, "liteway-session-v2", dh + kem + s.hash(m1) + s.hash(m2),
                             dh' + kem' + s.hash(m1') + s.hash(m2'))
    ensures DeriveSession(s, dh, kem, m1, m2) == DeriveSession(s, dh', kem', m1', m2') <==>
            m1 == m1' && m2 == m2' && dh == dh' && kem == kem'
  {
    if DeriveSession(s, dh, kem, m1, m2) == DeriveSession(s, dh', kem', m1', m2') {
      SplitEqual(dh + kem + s.hash(m1), s.hash(m2), dh' + kem' + s.hash(m1'), s.hash(m2'));
      SplitEqual(dh + kem, s.hash(m1), dh' + kem', s.hash(m1'));
      SplitEqual(dh, kem, dh', kem');
    }
  }

  /** Each direction of each session has its own traffic key, barring a collision. */
  lemma TrafficKeyNamesItsDirection(s: RawSuite, key: Key, src: Id, dst: Id, key': Key, src': Id, dst': Id)
    requires DerivationTells(s, "liteway-traffic-key-v2", key + Be(src, 4) + Be(dst, 4),
                             key' + Be(src', 4) + Be(dst', 4))
    ensures TrafficKey(s, key, src, dst) == TrafficKey(s, key', src', dst') <==>
            key == key' && src == src' && dst == dst'
  {
    if TrafficKey(s, key, src, dst) == TrafficKey(s, key', src', dst') {
      SplitEqual(key + Be(src, 4), Be(dst, 4), key' + Be(src', 4), Be(dst', 4));
      SplitEqual(key, Be(src, 4), key', Be(src', 4));
      Widths();
      FromBeInvertsBe(src, 4);
      FromBeInvertsBe(src', 4);
      FromBeInvertsBe(dst, 4);
      FromBeInvertsBe(dst', 4);
    }
  }
}
