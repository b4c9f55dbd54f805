/** Session packets on the wire: the masked header, the sealed body and its eight
    kinds. */
module Packet {
  import opened Bits
  import opened Types
  import opened Crypto
  import opened Reading

  const MASK_NONCE_LEN: nat := 8
  const HEADER_LEN: nat := 16
  const PACKET_OVERHEAD: nat := MASK_NONCE_LEN + HEADER_LEN + NONCE_LEN + AEAD_TAG_LEN

  const KIND_DATA: Byte := 0x21
  const KIND_RELAY_FORWARD: Byte := 0x22
  const KIND_DISCONNECT: Byte := 0x23
  const KIND_LIGHTHOUSE_QUERY: Byte := 0x24
  const KIND_LIGHTHOUSE_RESPONSE: Byte := 0x25
  const KIND_LIGHTHOUSE_NOT_FOUND: Byte := 0x26
  const KIND_KEEPALIVE: Byte := 0x27
  const KIND_KEEPALIVE_ACK: Byte := 0x28
  const KIND_HANDSHAKE_1: Byte := 0x11
  const KIND_HANDSHAKE_2: Byte := 0x12
  const KIND_HANDSHAKE_FRAG: Byte := 0x13

  predicate KnownKind(kind: Byte) {
    KIND_DATA <= kind <= KIND_KEEPALIVE_ACK || KIND_HANDSHAKE_1 <= kind <= KIND_HANDSHAKE_FRAG
  }

  /** The eleven kinds, and no other byte. */
  lemma KnownKindsExactly(kind: Byte)
    ensures KnownKind(kind) <==>
            kind in {0x11, 0x12, 0x13, 0x21, 0x22, 0x23, 0x24, 0x25, 0x26, 0x27, 0x28}
  {}

  datatype NetworkHeader = NetworkHeader(
    kind: Byte, fragIndex: Byte, fragTotal: Byte, dstPeerId: Id, sessionId: u32)

  datatype DataPacket = DataPacket(maskNonce: Bytes, maskedHeader: Bytes, nonce: Bytes, ciphertext: Bytes)

  type MaskNonce = n: Bytes | |n| == MASK_NONCE_LEN witness Zeros(MASK_NONCE_LEN)
  type Nonce = n: Bytes | |n| == NONCE_LEN witness Zeros(NONCE_LEN)
  type HeaderBytes = h: Bytes | |h| == HEADER_LEN witness Zeros(HEADER_LEN)

  // ------------------------------------------------ header

  function EncodeHeader(h: NetworkHeader): HeaderBytes {
    [h.kind, h.fragIndex, h.fragTotal, 0] + Be(h.dstPeerId, 4) + Be(h.sessionId, 4) + [0, 0, 0, 0]
  }

  function DecodeHeader(b: HeaderBytes): Option<NetworkHeader> {
    Widths();
    if b[3] != 0 || b[12..16] != [0, 0, 0, 0] then None
    else if !KnownKind(b[0]) then None
    else Some(NetworkHeader(b[0], b[1], b[2], FromBe(b[4..8]), FromBe(b[8..12])))
  }

  /** Exactly the known kinds survive, unchanged. */
  lemma DecodeInvertsEncode(h: NetworkHeader)
    ensures DecodeHeader(EncodeHeader(h)) == if KnownKind(h.kind) then Some(h) else None
  {
    var b := EncodeHeader(h);
    assert b[4..8] == Be(h.dstPeerId, 4);
    assert b[8..12] == Be(h.sessionId, 4);
    assert b[12..16] == [0, 0, 0, 0];
    Widths();
    FromBeInvertsBe(h.dstPeerId, 4);
    FromBeInvertsBe(h.sessionId, 4);
  }

  /** Where each field lies on the wire. */
  lemma HeaderLayout(h: NetworkHeader)
    ensures var b := EncodeHeader(h);
            && b[..4] == [h.kind, h.fragIndex, h.fragTotal, 0] && b[12..] == [0, 0, 0, 0]
            && FromBe(b[4..8]) == h.dstPeerId && FromBe(b[8..12]) == h.sessionId
  {
    var b := EncodeHeader(h);
    assert b[4..8] == Be(h.dstPeerId, 4);
    assert b[8..12] == Be(h.sessionId, 4);
    Widths();
    FromBeInvertsBe(h.dstPeerId, 4);
    FromBeInvertsBe(h.sessionId, 4);
  }

  /** Headers are canonical: whatever decodes re-encodes to the same bytes. */
  lemma EncodeInvertsDecode(b: HeaderBytes)
    ensures DecodeHeader(b).Some? ==> EncodeHeader(DecodeHeader(b).value) == b
  {
    if DecodeHeader(b).Some? {
      BeInvertsFromBe(b[4..8]);
      BeInvertsFromBe(b[8..12]);
      assert b == [b[0], b[1], b[2], 0] + b[4..8] + b[8..12] + b[12..16];
    }
  }

  function HeaderMask(s: RawSuite, maskNonce: MaskNonce, networkKey: Bytes): Key {
    s.keyedHash(s.deriveKey("liteway-network-header-mask-v1", networkKey), maskNonce)
  }

  function XorBytes(a: HeaderBytes, mask: Key): HeaderBytes
  {
    seq(HEADER_LEN, i requires 0 <= i < HEADER_LEN => XorByte(a[i], mask[i]))
  }

  lemma XorBytesUndoes(a: HeaderBytes, mask: Key)
    ensures XorBytes(XorBytes(a, mask), mask) == a
  {
    forall i | 0 <= i < HEADER_LEN
      ensures XorBytes(XorBytes(a, mask), mask)[i] == a[i]
    {
      XorUndoes(a[i] as nat, mask[i] as nat);
    }
  }

  /** Masking flips exactly the bits the mask has set. */
  lemma MaskFlipsExactly(a: HeaderBytes, mask: Key, i: nat, k: nat)
    requires i < HEADER_LEN
    ensures Bit(XorBytes(a, mask)[i] as nat, k) != Bit(a[i] as nat, k) <==> Bit(mask[i] as nat, k)
  {
    XorBit(a[i] as nat, mask[i] as nat, k);
  }

  function MaskedHeader(s: RawSuite, h: NetworkHeader, maskNonce: MaskNonce, networkKey: Bytes): HeaderBytes {
    XorBytes(EncodeHeader(h), HeaderMask(s, maskNonce, networkKey))
  }

  function UnmaskedHeader(s: RawSuite, maskNonce: MaskNonce, masked: HeaderBytes, networkKey: Bytes)
    : Option<NetworkHeader>
  {
    DecodeHeader(XorBytes(masked, HeaderMask(s, maskNonce, networkKey)))
  }

  lemma UnmaskInvertsMask(s: RawSuite, h: NetworkHeader, maskNonce: MaskNonce, networkKey: Bytes)
    ensures UnmaskedHeader(s, maskNonce, MaskedHeader(s, h, maskNonce, networkKey), networkKey)
            == if KnownKind(h.kind) then Some(h) else None
  {
    XorBytesUndoes(EncodeHeader(h), HeaderMask(s, maskNonce, networkKey));
    DecodeInvertsEncode(h);
  }

  method XorHeader(a: HeaderBytes, mask: Key) returns (r: HeaderBytes)
    ensures r == XorBytes(a, mask)
  {
    var out := new Byte[HEADER_LEN](_ => 0);
    for i := 0 to HEADER_LEN
      invariant forall j | 0 <= j < i :: out[j] == XorByte(a[j], mask[j])
    {
      out[i] := XorByte(a[i], mask[i]);
    }
    r := out[..];
  }

  method MaskNetworkHeader(s: RawSuite, h: NetworkHeader, maskNonce: MaskNonce, networkKey: Bytes)
    returns (masked: HeaderBytes)
    ensures KnownKind(h.kind) ==> UnmaskedHeader(s, maskNonce, masked, networkKey) == Some(h)
    ensures masked == MaskedHeader(s, h, maskNonce, networkKey)
  {
    masked := XorHeader(EncodeHeader(h), HeaderMask(s, maskNonce, networkKey));
    UnmaskInvertsMask(s, h, maskNonce, networkKey);
  }

  // ------------------------------------------------ packet layout

  predicate WellSized(p: DataPacket) {
    && |p.maskNonce| == MASK_NONCE_LEN && |p.maskedHeader| == HEADER_LEN && |p.nonce| == NONCE_LEN
    && AEAD_TAG_LEN <= |p.ciphertext|
  }

  function Serialize(p: DataPacket): Bytes {
    p.maskNonce + p.maskedHeader + p.nonce + p.ciphertext
  }

  function Deserialize(data: Bytes): (r: Option<DataPacket>)
    ensures r.Some? ==> WellSized(r.value)
  {
    if |data| < PACKET_OVERHEAD then None
    else Some(DataPacket(data[..8], data[8..24], data[24..36], data[36..]))
  }

  lemma DeserializeInvertsSerialize(p: DataPacket)
    requires WellSized(p)
    ensures Deserialize(Serialize(p)) == Some(p)
  {
    var d := Serialize(p);
    assert d[..8] == p.maskNonce;
    assert d[8..24] == p.maskedHeader;
    assert d[24..36] == p.nonce;
    assert d[36..] == p.ciphertext;
  }

  lemma SerializeInvertsDeserialize(data: Bytes)
    ensures Deserialize(data).Some? ==> Serialize(Deserialize(data).value) == data
  {}

  function UnmaskPacketHeader(s: RawSuite, p: DataPacket, networkKey: Bytes): Option<NetworkHeader>
    requires WellSized(p)
  {
    UnmaskedHeader(s, p.maskNonce, p.maskedHeader, networkKey)
  }

  /** The header read straight off the wire, without copying the payload. */
  method ReadNetworkHeader(s: RawSuite, data: Bytes, networkKey: Bytes) returns (r: Option<NetworkHeader>)
    ensures r == match Deserialize(data)
                 case None => None
                 case Some(p) => UnmaskPacketHeader(s, p, networkKey)
  {
    if |data| < PACKET_OVERHEAD {
      return None;
    }
    var maskNonce: MaskNonce := data[..MASK_NONCE_LEN];
    var masked: HeaderBytes := data[MASK_NONCE_LEN..MASK_NONCE_LEN + HEADER_LEN];
    var plain := XorHeader(masked, HeaderMask(s, maskNonce, networkKey));
    r := DecodeHeader(plain);
  }

  function PacketAad(p: DataPacket): Bytes {
    p.maskNonce + p.maskedHeader
  }

  /** What is authenticated besides the body is everything sent before the nonce. */
  lemma AadIsTheWireHeader(p: DataPacket)
    requires WellSized(p)
    ensures PacketAad(p) == Serialize(p)[..MASK_NONCE_LEN + HEADER_LEN]
  {
    assert Serialize(p)[..24] == p.maskNonce + p.maskedHeader;
  }

  // ------------------------------------------------ bodies

  datatype PacketBody =
    | Data(seqNo: u64, ipPacket: Bytes)
    | RelayForward(seqNo: u64, nextPeerId: Id, innerPacket: Bytes)
    | Disconnect(seqNo: u64)
    | LighthouseQuery(seqNo: u64, targetIp: Ip)
    | LighthouseResponse(seqNo: u64, targetIp: Ip, peerId: Id, peerAddr: Addr, peerCert: Cert, peerIsRelay: bool)
    | LighthouseNotFound(seqNo: u64, targetIp: Ip)
    | Keepalive(seqNo: u64, token: u64)
    | KeepaliveAck(seqNo: u64, token: u64)

  function KindOf(body: PacketBody): Byte {
    match body
    case Data(_, _) => KIND_DATA
    case RelayForward(_, _, _) => KIND_RELAY_FORWARD
    case Disconnect(_) => KIND_DISCONNECT
    case LighthouseQuery(_, _) => KIND_LIGHTHOUSE_QUERY
    case LighthouseResponse(_, _, _, _, _, _) => KIND_LIGHTHOUSE_RESPONSE
    case LighthouseNotFound(_, _) => KIND_LIGHTHOUSE_NOT_FOUND
    case Keepalive(_, _) => KIND_KEEPALIVE
    case KeepaliveAck(_, _) => KIND_KEEPALIVE_ACK
  }

  function EndpointFields(s: RawSuite, addr: Addr, cert: Cert, relay: bool): Bytes {
    PutVec(s.showAddr(addr)) + PutVec(s.showCert(cert)) + [if relay then 1 else 0]
  }

  function Fields(s: RawSuite, body: PacketBody): Bytes {
    match body
    case Data(_, ip) => PutVec(ip)
    case RelayForward(_, next, inner) => Be(next, 4) + PutVec(inner)
    case Disconnect(_) => []
    case LighthouseQuery(_, ip) => PutVec(s.showIp(ip))
    case LighthouseResponse(_, ip, id, addr, cert, relay) =>
      PutVec(s.showIp(ip)) + Be(id, 4) + EndpointFields(s, addr, cert, relay)
    case LighthouseNotFound(_, ip) => PutVec(s.showIp(ip))
    case Keepalive(_, token) => Be(token, 8)
    case KeepaliveAck(_, token) => Be(token, 8)
  }

  function Plaintext(s: RawSuite, body: PacketBody): Bytes {
    [KindOf(body)] + Be(body.seqNo, 8) + Fields(s, body)
  }

  /** Every length-prefixed field is shorter than 2^32 bytes. */
  predicate Fits(s: RawSuite, body: PacketBody) {
    match body
    case Data(_, ip) => |ip| < U32_RANGE
    case RelayForward(_, _, inner) => |inner| < U32_RANGE
    case LighthouseQuery(_, ip) => |s.showIp(ip)| < U32_RANGE
    case LighthouseResponse(_, ip, _, addr, cert, _) =>
      |s.showIp(ip)| < U32_RANGE && |s.showAddr(addr)| < U32_RANGE && |s.showCert(cert)| < U32_RANGE
    case LighthouseNotFound(_, ip) => |s.showIp(ip)| < U32_RANGE
    case _ => true
  }

  function DecodeIp(s: RawSuite, data: Bytes): Option<(Ip, Bytes)> {
    match TakeVec(data)
    case None => None
    case Some((text, rest)) =>
      match s.parseIp(text)
      case None => None
      case Some(ip) => Some((ip, rest))
  }

  function DecodeResponse(s: RawSuite, seqNo: u64, data: Bytes): Option<PacketBody> {
    Widths();
    match DecodeIp(s, data)
    case None => None
    case Some((ip, afterIp)) =>
      match TakeUint(afterIp, 4)
      case None => None
      case Some((id, afterId)) => DecodeEndpoint(s, seqNo, ip, id, afterId)
  }

  function DecodeEndpoint(s: RawSuite, seqNo: u64, ip: Ip, id: Id, data: Bytes): Option<PacketBody> {
    match TakeVec(data)
    case None => None
    case Some((addrText, afterAddr)) =>
      match s.parseAddr(addrText)
      case None => None
      case Some(addr) =>
        match TakeVec(afterAddr)
        case None => None
        case Some((certText, afterCert)) =>
          match s.parseCert(certText)
          case None => None
          case Some(cert) =>
            match TakeUint(afterCert, 1)
            case None => None
            case Some((relay, _)) => Some(LighthouseResponse(seqNo, ip, id, addr, cert, relay != 0))
  }

  function DecodeFields(s: RawSuite, kind: Byte, seqNo: u64, data: Bytes): Option<PacketBody> {
    Widths();
    if kind == KIND_DATA then
      match TakeVec(data) case None => None case Some((ip, _)) => Some(Data(seqNo, ip))
    else if kind == KIND_RELAY_FORWARD then
      match TakeUint(data, 4)
      case None => None
      case Some((next, rest)) =>
        match TakeVec(rest) case None => None case Some((inner, _)) => Some(RelayForward(seqNo, next, inner))
    else if kind == KIND_DISCONNECT then Some(Disconnect(seqNo))
    else if kind == KIND_LIGHTHOUSE_QUERY then
      match DecodeIp(s, data) case None => None case Some((ip, _)) => Some(LighthouseQuery(seqNo, ip))
    else if kind == KIND_LIGHTHOUSE_RESPONSE then DecodeResponse(s, seqNo, data)
    else if kind == KIND_LIGHTHOUSE_NOT_FOUND then
      match DecodeIp(s, data) case None => None case Some((ip, _)) => Some(LighthouseNotFound(seqNo, ip))
    else if kind == KIND_KEEPALIVE then
      match TakeUint(data, 8) case None => None case Some((token, _)) => Some(Keepalive(seqNo, token))
    else if kind == KIND_KEEPALIVE_ACK then
      match TakeUint(data, 8) case None => None case Some((token, _)) => Some(KeepaliveAck(seqNo, token))
    else None
  }

  function DecodePlaintext(s: RawSuite, headerKind: Byte, plaintext: Bytes): Option<PacketBody> {
    Widths();
    match TakeUint(plaintext, 1)
    case None => None
    case Some((kind, afterKind)) =>
      match TakeUint(afterKind, 8)
      case None => None
      case Some((seqNo, rest)) =>
        if kind != headerKind as nat then None else DecodeFields(s, headerKind, seqNo, rest)
  }

  lemma DecodeIpInverts(s: RawSuite, ip: Ip, rest: Bytes)
    requires TextLaws(s)
    requires |s.showIp(ip)| < U32_RANGE
    ensures DecodeIp(s, PutVec(s.showIp(ip)) + rest) == Some((ip, rest))
  {
    TakeVecInverts(s.showIp(ip), rest);
  }

  lemma DecodeEndpointInverts(s: RawSuite, body: PacketBody, padding: Bytes)
    requires TextLaws(s)
    requires body.LighthouseResponse? && Fits(s, body)
    ensures DecodeEndpoint(s, body.seqNo, body.targetIp, body.peerId,
                           EndpointFields(s, body.peerAddr, body.peerCert, body.peerIsRelay) + padding)
            == Some(body)
  {
    var flag: Bytes := [if body.peerIsRelay then 1 else 0];
    var afterCert := flag + padding;
    var afterAddr := PutVec(s.showCert(body.peerCert)) + afterCert;
    assert EndpointFields(s, body.peerAddr, body.peerCert, body.peerIsRelay) + padding
        == PutVec(s.showAddr(body.peerAddr)) + afterAddr;
    TakeVecInverts(s.showAddr(body.peerAddr), afterAddr);
    TakeVecInverts(s.showCert(body.peerCert), afterCert);
    TakeU8(flag[0], padding);
  }

  lemma DecodeResponseInverts(s: RawSuite, body: PacketBody, padding: Bytes)
    requires TextLaws(s)
    requires body.LighthouseResponse? && Fits(s, body)
    ensures DecodeResponse(s, body.seqNo, Fields(s, body) + padding) == Some(body)
  {
    var endpoint := EndpointFields(s, body.peerAddr, body.peerCert, body.peerIsRelay);
    var afterIp := Be(body.peerId, 4) + (endpoint + padding);
    assert Fields(s, body) + padding == PutVec(s.showIp(body.targetIp)) + afterIp;
    DecodeIpInverts(s, body.targetIp, afterIp);
    TakeU32(body.peerId, endpoint + padding);
    DecodeEndpointInverts(s, body, padding);
  }

  lemma DecodeAddressedInverts(s: RawSuite, body: PacketBody, padding: Bytes)
    requires TextLaws(s)
    requires (body.LighthouseQuery? || body.LighthouseNotFound?) && Fits(s, body)
    ensures DecodeFields(s, KindOf(body), body.seqNo, Fields(s, body) + padding) == Some(body)
  {
    DecodeIpInverts(s, body.targetIp, padding);
  }

  lemma DecodeFieldsInverts(s: RawSuite, body: PacketBody, padding: Bytes)
    requires TextLaws(s)
    requires Fits(s, body)
    ensures DecodeFields(s, KindOf(body), body.seqNo, Fields(s, body) + padding) == Some(body)
  {
    if body.LighthouseQuery? || body.LighthouseNotFound? {
      DecodeAddressedInverts(s, body, padding);
    } else if body.LighthouseResponse? {
      DecodeResponseInverts(s, body, padding);
    } else {
      DecodeBinaryInverts(s, body, padding);
    }
  }

  lemma DecodeBinaryInverts(s: RawSuite, body: PacketBody, padding: Bytes)
    requires Fits(s, body)
    requires !body.LighthouseQuery? && !body.LighthouseResponse? && !body.LighthouseNotFound?
    ensures DecodeFields(s, KindOf(body), body.seqNo, Fields(s, body) + padding) == Some(body)
  {
    match body
    case Data(_, ip) => TakeVecInverts(ip, padding);
    case RelayForward(_, next, inner) =>
      TakeU32(next, PutVec(inner) + padding);
      assert Fields(s, body) + padding == Be(next, 4) + (PutVec(inner) + padding);
      TakeVecInverts(inner, padding);
    case Disconnect(_) =>
    case Keepalive(_, token) => TakeU64(token, padding);
    case KeepaliveAck(_, token) => TakeU64(token, padding);
  }

  lemma DecodePlaintextInverts(s: RawSuite, body: PacketBody, padding: Bytes)
    requires TextLaws(s)
    requires Fits(s, body)
    ensures DecodePlaintext(s, KindOf(body), Plaintext(s, body) + padding) == Some(body)
  {
    var fields := Fields(s, body) + padding;
    assert Plaintext(s, body) + padding == [KindOf(body)] + (Be(body.seqNo, 8) + fields);
    TakeU8(KindOf(body), Be(body.seqNo, 8) + fields);
    TakeU64(body.seqNo, fields);
    DecodeFieldsInverts(s, body, padding);
  }

  /** Every body starts with its kind and its sequence number. */
  lemma BodyLayout(s: RawSuite, body: PacketBody)
    ensures |Plaintext(s, body)| >= 9
    ensures Plaintext(s, body)[0] == KindOf(body) && FromBe(Plaintext(s, body)[1..9]) == body.seqNo
  {
    assert Plaintext(s, body)[1..9] == Be(body.seqNo, 8);
    Widths();
    FromBeInvertsBe(body.seqNo, 8);
  }

  // ------------------------------------------------ sealing

  function PacketKey(s: RawSuite, sessionKey: Bytes): Bytes {
    s.deriveKey("liteway-packet-key-v2", sessionKey)
  }

  /** `seal` of a body for one peer; the nonces and the padding are the sender's
      random choices. */
  function EncryptPacket(s: RawSuite, body: PacketBody, dst: Id, sessionId: u32, networkKey: Bytes,
                         sessionKey: Bytes, padding: Bytes, maskNonce: MaskNonce, nonce: Nonce): DataPacket
  {
    var masked := MaskedHeader(s, NetworkHeader(KindOf(body), 0, 0, dst, sessionId), maskNonce, networkKey);
    var aad := PacketAad(DataPacket(maskNonce, masked, nonce, []));
    DataPacket(maskNonce, masked, nonce, s.encrypt(PacketKey(s, sessionKey), nonce, Plaintext(s, body) + padding, aad))
  }

  function DecryptedPacket(s: RawSuite, data: Bytes, networkKey: Bytes, sessionKey: Bytes)
    : Option<(NetworkHeader, PacketBody)>
  {
    match Deserialize(data)
    case None => None
    case Some(p) =>
      match UnmaskPacketHeader(s, p, networkKey)
      case None => None
      case Some(header) =>
        match s.decrypt(PacketKey(s, sessionKey), p.nonce, p.ciphertext, PacketAad(p))
        case None => None
        case Some(plaintext) =>
          match DecodePlaintext(s, header.kind, plaintext)
          case None => None
          case Some(body) => Some((header, body))
  }

  /** Decoding undoes encoding for all eight kinds, whatever the padding and nonces. */
  lemma DecryptInvertsEncrypt(s: Suite, body: PacketBody, dst: Id, sessionId: u32, networkKey: Bytes,
                              sessionKey: Bytes, padding: Bytes, maskNonce: MaskNonce, nonce: Nonce)
    requires Fits(s, body)
    ensures var p := EncryptPacket(s, body, dst, sessionId, networkKey, sessionKey, padding, maskNonce, nonce);
            DecryptedPacket(s, Serialize(p), networkKey, sessionKey)
            == Some((NetworkHeader(KindOf(body), 0, 0, dst, sessionId), body))
  {
    var header := NetworkHeader(KindOf(body), 0, 0, dst, sessionId);
    var p := EncryptPacket(s, body, dst, sessionId, networkKey, sessionKey, padding, maskNonce, nonce);
    DeserializeInvertsSerialize(p);
    UnmaskInvertsMask(s, header, maskNonce, networkKey);
    DecodePlaintextInverts(s, body, padding);
  }

  /** Whatever the bytes, a decoded packet's body is of the kind its header names, with the
      sequence number and kind its plaintext starts with; handshake kinds never decode. */
  lemma DecodedMatchesHeader(s: RawSuite, data: Bytes, networkKey: Bytes, sessionKey: Bytes)
    requires DecryptedPacket(s, data, networkKey, sessionKey).Some?
    ensures var (header, body) := DecryptedPacket(s, data, networkKey, sessionKey).value;
            && header.kind == KindOf(body) && 0x21 <= header.kind <= 0x28
            && var p := Deserialize(data).value;
            && var text := s.decrypt(PacketKey(s, sessionKey), p.nonce, p.ciphertext, PacketAad(p)).value;
            && |text| >= 9 && text[0] == header.kind && FromBe(text[1..9]) == body.seqNo
  {
    var (header, body) := DecryptedPacket(s, data, networkKey, sessionKey).value;
    var p := Deserialize(data).value;
    var text := s.decrypt(PacketKey(s, sessionKey), p.nonce, p.ciphertext, PacketAad(p)).value;
    PlaintextStarts(s, header.kind, text);
  }

  lemma PlaintextStarts(s: RawSuite, kind: Byte, text: Bytes)
    requires DecodePlaintext(s, kind, text).Some?
    ensures var body := DecodePlaintext(s, kind, text).value;
            && KindOf(body) == kind && |text| >= 9 && text[0] == kind && FromBe(text[1..9]) == body.seqNo
  {
    assert text[..1] == [text[0]];
    assert [text[0]][..0] == [];
    assert FromBe([text[0]]) == FromBe([]) * 256 + text[0] as nat;
    assert text[1..][..8] == text[1..9];
  }

  /** The 2^32 bound is exact for both kinds that carry a payload: a longer one never
      comes back, because its length prefix is cut to 32 bits. */
  lemma OversizedPayloadIsLost(s: Suite, body: PacketBody, dst: Id, sessionId: u32, networkKey: Bytes,
                               sessionKey: Bytes, padding: Bytes, maskNonce: MaskNonce, nonce: Nonce)
    requires body.Data? || body.RelayForward?
    ensures var p := EncryptPacket(s, body, dst, sessionId, networkKey, sessionKey, padding, maskNonce, nonce);
            var r := DecryptedPacket(s, Serialize(p), networkKey, sessionKey);
            r.Some? && r.value.1 == body <==> |PayloadOf(body)| < U32_RANGE
  {
    if |PayloadOf(body)| < U32_RANGE {
      DecryptInvertsEncrypt(s, body, dst, sessionId, networkKey, sessionKey, padding, maskNonce, nonce);
    } else {
      var p := EncryptPacket(s, body, dst, sessionId, networkKey, sessionKey, padding, maskNonce, nonce);
      DecodedPayloadIsShort(s, Serialize(p), networkKey, sessionKey);
    }
  }

  function PayloadOf(body: PacketBody): Bytes {
    match body
    case Data(_, ip) => ip
    case RelayForward(_, _, inner) => inner
    case _ => []
  }

  /** No byte string decodes to a payload of 2^32 bytes or more. */
  lemma DecodedPayloadIsShort(s: RawSuite, data: Bytes, networkKey: Bytes, sessionKey: Bytes)
    ensures var r := DecryptedPacket(s, data, networkKey, sessionKey);
            r.Some? ==> |PayloadOf(r.value.1)| < U32_RANGE
  {}

  /** The decoder as the daemon runs it, over the bounds-checked cursor. */
  method DecryptPacket(s: RawSuite, data: Bytes, networkKey: Bytes, sessionKey: Bytes)
    returns (r: Option<(NetworkHeader, PacketBody)>)
    ensures r == DecryptedPacket(s, data, networkKey, sessionKey)
  {
    var packet := Deserialize(data);
    if packet.None? { return None; }
    var header := UnmaskPacketHeader(s, packet.value, networkKey);
    if header.None? { return None; }
    var text := s.decrypt(PacketKey(s, sessionKey), packet.value.nonce, packet.value.ciphertext,
                          PacketAad(packet.value));
    if text.None? { return None; }
    var rd := new Reader(text.value);
    var kind := rd.ReadUint(1);
    if kind.None? { return None; }
    var seqNo := rd.ReadUint(8);
    if seqNo.None? { return None; }
    if kind.value != header.value.kind as nat { return None; }
    Widths();
    var body := ReadFields(s, rd, header.value.kind, seqNo.value);
    if body.None? { return None; }
    r := Some((header.value, body.value));
  }

  method ReadFields(s: RawSuite, rd: Reader, kind: Byte, seqNo: u64) returns (r: Option<PacketBody>)
    requires rd.Valid()
    modifies rd
    ensures rd.Valid()
    ensures r == DecodeFields(s, kind, seqNo, old(rd.Remaining()))
  {
    Widths();
    if kind == KIND_DATA {
      var ip := rd.ReadVec();
      r := match ip case None => None case Some(ip) => Some(Data(seqNo, ip));
    } else if kind == KIND_RELAY_FORWARD {
      var next := rd.ReadUint(4);
      if next.None? { return None; }
      var inner := rd.ReadVec();
      r := match inner case None => None case Some(inner) => Some(RelayForward(seqNo, next.value, inner));
    } else if kind == KIND_DISCONNECT {
      r := Some(Disconnect(seqNo));
    } else if kind == KIND_LIGHTHOUSE_QUERY {
      var ip := ReadIp(s, rd);
      r := match ip case None => None case Some(ip) => Some(LighthouseQuery(seqNo, ip));
    } else if kind == KIND_LIGHTHOUSE_RESPONSE {
      r := ReadResponse(s, rd, seqNo);
    } else if kind == KIND_LIGHTHOUSE_NOT_FOUND {
      var ip := ReadIp(s, rd);
      r := match ip case None => None case Some(ip) => Some(LighthouseNotFound(seqNo, ip));
    } else if kind == KIND_KEEPALIVE {
      var token := rd.ReadUint(8);
      r := match token case None => None case Some(token) => Some(Keepalive(seqNo, token));
    } else if kind == KIND_KEEPALIVE_ACK {
      var token := rd.ReadUint(8);
      r := match token case None => None case Some(token) => Some(KeepaliveAck(seqNo, token));
    } else {
      r := None;
    }
  }

  method ReadIp(s: RawSuite, rd: Reader) returns (r: Option<Ip>)
    requires rd.Valid()
    modifies rd
    ensures rd.Valid()
    ensures match DecodeIp(s, old(rd.Remaining()))
            case None => r.None?
            case Some((ip, rest)) => r == Some(ip) && rd.Remaining() == rest
  {
    var text := rd.ReadVec();
    r := match text case None => None case Some(t) => s.parseIp(t);
  }

  method ReadResponse(s: RawSuite, rd: Reader, seqNo: u64) returns (r: Option<PacketBody>)
    requires rd.Valid()
    modifies rd
    ensures rd.Valid()
    ensures r == DecodeResponse(s, seqNo, old(rd.Remaining()))
  {
    Widths();
    var ip := ReadIp(s, rd);
    if ip.None? { return None; }
    var id := rd.ReadUint(4);
    if id.None? { return None; }
    var addrText := rd.ReadVec();
    if addrText.None? { return None; }
    var addr := s.parseAddr(addrText.value);
    if addr.None? { return None; }
    var certText := rd.ReadVec();
    if certText.None? { return None; }
    var cert := s.parseCert(certText.value);
    if cert.None? { return None; }
    var relay := rd.ReadUint(1);
    if relay.None? { return None; }
    r := Some(LighthouseResponse(seqNo, ip.value, id.value, addr.value, cert.value, relay.value != 0));
  }
}
