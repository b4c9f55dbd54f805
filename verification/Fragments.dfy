/** Splitting a message into sealed datagrams, and the bounded reassembly buffer
    that merges the copies of a retransmitted message. */
module Fragments {
  import opened Bits
  import opened Types
  import opened Crypto
  import opened Packet
  import opened Handshake

  const MIN_DATAGRAM: nat := PACKET_OVERHEAD + 1
  const MAX_CHUNKS: nat := 255
  const CLEANUP_AGE_SECS: nat := 30
  const MAX_PENDING_MESSAGES: nat := 1024
  const MAX_PENDING_MESSAGES_PER_SOURCE: nat := 32
  const MAX_BUFFERED_BYTES: nat := 4 * 1024 * 1024
  const MAX_BUFFERED_BYTES_PER_SOURCE: nat := 512 * 1024
  const MAX_FRAGMENTED_MESSAGE_BYTES: nat := 512 * 1024
  const USIZE_MAX: nat := U64_RANGE - 1

  datatype FeedResult = Complete(message: Bytes) | Buffered | NotFragment

  /** A message source and the id it chose for one message. */
  type MsgKey = (Addr, u32)

  datatype Fragment = Fragment(msgId: u32, index: nat, total: nat, chunk: Bytes)

  // ------------------------------------------------ splitting

  /** `data.chunks(size)`, with one empty chunk for the empty message. */
  function Chunks(data: Bytes, size: nat): (parts: seq<Bytes>)
    requires size > 0
    ensures |parts| >= 1
    decreases |data|
  {
    if |data| <= size then [data] else [data[..size]] + Chunks(data[size..], size)
  }

  function Flatten(parts: seq<Bytes>): Bytes {
    if parts == [] then [] else Flatten(parts[..|parts| - 1]) + parts[|parts| - 1]
  }

  lemma {:induction false} FlattenConcat(a: seq<Bytes>, b: seq<Bytes>)
    ensures Flatten(a + b) == Flatten(a) + Flatten(b)
  {
    if b == [] {
      assert a + b == a;
    } else {
      FlattenConcat(a, b[..|b| - 1]);
      assert (a + b)[..|a + b| - 1] == a + b[..|b| - 1];
    }
  }

  lemma FlattenOne(part: Bytes)
    ensures Flatten([part]) == part
  {
    assert [part][..0] == [];
    assert Flatten([part]) == [] + part;
  }

  /** The chunks, joined, are the message. */
  lemma {:induction false} ChunksCover(data: Bytes, size: nat)
    requires size > 0
    ensures Flatten(Chunks(data, size)) == data
    decreases |data|
  {
    if |data| <= size {
      FlattenOne(data);
    } else {
      var rest := Chunks(data[size..], size);
      ChunksCover(data[size..], size);
      FlattenConcat([data[..size]], rest);
      FlattenOne(data[..size]);
    }
  }

  function ChunkCount(length: nat, size: nat): nat
    requires size > 0
  {
    var quotient := (length + size - 1) / size;
    if quotient < 1 then 1 else quotient
  }

  lemma {:induction false} ChunksCounted(data: Bytes, size: nat)
    requires size > 0
    ensures |Chunks(data, size)| == ChunkCount(|data|, size)
    decreases |data|
  {
    if |data| <= size {
      OneChunk(|data| + size - 1, size);
    } else {
      ChunksCounted(data[size..], size);
      DivisionStep(|data| - 1, size);
      DivisionPositive(|data| - 1, size);
    }
  }

  lemma OneChunk(n: nat, size: nat)
    requires 0 < size && n < 2 * size
    ensures n / size <= 1
  {
    if n >= size {
      DivisionStep(n - size, size);
    }
  }

  lemma DivisionPositive(n: nat, size: nat)
    requires 0 < size <= n
    ensures n / size >= 1
  {
    DivisionStep(n - size, size);
  }

  lemma DivisionStep(n: nat, size: nat)
    requires size > 0
    ensures (n + size) / size == n / size + 1
  {
    var d := (n + size) / size - n / size - 1;
    assert size * d == n % size - (n + size) % size;
    LargeMultiple(size, d);
  }

  lemma LargeMultiple(size: nat, d: int)
    requires size > 0
    ensures d == 0 || size * d >= size || size * d <= 0 - size
  {}

  /** The plaintext of one fragment: kind, message id, index, count, then the chunk. */
  function FragmentPlain(msgId: u32, index: nat, total: nat, chunk: Bytes): Bytes
    requires index < 256 && total < 256
  {
    [KIND_HANDSHAKE_FRAG] + Be(msgId, 4) + [index as Byte, total as Byte] + chunk
  }

  function FragmentDatagram(s: RawSuite, networkKey: Bytes, f: Fragment, dst: Id, maskNonce: MaskNonce,
                            nonce: Nonce): Bytes
    requires f.index < 256 && f.total < 256
  {
    SealToPeer(s, networkKey, FragmentPlain(f.msgId, f.index, f.total, f.chunk), dst, maskNonce, nonce)
  }

  /** How the receiver reads a datagram as a fragment, if it is one. */
  function ReadFragment(s: RawSuite, networkKey: Bytes, data: Bytes): Option<Fragment> {
    Widths();
    match OpenHandshake(s, networkKey, data)
    case None => None
    case Some(plain) =>
      if !IsFragment(plain) then None
      else Some(Fragment(FromBe(plain[1..5]), plain[5] as nat, plain[6] as nat, plain[FRAG_PREFIX_LEN..]))
  }

  lemma PlainLayout(msgId: u32, index: nat, total: nat, chunk: Bytes)
    requires index < 256 && total < 256
    ensures var plain := FragmentPlain(msgId, index, total, chunk);
            && IsFragment(plain) && plain[1..5] == Be(msgId, 4) && FromBe(plain[1..5]) == msgId
            && plain[5] == index as Byte && plain[6] == total as Byte && plain[FRAG_PREFIX_LEN..] == chunk
  {
    var plain := FragmentPlain(msgId, index, total, chunk);
    assert plain[1..5] == Be(msgId, 4);
    assert plain[7..] == chunk;
    Widths();
    FromBeInvertsBe(msgId, 4);
  }

  /** A sealed fragment is read back as itself, and costs the packet overhead only. */
  lemma ReadInvertsSeal(s: RawSuite, networkKey: Bytes, f: Fragment, dst: Id, maskNonce: MaskNonce, nonce: Nonce)
    requires AeadLaws(s) && f.index < f.total < 256
    ensures var datagram := FragmentDatagram(s, networkKey, f, dst, maskNonce, nonce);
            && ReadFragment(s, networkKey, datagram) == Some(f)
            && |datagram| == PACKET_OVERHEAD + |f.chunk|
  {
    var plain := FragmentPlain(f.msgId, f.index, f.total, f.chunk);
    PlainLayout(f.msgId, f.index, f.total, f.chunk);
    OpenInvertsSeal(s, networkKey, plain, dst, f.msgId, maskNonce, nonce);
    assert OpenHandshake(s, networkKey, FragmentDatagram(s, networkKey, f, dst, maskNonce, nonce)) == Some(plain);
  }

  datatype SendError = DatagramTooSmall | TooManyChunks
  datatype SendResult = Sent(datagrams: seq<Bytes>) | Refused(error: SendError)

  /** The i-th of the fragments a message is sent as. */
  function NthFragment(msgId: u32, parts: seq<Bytes>, i: nat): Fragment
    requires i < |parts|
  {
    Fragment(msgId, i, |parts|, parts[i])
  }

  /** The datagram fits the limit and is read back as the fragment. */
  predicate Carries(s: RawSuite, networkKey: Bytes, maxDatagram: nat, datagram: Bytes, f: Fragment) {
    |datagram| <= maxDatagram && ReadFragment(s, networkKey, datagram) == Some(f)
  }

  /** The next chunk off the front of what is left. */
  lemma NextChunk(parts: seq<Bytes>, i: nat, rest: Bytes, size: nat)
    requires size > 0 && i < |parts| && parts[i..] == Chunks(rest, size)
    ensures parts[i] == if |rest| <= size then rest else rest[..size]
    ensures |rest| <= size ==> i + 1 == |parts|
    ensures |rest| > size ==> i + 1 < |parts| && parts[i + 1..] == Chunks(rest[size..], size)
  {
    assert parts[i..][0] == parts[i] && parts[i..][1..] == parts[i + 1..];
  }

  /** The first datagrams carry the first chunks, in order. */
  ghost predicate CarryPrefix(s: RawSuite, networkKey: Bytes, maxDatagram: nat, datagrams: seq<Bytes>, msgId: u32,
                              parts: seq<Bytes>) {
    |datagrams| <= |parts|
    && forall i | 0 <= i < |datagrams| ::
         Carries(s, networkKey, maxDatagram, datagrams[i], NthFragment(msgId, parts, i))
  }

  lemma CarryOneMore(s: RawSuite, networkKey: Bytes, maxDatagram: nat, datagrams: seq<Bytes>, msgId: u32,
                     parts: seq<Bytes>, dst: Id, maskNonce: MaskNonce, nonce: Nonce)
    requires AeadLaws(s) && CarryPrefix(s, networkKey, maxDatagram, datagrams, msgId, parts)
    requires |datagrams| < |parts| <= MAX_CHUNKS && PACKET_OVERHEAD + |parts[|datagrams|]| <= maxDatagram
    ensures var f := NthFragment(msgId, parts, |datagrams|);
            CarryPrefix(s, networkKey, maxDatagram,
                        datagrams + [FragmentDatagram(s, networkKey, f, dst, maskNonce, nonce)], msgId, parts)
  {
    var f := NthFragment(msgId, parts, |datagrams|);
    ReadInvertsSeal(s, networkKey, f, dst, maskNonce, nonce);
  }

  /** Sends a message as sealed fragments; the nonces of each datagram are the
      sender's random choices. Every datagram fits the limit, and reading the
      datagrams back gives the message's chunks in order. */
  method SendFragmented(s: RawSuite, data: Bytes, networkKey: Bytes, maxDatagram: nat, dst: Id, msgId: u32,
                        maskNonces: nat -> MaskNonce, nonces: nat -> Nonce) returns (r: SendResult)
    requires AeadLaws(s)
    ensures r == Refused(DatagramTooSmall) <==> maxDatagram < MIN_DATAGRAM
    ensures r.Sent? <==> MIN_DATAGRAM <= maxDatagram && |Chunks(data, maxDatagram - PACKET_OVERHEAD)| <= MAX_CHUNKS
    ensures r.Sent? ==>
              var parts := Chunks(data, maxDatagram - PACKET_OVERHEAD);
              && Flatten(parts) == data && |r.datagrams| == |parts|
              && CarryPrefix(s, networkKey, maxDatagram, r.datagrams, msgId, parts)
  {
    if maxDatagram < MIN_DATAGRAM {
      return Refused(DatagramTooSmall);
    }
    var size := maxDatagram - PACKET_OVERHEAD;
    var total := ChunkCount(|data|, size);
    ghost var parts := Chunks(data, size);
    ChunksCounted(data, size);
    if total > MAX_CHUNKS {
      return Refused(TooManyChunks);
    }
    ChunksCover(data, size);
    var datagrams := SealChunks(s, data, networkKey, size, total, dst, msgId, maskNonces, nonces, parts);
    r := Sent(datagrams);
  }

  method SealChunks(s: RawSuite, data: Bytes, networkKey: Bytes, size: nat, total: nat, dst: Id, msgId: u32,
                    maskNonces: nat -> MaskNonce, nonces: nat -> Nonce, ghost parts: seq<Bytes>)
    returns (datagrams: seq<Bytes>)
    requires AeadLaws(s) && size > 0 && parts == Chunks(data, size) && total == |parts| <= MAX_CHUNKS
    ensures |datagrams| == |parts|
    ensures CarryPrefix(s, networkKey, PACKET_OVERHEAD + size, datagrams, msgId, parts)
  {
    datagrams := [];
    var rest := data;
    while |datagrams| < total
      invariant CarryPrefix(s, networkKey, PACKET_OVERHEAD + size, datagrams, msgId, parts)
      invariant |datagrams| < total ==> parts[|datagrams|..] == Chunks(rest, size)
      decreases total - |datagrams|
    {
      var i := |datagrams|;
      NextChunk(parts, i, rest, size);
      var chunk := if |rest| <= size then rest else rest[..size];
      CarryOneMore(s, networkKey, PACKET_OVERHEAD + size, datagrams, msgId, parts, dst, maskNonces(i), nonces(i));
      var f := Fragment(msgId, i, total, chunk);
      datagrams := datagrams + [FragmentDatagram(s, networkKey, f, dst, maskNonces(i), nonces(i))];
      rest := if |rest| <= size then [] else rest[size..];
    }
  }
}
