/** Values shared by every part of the daemon. */
module Types {
  import opened Bits

  datatype Option<+T> = None | Some(value: T)

  /** A UDP endpoint; only its identity matters here. */
  datatype Addr = Addr(endpoint: nat)

  datatype Ip = V4(v4: u32) | V6(v6: nat)

  /** A node certificate; its fields are read through `Crypto.Suite`. */
  datatype Cert = Cert(serial: nat)

  /** A node id: four bytes of a hash over the node's public keys. */
  type Id = u32

  /** Milliseconds on the monotonic clock. */
  type Millis = nat

  /** `now.duration_since(earlier)`: never negative. */
  function Since(now: Millis, earlier: Millis): Millis {
    if now >= earlier then now - earlier else 0
  }

  function Min(a: nat, b: nat): nat {
    if a <= b then a else b
  }
}
