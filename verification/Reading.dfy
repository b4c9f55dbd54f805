/** Length-prefixed fields and the bounds-checked cursor that reads them back. */
module Reading {
  import opened Bits
  import opened Types

  /** What is left to read after taking `n` bytes, or nothing if they are not there. */
  function TakeBytes(s: Bytes, n: nat): (r: Option<(Bytes, Bytes)>)
    ensures r.Some? ==> r.value.0 + r.value.1 == s && |r.value.0| == n
  {
    if n > |s| then None else Some((s[..n], s[n..]))
  }

  function TakeUint(s: Bytes, width: nat): (r: Option<(nat, Bytes)>)
    ensures r.Some? ==> r.value.0 < Pow256(width) && |r.value.1| + width == |s|
  {
    match TakeBytes(s, width)
    case None => None
    case Some((field, rest)) => Some((FromBe(field), rest))
  }

  function TakeVec(s: Bytes): (r: Option<(Bytes, Bytes)>)
    ensures r.Some? ==> |r.value.0| < U32_RANGE
  {
    Widths();
    match TakeUint(s, 4)
    case None => None
    case Some((len, rest)) => TakeBytes(rest, len)
  }

  /** A four-byte length (the length modulo 2^32) followed by the bytes. */
  function PutVec(bytes: Bytes): Bytes {
    Be(|bytes|, 4) + bytes
  }

  lemma TakePrefix(field: Bytes, rest: Bytes)
    ensures TakeBytes(field + rest, |field|) == Some((field, rest))
  {
    assert (field + rest)[..|field|] == field;
    assert (field + rest)[|field|..] == rest;
  }

  lemma TakeUintInverts(n: nat, width: nat, rest: Bytes)
    requires n < Pow256(width)
    ensures TakeUint(Be(n, width) + rest, width) == Some((n, rest))
  {
    TakePrefix(Be(n, width), rest);
    FromBeInvertsBe(n, width);
  }

  lemma TakeU8(n: Byte, rest: Bytes)
    ensures TakeUint([n] + rest, 1) == Some((n as nat, rest))
  {
    TakePrefix([n], rest);
    assert [n][..0] == [];
    assert FromBe([n]) == FromBe([]) * 256 + n as nat;
  }

  lemma TakeU32(n: u32, rest: Bytes)
    ensures TakeUint(Be(n, 4) + rest, 4) == Some((n, rest))
  {
    Widths();
    TakeUintInverts(n, 4, rest);
  }

  lemma TakeU64(n: u64, rest: Bytes)
    ensures TakeUint(Be(n, 8) + rest, 8) == Some((n, rest))
  {
    Widths();
    TakeUintInverts(n, 8, rest);
  }

  lemma TakeVecInverts(bytes: Bytes, rest: Bytes)
    requires |bytes| < U32_RANGE
    ensures TakeVec(PutVec(bytes) + rest) == Some((bytes, rest))
  {
    TakeU32(|bytes|, bytes + rest);
    assert PutVec(bytes) + rest == Be(|bytes|, 4) + (bytes + rest);
    TakePrefix(bytes, rest);
  }

  /** The cursor: `pos` never leaves the data it reads. */
  class Reader {
    const data: Bytes
    var pos: nat

    ghost predicate Valid()
      reads this
    {
      pos <= |data|
    }

    function Remaining(): Bytes
      requires Valid()
      reads this
    {
      data[pos..]
    }

    constructor (data: Bytes)
      ensures Valid() && this.data == data && Remaining() == data
    {
      this.data, pos := data, 0;
    }

    method ReadBytes(n: nat) returns (r: Option<Bytes>)
      requires Valid()
      modifies this
      ensures Valid()
      ensures match TakeBytes(old(Remaining()), n)
              case None => r.None? && pos == old(pos)
              case Some((field, rest)) => r == Some(field) && Remaining() == rest
    {
      if pos + n > |data| {
        return None;
      }
      r := Some(data[pos..pos + n]);
      assert data[pos..pos + n] == data[pos..][..n];
      assert data[pos + n..] == data[pos..][n..];
      pos := pos + n;
    }

    method ReadUint(width: nat) returns (r: Option<nat>)
      requires Valid()
      modifies this
      ensures Valid()
      ensures match TakeUint(old(Remaining()), width)
              case None => r.None?
              case Some((n, rest)) => r == Some(n) && Remaining() == rest
    {
      var field := ReadBytes(width);
      r := match field case None => None case Some(f) => Some(FromBe(f));
    }

    method ReadVec() returns (r: Option<Bytes>)
      requires Valid()
      modifies this
      ensures Valid()
      ensures match TakeVec(old(Remaining()))
              case None => r.None?
              case Some((field, rest)) => r == Some(field) && Remaining() == rest
    {
      var len := ReadUint(4);
      if len.None? {
        return None;
      }
      r := ReadBytes(len.value);
    }
  }
}
