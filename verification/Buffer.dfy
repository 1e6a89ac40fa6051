/** A zero-filled buffer written front to back through a moving offset, as a `DataView` is used by the encoders. */
module Buffer {
  import opened Bytes

  /** Bytes before `off` are written, the rest of the buffer is still zero. */
  ghost predicate Written(out: array<byte>, off: nat, prefix: seq<byte>)
    reads out
  {
    off <= out.Length && out[..off] == prefix && out[off..] == Zeros(out.Length - off)
  }

  /** `setUint8`, `setUint16` and `setUint32`, big-endian. */
  method WriteUint(out: array<byte>, off: nat, value: nat, w: nat, ghost prefix: seq<byte>) returns (next: nat)
    requires Written(out, off, prefix) && off + w <= out.Length
    modifies out
    ensures next == off + w && Written(out, next, prefix + BigEndian(value, w))
  {
    var rest: nat, i: nat := value, w;
    while i > 0
      invariant i <= w
      invariant out[..off] == prefix && out[off + w..] == Zeros(out.Length - off - w)
      invariant BigEndian(value, w) == BigEndian(rest, i) + out[off + i..off + w]
    {
      i := i - 1;
      ghost var before := out[off + i + 1..off + w];
      out[off + i] := rest % 256;
      assert out[off + i..off + w] == [rest % 256] + before;
      rest := rest / 256;
    }
    next := off + w;
    assert out[..next] == prefix + out[off..off + w];
  }

  method WriteBytes(out: array<byte>, off: nat, bytes: seq<byte>, ghost prefix: seq<byte>) returns (next: nat)
    requires Written(out, off, prefix) && off + |bytes| <= out.Length
    modifies out
    ensures next == off + |bytes| && Written(out, next, prefix + bytes)
  {
    for i := 0 to |bytes|
      invariant out[..off + i] == prefix + bytes[..i]
      invariant out[off + i..] == Zeros(out.Length - off - i)
    {
      out[off + i] := bytes[i];
      assert out[off + i + 1..] == Zeros(out.Length - off - i)[1..];
      assert out[..off + i + 1] == out[..off + i] + [bytes[i]];
    }
    next := off + |bytes|;
    assert bytes[..|bytes|] == bytes;
  }

  /** `getUint16` and `getUint32`, big-endian. */
  method ReadUint(bytes: array<byte>, off: nat, w: nat) returns (value: nat)
    requires off + w <= bytes.Length
    ensures value == FromBigEndian(bytes[off..off + w])
  {
    value := 0;
    for i := 0 to w
      invariant value == FromBigEndian(bytes[off..off + i])
    {
      assert bytes[off..off + i + 1][..i] == bytes[off..off + i];
      value := value * 256 + bytes[off + i];
    }
  }
}
