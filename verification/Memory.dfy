/** Bytes in buffers: what a memcpy into a buffer does. */
module Memory {

  type Byte = nat

  function Overwritten(before: seq<Byte>, offset: nat, data: seq<Byte>): (after: seq<Byte>)
    requires offset + |data| <= |before|
    ensures |after| == |before|
  {
    before[..offset] + data + before[offset + |data|..]
  }

  method CopyInto(buffer: array<Byte>, offset: nat, data: seq<Byte>)
    requires offset + |data| <= buffer.Length
    modifies buffer
    ensures buffer[..] == Overwritten(old(buffer[..]), offset, data)
  {
    ghost var before := buffer[..];
    for k := 0 to |data|
      invariant forall j :: 0 <= j < buffer.Length ==>
        buffer[j] == if offset <= j < offset + k then data[j - offset] else before[j]
    {
      buffer[offset + k] := data[k];
    }
    assert buffer[..] == Overwritten(before, offset, data);
  }
}
