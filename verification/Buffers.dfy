/** The byte queue that decoders read from and write to, and sources of arbitrary bytes. */
module Buffers {
  import opened Octets

  class Buffer {
    var data: Bytes

    constructor ()
      ensures data == []
    {
      data := [];
    }

    method Write(b: Bytes)
      modifies this
      ensures data == old(data) + b
    {
      data := data + b;
    }

    /** Takes up to `n` bytes off the front. */
    method Next(n: nat) returns (b: Bytes)
      modifies this
      ensures var k := Min(n, |old(data)|);
              b == old(data)[..k] && data == old(data)[k..]
    {
      var k := Min(n, |data|);
      b := data[..k];
      data := data[k..];
    }

    method Reset()
      modifies this
      ensures data == []
    {
      data := [];
    }

    /** Moves everything from `src` to the end of this buffer. */
    method ReadFrom(src: Buffer)
      requires src != this
      modifies this, src
      ensures data == old(data) + old(src.data) && src.data == []
    {
      data := data + src.data;
      src.data := [];
    }
  }

  method Intn(n: nat) returns (k: nat)
    requires n > 0
    ensures k < n
  {
    k :| k < n;
  }

  method RandBytes(n: nat) returns (b: Bytes)
    ensures |b| == n
  {
    b := [];
    while |b| < n
      invariant |b| <= n
    {
      var any: Byte := *;
      b := b + [any];
    }
  }
}
