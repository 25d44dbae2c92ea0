/** What the stream protocols have in common. */
module Protocol {
  import opened Octets
  import opened Buffers

  /** How one turn of a receiver's loop ends. */
  datatype Turn<E> = Incomplete | Taken | Failed(error: E)

  /** Where the target address ends, read from the first bytes of a connection. */
  function HeadSize(b: Bytes, default: nat): (r: nat)
    ensures Min(4, default) <= r <= 4 + 255 + default
  {
    if |b| < 2 then default
    else if b[0] % 8 == 1 then 7
    else if b[0] % 8 == 4 then 19
    else if b[0] % 8 == 3 then 4 + b[1]
    else default
  }

  /**
   The size is that of the address at the front: a kind, then 4 bytes of IPv4 address, 16 of
   IPv6 address, or a length and a name of that length; and a port of two bytes.
   */
  lemma HeadSizeOfAddress(kind: Byte, addr: Bytes, port: Bytes, rest: Bytes, default: nat)
    requires |port| == 2
    ensures kind % 8 == 1 && |addr| == 4 ==>
              HeadSize([kind] + addr + port + rest, default) == |[kind] + addr + port|
    ensures kind % 8 == 4 && |addr| == 16 ==>
              HeadSize([kind] + addr + port + rest, default) == |[kind] + addr + port|
    ensures kind % 8 == 3 && |addr| < 0x100 ==>
              HeadSize([kind, |addr|] + addr + port + rest, default) == |[kind, |addr|] + addr + port|
    ensures kind % 8 != 1 && kind % 8 != 3 && kind % 8 != 4 ==> HeadSize([kind] + rest, default) == default
    ensures HeadSize([], default) == HeadSize([kind], default) == default
  {
  }

  /**
   How many of the first write's bytes travel inside the header: the address and up to 31
   bytes more, so all of a write of at most 4 bytes and at least 4 of any other.
   */
  method GetDataLength(b: Bytes) returns (n: nat)
    ensures Min(|b|, HeadSize(b, 30)) <= n <= Min(|b|, HeadSize(b, 30) + 31)
    ensures Min(|b|, 4) <= n <= |b| && n < 4 + 255 + 32
  {
    var extra := Intn(32);
    n := Min(|b|, HeadSize(b, 30) + extra);
  }
}
