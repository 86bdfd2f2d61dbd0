/** Bytes and the fixed-width integers of the program's counters. */
module Machine {
  newtype byte = x: int | 0 <= x < 256

  const TWO_TO_32: int := 0x1_0000_0000

  type uint32 = n: int | 0 <= n < 0x1_0000_0000

  /** The value a uint32_t keeps of `n`. */
  function U32(n: int): uint32 {
    n % TWO_TO_32
  }

  /** The value an int32_t keeps of `n` in two's complement. */
  function Int32(n: int): (r: int)
    ensures -0x8000_0000 <= r < 0x8000_0000
    ensures U32(r) == U32(n)
    ensures -0x8000_0000 <= n < 0x8000_0000 ==> r == n
  {
    var u := U32(n);
    if u < 0x8000_0000 then u else u - TWO_TO_32
  }

  /** Numbers the receiver can count one past without leaving int32_t. */
  predicate IsFrameNumber(n: int) {
    0 <= n < 0x7fff_ffff
  }

  function BigEndian32(b: seq<byte>): uint32
    requires |b| == 4
  {
    b[0] as int * 0x100_0000 + b[1] as int * 0x1_0000 + b[2] as int * 0x100 + b[3] as int
  }

  function ToBigEndian32(n: uint32): (b: seq<byte>)
    ensures |b| == 4
  {
    [(n / 0x100_0000) as byte, (n / 0x1_0000 % 0x100) as byte, (n / 0x100 % 0x100) as byte, (n % 0x100) as byte]
  }

  lemma BigEndian32RoundTrip(n: uint32)
    ensures BigEndian32(ToBigEndian32(n)) == n
  {
    assert n / 0x100 / 0x100 == n / 0x1_0000;
    assert n / 0x1_0000 / 0x100 == n / 0x100_0000;
  }

  lemma BigEndian32Unpacks(b: seq<byte>)
    requires |b| == 4
    ensures ToBigEndian32(BigEndian32(b)) == b
  {
    var n := BigEndian32(b);
    assert n / 0x100_0000 == b[0] as int && n / 0x1_0000 == b[0] as int * 0x100 + b[1] as int;
    assert n / 0x100 == b[0] as int * 0x1_0000 + b[1] as int * 0x100 + b[2] as int;
  }

  lemma U32Sum(a: int, b: int)
    ensures U32(U32(a) + b) == U32(a + b)
  {
  }
}
