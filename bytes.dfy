/**
 * Fixed-width integers and the byte-order helpers the firmware uses to fill
 * characteristic values (STORE_LE_16, STORE_LE_32, STORE_BE_32) and to read
 * multi-byte fields back.
 *
 * C's integer widths are written out explicitly: a value stored through a
 * `uint8_t` is reduced modulo 256, a right shift of a signed value is an
 * arithmetic shift (Dafny's `/` by a positive constant floors, which is the
 * same thing).
 */
module ByteCodec {

  type uint8 = x: int | 0 <= x < 0x100
  type uint16 = x: int | 0 <= x < 0x1_0000
  type uint32 = x: int | 0 <= x < 0x1_0000_0000
  type int16 = x: int | -0x8000 <= x < 0x8000
  type int32 = x: int | -0x8000_0000 <= x < 0x8000_0000

  /** The low eight bits of `x`, as `(uint8_t) x` keeps them. */
  function Low8(x: int): uint8 { x % 0x100 }

  /** STORE_LE_16: the two low-order bytes of `x`, least significant first. */
  function Le16(x: int): (b: seq<uint8>)
    ensures |b| == 2
  {
    [Low8(x), Low8(x / 0x100)]
  }

  /** STORE_LE_32: the four low-order bytes of `x`, least significant first. */
  function Le32(x: int): (b: seq<uint8>)
    ensures |b| == 4
  {
    [Low8(x), Low8(x / 0x100), Low8(x / 0x1_0000), Low8(x / 0x100_0000)]
  }

  /** STORE_BE_32: the four low-order bytes of `x`, most significant first. */
  function Be32(x: int): (b: seq<uint8>)
    ensures |b| == 4
  {
    [Low8(x / 0x100_0000), Low8(x / 0x1_0000), Low8(x / 0x100), Low8(x)]
  }

  /** Reads an unsigned little-endian 16-bit field. */
  function LoadLe16(b: seq<uint8>): uint16
    requires |b| == 2
  {
    b[0] as int + 0x100 * b[1] as int
  }

  /** Reads an unsigned little-endian 32-bit field. */
  function LoadLe32(b: seq<uint8>): uint32
    requires |b| == 4
  {
    b[0] as int + 0x100 * b[1] as int + 0x1_0000 * b[2] as int + 0x100_0000 * b[3] as int
  }

  /** Reads an unsigned big-endian 32-bit field. */
  function LoadBe32(b: seq<uint8>): uint32
    requires |b| == 4
  {
    0x100_0000 * b[0] as int + 0x1_0000 * b[1] as int + 0x100 * b[2] as int + b[3] as int
  }

  /** The two's-complement reading of a 16-bit pattern. */
  function AsInt16(u: uint16): int16
  {
    if u < 0x8000 then u else u - 0x1_0000
  }

  /** The two's-complement reading of a 32-bit pattern. */
  function AsInt32(u: uint32): int32
  {
    if u < 0x8000_0000 then u else u - 0x1_0000_0000
  }

  lemma Le16RoundTrip(x: int)
    ensures LoadLe16(Le16(x)) == x % 0x1_0000
  {
    var q := x / 0x100;
    assert x == 0x100 * q + x % 0x100;
    assert q == 0x100 * (q / 0x100) + q % 0x100;
    assert x / 0x1_0000 == q / 0x100;
  }

  /** A signed 16-bit value survives STORE_LE_16 and a signed read back. */
  lemma Le16SignedRoundTrip(x: int16)
    ensures AsInt16(LoadLe16(Le16(x))) == x
  {
    Le16RoundTrip(x);
  }

  lemma Le32RoundTrip(x: int)
    ensures LoadLe32(Le32(x)) == x % 0x1_0000_0000
  {
    var q1 := x / 0x100;
    var q2 := q1 / 0x100;
    var q3 := q2 / 0x100;
    assert x / 0x1_0000 == q2;
    assert x / 0x100_0000 == q3;
    assert x == 0x100 * q1 + x % 0x100;
    assert q1 == 0x100 * q2 + q1 % 0x100;
    assert q2 == 0x100 * q3 + q2 % 0x100;
    assert q3 == 0x100 * (q3 / 0x100) + q3 % 0x100;
    assert x / 0x1_0000_0000 == q3 / 0x100;
  }

  lemma Le32SignedRoundTrip(x: int32)
    ensures AsInt32(LoadLe32(Le32(x))) == x
  {
    Le32RoundTrip(x);
  }

  lemma Be32RoundTrip(x: uint32)
    ensures LoadBe32(Be32(x)) == x
    ensures Be32(x) == [Le32(x)[3], Le32(x)[2], Le32(x)[1], Le32(x)[0]]
  {
    Le32RoundTrip(x);
  }

  /** Four bytes read big-endian and stored back big-endian are the same four bytes. */
  lemma LoadBe32RoundTrip(b: seq<uint8>)
    requires |b| == 4
    ensures Be32(LoadBe32(b)) == b
  {
    var x := LoadBe32(b) as int;
    var y := 0x1_0000 * b[0] as int + 0x100 * b[1] as int + b[2] as int;
    var z := 0x100 * b[0] as int + b[1] as int;
    assert Low8(x) == b[3] by {
      assert x == 0x100 * y + b[3] as int;
    }
    assert x / 0x100 == y && Low8(y) == b[2] by {
      assert x == 0x100 * y + b[3] as int;
      assert y == 0x100 * z + b[2] as int;
    }
    assert x / 0x1_0000 == z && Low8(z) == b[1] by {
      assert x == 0x1_0000 * z + (0x100 * b[2] as int + b[3] as int);
      assert z == 0x100 * b[0] as int + b[1] as int;
    }
    assert x / 0x100_0000 == b[0] by {
      assert x == 0x100_0000 * b[0] as int + (0x1_0000 * b[1] as int + 0x100 * b[2] as int + b[3] as int);
    }
  }

  /** `(int32_t) x` on a two's-complement machine: the low 32 bits, read signed. */
  function Int32Of(x: int): int32
  {
    AsInt32(x % 0x1_0000_0000)
  }

  /** `(int16_t) x` on a two's-complement machine: the low 16 bits, read signed. */
  function Int16Of(x: int): int16
  {
    AsInt16(x % 0x1_0000)
  }

  /**
   * STORE_LE_16 / STORE_LE_32 / STORE_BE_32 into a buffer: `bytes` are
   * written at `pos`, every other byte keeps its value.
   */
  method Store(value: array<uint8>, pos: nat, bytes: seq<uint8>)
    requires pos + |bytes| <= value.Length
    modifies value
    ensures value[..] == old(value[..])[..pos] + bytes + old(value[..])[pos + |bytes|..]
  {
    var i := 0;
    while i < |bytes|
      invariant 0 <= i <= |bytes|
      invariant forall j :: 0 <= j < value.Length ==>
        value[j] == if pos <= j < pos + i then bytes[j - pos] else old(value[j])
    {
      value[pos + i] := bytes[i];
      i := i + 1;
    }
    assert value[..] == old(value[..])[..pos] + bytes + old(value[..])[pos + |bytes|..];
  }
}
