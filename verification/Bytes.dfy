/** Bytes, fixed-width words and the `struct` byte orders the protocols use. */
module Bytes {

  type byte = x: int | 0 <= x < 0x100
  type u16 = x: int | 0 <= x < 0x1_0000
  type u32 = x: int | 0 <= x < 0x1_0000_0000

  const MOD16: int := 0x1_0000
  const MOD32: int := 0x1_0000_0000

  datatype Option<+T> = None | Some(value: T)

  function Min(a: int, b: int): int {
    if a <= b then a else b
  }

  function Le16(v: u16): seq<byte> {
    [v % 256, v / 256]
  }

  function Be16(v: u16): seq<byte> {
    [v / 256, v % 256]
  }

  function Le32(v: u32): seq<byte> {
    var q1: int := v / 256;
    var q2 := q1 / 256;
    [v % 256, q1 % 256, q2 % 256, q2 / 256]
  }

  function Be32(v: u32): seq<byte> {
    var q1: int := v / 256;
    var q2 := q1 / 256;
    [q2 / 256, q2 % 256, q1 % 256, v % 256]
  }

  function AtLe16(b: seq<byte>, off: nat): u16
    requires off + 2 <= |b|
  {
    b[off] as int + 0x100 * (b[off + 1] as int)
  }

  function AtBe16(b: seq<byte>, off: nat): u16
    requires off + 2 <= |b|
  {
    0x100 * (b[off] as int) + b[off + 1] as int
  }

  function AtLe32(b: seq<byte>, off: nat): u32
    requires off + 4 <= |b|
  {
    b[off] as int + 0x100 * (b[off + 1] as int) + 0x1_0000 * (b[off + 2] as int) + 0x100_0000 * (b[off + 3] as int)
  }

  function AtBe32(b: seq<byte>, off: nat): u32
    requires off + 4 <= |b|
  {
    0x100_0000 * (b[off] as int) + 0x1_0000 * (b[off + 1] as int) + 0x100 * (b[off + 2] as int) + b[off + 3] as int
  }

  lemma ReadBe16(b: seq<byte>, off: nat, v: u16)
    requires off + 2 <= |b| && b[off..off + 2] == Be16(v)
    ensures AtBe16(b, off) == v
  {
    assert b[off] == b[off..off + 2][0] && b[off + 1] == b[off..off + 2][1];
  }

  lemma ReadLe16(b: seq<byte>, off: nat, v: u16)
    requires off + 2 <= |b| && b[off..off + 2] == Le16(v)
    ensures AtLe16(b, off) == v
  {
    assert b[off] == b[off..off + 2][0] && b[off + 1] == b[off..off + 2][1];
  }

  lemma ReadBe32(b: seq<byte>, off: nat, v: u32)
    requires off + 4 <= |b| && b[off..off + 4] == Be32(v)
    ensures AtBe32(b, off) == v
  {
    var w := b[off..off + 4];
    assert b[off] == w[0] && b[off + 1] == w[1] && b[off + 2] == w[2] && b[off + 3] == w[3];
  }

  lemma ReadLe32(b: seq<byte>, off: nat, v: u32)
    requires off + 4 <= |b| && b[off..off + 4] == Le32(v)
    ensures AtLe32(b, off) == v
  {
    var w := b[off..off + 4];
    assert b[off] == w[0] && b[off + 1] == w[1] && b[off + 2] == w[2] && b[off + 3] == w[3];
  }

  /** Concatenation of a list of byte strings. */
  function Concat(parts: seq<seq<byte>>): seq<byte> {
    if parts == [] then [] else parts[0] + Concat(parts[1..])
  }

  lemma {:induction false} ConcatAppend(a: seq<seq<byte>>, b: seq<seq<byte>>)
    ensures Concat(a + b) == Concat(a) + Concat(b)
  {
    if a == [] {
      assert a + b == b;
    } else {
      assert (a + b)[1..] == a[1..] + b;
      ConcatAppend(a[1..], b);
    }
  }
}
