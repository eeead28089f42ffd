/** Bytes, and big-endian integers made of them. */
module Bytes {

  type Byte = b: int | 0 <= b < 256

  type Text = seq<Byte>

  /** The number that bytes stand for, most significant first. */
  function Number(b: seq<Byte>): nat {
    if b == [] then 0 else 256 * Number(b[..|b| - 1]) + b[|b| - 1]
  }

  /** A 32-bit integer, most significant byte first. */
  function Be32(v: int): seq<Byte>
    requires 0 <= v < 0x1_0000_0000
  {
    [v / 0x100_0000, v / 0x1_0000 % 256, v / 256 % 256, v % 256]
  }

  function FromBe32(b: seq<Byte>): int
    requires |b| >= 4
  {
    var hi: int := b[0];
    ((hi * 256 + b[1]) * 256 + b[2]) * 256 + b[3]
  }

  lemma Be32RoundTrip(v: int, rest: seq<Byte>)
    requires 0 <= v < 0x1_0000_0000
    ensures FromBe32(Be32(v) + rest) == v
  {
    var hi := v / 256;
    assert v == hi * 256 + v % 256;
    assert hi == hi / 256 * 256 + hi % 256;
    assert hi / 256 == v / 0x1_0000;
    var top := v / 0x1_0000;
    assert top == top / 256 * 256 + top % 256;
    assert top / 256 == v / 0x100_0000;
  }

  lemma FromBe32RoundTrip(b: seq<Byte>)
    requires |b| >= 4
    ensures 0 <= FromBe32(b) < 0x1_0000_0000 && Be32(FromBe32(b)) == b[..4]
  {
    var v := FromBe32(b);
    var hi: int := b[0];
    var top := hi * 256 + b[1];
    var mid := top * 256 + b[2];
    assert v == mid * 256 + b[3] && v / 256 == mid && v % 256 == b[3];
    assert mid / 256 == top && mid % 256 == b[2];
    assert top / 256 == hi && top % 256 == b[1];
    assert v / 0x1_0000 == top && v / 0x100_0000 == hi;
  }

  /** A 16-bit integer, most significant byte first. */
  function Be16(v: int): seq<Byte>
    requires 0 <= v < 0x1_0000
  {
    [v / 256, v % 256]
  }

  function FromBe16(b: seq<Byte>): int
    requires |b| >= 2
  {
    var hi: int := b[0];
    hi * 256 + b[1]
  }

  lemma Be16RoundTrip(v: int, rest: seq<Byte>)
    requires 0 <= v < 0x1_0000
    ensures FromBe16(Be16(v) + rest) == v && FromBe16(Be16(v)) == v
  {
  }

  lemma NumberOfTwo(a: Byte, b: Byte)
    ensures var hi: int := a; Number([a, b]) == 256 * hi + b
  {
    assert [a, b][..1] == [a] && [a][..0] == [];
    assert Number([a]) == a;
  }

  lemma NumberOfFour(b: seq<Byte>)
    requires |b| == 4
    ensures Number(b) == 256 * (256 * Number(b[..2]) + b[2]) + b[3]
  {
    assert b[..3][..2] == b[..2];
  }

  /** Both ways of writing are those of `Number`. */
  lemma Be16Is(v: int)
    requires 0 <= v < 0x1_0000
    ensures |Be16(v)| == 2 && Number(Be16(v)) == v
  {
    NumberOfTwo(v / 256, v % 256);
  }

  lemma FromBe16Is(b: seq<Byte>)
    requires |b| >= 2
    ensures FromBe16(b) == Number(b[..2])
  {
    NumberOfTwo(b[0], b[1]);
    assert b[..2] == [b[0], b[1]];
  }

  lemma FromBe32Is(b: seq<Byte>)
    requires |b| >= 4
    ensures FromBe32(b) == Number(b[..4])
  {
    NumberOfTwo(b[0], b[1]);
    assert b[..4][..2] == [b[0], b[1]];
    NumberOfFour(b[..4]);
  }

  lemma Be32Is(v: int)
    requires 0 <= v < 0x1_0000_0000
    ensures |Be32(v)| == 4 && Number(Be32(v)) == v
  {
    Be32RoundTrip(v, []);
    assert Be32(v) + [] == Be32(v) && Be32(v)[..4] == Be32(v);
    FromBe32Is(Be32(v));
  }
}
