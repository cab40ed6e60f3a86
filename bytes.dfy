/** Fixed-width unsigned integers and their big-endian byte encodings. */
module Bytes {

  type byte = x: int | 0 <= x < 0x100
  type u16 = x: int | 0 <= x < 0x1_0000
  type u32 = x: int | 0 <= x < 0x1_0000_0000

  /** 256 to the power n: one more than the largest value n bytes can hold. */
  function Pow256(n: nat): (r: nat)
    ensures r > 0
  {
    if n == 0 then 1 else 256 * Pow256(n - 1)
  }

  /** The number that the bytes of `s` spell out, most significant byte first. */
  function BigEndian(s: seq<byte>): nat
  {
    if s == [] then 0 else BigEndian(s[..|s| - 1]) * 256 + s[|s| - 1]
  }

  lemma {:induction false} BigEndianBound(s: seq<byte>)
    ensures BigEndian(s) < Pow256(|s|)
  {
    if s != [] {
      BigEndianBound(s[..|s| - 1]);
      var init := BigEndian(s[..|s| - 1]);
      assert init <= Pow256(|s| - 1) - 1;
      assert init * 256 <= Pow256(|s| - 1) * 256 - 256;
    }
  }

  /** More bytes hold more values. */
  lemma {:induction false} Pow256Monotone(i: nat, j: nat)
    requires i <= j
    ensures Pow256(i) <= Pow256(j)
    decreases j
  {
    if i < j {
      Pow256Monotone(i, j - 1);
    }
  }

  /** Appending one byte shifts the value up by one byte. */
  lemma BigEndianAppend(s: seq<byte>, b: byte)
    ensures BigEndian(s + [b]) == BigEndian(s) * 256 + b
  {
    assert (s + [b])[..|s|] == s;
  }

  /** Leading zero bytes do not change the value. */
  lemma {:induction false} BigEndianLeadingZero(s: seq<byte>)
    ensures BigEndian([0] + s) == BigEndian(s)
  {
    if s != [] {
      var init := s[..|s| - 1];
      assert ([0] + s)[..|s|] == [0] + init;
      BigEndianLeadingZero(init);
    }
  }

  /** The value of two bytes, as `binary.Read` decodes a big-endian uint16. */
  function U16At(s: seq<byte>): (v: u16)
    requires |s| >= 2
    ensures v == BigEndian(s[..2])
  {
    assert s[..2][..1] == [s[0]];
    assert [s[0]][..0] == [];
    assert BigEndian([s[0]]) == s[0];
    s[0] as int * 0x100 + s[1]
  }

  /** The value of four bytes, as `binary.Read` decodes a big-endian uint32. */
  function U32At(s: seq<byte>): (v: u32)
    requires |s| >= 4
    ensures v == BigEndian(s[..4])
  {
    assert s[..4][..3] == s[..3];
    assert s[..3][..2] == s[..2];
    assert s[..2][..1] == [s[0]];
    assert [s[0]][..0] == [];
    assert BigEndian([s[0]]) == s[0];
    assert BigEndian(s[..2]) == s[0] as int * 0x100 + s[1];
    assert BigEndian(s[..3]) == s[0] as int * 0x1_0000 + s[1] as int * 0x100 + s[2];
    s[0] as int * 0x100_0000 + s[1] as int * 0x1_0000 + s[2] as int * 0x100 + s[3]
  }

  /** The two bytes `binary.Write` emits for a big-endian uint16. */
  function U16Bytes(n: u16): (r: seq<byte>)
    ensures |r| == 2 && U16At(r) == n
  {
    [n / 0x100, n % 0x100]
  }

  /** The four bytes `binary.Write` emits for a big-endian uint32. */
  function U32Bytes(n: u32): (r: seq<byte>)
    ensures |r| == 4 && U32At(r) == n
  {
    var q1 := n / 0x100;
    var q2 := q1 / 0x100;
    var q3 := q2 / 0x100;
    assert n == q1 * 0x100 + n % 0x100;
    assert q1 == q2 * 0x100 + q1 % 0x100;
    assert q2 == q3 * 0x100 + q2 % 0x100;
    [q3, q2 % 0x100, q1 % 0x100, n % 0x100]
  }

  /** Splitting off the low byte of `hi * 256 + lo` gives back `hi` and `lo`. */
  lemma SplitLowByte(hi: nat, lo: byte)
    ensures (hi * 0x100 + lo) / 0x100 == hi && (hi * 0x100 + lo) % 0x100 == lo
  {
  }

  /** Reading back what was written: a four-byte sequence is the encoding of its own value. */
  lemma U32BytesOfValue(s: seq<byte>)
    requires |s| == 4
    ensures U32Bytes(U32At(s)) == s
  {
    var b := s[0] as int * 0x100 + s[1];
    var c := b * 0x100 + s[2];
    assert U32At(s) == c * 0x100 + s[3];
    SplitLowByte(c, s[3]);
    SplitLowByte(b, s[2]);
    SplitLowByte(s[0], s[1]);
    assert U32Bytes(U32At(s)) == [s[0], s[1], s[2], s[3]];
  }

  lemma U16BytesOfValue(s: seq<byte>)
    requires |s| == 2
    ensures U16Bytes(U16At(s)) == s
  {
    SplitLowByte(s[0], s[1]);
  }
}
