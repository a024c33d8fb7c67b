/** Byte-level building blocks shared by the codecs: fixed-width unsigned
    integers, Option/Result, and big- and little-endian integer images. */
module Encoding {

  type byte = x: int | 0 <= x < 0x100
  type uint16 = x: int | 0 <= x < 0x1_0000
  type uint32 = x: int | 0 <= x < 0x1_0000_0000
  type uint64 = x: int | 0 <= x < 0x1_0000_0000_0000_0000
  type Bytes = seq<byte>

  datatype Option<+T> = None | Some(value: T)

  datatype Result<+T, +E> = Success(value: T) | Failure(error: E) {
    predicate IsFailure() { Failure? }
    function PropagateFailure<U>(): Result<U, E> requires Failure? { Failure(error) }
    function Extract(): T requires Success? { value }
  }

  /** 256 to the power n: the number of values an n-byte field can hold. */
  function Pow256(n: nat): (r: nat)
    ensures r > 0
  {
    if n == 0 then 1 else 256 * Pow256(n - 1)
  }

  /** The n-byte big-endian image of x. Only the low 8n bits of x survive,
      as with Go's conversion of an int to a fixed-width unsigned integer. */
  function BigEndian(x: nat, n: nat): (r: Bytes)
    ensures |r| == n
  {
    if n == 0 then [] else BigEndian(x / 256, n - 1) + [x % 256]
  }

  /** The unsigned integer whose big-endian image is s. */
  function FromBigEndian(s: Bytes): (x: nat)
    ensures x < Pow256(|s|)
  {
    if s == [] then 0 else FromBigEndian(s[..|s| - 1]) * 256 + s[|s| - 1]
  }

  lemma {:induction false} BigEndianRoundTrip(x: nat, n: nat)
    requires x < Pow256(n)
    ensures FromBigEndian(BigEndian(x, n)) == x
  {
    if n > 0 {
      var q, r := x / 256, x % 256;
      assert q < Pow256(n - 1);
      BigEndianRoundTrip(q, n - 1);
      var s := BigEndian(x, n);
      assert s[..n - 1] == BigEndian(q, n - 1);
      assert s[n - 1] == r;
    }
  }

  lemma {:induction false} FromBigEndianRoundTrip(s: Bytes)
    ensures BigEndian(FromBigEndian(s), |s|) == s
  {
    if s != [] {
      var p := s[..|s| - 1];
      var x := FromBigEndian(s);
      assert x / 256 == FromBigEndian(p) && x % 256 == s[|s| - 1];
      FromBigEndianRoundTrip(p);
      assert s == p + [s[|s| - 1]];
    }
  }

  /** Go's binary.BigEndian.Uint16/Uint32/Uint64: read the first bytes of b. */
  function Uint16BE(b: Bytes): (r: uint16)
    requires |b| >= 2
  {
    assert Pow256(2) == 0x1_0000;
    FromBigEndian(b[..2])
  }

  function Uint32BE(b: Bytes): (r: uint32)
    requires |b| >= 4
  {
    assert Pow256(4) == 0x1_0000_0000;
    FromBigEndian(b[..4])
  }

  function Uint64BE(b: Bytes): (r: uint64)
    requires |b| >= 8
  {
    assert Pow256(8) == 0x1_0000_0000_0000_0000;
    FromBigEndian(b[..8])
  }

  /** The four bytes a shift-and-truncate sequence produces (byte(x>>24),
      byte(x>>16), byte(x>>8), byte(x)) are the 4-byte big-endian image. */
  lemma BigEndian4(x: nat)
    ensures BigEndian(x, 4) == [x / 0x100_0000 % 0x100, x / 0x1_0000 % 0x100, x / 0x100 % 0x100, x % 0x100]
  {
    var a, b, c := x / 256, x / 256 / 256, x / 256 / 256 / 256;
    assert b == x / 0x1_0000 && c == x / 0x100_0000;
    assert BigEndian(c, 1) == [c % 256];
    assert BigEndian(b, 2) == [c % 256, b % 256];
    assert BigEndian(a, 3) == [c % 256, b % 256, a % 256];
  }

  /** The n-byte little-endian image of x (low 8n bits of x). */
  function LittleEndian(x: nat, n: nat): (r: Bytes)
    ensures |r| == n
  {
    if n == 0 then [] else [x % 256] + LittleEndian(x / 256, n - 1)
  }

  function FromLittleEndian(s: Bytes): (x: nat)
    ensures x < Pow256(|s|)
  {
    if s == [] then 0 else s[0] + 256 * FromLittleEndian(s[1..])
  }

  lemma {:induction false} LittleEndianRoundTrip(x: nat, n: nat)
    requires x < Pow256(n)
    ensures FromLittleEndian(LittleEndian(x, n)) == x
  {
    if n > 0 {
      var q := x / 256;
      assert q < Pow256(n - 1);
      LittleEndianRoundTrip(q, n - 1);
      var s := LittleEndian(x, n);
      assert s[1..] == LittleEndian(q, n - 1);
    }
  }

  lemma {:induction false} FromLittleEndianRoundTrip(s: Bytes)
    ensures LittleEndian(FromLittleEndian(s), |s|) == s
  {
    if s != [] {
      var x := FromLittleEndian(s);
      assert x % 256 == s[0] && x / 256 == FromLittleEndian(s[1..]);
      FromLittleEndianRoundTrip(s[1..]);
    }
  }
}
