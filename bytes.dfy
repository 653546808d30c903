/** Byte strings and the fixed-width integer encodings used on the wire
    (Python's `struct` formats `B`, `H`, `I`, `Q` in network byte order),
    lower-case hexadecimal (`bytes.hex()`) and decimal rendering (`str(int)`). */
module Bytes {

  type byte = x: int | 0 <= x < 0x100
  type u16 = x: int | 0 <= x < 0x1_0000
  type u32 = x: int | 0 <= x < 0x1_0000_0000
  type u64 = x: int | 0 <= x < 0x1_0000_0000_0000_0000
  type i32 = x: int | -0x8000_0000 <= x < 0x8000_0000

  function Pow256(n: nat): (p: nat)
    ensures p >= 1
  {
    if n == 0 then 1 else 256 * Pow256(n - 1)
  }

  /** The value of a big-endian byte string. */
  function FromBigEndian(s: seq<byte>): (x: nat)
    ensures x < Pow256(|s|)
  {
    if s == [] then 0 else FromBigEndian(s[..|s| - 1]) * 256 + s[|s| - 1]
  }

  /** `x` written as `n` bytes, most significant first. */
  function ToBigEndian(x: nat, n: nat): (r: seq<byte>)
    requires x < Pow256(n)
    ensures |r| == n
    ensures FromBigEndian(r) == x
  {
    if n == 0 then []
    else
      var r := ToBigEndian(x / 256, n - 1) + [x % 256];
      assert r[..|r| - 1] == ToBigEndian(x / 256, n - 1);
      r
  }

  /** Encoding and decoding are inverse in the other direction as well. */
  lemma {:induction false} ToFromBigEndian(s: seq<byte>)
    ensures ToBigEndian(FromBigEndian(s), |s|) == s
  {
    if s != [] {
      var init := s[..|s| - 1];
      ToFromBigEndian(init);
      assert FromBigEndian(s) / 256 == FromBigEndian(init);
      assert FromBigEndian(s) % 256 == s[|s| - 1];
      assert s == init + [s[|s| - 1]];
    }
  }

  /** Two byte strings of the same length with the same value are equal. */
  lemma BigEndianInjective(s: seq<byte>, t: seq<byte>)
    requires |s| == |t| && FromBigEndian(s) == FromBigEndian(t)
    ensures s == t
  {
    ToFromBigEndian(s);
    ToFromBigEndian(t);
  }

  function U16(x: u16): (r: seq<byte>)
    ensures |r| == 2 && FromBigEndian(r) == x
  {
    assert Pow256(2) == 0x1_0000;
    ToBigEndian(x, 2)
  }

  function U32(x: u32): (r: seq<byte>)
    ensures |r| == 4 && FromBigEndian(r) == x
  {
    assert Pow256(4) == 0x1_0000_0000;
    ToBigEndian(x, 4)
  }

  function U64(x: u64): (r: seq<byte>)
    ensures |r| == 8 && FromBigEndian(r) == x
  {
    assert Pow256(8) == 0x1_0000_0000_0000_0000;
    ToBigEndian(x, 8)
  }

  /** `struct.pack('!i', x)`: a signed value in two's complement. */
  function I32(x: i32): (r: seq<byte>)
    ensures |r| == 4 && FromBigEndian(r) == if x < 0 then x + 0x1_0000_0000 else x
  {
    U32(if x < 0 then x + 0x1_0000_0000 else x)
  }

  /** `struct.unpack('!I', s)` for a four-byte `s`. */
  function ReadU32(s: seq<byte>): (x: u32)
    requires |s| == 4
    ensures U32(x) == s
    ensures x == FromBigEndian(s)
  {
    assert Pow256(4) == 0x1_0000_0000;
    ToFromBigEndian(s);
    FromBigEndian(s)
  }

  /** `struct.unpack('!H', s)` for a two-byte `s`. */
  function ReadU16(s: seq<byte>): (x: u16)
    requires |s| == 2
    ensures U16(x) == s
    ensures x == 256 * (s[0] as int) + s[1] as int
  {
    assert Pow256(2) == 0x1_0000;
    ToFromBigEndian(s);
    assert s[..1] == [s[0]];
    FromBigEndian(s)
  }

  /** `struct.unpack('!Q', s)` for an eight-byte `s`. */
  function ReadU64(s: seq<byte>): (x: u64)
    requires |s| == 8
    ensures U64(x) == s
    ensures x == FromBigEndian(s)
  {
    assert Pow256(8) == 0x1_0000_0000_0000_0000;
    ToFromBigEndian(s);
    FromBigEndian(s)
  }

  /** `bytes(n)`: n zero bytes. */
  function Zeros(n: nat): (r: seq<byte>)
    ensures |r| == n && forall i :: 0 <= i < n ==> r[i] == 0
  {
    seq(n, _ => 0)
  }

  /** The bytes of an ASCII string, as `str.encode()` produces them. */
  function Ascii(s: string): (r: seq<byte>)
    requires forall i :: 0 <= i < |s| ==> s[i] as int < 0x80
    ensures |r| == |s| && forall i :: 0 <= i < |s| ==> r[i] == s[i] as int
  {
    seq(|s|, i requires 0 <= i < |s| => s[i] as int)
  }

  // ----- hexadecimal -----

  /** One lower-case hexadecimal digit. */
  function HexDigit(d: nat): (c: char)
    requires d < 16
  {
    if d < 10 then ('0' as int + d) as char else ('a' as int + d - 10) as char
  }

  /** The inverse of `HexDigit` on its range; -1 for any other character. */
  function HexValue(c: char): (d: int)
    ensures 0 <= d < 16 ==> HexDigit(d) == c
    ensures d < 16
  {
    if '0' <= c <= '9' then c as int - '0' as int
    else if 'a' <= c <= 'f' then c as int - 'a' as int + 10
    else -1
  }

  /** `bytes.hex()`: two lower-case hexadecimal digits per byte. */
  function Hex(bs: seq<byte>): (r: string)
    ensures |r| == 2 * |bs|
  {
    if bs == [] then "" else [HexDigit(bs[0] / 16), HexDigit(bs[0] % 16)] + Hex(bs[1..])
  }

  function UnHex(s: string): (r: seq<int>)
    requires |s| % 2 == 0
  {
    if s == [] then [] else [16 * HexValue(s[0]) + HexValue(s[1])] + UnHex(s[2..])
  }

  lemma HexValueOfDigit(d: nat)
    requires d < 16
    ensures HexValue(HexDigit(d)) == d
  {
  }

  /** The hexadecimal rendering loses nothing: it can be read back. */
  lemma {:induction false} UnHexHex(bs: seq<byte>)
    ensures UnHex(Hex(bs)) == bs
  {
    if bs != [] {
      var hi, lo := bs[0] / 16, bs[0] % 16;
      var h := Hex(bs);
      assert h == [HexDigit(hi), HexDigit(lo)] + Hex(bs[1..]);
      assert h[0] == HexDigit(hi) && h[1] == HexDigit(lo) && h[2..] == Hex(bs[1..]);
      HexValueOfDigit(hi);
      HexValueOfDigit(lo);
      UnHexHex(bs[1..]);
      assert UnHex(h) == [16 * hi + lo] + bs[1..];
    }
  }

  // ----- decimal -----

  function DecimalDigit(d: nat): (c: char)
    requires d < 10
    ensures '0' <= c <= '9'
  {
    ('0' as int + d) as char
  }

  /** `str(n)` for a natural number n: decimal digits, no leading zeros. */
  function Decimal(n: nat): (r: string)
    ensures 1 <= |r|
    ensures forall i :: 0 <= i < |r| ==> '0' <= r[i] <= '9'
    ensures |r| > 1 ==> r[0] != '0'
  {
    if n < 10 then [DecimalDigit(n)] else Decimal(n / 10) + [DecimalDigit(n % 10)]
  }

  function DecimalValue(s: string): (n: int)
  {
    if s == [] then 0 else 10 * DecimalValue(s[..|s| - 1]) + (s[|s| - 1] as int - '0' as int)
  }

  /** The decimal rendering can be read back. */
  lemma {:induction false} DecimalRoundTrip(n: nat)
    ensures DecimalValue(Decimal(n)) == n
  {
    if n >= 10 {
      var d := Decimal(n);
      assert d[..|d| - 1] == Decimal(n / 10);
      DecimalRoundTrip(n / 10);
    } else {
      assert DecimalValue(Decimal(n)) == 10 * DecimalValue([]) + n;
    }
  }

  /** `sep.join(parts)`. */
  function Join(parts: seq<string>, sep: string): (r: string)
  {
    if parts == [] then "" else if |parts| == 1 then parts[0] else parts[0] + sep + Join(parts[1..], sep)
  }

  /** `str(n)` for any integer: a minus sign before the digits of a negative one. */
  function IntToString(n: int): string
  {
    if n < 0 then "-" + Decimal(-n) else Decimal(n)
  }

  /** `s.startswith(prefix)`. */
  predicate StartsWith(s: string, prefix: string)
  {
    |prefix| <= |s| && s[..|prefix|] == prefix
  }

  /** `data[:n]`: at most the first n bytes. */
  function Prefix(data: seq<byte>, n: nat): (r: seq<byte>)
    ensures |r| == if |data| < n then |data| else n
    ensures r == data[..|r|]
  {
    if |data| < n then data else data[..n]
  }

  /** `data[lo:hi]` for 0 <= lo <= hi: cut to what the data has. */
  function Slice(data: seq<byte>, lo: nat, hi: nat): (r: seq<byte>)
    requires lo <= hi
    ensures hi <= |data| ==> r == data[lo..hi]
    ensures |r| == if hi <= |data| then hi - lo else if lo <= |data| then |data| - lo else 0
  {
    if lo >= |data| then [] else if hi <= |data| then data[lo..hi] else data[lo..]
  }

  /** `data[n:]`: empty when the data is shorter than n. */
  function Suffix(data: seq<byte>, n: nat): (r: seq<byte>)
    ensures |data| <= n ==> r == []
    ensures |data| > n ==> |r| == |data| - n && Prefix(data, n) + r == data
  {
    if |data| < n then [] else data[n..]
  }
}
