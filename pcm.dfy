/** 16-bit signed PCM over byte sequences, with the integer semantics of C#. */
module Pcm {

  type Byte = b: int | 0 <= b < 0x100

  type Int16 = x: int | -0x8000 <= x < 0x8000

  function Abs(x: int): nat { if x < 0 then -x else x }

  /** C#'s integer division, which truncates toward zero (Dafny's `/` is Euclidean). */
  function TruncDiv(a: int, b: int): (q: int)
    requires b != 0
    ensures Abs(a - q * b) < Abs(b)
    ensures a >= 0 ==> a - q * b >= 0
    ensures a <= 0 ==> a - q * b <= 0
  {
    var k := Abs(a) / Abs(b);
    TruncRemainder(a, b, k);
    if (a >= 0) == (b > 0) then k else -k
  }

  /** The quotient of the magnitudes, signed, leaves a remainder smaller than the divisor with the dividend's sign. */
  lemma TruncRemainder(a: int, b: int, k: int)
    requires b != 0 && k == Abs(a) / Abs(b)
    ensures var q := if (a >= 0) == (b > 0) then k else -k;
      && Abs(a - q * b) < Abs(b) && (a >= 0 ==> a - q * b >= 0) && (a <= 0 ==> a - q * b <= 0)
  {
    var x, m := Abs(a), Abs(b);
    var r := x % m;
    EuclidParts(x, m, k, r);
    var q := if (a >= 0) == (b > 0) then k else -k;
    SignedProduct(q, b, k, m, (a >= 0) == (b > 0));
    assert q * b == (if a >= 0 then k * m else -(k * m));
  }

  /** The Euclidean quotient and remainder of a non-negative dividend. */
  lemma EuclidParts(x: int, m: int, k: int, r: int)
    requires x >= 0 && m > 0 && k == x / m && r == x % m
    ensures x == k * m + r && 0 <= r < m
  {
  }

  /** A product with a sign attached to each factor. */
  lemma SignedProduct(q: int, b: int, k: int, m: int, same: bool)
    requires m == (if b > 0 then b else -b)
    requires q == (if same then k else -k)
    ensures q * b == (if same == (b > 0) then k * m else -(k * m))
  {
    if b > 0 {
      if same { assert q * b == k * m; } else { assert q * b == -(k * m); }
    } else {
      if same { assert q * b == -(k * m); } else { assert q * b == k * m; }
    }
  }

  /** The signed value of a 16-bit two's-complement pattern. */
  function FromTwosComplement16(u: int): (x: Int16)
    requires 0 <= u < 0x10000
    ensures x % 0x10000 == u
  {
    if u < 0x8000 then u else u - 0x10000
  }

  /** C#'s `(short)` cast of an `int`: keeps the low 16 bits. */
  function ShortCast(v: int): (x: Int16)
    ensures (x - v) % 0x10000 == 0
    ensures -0x8000 <= v < 0x8000 ==> x == v
    ensures 0 <= v < 0x10000 ==> x == FromTwosComplement16(v)
  {
    FromTwosComplement16(v % 0x10000)
  }

  /** The unsigned value of two bytes taken low byte first. */
  function Word16(lo: Byte, hi: Byte): int
  {
    lo as int + 0x100 * hi as int
  }

  /** `BitConverter.ToInt16` on a little-endian host. */
  function BitConverterToInt16(buffer: seq<Byte>, offset: nat): Int16
    requires offset + 1 < |buffer|
  {
    FromTwosComplement16(Word16(buffer[offset], buffer[offset + 1]))
  }

  function Pow2(k: nat): (p: nat)
    ensures p > 0
  {
    if k == 0 then 1 else 2 * Pow2(k - 1)
  }

  /** C#'s `a | b` on non-negative integers, taken bit by bit from the lowest. */
  function BitOr(a: nat, b: nat): nat
    decreases a + b
  {
    if a == 0 then b
    else if b == 0 then a
    else 2 * BitOr(a / 2, b / 2) + (if a % 2 == 1 || b % 2 == 1 then 1 else 0)
  }

  /** C#'s `x << k` on a non-negative integer too small to overflow. */
  function ShiftLeft(x: nat, k: nat): nat
  {
    x * Pow2(k)
  }

  /** Or-ing a value below `2^k` with a multiple of `2^k` adds them, since no bit is set in both. */
  lemma {:induction false} OrDisjoint(a: nat, b: nat, k: nat)
    requires a < Pow2(k)
    ensures BitOr(a, ShiftLeft(b, k)) == a + ShiftLeft(b, k)
    decreases k
  {
    if a != 0 && b != 0 {
      var p := Pow2(k - 1);
      var c := ShiftLeft(b, k);
      assert c == 2 * (b * p);
      assert c / 2 == b * p && c % 2 == 0;
      OrDisjoint(a / 2, b, k - 1);
      assert BitOr(a, c) == 2 * (a / 2 + b * p) + a % 2;
    }
  }

  /** `lo | (hi << 8)` is the little-endian word of the two bytes. */
  lemma {:induction false} ShiftOrIsWord16(lo: Byte, hi: Byte)
    ensures BitOr(lo, ShiftLeft(hi, 8)) == Word16(lo, hi)
  {
    assert Pow2(8) == 0x100;
    OrDisjoint(lo, hi, 8);
  }

  /** `(short)(lo | (hi << 8))`, the big-endian host's branch of ReadInt16LE. */
  function ShiftOrInt16(lo: Byte, hi: Byte): (x: Int16)
    ensures x == FromTwosComplement16(Word16(lo, hi))
  {
    ShiftOrIsWord16(lo, hi);
    ShortCast(BitOr(lo, ShiftLeft(hi, 8)))
  }

  /**
   * Reads the 16-bit sample at `offset` as little-endian whatever the host's
   * byte order: `BitConverter` on a little-endian host, an explicit
   * shift-and-or otherwise. Both branches give the same value.
   */
  function ReadInt16LE(buffer: seq<Byte>, offset: nat, isLittleEndian: bool): (x: Int16)
    requires offset + 1 < |buffer|
    ensures x == FromTwosComplement16(Word16(buffer[offset], buffer[offset + 1]))
  {
    if isLittleEndian then
      BitConverterToInt16(buffer, offset)
    else
      ShiftOrInt16(buffer[offset], buffer[offset + 1])
  }

  // ---- sample arrays as bytes (Buffer.BlockCopy on a little-endian host) ----

  /** Byte `k` (0 = low, 1 = high) of a sample's two's-complement pattern. */
  function SampleByte(x: Int16, k: nat): Byte
    requires k < 2
  {
    var u := x % 0x10000;
    if k == 0 then u % 0x100 else u / 0x100
  }

  /** A `short[]` copied byte for byte into a `byte[]`. */
  function EncodeSamples(samples: seq<Int16>): (bytes: seq<Byte>)
    ensures |bytes| == 2 * |samples|
  {
    seq(2 * |samples|, k requires 0 <= k < 2 * |samples| => SampleByte(samples[k / 2], k % 2))
  }

  /** A `byte[]` of even length copied into a `short[]` of half its length. */
  function DecodeSamples(bytes: seq<Byte>): (samples: seq<Int16>)
    ensures |samples| == |bytes| / 2
  {
    seq(|bytes| / 2, i requires 0 <= i < |bytes| / 2 => ReadInt16LE(bytes, 2 * i, true))
  }

  lemma {:induction false} SampleBytesRoundTrip(x: Int16)
    ensures FromTwosComplement16(Word16(SampleByte(x, 0), SampleByte(x, 1))) == x
  {
    var u := x % 0x10000;
    assert u == u % 0x100 + 0x100 * (u / 0x100);
  }

  /** Copying samples to bytes and back gives the samples. */
  lemma {:induction false} DecodeEncodeSamples(samples: seq<Int16>)
    ensures DecodeSamples(EncodeSamples(samples)) == samples
  {
    var bytes := EncodeSamples(samples);
    forall i | 0 <= i < |samples|
      ensures DecodeSamples(bytes)[i] == samples[i]
    {
      assert (2 * i) / 2 == i && (2 * i) % 2 == 0;
      assert (2 * i + 1) / 2 == i && (2 * i + 1) % 2 == 1;
      assert bytes[2 * i] == SampleByte(samples[i], 0);
      assert bytes[2 * i + 1] == SampleByte(samples[i], 1);
      assert DecodeSamples(bytes)[i] == FromTwosComplement16(Word16(bytes[2 * i], bytes[2 * i + 1]));
      SampleBytesRoundTrip(samples[i]);
    }
  }

  /** Copying an even-length byte buffer to samples and back gives the bytes. */
  lemma {:induction false} EncodeDecodeSamples(bytes: seq<Byte>)
    requires |bytes| % 2 == 0
    ensures EncodeSamples(DecodeSamples(bytes)) == bytes
  {
    var samples := DecodeSamples(bytes);
    var back := EncodeSamples(samples);
    forall k | 0 <= k < |bytes|
      ensures back[k] == bytes[k]
    {
      var i := k / 2;
      assert k == 2 * i + k % 2;
      WordBytes(bytes[2 * i], bytes[2 * i + 1]);
    }
  }

  lemma {:induction false} WordBytes(lo: Byte, hi: Byte)
    ensures var x := FromTwosComplement16(Word16(lo, hi)); SampleByte(x, 0) == lo && SampleByte(x, 1) == hi
  {
    var w := Word16(lo, hi);
    assert FromTwosComplement16(w) % 0x10000 == w;
    assert w % 0x100 == lo && w / 0x100 == hi;
  }

  // ---- header fields (BitConverter.GetBytes on a little-endian host) ----

  function Pow256(n: nat): (p: nat)
    ensures p > 0
  {
    if n == 0 then 1 else 0x100 * Pow256(n - 1)
  }

  /**
   * The `n` low bytes of `x`'s two's-complement pattern, low byte first:
   * the bytes of `x` wrapped to an `n`-byte integer.
   */
  function LEBytes(x: int, n: nat): (b: seq<Byte>)
    ensures |b| == n
    decreases n
  {
    if n == 0 then [] else [x % 0x100] + LEBytes(x / 0x100, n - 1)
  }

  /** The unsigned value of a little-endian byte field. */
  function DecodeLE(b: seq<Byte>): (v: nat)
  {
    if b == [] then 0 else b[0] + 0x100 * DecodeLE(b[1..])
  }

  /** The two bytes of `(short)x`. */
  function LE16(x: int): (b: seq<Byte>)
    ensures |b| == 2
  {
    LEBytes(x, 2)
  }

  /** The four bytes of a 32-bit `int`. */
  function LE32(x: int): (b: seq<Byte>)
    ensures |b| == 4
  {
    LEBytes(x, 4)
  }

  lemma MulSmall(d: int, e: int)
    requires d > 0 && -d < d * e < d
    ensures e == 0
  {
  }

  lemma {:induction false} EuclideanUnique(x: int, d: int, k: int, m: int)
    requires d > 0 && x == d * k + m && 0 <= m < d
    ensures x % d == m && x / d == k
  {
    var k', m' := x / d, x % d;
    assert d * (k' - k) == m - m';
    MulSmall(d, k' - k);
  }

  lemma {:induction false} ModOfScaled(x: int, p: nat)
    requires p > 0
    ensures x % (0x100 * p) == x % 0x100 + 0x100 * ((x / 0x100) % p)
  {
    var q, r := x / 0x100, x % 0x100;
    var k, m := q / p, q % p;
    assert x == 0x100 * q + r;
    assert q == p * k + m;
    assert x == (0x100 * p) * k + (0x100 * m + r);
    EuclideanUnique(x, 0x100 * p, k, 0x100 * m + r);
  }

  /** Decoding the `n` bytes of `x` gives `x` modulo 256^n. */
  lemma {:induction false} LEBytesDecode(x: int, n: nat)
    ensures DecodeLE(LEBytes(x, n)) == x % Pow256(n)
    decreases n
  {
    if n > 0 {
      LEBytesDecode(x / 0x100, n - 1);
      ModOfScaled(x, Pow256(n - 1));
      assert LEBytes(x, n)[1..] == LEBytes(x / 0x100, n - 1);
    }
  }

  /** Encoding the value of `|b|` bytes as `|b|` bytes gives `b` back. */
  lemma {:induction false} DecodeLEBytes(b: seq<Byte>)
    ensures DecodeLE(b) < Pow256(|b|)
    ensures LEBytes(DecodeLE(b), |b|) == b
    decreases |b|
  {
    if b != [] {
      DecodeLEBytes(b[1..]);
      EuclideanUnique(DecodeLE(b), 0x100, DecodeLE(b[1..]), b[0]);
      assert [b[0]] + b[1..] == b;
    }
  }
}
