/**
 * Fixed-width unsigned integers, their wrap-around arithmetic as C++ performs it,
 * and the little-endian encodings used by the packed on-disk FAT32 records.
 */
module Bytes {

  const U32_MOD: int := 0x1_0000_0000
  const U64_MOD: int := 0x1_0000_0000_0000_0000

  type Byte = b: int | 0 <= b < 0x100
  type U16 = x: int | 0 <= x < 0x1_0000
  type U32 = x: int | 0 <= x < 0x1_0000_0000
  type U64 = x: int | 0 <= x < 0x1_0000_0000_0000_0000

  /** The value of `uint64_t x = -1`. */
  const U64_MAX: U64 := 0xFFFF_FFFF_FFFF_FFFF

  // Fixed-size byte arrays of the packed records.
  type Bytes3 = s: seq<Byte> | |s| == 3 witness [0, 0, 0]
  type Bytes8 = s: seq<Byte> | |s| == 8 witness seq(8, _ => 0)
  type Bytes11 = s: seq<Byte> | |s| == 11 witness seq(11, _ => 0)
  type Bytes12 = s: seq<Byte> | |s| == 12 witness seq(12, _ => 0)
  type Bytes420 = s: seq<Byte> | |s| == 420 witness seq(420, _ => 0)
  type Bytes480 = s: seq<Byte> | |s| == 480 witness seq(480, _ => 0)

  /** Little-endian `uint16_t` read from two bytes. */
  function Le16(b: seq<Byte>): U16
    requires |b| == 2
  {
    b[0] as int + 0x100 * b[1] as int
  }

  /** Little-endian `uint32_t` read from four bytes. */
  function Le32(b: seq<Byte>): U32
    requires |b| == 4
  {
    b[0] as int + 0x100 * b[1] as int + 0x1_0000 * b[2] as int + 0x100_0000 * b[3] as int
  }

  /** The two bytes a `uint16_t` occupies in memory on a little-endian machine. */
  function Enc16(x: U16): (b: seq<Byte>)
    ensures |b| == 2
  {
    [x % 0x100, x / 0x100]
  }

  /** The four bytes a `uint32_t` occupies in memory on a little-endian machine. */
  function Enc32(x: U32): (b: seq<Byte>)
    ensures |b| == 4
  {
    [x % 0x100, (x / 0x100) % 0x100, (x / 0x1_0000) % 0x100, x / 0x100_0000]
  }

  lemma Le16Enc16(x: U16)
    ensures Le16(Enc16(x)) == x
  {
  }

  lemma Enc16Le16(b: seq<Byte>)
    requires |b| == 2
    ensures Enc16(Le16(b)) == b
  {
  }

  lemma Le32Enc32(x: U32)
    ensures Le32(Enc32(x)) == x
  {
    var y := x / 0x100;
    var z := y / 0x100;
    assert x == x % 0x100 + 0x100 * y;
    assert y == y % 0x100 + 0x100 * z;
    assert z == z % 0x100 + 0x100 * (z / 0x100);
    assert x / 0x1_0000 == z && x / 0x100_0000 == z / 0x100;
  }

  lemma Enc32Le32(b: seq<Byte>)
    requires |b| == 4
    ensures Enc32(Le32(b)) == b
  {
    var x := Le32(b);
    var b0, b1, b2, b3 := b[0] as int, b[1] as int, b[2] as int, b[3] as int;
    var hi2 := b2 + 0x100 * b3;
    var hi1 := b1 + 0x100 * hi2;
    assert x == b0 + 0x100 * hi1;
    DivModUnique(x, hi1, b0, 0x100);
    DivModUnique(hi1, hi2, b1, 0x100);
    DivModUnique(hi2, b3, b2, 0x100);
    DivModUnique(x, hi2, b0 + 0x100 * b1, 0x1_0000);
    DivModUnique(x, b3, b0 + 0x100 * b1 + 0x1_0000 * b2, 0x100_0000);
  }

  /** `uint64_t` addition. */
  function Add64(a: U64, b: U64): U64
  {
    (a + b) % U64_MOD
  }

  /** `uint64_t` subtraction; Dafny's `%` is Euclidean, so this is the unsigned wrap. */
  function Sub64(a: U64, b: U64): U64
  {
    (a - b) % U64_MOD
  }

  /** `uint64_t` multiplication. */
  function Mul64(a: U64, b: U64): U64
  {
    (a * b) % U64_MOD
  }

  /** `unsigned int` multiplication, the type C++ gives a product of a `uint32_t` and a promoted `uint8_t`. */
  function Mul32(a: U32, b: U32): U32
  {
    (a * b) % U32_MOD
  }

  /** Euclidean division is unique: a quotient and a remainder in range are the ones `/` and `%` give. */
  lemma DivModUnique(a: int, k: int, r: int, m: int)
    requires m > 0 && 0 <= r < m && a == k * m + r
    ensures a % m == r && a / m == k
  {
    var d := a / m - k;
    assert d * m == r - a % m;
  }

  /** Adding a multiple of `m` does not change a value modulo `m`. */
  lemma ModShift(z: int, q: int, m: int)
    requires m > 0
    ensures (z + q * m) % m == z % m
  {
    assert z + q * m == (z / m + q) * m + z % m;
    DivModUnique(z + q * m, z / m + q, z % m, m);
  }

  /** Reducing a summand modulo `m` first does not change a sum modulo `m`. */
  lemma ModAddLeft(x: int, y: int, m: int)
    requires m > 0
    ensures (x % m + y) % m == (x + y) % m
  {
    var q := x / m;
    assert x + y == (x % m + y) + q * m;
    ModShift(x % m + y, q, m);
  }

  /** Reducing a factor modulo `m` first does not change a product modulo `m`. */
  lemma ModMulLeft(x: int, y: int, m: int)
    requires m > 0
    ensures ((x % m) * y) % m == (x * y) % m
  {
    var q := x / m;
    assert x == q * m + x % m;
    assert x * y == (x % m) * y + (q * y) * m;
    ModShift((x % m) * y, q * y, m);
  }

  /** Two wrapped additions, the second of a wrapped summand, reduce the whole sum once. */
  lemma AddMod3(a: int, b: int, c: int, m: int)
    requires m > 0
    ensures ((a % m + b) % m + c % m) % m == (a + b + c) % m
  {
    var sum := a + b;
    var cm := c % m;
    ModAddLeft(a, b, m);
    assert (a % m + b) % m == sum % m;
    ModAddLeft(sum, cm, m);
    assert (sum % m + cm) % m == (sum + cm) % m;
    ModAddLeft(c, sum, m);
    assert (cm + sum) % m == (c + sum) % m;
    assert cm + sum == sum + cm && c + sum == a + b + c;
  }

  /** Three `uint64_t` additions, the last of a wrapped `off`, reduce the whole sum once. */
  lemma Add64Chain(a: U64, b: U64, f: U64, w: U64, off: int)
    requires w == off % U64_MOD
    ensures Add64(Add64(Add64(a, b), f), w) == (a + b + f + off) % U64_MOD
  {
    AddMod3(a + b, f, off, U64_MOD);
  }

  /** A product of naturals is a natural. */
  lemma MulNonneg(a: nat, b: nat)
    ensures a * b >= 0
  {
  }

  /** An `unsigned int` product below 2^32 does not wrap. */
  lemma Mul32Exact(a: U32, b: U32)
    requires a * b < U32_MOD
    ensures Mul32(a, b) == a * b
  {
    MulNonneg(a, b);
    DivModUnique(a * b, 0, a * b, U32_MOD);
  }

  /** Multiplication distributes over addition: `e` strides of `k` are `a` strides and then `d` more. */
  lemma MulAddDistr(a: int, d: int, e: int, k: int)
    requires e == a + d
    ensures e * k == a * k + d * k
  {
  }

  /** One stride of `k` is `k`. */
  lemma MulOne(d: int, k: int)
    requires d == 1
    ensures d * k == k
  {
  }

  /** Two points `x` and `x + y` past `base`, both reduced modulo `m`, stay `y` apart modulo `m`. */
  lemma ModStride(l1: int, l2: int, base: int, x: int, y: int, z: int, m: int)
    requires m > 0 && z == x + y
    requires l1 == (base + x) % m && l2 == (base + z) % m
    ensures l2 == (l1 + y) % m
  {
    ModAddLeft(base + x, y, m);
    assert base + x + y == base + z;
  }

  /** A slice of a slice is a slice of the original. */
  lemma SubSlice<T>(s: seq<T>, lo: nat, hi: nat, i: nat, j: nat)
    requires lo <= hi <= |s| && i <= j <= hi - lo
    ensures s[lo..hi][i..j] == s[lo + i..lo + j]
  {
    var inner, direct := s[lo..hi][i..j], s[lo + i..lo + j];
    forall k | 0 <= k < j - i
      ensures inner[k] == direct[k]
    {
      assert inner[k] == s[lo..hi][i + k] == s[lo + i + k];
    }
  }

  /** A slice that lies past a prefix is a slice of what follows the prefix. */
  lemma SliceAfterPrefix<T>(a: seq<T>, b: seq<T>, i: nat, j: nat)
    requires |a| <= i <= j <= |a| + |b|
    ensures (a + b)[i..j] == b[i - |a|..j - |a|]
  {
    var whole, tail := (a + b)[i..j], b[i - |a|..j - |a|];
    forall k | 0 <= k < j - i
      ensures whole[k] == tail[k]
    {
      assert whole[k] == (a + b)[i + k] == b[i + k - |a|];
    }
  }

  /** A slice is the concatenation of its two halves around any split point. */
  lemma SliceSplit<T>(s: seq<T>, lo: nat, mid: nat, hi: nat)
    requires lo <= mid <= hi <= |s|
    ensures s[lo..hi] == s[lo..mid] + s[mid..hi]
  {
    var whole, halves := s[lo..hi], s[lo..mid] + s[mid..hi];
    forall k | 0 <= k < hi - lo
      ensures whole[k] == halves[k]
    {
      if k < mid - lo {
        assert halves[k] == s[lo..mid][k];
      } else {
        assert halves[k] == s[mid..hi][k - (mid - lo)];
      }
    }
  }

  /** A slice that spells `p + x` holds `p` up to `mid` and `x` after it. */
  lemma SliceOfConcat<T>(s: seq<T>, lo: nat, mid: nat, hi: nat, p: seq<T>, x: seq<T>)
    requires lo <= mid <= hi <= |s| && |p| == mid - lo
    requires s[lo..hi] == p + x
    ensures s[lo..mid] == p && s[mid..hi] == x
  {
    forall k | 0 <= k < |p|
      ensures s[lo..mid][k] == p[k]
    {
      assert s[lo..mid][k] == s[lo..hi][k];
    }
    forall k | 0 <= k < |x|
      ensures s[mid..hi][k] == x[k]
    {
      assert s[mid..hi][k] == s[lo..hi][|p| + k];
    }
  }
}
