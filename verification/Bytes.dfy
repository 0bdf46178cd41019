/** Machine integers, byte strings and bit operations, all over unbounded integers. */
module Bytes {
  import opened Arithmetic

  const TWO_24 := 0x100_0000
  const TWO_31 := 0x8000_0000
  const TWO_32 := 0x1_0000_0000
  const TWO_63 := 0x8000_0000_0000_0000
  const TWO_64 := 0x1_0000_0000_0000_0000

  type byte = x: int | 0 <= x < 256
  type i32 = x: int | -TWO_31 <= x < TWO_31
  type u32 = x: int | 0 <= x < TWO_32
  type i64 = x: int | -TWO_63 <= x < TWO_63
  type bytes = seq<byte>

  // byte strings of a fixed width
  type Int128 = b: bytes | |b| == 16 witness seq(16, _ => 0)
  type Int256 = b: bytes | |b| == 32 witness seq(32, _ => 0)

  // ---------- wrapping arithmetic ----------

  function Wrap32(x: int): (r: i32)
    ensures -TWO_31 <= x < TWO_31 ==> r == x
  {
    (x + TWO_31) % TWO_32 - TWO_31
  }

  function Wrap64(x: int): (r: i64)
    ensures -TWO_63 <= x < TWO_63 ==> r == x
  {
    (x + TWO_63) % TWO_64 - TWO_63
  }

  function Unsigned32(x: i32): (r: u32) { x % TWO_32 }

  function Unsigned64(x: i64): (r: nat)
    ensures r < TWO_64
  {
    x % TWO_64
  }

  lemma SignedRoundTrip(x: i32, y: i64)
    ensures Wrap32(Unsigned32(x)) == x && Wrap64(Unsigned64(y)) == y
  {
  }

  // ---------- fixed-width little-endian ----------

  function LeBytes(x: nat, n: nat): (r: bytes)
    ensures |r| == n
  {
    if n == 0 then [] else [x % 256] + LeBytes(x / 256, n - 1)
  }

  function FromLe(b: bytes): nat {
    if b == [] then 0 else b[0] + 256 * FromLe(b[1..])
  }

  lemma {:induction false} FromLeBytes(x: nat, n: nat)
    requires x < Pow(256, n)
    ensures FromLe(LeBytes(x, n)) == x
  {
    if n > 0 {
      FromLeBytes(x / 256, n - 1);
      assert LeBytes(x, n)[1..] == LeBytes(x / 256, n - 1);
    }
  }

  lemma {:induction false} FromLeBound(b: bytes)
    ensures FromLe(b) < Pow(256, |b|)
  {
    if b != [] { FromLeBound(b[1..]); }
  }

  lemma {:induction false} LeBytesFromLe(b: bytes)
    ensures LeBytes(FromLe(b), |b|) == b
  {
    if b != [] {
      LeBytesFromLe(b[1..]);
      assert b == [b[0]] + b[1..];
    }
  }

  lemma WordSizes()
    ensures Pow(256, 1) == 256 && Pow(256, 3) == TWO_24 && Pow(256, 4) == TWO_32 && Pow(256, 8) == TWO_64
  {
    assert Pow(256, 2) == 0x1_0000;
    assert Pow(256, 4) == TWO_32;
    PowAdd(256, 4, 4);
  }

  /** The digit of x to the base 256 at place k, counted from the least significant one. */
  function Digit(x: nat, k: nat): byte {
    if k == 0 then x % 256 else Digit(x / 256, k - 1)
  }

  /** The byte at place k is the digit at place k: least significant first. */
  lemma {:induction false} LeBytesAt(x: nat, n: nat, k: nat)
    requires k < n
    ensures LeBytes(x, n)[k] == Digit(x, k)
  {
    if k > 0 { LeBytesAt(x / 256, n - 1, k - 1); }
  }

  function EncodeI32(x: i32): (r: bytes)
    ensures |r| == 4
  {
    LeBytes(Unsigned32(x), 4)
  }

  function DecodeI32(b: bytes): i32 { Wrap32(FromLe(b)) }

  function EncodeI64(x: i64): (r: bytes)
    ensures |r| == 8
  {
    LeBytes(Unsigned64(x), 8)
  }

  function DecodeI64(b: bytes): i64 { Wrap64(FromLe(b)) }

  lemma IntegersRoundTrip(x: i32, y: i64)
    ensures DecodeI32(EncodeI32(x)) == x && DecodeI64(EncodeI64(y)) == y
  {
    WordSizes();
    FromLeBytes(Unsigned32(x), 4);
    FromLeBytes(Unsigned64(y), 8);
    SignedRoundTrip(x, y);
  }

  // ---------- big unsigned integers ----------

  /** The shortest little-endian form, one zero byte for zero, as BigUint writes it. */
  function ToBytesLe(x: nat): (r: bytes)
    ensures |r| >= 1
  {
    if x < 256 then [x] else [x % 256] + ToBytesLe(x / 256)
  }

  /** Least significant first, and no leading zero but for zero itself. */
  lemma {:induction false} ToBytesLeIs(x: nat)
    ensures var b := ToBytesLe(x);
      && b == LeBytes(x, |b|) && (|b| > 1 ==> b[|b| - 1] != 0)
  {
    if x >= 256 {
      ToBytesLeIs(x / 256);
      var rest := ToBytesLe(x / 256);
      assert ToBytesLe(x) == [x % 256] + rest;
      if |rest| == 1 { OneByte(x / 256); }
    }
  }

  lemma OneByte(x: nat)
    requires x > 0 && |ToBytesLe(x)| == 1
    ensures ToBytesLe(x)[0] != 0
  {
  }

  function Reverse(b: bytes): (r: bytes)
    ensures |r| == |b|
  {
    if b == [] then [] else Reverse(b[1..]) + [b[0]]
  }

  function ToBytesBe(x: nat): bytes { Reverse(ToBytesLe(x)) }

  function FromBytesBe(b: bytes): nat { FromLe(Reverse(b)) }

  lemma {:induction false} ReverseTwice(b: bytes)
    ensures Reverse(Reverse(b)) == b
  {
    if b != [] {
      ReverseAppend(Reverse(b[1..]), b[0]);
      ReverseTwice(b[1..]);
    }
  }

  lemma {:induction false} ReverseAppend(b: bytes, x: byte)
    ensures Reverse(b + [x]) == [x] + Reverse(b)
  {
    if b != [] {
      assert (b + [x])[1..] == b[1..] + [x];
      ReverseAppend(b[1..], x);
    }
  }

  lemma {:induction false} ToBytesLeRoundTrip(x: nat)
    ensures FromLe(ToBytesLe(x)) == x
  {
    if x >= 256 {
      ToBytesLeRoundTrip(x / 256);
      assert ToBytesLe(x)[1..] == ToBytesLe(x / 256);
    }
  }

  lemma {:induction false} ReverseAt(b: bytes, k: nat)
    requires k < |b|
    ensures Reverse(b)[k] == b[|b| - 1 - k]
  {
    if k < |b| - 1 { ReverseAt(b[1..], k); }
  }

  /** The big-endian bytes of a number are its digits to the base 256, most significant first, without a
      leading zero. */
  lemma BigEndianAt(x: nat, k: nat)
    requires k < |ToBytesBe(x)|
    ensures var b := ToBytesBe(x);
      && b[k] == Digit(x, |b| - 1 - k) && (|b| > 1 ==> b[0] != 0)
  {
    var b := ToBytesLe(x);
    ToBytesLeIs(x);
    ReverseAt(b, k);
    ReverseAt(b, 0);
    LeBytesAt(x, |b|, |b| - 1 - k);
  }

  /** Reading back the big-endian bytes of a number gives the number. */
  lemma BigEndianRoundTrip(x: nat)
    ensures FromBytesBe(ToBytesBe(x)) == x
  {
    ReverseTwice(ToBytesLe(x));
    ToBytesLeRoundTrip(x);
  }

  /** A number below 256^n has at most n bytes. */
  lemma {:induction false} ToBytesBeLength(x: nat, n: nat)
    requires n >= 1 && x < Pow(256, n)
    ensures 1 <= |ToBytesBe(x)| == |ToBytesLe(x)| <= n
  {
    if x >= 256 {
      ToBytesBeLength(x / 256, n - 1);
    }
  }

  /** A smaller number is not longer. */
  lemma {:induction false} BytesMonotone(x: nat, y: nat)
    requires x <= y
    ensures |ToBytesBe(x)| == |ToBytesLe(x)| <= |ToBytesLe(y)| == |ToBytesBe(y)|
  {
    if x >= 256 { BytesMonotone(x / 256, y / 256); }
  }

  // ---------- bit operations ----------

  /** Bitwise or of the low `bits` bits. */
  function BitOr(x: nat, y: nat, bits: nat): nat {
    if bits == 0 then 0
    else (if x % 2 == 1 || y % 2 == 1 then 1 else 0) + 2 * BitOr(x / 2, y / 2, bits - 1)
  }

  /** Bitwise exclusive or of the low `bits` bits. */
  function BitXor(x: nat, y: nat, bits: nat): nat {
    if bits == 0 then 0
    else (x + y) % 2 + 2 * BitXor(x / 2, y / 2, bits - 1)
  }

  lemma BitXorUnfold(z: nat, y: nat, bits: nat, low: nat, h: nat)
    requires bits > 0 && low < 2 && z == low + 2 * h
    ensures BitXor(z, y, bits) == (low + y) % 2 + 2 * BitXor(h, y / 2, bits - 1)
  {
    assert z / 2 == h && (z + y) % 2 == (low + y) % 2;
  }

  lemma ParityCancels(x: nat, y: nat)
    ensures ((x + y) % 2 + y) % 2 == x % 2
  {
  }

  lemma {:induction false} BitXorCancels(x: nat, y: nat, bits: nat)
    requires x < Pow(2, bits)
    ensures BitXor(x, y, bits) < Pow(2, bits)
    ensures BitXor(BitXor(x, y, bits), y, bits) == x
  {
    if bits > 0 {
      BitXorCancels(x / 2, y / 2, bits - 1);
      var h := BitXor(x / 2, y / 2, bits - 1);
      BitXorUnfold((x + y) % 2 + 2 * h, y, bits, (x + y) % 2, h);
      ParityCancels(x, y);
    }
  }

  /** Or with a number below 2^k fills the k low bits of a multiple of 2^k: it is the sum. */
  lemma {:induction false} BitOrDisjoint(hi: nat, lo: nat, k: nat, bits: nat)
    requires k <= bits && lo < Pow(2, k) && hi * Pow(2, k) < Pow(2, bits)
    ensures BitOr(hi * Pow(2, k), lo, bits) == hi * Pow(2, k) + lo
  {
    if k == 0 {
      BitOrZero(hi, bits);
    } else {
      var half := hi * Pow(2, k - 1);
      assert hi * Pow(2, k) == 2 * half by { MulSwap(hi, 2, Pow(2, k - 1)); }
      BitOrDisjoint(hi, lo / 2, k - 1, bits - 1);
    }
  }

  lemma {:induction false} BitOrZero(x: nat, bits: nat)
    requires x < Pow(2, bits)
    ensures BitOr(x, 0, bits) == x
  {
    if bits > 0 { BitOrZero(x / 2, bits - 1); }
  }

  lemma ByteXorFacts(x: byte, y: byte)
    ensures BitXor(x, y, 8) < 256 && BitXor(BitXor(x, y, 8), y, 8) == x
  {
    assert Pow(2, 8) == 256;
    BitXorCancels(x, y, 8);
  }

  function XorByte(x: byte, y: byte): byte {
    ByteXorFacts(x, y);
    BitXor(x, y, 8)
  }

  function Bit(x: nat, k: nat): nat {
    if k == 0 then x % 2 else Bit(x / 2, k - 1)
  }

  /** Exclusive or, bit by bit: a bit of the result is set exactly when it is set in just one of the two. */
  lemma {:induction false} BitXorAt(x: nat, y: nat, bits: nat, k: nat)
    requires k < bits
    ensures Bit(BitXor(x, y, bits), k) == 1 <==> Bit(x, k) != Bit(y, k)
  {
    var h := BitXor(x / 2, y / 2, bits - 1);
    LowBit((x + y) % 2, h);
    if k > 0 { BitXorAt(x / 2, y / 2, bits - 1, k - 1); }
  }

  lemma LowBit(low: nat, h: nat)
    requires low < 2
    ensures (low + 2 * h) % 2 == low && (low + 2 * h) / 2 == h
  {
  }

  lemma XorAt(a: bytes, b: bytes, i: nat, k: nat)
    requires |a| == |b| && i < |a| && k < 8
    ensures Bit(Xor(a, b)[i], k) == 1 <==> Bit(a[i], k) != Bit(b[i], k)
  {
    BitXorAt(a[i], b[i], 8, k);
  }

  /** Byte-wise exclusive or of two strings of one length. */
  function Xor(a: bytes, b: bytes): (r: bytes)
    requires |a| == |b|
    ensures |r| == |a|
  {
    seq(|a|, i requires 0 <= i < |a| => XorByte(a[i], b[i]))
  }

  lemma XorCancels(a: bytes, b: bytes)
    requires |a| == |b|
    ensures Xor(Xor(a, b), b) == a
  {
    forall i | 0 <= i < |a| ensures Xor(Xor(a, b), b)[i] == a[i] {
      ByteXorFacts(a[i], b[i]);
    }
  }
}
