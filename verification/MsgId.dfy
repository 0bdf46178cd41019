/** Message identifiers: the clock in the high half, a counter in the low half
    (kosta/src/session.rs, kosta-server/src/server.rs). */
module MsgId {
  import opened Arithmetic
  import opened Bytes

  const MAX_SKEW_MS := 30_000

  /** Milliseconds as a 64-bit integer, shifted left by 32: the high bits fall off. */
  function TimePart(ms: nat): i64 {
    Wrap64(Wrap64(ms) * TWO_32)
  }

  function MakeMsgId(ms: nat, counter: u32): i64 {
    BitOrBound(Unsigned64(TimePart(ms)), counter, 64);
    Wrap64(BitOr(Unsigned64(TimePart(ms)), counter, 64))
  }

  /** The age check's distance: wrapping subtraction, arithmetic shift right by 32, absolute value. */
  function DiffMs(msgId: i64, ms: nat): nat {
    var shifted := Wrap64(msgId - TimePart(ms)) / TWO_32;
    if shifted < 0 then -shifted else shifted
  }

  lemma {:induction false} BitOrBound(x: nat, y: nat, bits: nat)
    ensures BitOr(x, y, bits) < Pow(2, bits)
  {
    if bits > 0 { BitOrBound(x / 2, y / 2, bits - 1); }
  }

  lemma PowersOfTwo()
    ensures Pow(2, 32) == TWO_32 && Pow(2, 64) == TWO_64
  {
    assert Pow(2, 8) == 256;
    PowAdd(2, 8, 8);
    PowAdd(2, 16, 16);
    PowAdd(2, 32, 32);
  }

  /** The signed reading of the low 32 bits. */
  lemma Wrap32Is(x: int)
    ensures Wrap32(x) == if x % TWO_32 < TWO_31 then x % TWO_32 else x % TWO_32 - TWO_32
  {
    var q, r := x / TWO_32, x % TWO_32;
    assert x == q * TWO_32 + r;
    if r < TWO_31 {
      DivModUnique(x + TWO_31, TWO_32, q, r + TWO_31);
    } else {
      DivModUnique(x + TWO_31, TWO_32, q + 1, r - TWO_31);
    }
  }

  lemma SuccessorDiffers(x: i32)
    ensures Wrap32(x + 1) != x
  {
  }

  /** Wrapping before adding one changes nothing. */
  lemma WrapSuccessor(x: int)
    ensures Wrap32(Wrap32(x) + 1) == Wrap32(x + 1)
  {
    Wrap32Is(x);
    Wrap32Is(x + 1);
  }

  /** Shifting by 32 and wrapping at 64 bits keeps the low 32 bits, signed. */
  lemma ShiftWraps(x: int)
    ensures Wrap64(x * TWO_32) == Wrap32(x) * TWO_32
  {
    var k := (x - Wrap32(x)) / TWO_32;
    assert x == Wrap32(x) + k * TWO_32;
    DivModUnique(x * TWO_32 + TWO_63, TWO_64, k, Wrap32(x) * TWO_32 + TWO_63);
  }

  lemma WrapTwice(x: int)
    ensures Wrap32(Wrap64(x)) == Wrap32(x)
  {
    var k := (x - Wrap64(x)) / TWO_64;
    assert x == Wrap64(x) + (k * TWO_32) * TWO_32;
    ModShift(Wrap64(x) + TWO_31, k * TWO_32, TWO_32);
  }

  lemma TimePartIs(ms: nat)
    ensures TimePart(ms) == Wrap32(ms) * TWO_32
    ensures Unsigned64(TimePart(ms)) == (ms % TWO_32) * TWO_32
  {
    ShiftWraps(Wrap64(ms));
    WrapTwice(ms);
    Wrap32Is(ms);
  }

  /** A message id is the clock's low 32 bits, read as a signed number, times 2^32, plus the counter. */
  lemma MsgIdIs(ms: nat, counter: u32)
    ensures MakeMsgId(ms, counter) == Wrap32(ms) * TWO_32 + counter
  {
    TimePartIs(ms);
    PowersOfTwo();
    BitOrDisjoint(ms % TWO_32, counter, 32, 64);
  }

  /** Message ids are ordered by the clock first and the counter second. */
  lemma MsgIdOrder(ms: nat, counter: u32, ms': nat, counter': u32)
    ensures MakeMsgId(ms, counter) < MakeMsgId(ms', counter') <==>
      Wrap32(ms) < Wrap32(ms') || (Wrap32(ms) == Wrap32(ms') && counter < counter')
  {
    MsgIdIs(ms, counter);
    MsgIdIs(ms', counter');
  }

  function Abs(x: int): nat { if x < 0 then -x else x }

  /** The distance does not depend on the counter: it is that of the two signed clocks, wrapped. */
  lemma DiffIsWrapped(sent: nat, counter: u32, now: nat)
    ensures DiffMs(MakeMsgId(sent, counter), now) == Abs(Wrap32(Wrap32(sent) - Wrap32(now)))
  {
    var d := Wrap32(sent) - Wrap32(now);
    MsgIdIs(sent, counter);
    TimePartIs(now);
    assert MakeMsgId(sent, counter) - TimePart(now) == d * TWO_32 + counter;
    WrapShifted(d, counter);
  }

  /** So it is their true distance exactly when they are no more than 2^31 apart. */
  lemma DiffIsClockDistance(sent: nat, counter: u32, now: nat)
    ensures var d := Wrap32(sent) - Wrap32(now);
      DiffMs(MakeMsgId(sent, counter), now) == Abs(d) <==> -TWO_31 <= d <= TWO_31
  {
    DiffIsWrapped(sent, counter, now);
    Wrap32Is(Wrap32(sent) - Wrap32(now));
  }

  lemma WrapShifted(d: int, counter: u32)
    ensures Wrap64(d * TWO_32 + counter) / TWO_32 == Wrap32(d)
  {
    var k := (d - Wrap32(d)) / TWO_32;
    assert d == Wrap32(d) + k * TWO_32;
    DivModUnique(d * TWO_32 + counter + TWO_63, TWO_64, k, Wrap32(d) * TWO_32 + counter + TWO_63);
    DivModUnique(Wrap32(d) * TWO_32 + counter, TWO_32, Wrap32(d), counter);
  }

  /** A fresh session (last id zero) lets a first message through its order check exactly when the clock
      lies in the positive half of the signed range and is not zero. */
  lemma FreshAccepts(ms: nat)
    ensures MakeMsgId(ms, 0) > 0 <==> 1 <= ms % TWO_32 < TWO_31
  {
    MsgIdIs(ms, 0);
    Wrap32Is(ms);
  }
}
