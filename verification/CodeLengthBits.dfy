/**
  The bit operations of the macros in external/miniupnpc/codelength.h, and what they do to the
  numbers their operands stand for.
 */
module CodeLengthBits {

  /** (n << 7) | (b & 0x7f). */
  function ShiftIn(n: bv32, b: bv8): bv32 {
    (n << 7) | (b & 0x7f) as bv32
  }

  /** n & 0x7f, as a byte. */
  function Low(n: bv32): bv8 {
    (n & 0x7f) as bv8
  }

  /** x | 0x80, of which a byte keeps the low 8 bits. */
  function Cont(x: bv32): bv8 {
    ((x | 0x80) & 0xff) as bv8
  }

  /** The test for one more byte. */
  predicate HasMore(b: bv8) {
    b & 0x80 != 0
  }

  /** The test that another group fits. */
  predicate BelowLimit(n: bv32) {
    n < 1 << 25
  }

  /** The number a 32-bit word stands for. */
  ghost function Num(n: bv32): (r: nat)
    ensures r < 0x1_0000_0000
  {
    n as nat
  }

  /** The number a byte stands for. */
  ghost function ByteNum(b: bv8): (r: nat)
    ensures r < 0x100
  {
    b as nat
  }

  // -------------------------------------------------------------------- one operation at a time

  lemma MoreIs(b: bv8)
    ensures HasMore(b) <==> ByteNum(b) >= 0x80
  {
  }

  lemma LimitIs(n: bv32)
    ensures BelowLimit(n) <==> Num(n) < 0x200_0000
  {
  }

  lemma ThresholdsAre(n: bv32)
    ensures n >= 268435456 <==> Num(n) >= 0x1000_0000
    ensures n >= 2097152 <==> Num(n) >= 0x20_0000
    ensures n >= 16384 <==> Num(n) >= 0x4000
    ensures n >= 128 <==> Num(n) >= 0x80
  {
  }

  lemma ShiftOr(n: bv32, b: bv8)
    requires BelowLimit(n)
    ensures Num(ShiftIn(n, b)) == Num(n) * 128 + ByteNum(b & 0x7f)
  {
  }

  lemma LowBits(b: bv8)
    ensures ByteNum(b & 0x7f) == ByteNum(b) % 128
  {
  }

  /** Shifting in a group loses nothing while the number is below 2^25. */
  lemma ShiftInIs(n: bv32, b: bv8)
    requires BelowLimit(n)
    ensures Num(ShiftIn(n, b)) == Num(n) * 128 + ByteNum(b) % 128
  {
    hide Num, ByteNum, ShiftIn, BelowLimit;
    ShiftOr(n, b);
    LowBits(b);
  }

  lemma Recombine(n: bv32)
    ensures BelowLimit(n >> 7) && ShiftIn(n >> 7, Low(n)) == n
  {
  }

  lemma LowIsSmall(n: bv32)
    ensures ByteNum(Low(n)) < 128
  {
  }

  lemma SetTopBit(x: bv32)
    ensures ByteNum(Cont(x)) == 128 + ByteNum(Low(x))
  {
  }

  lemma Shift14Splits(n: bv32)
    ensures n >> 14 == (n >> 7) >> 7
  {
  }

  lemma Shift21Splits(n: bv32)
    ensures n >> 21 == (n >> 14) >> 7
  {
  }

  lemma Shift28Splits(n: bv32)
    ensures n >> 28 == (n >> 21) >> 7
  {
  }

  // -------------------------------------------------------------------- quotients and remainders

  lemma DivMod(n: nat, q: nat, r: nat)
    requires n == q * 128 + r && r < 128
    ensures n / 128 == q && n % 128 == r
  {
  }

  /** n >> 7 and n & 0x7f are quotient and remainder by 128. */
  lemma Quotient(n: bv32, up: bv32)
    requires up == n >> 7
    ensures Num(up) == Num(n) / 128 && ByteNum(Low(n)) == Num(n) % 128
  {
    hide Num, ByteNum, Low, ShiftIn, BelowLimit;
    Recombine(n);
    ShiftInIs(up, Low(n));
    LowIsSmall(n);
    DivMod(Num(n), Num(up), ByteNum(Low(n)));
  }

  /** The low group of a number. */
  lemma LowIs(n: bv32)
    ensures ByteNum(Low(n)) == Num(n) % 128
  {
    hide Num, ByteNum, Low;
    Quotient(n, n >> 7);
  }

  /** The byte stored for x | 0x80. */
  lemma ContIs(x: bv32)
    ensures ByteNum(Cont(x)) == 128 + Num(x) % 128
  {
    hide Num, ByteNum, Low, Cont;
    LowIs(x);
    SetTopBit(x);
  }

  /** The shifts of CODELENGTH: each is the one before, divided by 128. */
  lemma Shift7Is(n: bv32, a: bv32)
    requires a == n >> 7
    ensures Num(a) == Num(n) / 128
  {
    hide Num, ByteNum, Low;
    Quotient(n, a);
  }

  lemma Shift14Is(n: bv32, a: bv32, b: bv32)
    requires a == n >> 7 && b == n >> 14
    ensures Num(b) == Num(a) / 128
  {
    hide Num;
    Shift14Splits(n);
    Shift7Is(a, b);
  }

  lemma Shift21Is(n: bv32, b: bv32, c: bv32)
    requires b == n >> 14 && c == n >> 21
    ensures Num(c) == Num(b) / 128
  {
    hide Num;
    Shift21Splits(n);
    Shift7Is(b, c);
  }

  lemma Shift28Is(n: bv32, c: bv32, d: bv32)
    requires c == n >> 21 && d == n >> 28
    ensures Num(d) == Num(c) / 128
  {
    hide Num;
    Shift28Splits(n);
    Shift7Is(c, d);
  }
}
