/** JavaScript's bitwise operators on small non-negative integers, bit by bit, and what the masks and
    shifts used on sixteen-bit groups amount to arithmetically. */
module Bits {
  function Or(a: nat, b: nat): nat
    decreases a + b
  {
    if a == 0 then b else if b == 0 then a
    else 2 * Or(a / 2, b / 2) + (if a % 2 == 1 || b % 2 == 1 then 1 else 0)
  }

  function And(a: nat, b: nat): nat
    decreases a + b
  {
    if a == 0 || b == 0 then 0 else 2 * And(a / 2, b / 2) + (if a % 2 == 1 && b % 2 == 1 then 1 else 0)
  }

  function ShiftLeft(a: nat, k: nat): nat { if k == 0 then a else 2 * ShiftLeft(a, k - 1) }

  function ShiftRight(a: nat, k: nat): nat { if k == 0 then a else ShiftRight(a / 2, k - 1) }

  /** 2^k */
  function Power(k: nat): (p: nat)
    ensures p >= 1
  {
    if k == 0 then 1 else 2 * Power(k - 1)
  }

  /** Shifting makes room: the low bits can be or-ed in by adding them. */
  lemma {:induction false} OrIntoShift(a: nat, k: nat, b: nat)
    requires b < Power(k)
    ensures Or(ShiftLeft(a, k), b) == ShiftLeft(a, k) + b
  {
    if k > 0 && b > 0 && ShiftLeft(a, k) > 0 { OrIntoShift(a, k - 1, b / 2); }
  }

  lemma {:induction false} AndOnes(x: nat, n: nat)
    requires x < Power(n)
    ensures And(x, Power(n) - 1) == x
  {
    if n > 0 && x > 0 { AndOnes(x / 2, n - 1); }
  }

  /** A mask of all but the low `k` bits clears exactly those. */
  lemma {:induction false} AndHighMask(x: nat, m: nat, k: nat)
    ensures And(x, ShiftLeft(m, k)) == ShiftLeft(And(ShiftRight(x, k), m), k)
  {
    if k > 0 {
      AndHighMask(x / 2, m, k - 1);
      if x == 0 { ShiftRightZero(k); }
      if ShiftLeft(m, k) == 0 { ShiftLeftZero(m, k); }
    }
  }

  lemma {:induction false} ShiftRightZero(k: nat)
    ensures ShiftRight(0, k) == 0
  {
    if k > 0 { ShiftRightZero(k - 1); }
  }

  lemma {:induction false} ShiftLeftZero(m: nat, k: nat)
    ensures ShiftLeft(m, k) == 0 <==> m == 0
  {
    if k > 0 { ShiftLeftZero(m, k - 1); }
  }

  lemma {:induction false} AndZero(x: nat)
    ensures And(x, 0) == 0 && And(0, x) == 0
  {
  }

  lemma {:induction false} ShiftLeftConstants(y: nat)
    ensures ShiftLeft(y, 6) == 64 * y && ShiftLeft(y, 8) == 256 * y && ShiftLeft(y, 9) == 512 * y
  {
    assert ShiftLeft(y, 1) == 2 * y;
    assert ShiftLeft(y, 2) == 4 * y;
    assert ShiftLeft(y, 3) == 8 * y;
    assert ShiftLeft(y, 4) == 16 * y;
    assert ShiftLeft(y, 5) == 32 * y;
    assert ShiftLeft(y, 6) == 64 * y;
    assert ShiftLeft(y, 7) == 128 * y;
  }

  lemma {:induction false} ShiftRightSix(x: nat)
    ensures ShiftRight(x, 6) == x / 64
  {
    assert ShiftRight(x, 6) == ShiftRight(x / 2, 5);
    assert ShiftRight(x / 2, 5) == ShiftRight(x / 4, 4);
    assert ShiftRight(x / 4, 4) == ShiftRight(x / 8, 3);
    assert ShiftRight(x / 8, 3) == ShiftRight(x / 16, 2);
    assert ShiftRight(x / 16, 2) == ShiftRight(x / 32, 1);
  }

  lemma {:induction false} ShiftRightEight(x: nat)
    ensures ShiftRight(x, 8) == x / 256
  {
    ShiftRightSix(x / 4);
    assert ShiftRight(x, 8) == ShiftRight(x / 2, 7);
    assert ShiftRight(x / 2, 7) == ShiftRight(x / 4, 6);
  }

  lemma {:induction false} ShiftRightNine(x: nat)
    ensures ShiftRight(x, 9) == x / 512
  {
    ShiftRightEight(x / 2);
    assert ShiftRight(x, 9) == ShiftRight(x / 2, 8);
  }

  lemma {:induction false} Powers()
    ensures Power(7) == 128 && Power(8) == 256 && Power(10) == 1024
  {
    assert Power(2) == 4;
    assert Power(4) == 16;
    assert Power(6) == 64;
    assert Power(8) == 256;
  }

  lemma {:induction false} AndLowMask(a: nat, k: nat)
    ensures And(a, Power(k) - 1) == a - ShiftLeft(ShiftRight(a, k), k)
  {
    if k == 0 {
      AndZero(a);
    } else if a == 0 {
      ShiftRightZero(k);
      ShiftLeftZero(0, k);
    } else {
      AndLowMask(a / 2, k - 1);
      assert (Power(k) - 1) / 2 == Power(k - 1) - 1 && (Power(k) - 1) % 2 == 1;
    }
  }

  /** `group & 255` is the low octet. */
  lemma {:induction false} AndOctet(a: nat, mask: nat)
    requires mask == 255
    ensures And(a, mask) == a % 256
  {
    Powers();
    AndLowMask(a, 8);
    ShiftRightEight(a);
    ShiftLeftConstants(a / 256);
  }

  /** A mask of `n` ones above bit `k` keeps what is above bit `k`. */
  lemma {:induction false} PrefixMask(x: nat, n: nat, k: nat)
    requires ShiftRight(x, k) < Power(n)
    ensures And(x, ShiftLeft(Power(n) - 1, k)) == ShiftLeft(ShiftRight(x, k), k)
  {
    AndHighMask(x, Power(n) - 1, k);
    AndOnes(ShiftRight(x, k), n);
  }

  lemma {:induction false} MaskFe00(x: nat, mask: nat)
    requires x < 0x1_0000 && mask == 0xFE00
    ensures And(x, mask) == 512 * (x / 512)
  {
    Powers();
    ShiftRightNine(x);
    ShiftLeftConstants(127);
    ShiftLeftConstants(x / 512);
    PrefixMask(x, 7, 9);
  }

  lemma {:induction false} MaskFfc0(x: nat, mask: nat)
    requires x < 0x1_0000 && mask == 0xFFC0
    ensures And(x, mask) == 64 * (x / 64)
  {
    Powers();
    ShiftRightSix(x);
    ShiftLeftConstants(1023);
    ShiftLeftConstants(x / 64);
    PrefixMask(x, 10, 6);
  }

  lemma {:induction false} MaskFf00(x: nat, mask: nat)
    requires x < 0x1_0000 && mask == 0xFF00
    ensures And(x, mask) == 256 * (x / 256)
  {
    Powers();
    ShiftRightEight(x);
    ShiftLeftConstants(255);
    ShiftLeftConstants(x / 256);
    PrefixMask(x, 8, 8);
  }
}
