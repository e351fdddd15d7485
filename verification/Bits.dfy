/** Shifts and bitwise or on Python integers. */
module Bits {
  /** a << n */
  function Shl(a: nat, n: nat): nat {
    if n == 0 then a else 2 * Shl(a, n - 1)
  }

  /** a | b */
  function Or(a: nat, b: nat): (r: nat)
    decreases a + b
  {
    if a == 0 then b
    else if b == 0 then a
    else 2 * Or(a / 2, b / 2) + (if a % 2 == 1 || b % 2 == 1 then 1 else 0)
  }

  /** Or-ing a low field into a word whose low bits are clear adds it. */
  lemma {:induction false} OrOfDisjoint(high: nat, low: nat, n: nat)
    requires low < Shl(1, n)
    ensures Or(Shl(high, n), low) == Shl(high, n) + low
  {
    if n > 0 {
      var a := Shl(high, n - 1);
      if a > 0 && low > 0 {
        assert 2 * a / 2 == a && 2 * a % 2 == 0;
        OrOfDisjoint(high, low / 2, n - 1);
        assert Or(2 * a, low) == 2 * Or(a, low / 2) + low % 2;
      }
    }
  }

  lemma {:induction false} ShiftTwice(a: nat, m: nat, n: nat)
    ensures Shl(a, m + n) == Shl(Shl(a, m), n)
  {
    if n > 0 {
      ShiftTwice(a, m, n - 1);
    }
  }

  lemma ShiftBy2(a: nat)
    ensures Shl(a, 2) == 4 * a
  {
    assert Shl(a, 1) == 2 * Shl(a, 0);
  }

  lemma ShiftBy4(a: nat)
    ensures Shl(a, 4) == 0x10 * a
  {
    ShiftTwice(a, 2, 2);
    ShiftBy2(a);
    ShiftBy2(4 * a);
  }

  lemma ShiftBy16(a: nat)
    ensures Shl(a, 16) == 0x1_0000 * a
  {
    ShiftBy4(a);
    ShiftTwice(a, 4, 4);
    ShiftBy4(0x10 * a);
    ShiftTwice(a, 8, 4);
    ShiftBy4(0x100 * a);
    ShiftTwice(a, 12, 4);
    ShiftBy4(0x1000 * a);
  }

  lemma ShiftBy26(a: nat)
    ensures Shl(a, 26) == 0x400_0000 * a
  {
    ShiftBy16(a);
    ShiftTwice(a, 16, 4);
    ShiftBy4(0x1_0000 * a);
    ShiftTwice(a, 20, 4);
    ShiftBy4(0x10_0000 * a);
    ShiftTwice(a, 24, 2);
    ShiftBy2(0x100_0000 * a);
  }

  /** Or never needs more bits than its arguments. */
  lemma {:induction false} OrFits(a: nat, b: nat, n: nat)
    requires a < Shl(1, n) && b < Shl(1, n)
    ensures Or(a, b) < Shl(1, n)
  {
    if n > 0 && a > 0 && b > 0 {
      OrFits(a / 2, b / 2, n - 1);
    }
  }
}
