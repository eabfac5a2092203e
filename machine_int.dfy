/** The C++ `int` of the source: 32-bit two's complement, with division truncating toward zero. */
module MachineInt {

  const INT_MIN: int := -0x8000_0000
  const INT_MAX: int := 0x7fff_ffff

  type int32 = x: int | INT_MIN <= x <= INT_MAX

  predicate InRange(x: int) { INT_MIN <= x <= INT_MAX }

  function Abs(x: int): nat { if x < 0 then -x else x }

  /** C++ `a / b`: the quotient rounded toward zero. */
  function TruncDiv(a: int, b: int): int
    requires b != 0
  {
    var q := Abs(a) / Abs(b);
    if (a < 0) == (b < 0) then q else -q
  }

  /** C++ `a % b`: the remainder that goes with `TruncDiv`. */
  function TruncRem(a: int, b: int): int
    requires b != 0
  {
    a - TruncDiv(a, b) * b
  }

  /** The defining laws of C++ integer division: the quotient times the divisor plus the
      remainder gives back the dividend, and the remainder is smaller than the divisor in
      magnitude and never has the opposite sign of the dividend. */
  lemma TruncDivLaws(a: int, b: int)
    requires b != 0
    ensures TruncDiv(a, b) * b + TruncRem(a, b) == a
    ensures Abs(TruncRem(a, b)) < Abs(b)
    ensures a >= 0 ==> TruncRem(a, b) >= 0
    ensures a <= 0 ==> TruncRem(a, b) <= 0
    ensures Abs(TruncDiv(a, b)) * Abs(b) <= Abs(a)
  {
    var q, r := Abs(a) / Abs(b), Abs(a) % Abs(b);
    DivModOfNat(Abs(a), Abs(b));
    var sq := if (a < 0) == (b < 0) then q else -q;
    assert TruncDiv(a, b) == sq;
    SignedProduct(q, Abs(b), b, sq, a < 0);
    assert sq * b == if a < 0 then -(q * Abs(b)) else q * Abs(b);
  }

  lemma DivModOfNat(x: nat, y: nat)
    requires y > 0
    ensures x == (x / y) * y + x % y && 0 <= x % y < y
    ensures (x / y) * y <= x
  {
  }

  /** With `sq` the quotient carrying the sign rule, `sq * b` has the sign of the dividend. */
  lemma SignedProduct(q: int, ab: int, b: int, sq: int, negA: bool)
    requires q >= 0 && ab == Abs(b) && b != 0
    requires sq == if negA == (b < 0) then q else -q
    ensures sq * b == if negA then -(q * ab) else q * ab
  {
    if b < 0 {
      assert b == -ab;
      if negA { assert sq == q; assert q * b == -(q * ab); }
      else { assert sq == -q; assert -q * b == q * ab; }
    } else {
      assert b == ab;
      if negA { assert sq == -q; assert -q * b == -(q * ab); }
      else { assert sq == q; }
    }
  }

  /** Two cases of truncation written out: 10 / 3 is 3 and -7 / 2 is -3 (floor would give -4). */
  lemma TruncDivExamples()
    ensures TruncDiv(10, 3) == 3
    ensures TruncDiv(-7, 2) == -3
    ensures TruncDiv(7, -2) == -3
  {
  }
}
