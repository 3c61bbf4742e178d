/** Rounding up to a power of two by smearing the top bit downwards. */
module PowerOfTwo {

  function Pow2(n: nat): (p: nat)
    ensures p >= 1
  {
    if n == 0 then 1 else 2 * Pow2(n - 1)
  }

  // Bitwise operations on non-negative integers.
  predicate Bit(x: nat, i: nat) {
    if i == 0 then x % 2 == 1 else Bit(x / 2, i - 1)
  }

  function Or(a: nat, b: nat): nat {
    if a == 0 && b == 0 then 0
    else 2 * Or(a / 2, b / 2) + if a % 2 == 1 || b % 2 == 1 then 1 else 0
  }

  function Shr(x: nat, k: nat): nat {
    if k == 0 then x else Shr(x / 2, k - 1)
  }

  // The bits from the lowest to the highest set one.
  function Width(x: nat): nat {
    if x == 0 then 0 else 1 + Width(x / 2)
  }

  lemma {:induction false} ZeroHasNoBits(i: nat)
    ensures !Bit(0, i)
  {
    if i > 0 {
      ZeroHasNoBits(i - 1);
    }
  }

  lemma {:induction false} BitOr(a: nat, b: nat, i: nat)
    ensures Bit(Or(a, b), i) <==> Bit(a, i) || Bit(b, i)
    decreases i
  {
    if a == 0 && b == 0 {
      ZeroHasNoBits(i);
    } else if i > 0 {
      BitOr(a / 2, b / 2, i - 1);
    }
  }

  lemma {:induction false} BitShr(x: nat, k: nat, i: nat)
    ensures Bit(Shr(x, k), i) <==> Bit(x, k + i)
    decreases k
  {
    if k > 0 {
      BitShr(x / 2, k - 1, i);
    }
  }

  lemma {:induction false} WidthExact(x: nat)
    ensures x < Pow2(Width(x)) && (x > 0 ==> Pow2(Width(x) - 1) <= x && Bit(x, Width(x) - 1))
    ensures forall i | i >= Width(x) :: !Bit(x, i)
  {
    if x == 0 {
      forall i: nat ensures !Bit(x, i) {
        ZeroHasNoBits(i);
      }
    } else {
      WidthExact(x / 2);
      forall i | i >= Width(x) ensures !Bit(x, i) {
        assert !Bit(x / 2, i - 1);
      }
    }
  }

  // The top m of n bits are set, and none above them.
  ghost predicate Top(x: nat, n: nat, m: nat) {
    && (forall i | 0 <= i < n && n <= i + m :: Bit(x, i))
    && (forall i | i >= n :: !Bit(x, i))
  }

  lemma Smear(x: nat, n: nat, m: nat)
    requires Top(x, n, m)
    ensures Top(Or(x, Shr(x, m)), n, 2 * m)
  {
    var r := Or(x, Shr(x, m));
    forall i: nat | i < n && n <= i + 2 * m ensures Bit(r, i) {
      SmearBit(x, m, i);
      if n <= i + m {
        assert Bit(x, i);
      } else {
        assert Bit(x, m + i);
      }
    }
    forall i: nat | i >= n ensures !Bit(r, i) {
      SmearBit(x, m, i);
    }
  }

  lemma SmearBit(x: nat, m: nat, i: nat)
    ensures Bit(Or(x, Shr(x, m)), i) <==> Bit(x, i) || Bit(x, m + i)
  {
    BitOr(x, Shr(x, m), i);
    BitShr(x, m, i);
  }

  lemma {:induction false} AllOnes(x: nat, n: nat, m: nat)
    requires Top(x, n, m) && m >= n
    ensures x == Pow2(n) - 1
    decreases n, x
  {
    if n == 0 {
      WidthExact(x);
    } else {
      assert Bit(x, 0);
      forall i: nat ensures Bit(x / 2, i) <==> Bit(x, i + 1) {
      }
      AllOnes(x / 2, n - 1, m);
    }
  }

  // pow2gt on a 32-bit int.
  function Pow2gt(x: nat): nat
    requires x >= 1
  {
    var a := x - 1;
    var b := Or(a, Shr(a, 1));
    var c := Or(b, Shr(b, 2));
    var d := Or(c, Shr(c, 4));
    var e := Or(d, Shr(d, 8));
    var f := Or(e, Shr(e, 16));
    f + 1
  }

  lemma {:induction false} Pow2Grows(a: nat, b: nat)
    requires a <= b
    ensures Pow2(a) <= Pow2(b)
  {
    if a < b {
      Pow2Grows(a, b - 1);
    }
  }

  /** It is the least power of two not below its argument. */
  lemma Pow2gtExact(x: nat)
    requires 1 <= x <= 0x4000_0000
    ensures var n := Width(x - 1);
            && Pow2gt(x) == Pow2(n) && x <= Pow2(n) <= 0x4000_0000
            && forall k: nat | x <= Pow2(k) :: Pow2(n) <= Pow2(k)
  {
    var a, n := x - 1, Width(x - 1);
    WidthExact(a);
    NoWider(a);
    assert Top(a, n, 1);
    Smear(a, n, 1);
    var b := Or(a, Shr(a, 1));
    Smear(b, n, 2);
    var c := Or(b, Shr(b, 2));
    Smear(c, n, 4);
    var d := Or(c, Shr(c, 4));
    Smear(d, n, 8);
    var e := Or(d, Shr(d, 8));
    Smear(e, n, 16);
    AllOnes(Or(e, Shr(e, 16)), n, 32);
    forall k: nat | x <= Pow2(k) ensures Pow2(n) <= Pow2(k) {
      if k < n {
        Pow2Grows(k, n - 1);
      } else {
        Pow2Grows(n, k);
      }
    }
  }

  lemma ThirtyBits()
    ensures Pow2(30) == 0x4000_0000
  {
    assert Pow2(10) == 1024;
    assert Pow2(20) == 1024 * Pow2(10);
  }

  lemma NoWider(a: nat)
    requires a < 0x4000_0000
    ensures Width(a) <= 30 && Pow2(Width(a)) <= 0x4000_0000
  {
    ThirtyBits();
    WidthExact(a);
    if Width(a) > 30 {
      Pow2Grows(30, Width(a) - 1);
    }
    Pow2Grows(Width(a), 30);
  }
}
