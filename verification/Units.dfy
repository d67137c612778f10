/**
 Multiplication and division by a number that is only known at run time, such as a
 sector size, defined by repeated addition and subtraction so that proofs about them
 stay linear. AreProductAndQuotient says that they are the usual operations.
 */
module Units {

  function Times(q: nat, d: nat): nat {
    if q == 0 then 0 else d + Times(q - 1, d)
  }

  function Quot(x: nat, d: nat): nat
    requires d > 0
  {
    if x < d then 0 else 1 + Quot(x - d, d)
  }

  function Rem(x: nat, d: nat): nat
    requires d > 0
  {
    if x < d then x else Rem(x - d, d)
  }

  lemma {:induction false} IsProduct(q: nat, d: nat)
    ensures Times(q, d) == q * d
  {
    if q > 0 {
      IsProduct(q - 1, d);
      assert q * d == (q - 1) * d + d;
    }
  }

  lemma Magnitude(e: int, d: int)
    requires d > 0
    ensures (e >= 1 ==> e * d >= d) && (e <= -1 ==> e * d <= -d)
  {
    if e >= 1 {
      assert (e - 1) * d >= 0;
    } else if e <= -1 {
      assert (-1 - e) * d >= 0;
    }
  }

  lemma QuotientIsUnique(x: int, d: int, q: int, r: int)
    requires d > 0 && 0 <= r < d && x == q * d + r
    ensures q == x / d && r == x % d
  {
    var e := q - x / d;
    assert x == x / d * d + x % d;
    assert e * d == x % d - r by {
      assert (q - x / d) * d == q * d - x / d * d;
    }
    Magnitude(e, d);
  }

  lemma AreProductAndQuotient(x: nat, d: nat)
    requires d > 0
    ensures Times(x, d) == x * d && Quot(x, d) == x / d && Rem(x, d) == x % d
  {
    IsProduct(x, d);
    Whole(x, d);
    IsProduct(Quot(x, d), d);
    QuotientIsUnique(x, d, Quot(x, d), Rem(x, d));
  }

  lemma {:induction false} Whole(x: nat, d: nat)
    requires d > 0
    ensures x == Times(Quot(x, d), d) + Rem(x, d) && Rem(x, d) < d
    decreases x
  {
    if x >= d {
      Whole(x - d, d);
    }
  }

  lemma {:induction false} OfTimes(q: nat, d: nat, r: nat)
    requires r < d
    ensures Quot(Times(q, d) + r, d) == q && Rem(Times(q, d) + r, d) == r
  {
    if q > 0 {
      OfTimes(q - 1, d, r);
    }
  }

  lemma {:induction false} TimesAdd(a: nat, b: nat, d: nat)
    ensures Times(a + b, d) == Times(a, d) + Times(b, d)
  {
    if a > 0 {
      TimesAdd(a - 1, b, d);
    }
  }

  lemma {:induction false} TimesTwice(q: nat, d: nat)
    ensures Times(q, 2 * d) == 2 * Times(q, d)
  {
    if q > 0 {
      TimesTwice(q - 1, d);
    }
  }

  lemma TimesOrder(a: nat, b: nat, d: nat)
    requires d > 0
    ensures a < b <==> Times(a, d) < Times(b, d)
    ensures a < b ==> Times(a, d) + d + (b - a - 1) <= Times(b, d)
  {
    if a < b {
      TimesAdd(a, b - a, d);
      TimesAtLeast(b - a, d);
    } else {
      TimesAdd(b, a - b, d);
    }
  }

  lemma {:induction false} TimesAtLeast(q: nat, d: nat)
    requires q > 0 && d > 0
    ensures Times(q, d) >= d + (q - 1)
  {
    if q > 1 {
      TimesAtLeast(q - 1, d);
    }
  }

  lemma {:induction false} TimesAtMost(q: nat, d: nat)
    requires d <= 65536
    ensures Times(q, d) <= q * 65536
  {
    if q > 0 {
      TimesAtMost(q - 1, d);
    }
  }

  /** A whole number of units stays whole when cut into units. */
  lemma Exact(x: nat, d: nat)
    requires d > 0
    ensures Rem(x, d) == 0 <==> x == Times(Quot(x, d), d)
  {
    Whole(x, d);
  }

  lemma SumOfWhole(x: nat, y: nat, d: nat)
    requires d > 0 && Rem(x, d) == 0 && Rem(y, d) == 0
    ensures Rem(x + y, d) == 0 && Quot(x + y, d) == Quot(x, d) + Quot(y, d)
  {
    Exact(x, d);
    Exact(y, d);
    TimesAdd(Quot(x, d), Quot(y, d), d);
    OfTimes(Quot(x, d) + Quot(y, d), d, 0);
  }
}
