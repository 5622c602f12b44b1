// The unit of a byte count, for every unsigned 64-bit value.
module HumanBytes {
  const UNIT: nat := 1024
  const TWO_64: nat := 0x1_0000_0000_0000_0000
  const UNITS := "KMGTPE"

  function Pow(e: nat): (p: nat)
    ensures p > 0
  {
    if e == 0 then 1 else UNIT * Pow(e - 1)
  }

  datatype Size = Zero | Plain(bytes: nat) | Scaled(bytes: nat, div: nat, unit: char)

  // The divisor never overflows, the unit index never leaves the table, and
  // the number in front of the unit is at least 1 and less than 1024.
  method HumanSize(b: nat) returns (s: Size)
    requires b < TWO_64
    ensures b == 0 ==> s == Zero
    ensures 0 < b < UNIT ==> s == Plain(b)
    ensures b >= UNIT ==>
      exists e :: 0 <= e < |UNITS| && s == Scaled(b, Pow(e + 1), UNITS[e]) && Pow(e + 1) <= b < UNIT * Pow(e + 1)
    ensures s.Scaled? ==> s.div < TWO_64
  {
    if b == 0 {
      return Zero;
    }
    if b < UNIT {
      return Plain(b);
    }
    var div, exp, n := UNIT, 0, b / UNIT;
    while n >= UNIT
      invariant div == Pow(exp + 1) && 1 <= n && n * div <= b < (n + 1) * div
      decreases n
    {
      Scale(b, div, n);
      PowSmall(exp + 2, b);
      assert div * UNIT < TWO_64 && exp + 1 < |UNITS|;
      div := div * UNIT;
      exp := exp + 1;
      n := n / UNIT;
    }
    MulMono(1, n, div);
    MulMono(n + 1, UNIT, div);
    PowSmall(exp + 1, b);
    s := Scaled(b, div, UNITS[exp]);
  }

  lemma MulMono(a: nat, b: nat, d: nat)
    requires a <= b
    ensures a * d <= b * d
  {
    assert b * d == a * d + (b - a) * d;
  }

  // One turn of the loop keeps n the quotient of b by div, and the new div is
  // still at most b.
  lemma Scale(b: nat, div: nat, n: nat)
    requires n * div <= b < (n + 1) * div && n >= UNIT
    ensures var q := n / UNIT; q * (div * UNIT) <= b < (q + 1) * (div * UNIT) && 1 <= q && UNIT * div <= b
  {
    var q := n / UNIT;
    MulMono(q * UNIT, n, div);
    MulMono(n + 1, (q + 1) * UNIT, div);
    MulMono(UNIT, n, div);
    assert (q * UNIT) * div == q * (div * UNIT);
    assert ((q + 1) * UNIT) * div == (q + 1) * (div * UNIT);
  }

  // Seven factors of 1024 are more than 64 bits.
  lemma SevenIsTooMany()
    ensures Pow(7) > TWO_64
  {
    assert Pow(1) == 1024 * Pow(0);
    assert Pow(2) == 1024 * Pow(1);
    assert Pow(3) == 1024 * Pow(2);
    assert Pow(4) == 1024 * Pow(3);
    assert Pow(5) == 1024 * Pow(4);
    assert Pow(6) == 1024 * Pow(5);
    assert Pow(7) == 1024 * Pow(6);
  }

  lemma PowSmall(e: nat, b: nat)
    requires Pow(e) <= b < TWO_64
    ensures e <= |UNITS|
  {
    SevenIsTooMany();
    if e >= 7 {
      PowGrows(7, e);
    }
  }

  lemma {:induction false} PowGrows(a: nat, b: nat)
    requires a <= b
    ensures Pow(a) <= Pow(b)
    decreases b
  {
    if a < b {
      PowGrows(a, b - 1);
    }
  }

  lemma UnitOrder(b: nat, e: nat, f: nat)
    requires b < UNIT * Pow(e) && Pow(f) <= b
    ensures f <= e
  {
    if e < f {
      PowGrows(e + 1, f);
    }
  }

  // The unit is the only one that gives such a number.
  lemma UnitUnique(b: nat, e: nat, f: nat)
    requires Pow(e) <= b < UNIT * Pow(e) && Pow(f) <= b < UNIT * Pow(f)
    ensures e == f
  {
    UnitOrder(b, e, f);
    UnitOrder(b, f, e);
  }
}
