/**
 Positional numbers of any base: the multiply-and-add pass that both base58 directions run over a
 little-endian digit vector, and the uniqueness of normal digit vectors.
 */
module Digits {
  /** A number base. */
  type Base = b: int | b >= 2 witness 2

  predicate InBase(ds: seq<nat>, b: Base) { forall i :: 0 <= i < |ds| ==> ds[i] < b }

  /** The number a little-endian digit vector stands for. */
  function Value(ds: seq<nat>, b: Base): nat {
    if ds == [] then 0 else ds[0] + b * Value(ds[1..], b)
  }

  /** The number a big-endian digit string stands for. */
  function Number(ds: seq<nat>, b: Base): nat {
    if ds == [] then 0 else Number(ds[..|ds| - 1], b) * b + ds[|ds| - 1]
  }

  /** No high zero digit. */
  predicate Normal(ds: seq<nat>) { ds == [] || ds[|ds| - 1] != 0 }

  /** At least one digit, and no high zero digit beyond it. */
  predicate Canonical(ds: seq<nat>) { |ds| == 1 || (|ds| > 1 && ds[|ds| - 1] != 0) }

  /** The digits a final carry is pushed as. */
  function CarryDigits(c: nat, b: Base): seq<nat>
    decreases c
  {
    if c == 0 then [] else (QuotientSmaller(c, b); [c % b] + CarryDigits(c / b, b))
  }

  /** One pass: every digit times `m`, plus the carry from below, the last carry pushed on top. */
  function Scale(ds: seq<nat>, m: nat, c: nat, b: Base): seq<nat> {
    if ds == [] then CarryDigits(c, b)
    else [(ds[0] * m + c) % b] + Scale(ds[1..], m, (ds[0] * m + c) / b, b)
  }

  function Reverse<T>(s: seq<T>): (r: seq<T>)
    ensures |r| == |s| && forall i :: 0 <= i < |s| ==> r[i] == s[|s| - 1 - i]
  {
    if s == [] then [] else Reverse(s[1..]) + [s[0]]
  }

  lemma {:induction false} ReverseTwice<T>(s: seq<T>)
    ensures Reverse(Reverse(s)) == s
  {
  }

  // Division facts, for a base that is not a literal.

  lemma DivMod(c: nat, b: Base)
    ensures c == c % b + b * (c / b) && 0 <= c % b < b && c / b >= 0
    ensures c < b ==> c / b == 0 && c % b == c
  {
  }

  lemma Multiples(b: int, e: int)
    requires b >= 0
    ensures e >= 0 ==> b * e >= 0
    ensures e >= 1 ==> b * e >= b
    ensures e <= -1 ==> b * e <= -b
  {
    Distribute(b, e - 1, 1);
    Distribute(b, e + 1, -1);
  }

  lemma QuotientSmaller(c: nat, b: Base)
    requires c > 0
    ensures c / b < c
  {
    var q := c / b;
    DivMod(c, b);
    assert b * q == 2 * q + (b - 2) * q;
    Multiples(b - 2, q);
  }

  lemma QuotientOf(d: nat, q: nat, b: Base)
    requires d < b
    ensures (d + b * q) % b == d && (d + b * q) / b == q
  {
    var n := d + b * q;
    DivMod(n, b);
    Distribute(b, n / b - q, q);
    Multiples(b, n / b - q);
  }

  // What the pass computes.

  lemma {:induction false} CarryDigitsValue(c: nat, b: Base)
    ensures Value(CarryDigits(c, b), b) == c
    ensures InBase(CarryDigits(c, b), b)
    ensures Normal(CarryDigits(c, b))
    decreases c
  {
    if c > 0 {
      DivMod(c, b);
      QuotientSmaller(c, b);
      CarryDigitsValue(c / b, b);
      assert CarryDigits(c, b)[1..] == CarryDigits(c / b, b);
    }
  }

  /** The pass multiplies the number by `m` and adds the carry, and leaves proper digits. */
  lemma {:induction false} ScaleValue(ds: seq<nat>, m: nat, c: nat, b: Base)
    ensures Value(Scale(ds, m, c, b), b) == m * Value(ds, b) + c
    ensures InBase(Scale(ds, m, c, b), b)
  {
    if ds == [] {
      CarryDigitsValue(c, b);
    } else {
      var acc := ds[0] * m + c;
      ScaleValue(ds[1..], m, acc / b, b);
      assert Scale(ds, m, c, b)[1..] == Scale(ds[1..], m, acc / b, b);
      PassArithmetic(ds[0], m, c, b, Value(ds[1..], b), acc);
    }
  }

  lemma PassArithmetic(d: nat, m: nat, c: nat, b: Base, v: nat, acc: nat)
    requires acc == d * m + c
    ensures acc % b + b * (m * v + acc / b) == m * (d + b * v) + c
  {
    Distribute(b, m * v, acc / b);
    Exchange(b, m, v);
    Distribute(m, d, b * v);
    DivMod(acc, b);
  }

  lemma Distribute(x: int, y: int, z: int)
    ensures x * (y + z) == x * y + x * z
  {
  }

  lemma Exchange(x: int, y: int, z: int)
    ensures x * (y * z) == y * (x * z)
  {
  }

  /** A canonical vector stays canonical, a normal one normal. */
  lemma {:induction false} ScaleNormal(ds: seq<nat>, m: nat, c: nat, b: Base)
    requires m > 0
    ensures |Scale(ds, m, c, b)| >= |ds|
    ensures Normal(ds) ==> Normal(Scale(ds, m, c, b))
    ensures Canonical(ds) ==> Canonical(Scale(ds, m, c, b))
  {
    if ds == [] {
      CarryDigitsValue(c, b);
    } else {
      var acc := ds[0] * m + c;
      ScaleNormal(ds[1..], m, acc / b, b);
      if |ds| == 1 {
        CarryDigitsValue(acc / b, b);
        Positive(ds[0], m);
      }
    }
  }

  lemma Positive(d: nat, m: nat)
    requires m > 0
    ensures d > 0 ==> d * m > 0
  {
  }

  // Uniqueness.

  lemma {:induction false} NormalIsPositive(ds: seq<nat>, b: Base)
    requires Normal(ds) && ds != []
    ensures Value(ds, b) > 0
  {
    if |ds| > 1 {
      NormalIsPositive(ds[1..], b);
      Positive(Value(ds[1..], b), b);
    }
  }

  /** Two normal digit vectors of the same number are the same vector. */
  lemma {:induction false} NormalUnique(x: seq<nat>, y: seq<nat>, b: Base)
    requires InBase(x, b) && InBase(y, b) && Normal(x) && Normal(y) && Value(x, b) == Value(y, b)
    ensures x == y
  {
    if x == [] {
      if y != [] {
        NormalIsPositive(y, b);
      }
    } else {
      NormalIsPositive(x, b);
      QuotientOf(x[0], Value(x[1..], b), b);
      QuotientOf(y[0], Value(y[1..], b), b);
      NormalUnique(x[1..], y[1..], b);
      assert x == [x[0]] + x[1..] && y == [y[0]] + y[1..];
    }
  }

  /** Big-endian and little-endian agree. */
  lemma {:induction false} NumberIsReversedValue(ds: seq<nat>, b: Base)
    ensures Number(ds, b) == Value(Reverse(ds), b)
  {
    if ds != [] {
      var init := ds[..|ds| - 1];
      NumberIsReversedValue(init, b);
      assert Reverse(ds)[1..] == Reverse(init);
    }
  }

  // Sizes.

  lemma Quotient(acc: nat, d: nat, m: nat, c: nat, b: Base)
    requires d < b && c < m && acc == d * m + c
    ensures acc <= b * m - 1 && acc / b < m
  {
    assert b * m == d * m + m + (b - d - 1) * m;
    Multiples(b - d - 1, m);
    DivMod(acc, b);
    Distribute(b, acc / b - m, m);
    Multiples(b, acc / b - m);
  }

  /** A pass with a carry below `m` grows the vector by no more than the largest such carry. */
  lemma {:induction false} ScaleLength(ds: seq<nat>, m: nat, c: nat, b: Base, extra: nat)
    requires InBase(ds, b) && c < m && (forall k: nat :: k < m ==> |CarryDigits(k, b)| <= extra)
    ensures |Scale(ds, m, c, b)| <= |ds| + extra
  {
    if ds != [] {
      var acc := ds[0] * m + c;
      Quotient(acc, ds[0], m, c, b);
      ScaleLength(ds[1..], m, acc / b, b, extra);
    }
  }
}
