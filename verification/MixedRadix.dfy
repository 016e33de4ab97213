/** Mixed-radix digits, and how evenly remainders fall. */
module MixedRadix {

  type pos = x: int | 0 < x witness 1

  ghost function Product(radices: seq<pos>): pos
  {
    if radices == [] then 1 else Times(radices[0], Product(radices[1..]))
  }

  ghost function Times(a: pos, b: pos): pos
  {
    TimesPositive(a, b);
    a * b
  }

  lemma TimesPositive(a: pos, b: pos)
    ensures 0 < a * b
  {}

  ghost predicate Fits(digits: seq<nat>, radices: seq<pos>)
  {
    |digits| == |radices| && forall i :: 0 <= i < |digits| ==> digits[i] < radices[i]
  }

  function Quotient(n: nat, r: pos): nat { n / r }

  function Remainder(n: nat, r: pos): (d: nat)
    ensures d < r
  {
    n % r
  }

  /** The remainders a number leaves, one radix after another. */
  ghost function Digits(n: nat, radices: seq<pos>): (digits: seq<nat>)
    ensures Fits(digits, radices)
    decreases |radices|
  {
    if radices == [] then [] else [Remainder(n, radices[0])] + Digits(Quotient(n, radices[0]), radices[1..])
  }

  /** What is left of a number once its digits over `radices` are taken. */
  ghost function Rest(n: nat, radices: seq<pos>): nat
    decreases |radices|
  {
    if radices == [] then n else Rest(Quotient(n, radices[0]), radices[1..])
  }

  /** The number a digit string spells, least significant digit first. */
  ghost function Value(digits: seq<nat>, radices: seq<pos>): nat
    requires |digits| == |radices|
  {
    if digits == [] then 0 else digits[0] + radices[0] * Value(digits[1..], radices[1..])
  }

  lemma DivModUnique(n: int, m: pos, q: int, r: int)
    requires n == q * m + r && 0 <= r < m
    ensures n / m == q && n % m == r
  {
    var k := q - n / m;
    assert k * m == n % m - r;
    assert k == 0 by {
      assert k >= 1 ==> k * m >= m;
      assert k <= -1 ==> k * m + m <= 0;
    }
  }

  lemma Regroup(t: int, p: int, e: int, r: int)
    ensures (t * p + e) * r == t * (r * p) + r * e
  {
    assert (t * p + e) * r == t * p * r + e * r;
    assert t * p * r == t * (p * r);
  }

  lemma {:induction false} NotNegative(a: nat, b: nat)
    ensures a * b >= 0
  {
    if b > 0 {
      NotNegative(a, b - 1);
      assert a * b == a * (b - 1) + a;
    }
  }

  lemma BelowProduct(e: int, r: int, p: int, d: int)
    requires 0 <= e <= p - 1 && 0 <= d < r
    ensures 0 <= d + r * e < r * p
  {
    NotNegative(r, p - 1 - e);
    NotNegative(r, e);
    assert r * (p - 1 - e) == r * p - r - r * e;
  }

  lemma RemainderOfProduct(n: nat, r: pos, p: pos)
    ensures Remainder(n, Times(r, p)) == Remainder(n, r) + r * Remainder(Quotient(n, r), p)
  {
    var d, q := Remainder(n, r), Quotient(n, r);
    var e, t := Remainder(q, p), Quotient(q, p);
    assert n == q * r + d && q == t * p + e;
    Regroup(t, p, e, r);
    BelowProduct(e, r, p, d);
    DivModUnique(n, Times(r, p), t, d + r * e);
  }

  /** The digits of a number spell its remainder by the size of the code. */
  lemma {:induction false} DigitsSpell(n: nat, radices: seq<pos>)
    ensures Value(Digits(n, radices), radices) == Remainder(n, Product(radices))
    decreases |radices|
  {
    if radices != [] {
      DigitsSpell(Quotient(n, radices[0]), radices[1..]);
      RemainderOfProduct(n, radices[0], Product(radices[1..]));
      assert Digits(n, radices)[1..] == Digits(Quotient(n, radices[0]), radices[1..]);
    }
  }

  lemma SpelledDigit(d: nat, r: pos, v: nat, p: pos)
    requires d < r && v < p
    ensures Quotient(d + r * v, r) == v && Remainder(d + r * v, r) == d && d + r * v < Times(r, p)
  {
    DivModUnique(d + r * v, r, v, d);
    BelowProduct(v, r, p, d);
  }

  /** A digit string is the digits of what it spells. */
  lemma {:induction false} SpelledDigits(digits: seq<nat>, radices: seq<pos>)
    requires Fits(digits, radices)
    ensures Digits(Value(digits, radices), radices) == digits
    ensures Value(digits, radices) < Product(radices)
    decreases |radices|
  {
    if radices != [] {
      SpelledDigits(digits[1..], radices[1..]);
      SpelledDigit(digits[0], radices[0], Value(digits[1..], radices[1..]), Product(radices[1..]));
    }
  }

  lemma {:induction false} DigitsConcat(n: nat, r: seq<pos>, t: seq<pos>)
    ensures Digits(n, r + t) == Digits(n, r) + Digits(Rest(n, r), t)
    ensures Rest(n, r + t) == Rest(Rest(n, r), t)
    decreases |r|
  {
    if r == [] {
      assert r + t == t;
    } else {
      var q, r' := Quotient(n, r[0]), r[1..];
      assert (r + t)[0] == r[0] && (r + t)[1..] == r' + t;
      DigitsConcat(q, r', t);
      assert Digits(n, r + t) == [Remainder(n, r[0])] + Digits(q, r' + t);
      assert Rest(n, r + t) == Rest(q, r' + t);
    }
  }

  // ---------------------------------------------------------------- counting remainders

  ghost function Residues(bound: nat, modulus: pos, v: nat): set<nat>
  {
    set n: nat | 0 <= n < bound && Remainder(n, modulus) == v
  }

  lemma NextRemainder(n: nat, m: pos)
    ensures if Remainder(n, m) == m - 1 then Quotient(n + 1, m) == Quotient(n, m) + 1 && Remainder(n + 1, m) == 0
            else Quotient(n + 1, m) == Quotient(n, m) && Remainder(n + 1, m) == Remainder(n, m) + 1
  {
    var q, r := n / m, n % m;
    assert n == q * m + r;
    if r == m - 1 {
      assert (q + 1) * m == q * m + m;
      DivModUnique(n + 1, m, q + 1, 0);
    } else {
      DivModUnique(n + 1, m, q, r + 1);
    }
  }

  /** How many numbers below a bound leave one remainder: as many for each, give or take one. */
  lemma {:induction false} CountResidues(bound: nat, modulus: pos, v: nat)
    requires v < modulus
    ensures |Residues(bound, modulus, v)| == Quotient(bound, modulus) + if v < Remainder(bound, modulus) then 1 else 0
  {
    if bound == 0 {
      assert Residues(0, modulus, v) == {};
      DivModUnique(0, modulus, 0, 0);
    } else {
      var n := bound - 1;
      CountResidues(n, modulus, v);
      NextRemainder(n, modulus);
      assert Residues(bound, modulus, v) == Residues(n, modulus, v) + if Remainder(n, modulus) == v then {n} else {};
    }
  }

  /** A code that only sees remainders, and shows them. */
  ghost predicate CodesRemainders<A(!new)>(code: nat -> A, decode: A -> nat, modulus: pos)
  {
    forall n: nat :: decode(code(n)) == Remainder(n, modulus) && code(Remainder(n, modulus)) == code(n)
  }

  lemma SameCodeIffSameRemainder<A(!new)>(code: nat -> A, decode: A -> nat, modulus: pos, m: nat, n: nat)
    requires CodesRemainders(code, decode, modulus)
    ensures code(m) == code(n) <==> Remainder(m, modulus) == Remainder(n, modulus)
  {
    assert decode(code(m)) == Remainder(m, modulus) && code(Remainder(m, modulus)) == code(m);
    assert decode(code(n)) == Remainder(n, modulus) && code(Remainder(n, modulus)) == code(n);
  }

  /** The numbers below a bound with one code. */
  ghost function Coded<A(!new)>(code: nat -> A, a: A, bound: nat): set<nat>
  {
    set n: nat | 0 <= n < bound && code(n) == a
  }

  lemma CountCoded<A(!new)>(code: nat -> A, decode: A -> nat, modulus: pos, v: nat, bound: nat)
    requires CodesRemainders(code, decode, modulus) && v < modulus
    ensures |Coded(code, code(v), bound)| == Quotient(bound, modulus) + if v < Remainder(bound, modulus) then 1 else 0
  {
    DivModUnique(v, modulus, 0, v);
    forall n: nat ensures code(n) == code(v) <==> Remainder(n, modulus) == v {
      SameCodeIffSameRemainder(code, decode, modulus, n, v);
    }
    assert Coded(code, code(v), bound) == Residues(bound, modulus, v);
    CountResidues(bound, modulus, v);
  }
}
