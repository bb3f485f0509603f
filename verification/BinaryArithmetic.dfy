/** Powers of two, bitwise conjunction and division.

    P4Runtime values are byte strings, and the code masks them byte by byte. What masking does to the
    number that a byte string stands for is a statement about products, quotients and conjunctions of
    natural numbers. The lemmas here are the parts of those statements that do not mention bytes; each is
    about a few variables only.

    This is a tool of the model; nothing in the program corresponds to it. */
module BinaryArithmetic {
  function Pow2(n: nat): (p: nat)
    ensures p > 0
  {
    if n == 0 then 1 else 2 * Pow2(n - 1)
  }

  /** Bitwise conjunction. */
  function And(a: nat, b: nat): (c: nat)
    ensures c <= a && c <= b
  {
    if a == 0 || b == 0 then 0
    else 2 * And(a / 2, b / 2) + (if a % 2 == 1 && b % 2 == 1 then 1 else 0)
  }

  lemma {:induction false} Pow2Add(m: nat, n: nat)
    ensures Pow2(m + n) == Pow2(m) * Pow2(n)
  {
    if m == 0 {
    } else {
      Pow2Add(m - 1, n);
    }
  }

  lemma AndStep(a: nat, b: nat)
    ensures And(a, b) == 2 * And(a / 2, b / 2) + (if a % 2 == 1 && b % 2 == 1 then 1 else 0)
  {
  }

  /** Conjunction works on the bits above and below any position separately. */
  lemma {:induction false} AndSplit(k: nat, a: nat, b: nat, c: nat, d: nat, x: nat, y: nat)
    requires b < Pow2(k) && d < Pow2(k) && x == a * Pow2(k) + b && y == c * Pow2(k) + d
    ensures And(x, y) == And(a, c) * Pow2(k) + And(b, d)
    decreases k
  {
    if k == 0 {
      assert x == a && y == c;
    } else {
      var p := Pow2(k - 1);
      Halve(a, p, b, x);
      Halve(c, p, d, y);
      AndSplit(k - 1, a, b / 2, c, d / 2, x / 2, y / 2);
      AndStep(x, y);
      AndStep(b, d);
      Double(And(a, c), p);
    }
  }

  lemma Double(e: nat, p: nat)
    ensures e * (2 * p) == 2 * (e * p)
  {
  }

  lemma Halve(a: nat, p: nat, b: nat, x: nat)
    requires x == a * (2 * p) + b
    ensures x / 2 == a * p + b / 2 && x % 2 == b % 2
  {
    Double(a, p);
  }

  lemma {:induction false} AndOnes(n: nat, x: nat)
    requires x < Pow2(n)
    ensures And(x, Pow2(n) - 1) == x
  {
    if n == 0 {
    } else {
      AndOnes(n - 1, x / 2);
      AndStep(x, Pow2(n) - 1);
    }
  }

  /** Masking with n ones above position k clears the bits below it. */
  lemma AndHighMask(n: nat, k: nat, high: nat, low: nat, x: nat, mask: nat)
    requires x < Pow2(n) * Pow2(k) && mask == Pow2(n) * Pow2(k) - Pow2(k)
    requires low < Pow2(k) && x == high * Pow2(k) + low
    ensures And(x, mask) == high * Pow2(k)
  {
    var p, q := Pow2(k), Pow2(n);
    SmallFactor(high, q, p);
    AndOnes(n, high);
    OneLess(q, p);
    HighPart(k, high, low, q - 1, x, mask);
  }

  lemma SmallFactor(high: nat, q: nat, p: nat)
    requires high * p < q * p
    ensures high < q
  {
  }

  lemma HighPart(k: nat, high: nat, low: nat, ones: nat, x: nat, mask: nat)
    requires low < Pow2(k) && x == high * Pow2(k) + low && mask == ones * Pow2(k) && And(high, ones) == high
    ensures And(x, mask) == high * Pow2(k)
  {
    AndSplit(k, high, low, ones, 0, x, mask);
  }

  lemma OneLess(q: nat, p: nat)
    requires q > 0
    ensures (q - 1) * p == q * p - p && p <= q * p
  {
  }

  lemma DivMod(x: nat, p: nat)
    requires p > 0
    ensures x == x / p * p + x % p && x % p < p
  {
  }

  lemma MulMonotone(a: nat, b: nat, p: nat)
    requires a <= b
    ensures a * p <= b * p
  {
  }

  /** Clearing k + m low bits of a number clears m bits of its middle byte and all below. */
  lemma ClearedValue(head: nat, b: nat, b': nat, rest: nat, k: nat, m: nat, f: nat, f': nat, whole: nat)
    requires rest < Pow2(k) && m <= 8 && b' == b / Pow2(m) * Pow2(m)
    requires f == 256 * head + b && f' == 256 * head + b' && whole == f * Pow2(k) + rest
    ensures whole / Pow2(k + m) * Pow2(k + m) == f' * Pow2(k)
  {
    Pow2Add(k, m);
    Pow2Add(8 - m, m);
    assert Pow2(8) == 256;
    ClearedParts(head, b, b', rest, Pow2(k), Pow2(m), Pow2(8 - m), f, f');
  }

  lemma ClearedParts(head: nat, b: nat, b': nat, rest: nat, p: nat, q: nat, h: nat, f: nat, f': nat)
    requires rest < p && q > 0 && h * q == 256 && b' == b / q * q
    requires f == 256 * head + b && f' == 256 * head + b'
    ensures p * q > 0 && (f * p + rest) / (p * q) * (p * q) == f' * p
  {
    DivMod(b, q);
    var high, left := head * h + b / q, b % q;
    Distribute(head * h, b / q, q);
    Reassociate(head, h, q);
    assert f' == high * q && f == f' + left;
    SmallRemainder(left, q, p, rest);
    Distribute(f', left, p);
    Reassociate(high, q, p);
    QuotientIs(high, q * p, left * p + rest);
  }

  lemma Distribute(a: nat, b: nat, p: nat)
    ensures (a + b) * p == a * p + b * p
  {
  }

  lemma Reassociate(a: nat, b: nat, c: nat)
    ensures a * b * c == a * (b * c)
  {
  }

  lemma SmallRemainder(left: nat, q: nat, p: nat, rest: nat)
    requires left < q && rest < p
    ensures left * p + rest < q * p && q * p == p * q
  {
    MulMonotone(left, q - 1, p);
    OneLess(q, p);
  }

  lemma QuotientIs(high: nat, p: nat, low: nat)
    requires low < p
    ensures (high * p + low) / p == high
  {
    var x := high * p + low;
    DivMod(x, p);
    if x / p < high {
      MulMonotone(x / p + 1, high, p);
    } else if x / p > high {
      MulMonotone(high + 1, x / p, p);
    }
  }

  lemma DivDiv(x: nat, p: nat, q: nat)
    requires p > 0 && q > 0
    ensures p * q > 0 && x / p / q == x / (p * q)
  {
    MulMonotone(1, q, p);
    DivMod(x, p);
    DivMod(x / p, q);
    var high, low := x / p / q, x / p % q * p + x % p;
    MulMonotone(x / p % q, q - 1, p);
    assert (q - 1) * p == q * p - p;
    assert x == high * (p * q) + low by {
      assert x / p * p == (high * q + x / p % q) * p == high * q * p + x / p % q * p;
      assert high * q * p == high * (p * q);
    }
    QuotientIs(high, p * q, low);
  }

  lemma ModParts(x: nat, p: nat)
    requires p > 0
    ensures 256 * (x / 256 % p) + x % 256 == x % (256 * p)
  {
    DivMod(x, 256);
    DivMod(x / 256, p);
    var high, low := x / 256 / p, 256 * (x / 256 % p) + x % 256;
    assert x == high * (256 * p) + low by {
      assert 256 * (high * p + x / 256 % p) == high * (256 * p) + 256 * (x / 256 % p);
    }
    QuotientIs(high, 256 * p, low);
    DivMod(x, 256 * p);
  }
}
