/** Byte strings of P4Runtime as big-endian naturals.

    Match fields are normalised in place, by masking, and brought into canonical form on demand. */
module Bytestrings {
  import opened BinaryArithmetic

  type Byte = b: nat | b < 256

  /** The number that a byte string denotes. */
  function Value(bytes: seq<Byte>): nat {
    if bytes == [] then 0 else 256 * Value(bytes[..|bytes| - 1]) + bytes[|bytes| - 1]
  }

  // ---- Values ----

  lemma {:induction false} ValueConcat(a: seq<Byte>, b: seq<Byte>)
    ensures Value(a + b) == Value(a) * Pow2(8 * |b|) + Value(b)
    decreases |b|
  {
    if b == [] {
      assert a + b == a;
    } else {
      var last := |b| - 1;
      ValueConcat(a, b[..last]);
      assert (a + b)[..|a + b| - 1] == a + b[..last];
      Pow2Add(8, 8 * last);
      assert Pow2(8) == 256;
      assert Value(a) * Pow2(8 * |b|) == 256 * (Value(a) * Pow2(8 * last));
    }
  }

  lemma {:induction false} ValueBound(a: seq<Byte>)
    ensures Value(a) < Pow2(8 * |a|)
  {
    if a == [] {
    } else {
      ValueBound(a[..|a| - 1]);
      Pow2Add(8, 8 * (|a| - 1));
      assert Pow2(8) == 256;
    }
  }

  lemma {:induction false} ValueOfZeros(a: seq<Byte>)
    requires forall i :: 0 <= i < |a| ==> a[i] == 0
    ensures Value(a) == 0
  {
    if a == [] {
    } else {
      ValueOfZeros(a[..|a| - 1]);
    }
  }

  /** Byte strings of one length are equal when their values are. */
  lemma {:induction false} ValueInjective(a: seq<Byte>, b: seq<Byte>)
    requires |a| == |b| && Value(a) == Value(b)
    ensures a == b
  {
    if a == [] {
    } else {
      var last := |a| - 1;
      assert a[last] == Value(a) % 256 == Value(b) % 256 == b[last];
      ValueInjective(a[..last], b[..last]);
      assert a == a[..last] + [a[last]] && b == b[..last] + [b[last]];
    }
  }

  // ---- Canonical form ----

  function LeadingZeros(bytes: seq<Byte>): (n: nat)
    ensures n <= |bytes|
    ensures forall i :: 0 <= i < n ==> bytes[i] == 0
    ensures n < |bytes| ==> bytes[n] != 0
  {
    if bytes == [] || bytes[0] != 0 then 0 else 1 + LeadingZeros(bytes[1..])
  }

  function Canonical(bytes: seq<Byte>): seq<Byte> {
    if bytes == [] then bytes
    else if LeadingZeros(bytes) == |bytes| then bytes[..1]
    else bytes[LeadingZeros(bytes)..]
  }

  method ToCanonicalBytestring(bytes: seq<Byte>) returns (r: seq<Byte>)
    ensures r == Canonical(bytes)
  {
    if |bytes| == 0 {
      return bytes;
    }
    var i := 0;
    while i < |bytes| && bytes[i] == 0
      invariant 0 <= i <= |bytes|
      invariant forall j :: 0 <= j < i ==> bytes[j] == 0
    {
      i := i + 1;
    }
    LeadingZerosIs(bytes, i);
    if i == |bytes| {
      return bytes[..1];
    }
    return bytes[i..];
  }

  lemma LeadingZerosIs(bytes: seq<Byte>, i: nat)
    requires i <= |bytes| && forall j :: 0 <= j < i ==> bytes[j] == 0
    requires i < |bytes| ==> bytes[i] != 0
    ensures LeadingZeros(bytes) == i
  {
  }

  lemma CanonicalKeepsValue(bytes: seq<Byte>)
    ensures Value(Canonical(bytes)) == Value(bytes)
    ensures bytes != [] ==> Canonical(bytes) != [] && (|Canonical(bytes)| == 1 || Canonical(bytes)[0] != 0)
  {
    if bytes != [] {
      var n := LeadingZeros(bytes);
      if n == |bytes| {
        ValueOfZeros(bytes);
        ValueOfZeros(bytes[..1]);
      } else {
        ValueConcat(bytes[..n], bytes[n..]);
        ValueOfZeros(bytes[..n]);
        assert bytes[..n] + bytes[n..] == bytes;
      }
    }
  }

  lemma LongerIsLarger(a: seq<Byte>, b: seq<Byte>)
    requires |a| < |b| && a != [] && b[0] != 0
    ensures Value(a) < Value(b)
  {
  }

  /** Two non-empty byte strings have the same canonical form exactly when they denote the same number. */
  lemma CanonicalDecidesValue(a: seq<Byte>, b: seq<Byte>)
    requires a != [] && b != []
    ensures Canonical(a) == Canonical(b) <==> Value(a) == Value(b)
  {
    CanonicalKeepsValue(a);
    CanonicalKeepsValue(b);
    var x, y := Canonical(a), Canonical(b);
    if Value(a) == Value(b) {
      if |x| < |y| {
        LongerIsLarger(x, y);
      } else if |y| < |x| {
        LongerIsLarger(y, x);
      } else {
        ValueInjective(x, y);
      }
    }
  }

  // ---- Longest prefix match ----

  /** `0xff << (8 - r)` in byte arithmetic. */
  function HighOnes(r: nat): Byte
    requires r < 8
  {
    255 * Pow2(8 - r) % 256
  }

  /** The value with the bits after the prefix cleared, byte by byte. */
  function LpmMasked(value: seq<Byte>, pLen: nat): (r: seq<Byte>)
    ensures |r| == |value|
  {
    seq(|value|, i requires 0 <= i < |value| =>
      if i < pLen / 8 then value[i] else if i == pLen / 8 then And(value[i], HighOnes(pLen % 8)) else 0)
  }

  method LpmGet(value: array<Byte>, pLen: nat, canonical: bool) returns (field: seq<Byte>)
    requires pLen / 8 <= value.Length
    modifies value
    ensures value[..] == LpmMasked(old(value[..]), pLen)
    ensures field == if canonical then Canonical(value[..]) else value[..]
  {
    var firstByteMasked := pLen / 8;
    if firstByteMasked != value.Length {
      var i := firstByteMasked;
      var r := pLen % 8;
      value[i] := And(value[i], HighOnes(r));
      i := i + 1;
      while i < value.Length
        invariant firstByteMasked < i <= value.Length
        invariant value[firstByteMasked] == And(old(value[firstByteMasked]), HighOnes(r))
        invariant forall j :: 0 <= j < firstByteMasked || i <= j < value.Length ==> value[j] == old(value[j])
        invariant forall j :: firstByteMasked < j < i ==> value[j] == 0
      {
        value[i] := 0;
        i := i + 1;
      }
    }
    field := value[..];
    if canonical {
      field := ToCanonicalBytestring(field);
    }
  }

  lemma HighOnesValue(r: nat)
    requires r < 8
    ensures HighOnes(r) == Pow2(8) - Pow2(8 - r)
  {
    assert Pow2(1) == 2 && Pow2(2) == 4 && Pow2(3) == 8 && Pow2(4) == 16;
    assert Pow2(5) == 32 && Pow2(6) == 64 && Pow2(7) == 128 && Pow2(8) == 256;
  }

  lemma MaskedByte(b: Byte, r: nat)
    requires r < 8
    ensures And(b, HighOnes(r)) == b / Pow2(8 - r) * Pow2(8 - r)
  {
    HighOnesValue(r);
    Pow2Add(r, 8 - r);
    assert Pow2(8) == 256;
    DivMod(b, Pow2(8 - r));
    AndHighMask(r, 8 - r, b / Pow2(8 - r), b % Pow2(8 - r), b, HighOnes(r));
  }

  /** Normalisation clears exactly the bits after the prefix. */
  lemma LpmClearsSuffix(value: seq<Byte>, pLen: nat)
    requires pLen <= 8 * |value|
    ensures var suffix := Pow2(8 * |value| - pLen);
      Value(LpmMasked(value, pLen)) == Value(value) / suffix * suffix
  {
    var k, r, n := pLen / 8, pLen % 8, |value|;
    var masked := LpmMasked(value, pLen);
    if k == n {
      assert masked == value;
    } else {
      var head, rest, zeros := value[..k], value[k + 1..], masked[k + 1..];
      assert value == head + ([value[k]] + rest) && masked == head + ([masked[k]] + zeros);
      ValueOfZeros(zeros);
      SplitByteCleared(head, value[k], rest, masked[k], zeros, r);
      assert 8 * |rest| + (8 - r) == 8 * n - pLen;
    }
  }

  lemma SplitByteCleared(head: seq<Byte>, b: Byte, rest: seq<Byte>, b': Byte, zeros: seq<Byte>, r: nat)
    requires r < 8 && b' == And(b, HighOnes(r)) && |zeros| == |rest| && Value(zeros) == 0
    ensures var suffix := Pow2(8 * |rest| + (8 - r));
      Value(head + ([b'] + zeros)) == Value(head + ([b] + rest)) / suffix * suffix
  {
    var k, m := 8 * |rest|, 8 - r;
    var whole, cleared := Value(head + ([b] + rest)), Value(head + ([b'] + zeros));
    assert cleared == whole / Pow2(k + m) * Pow2(k + m) by {
      MaskedByte(b, r);
      var f := ValueOfParts(head, b, rest);
      var f' := ValueOfParts(head, b', zeros);
      ValueBound(rest);
      ClearedValue(Value(head), b, b', Value(rest), k, m, f, f', whole);
    }
  }

  lemma ValueOfParts(head: seq<Byte>, b: Byte, rest: seq<Byte>) returns (f: nat)
    ensures f == 256 * Value(head) + b
    ensures Value(head + ([b] + rest)) == f * Pow2(8 * |rest|) + Value(rest)
  {
    var front := head + [b];
    f := Value(front);
    ValueConcat(front, rest);
    assert front + rest == head + ([b] + rest);
    assert front[..|front| - 1] == head;
  }

  // ---- Ternary match ----

  /** The value after masking: aligned at the low end, high bytes beyond the mask dropped. */
  function TernaryMasked(value: seq<Byte>, mask: seq<Byte>): (r: seq<Byte>)
    ensures |r| == if |value| <= |mask| then |value| else |mask|
    ensures forall i :: 0 <= i < |r| ==> r[i] == And(value[|value| - |r| + i], mask[|mask| - |r| + i])
  {
    var v := if |value| <= |mask| then value else value[|value| - |mask|..];
    var m := mask[|mask| - |v|..];
    seq(|v|, i requires 0 <= i < |v| => And(v[i], m[i]))
  }

  method TernaryGet(value: array<Byte>, mask: seq<Byte>, canonical: bool)
    returns (field: seq<Byte>, fieldMask: seq<Byte>)
    modifies value
    ensures var masked := TernaryMasked(old(value[..]), mask);
      field == if canonical then Canonical(masked) else masked
    ensures fieldMask == if canonical then Canonical(mask) else mask
    ensures var masked := TernaryMasked(old(value[..]), mask);
      value[..] == old(value[..])[..value.Length - |masked|] + masked
  {
    var offset := |mask| - value.Length;
    var start := 0;
    if offset < 0 {
      start := -offset;
      offset := 0;
    }
    var bytes := mask[offset..];
    for i := 0 to |bytes|
      invariant forall j :: 0 <= j < start ==> value[j] == old(value[j])
      invariant forall j :: start + i <= j < value.Length ==> value[j] == old(value[j])
      invariant forall j :: 0 <= j < i ==> value[start + j] == And(old(value[start + j]), bytes[j])
    {
      value[start + i] := And(value[start + i], bytes[i]);
    }
    field, fieldMask := value[start..], mask;
    assert field == TernaryMasked(old(value[..]), mask);
    if canonical {
      field := ToCanonicalBytestring(field);
      fieldMask := ToCanonicalBytestring(fieldMask);
    }
  }

  lemma {:induction false} BytewiseAnd(v: seq<Byte>, m: seq<Byte>, r: seq<Byte>)
    requires |v| == |m| == |r| && forall i :: 0 <= i < |v| ==> r[i] == And(v[i], m[i])
    ensures Value(r) == And(Value(v), Value(m))
    decreases |v|
  {
    if v == [] {
    } else {
      var last := |v| - 1;
      BytewiseAnd(v[..last], m[..last], r[..last]);
      assert Pow2(8) == 256;
      AndSplit(8, Value(v[..last]), v[last], Value(m[..last]), m[last], Value(v), Value(m));
    }
  }

  lemma AlignedAnd(valueTop: seq<Byte>, v: seq<Byte>, maskTop: seq<Byte>, m: seq<Byte>)
    requires |v| == |m| && (valueTop == [] || maskTop == [])
    ensures And(Value(valueTop + v), Value(maskTop + m)) == And(Value(v), Value(m))
  {
    ValueConcat(valueTop, v);
    ValueConcat(maskTop, m);
    ValueBound(v);
    ValueBound(m);
    AndSplit(8 * |v|, Value(valueTop), Value(v), Value(maskTop), Value(m), Value(valueTop + v), Value(maskTop + m));
  }

  lemma TernaryParts(valueTop: seq<Byte>, v: seq<Byte>, maskTop: seq<Byte>, m: seq<Byte>, r: seq<Byte>,
                     value: seq<Byte>, mask: seq<Byte>)
    requires |v| == |m| == |r| && forall i :: 0 <= i < |v| ==> r[i] == And(v[i], m[i])
    requires value == valueTop + v && mask == maskTop + m && (valueTop == [] || maskTop == [])
    ensures Value(r) == And(Value(value), Value(mask))
  {
    BytewiseAnd(v, m, r);
    AlignedAnd(valueTop, v, maskTop, m);
  }

  /** Normalisation is the conjunction of value and mask, the shorter one extended with zeros. */
  lemma TernaryIsAnd(value: seq<Byte>, mask: seq<Byte>)
    ensures Value(TernaryMasked(value, mask)) == And(Value(value), Value(mask))
  {
    var r := TernaryMasked(value, mask);
    var cut, offset := |value| - |r|, |mask| - |r|;
    var valueTop, v, maskTop, m := value[..cut], value[cut..], mask[..offset], mask[offset..];
    assert value == valueTop + v && mask == maskTop + m && |v| == |m| == |r|;
    assert forall i :: 0 <= i < |r| ==> r[i] == And(v[i], m[i]);
    TernaryParts(valueTop, v, maskTop, m, r, value, mask);
  }

  // ---- Numbers ----

  /** The big-endian bytes of a number; bits beyond the width are cut off. */
  method NumberToBinaryUint(num: nat, bitwidth: nat) returns (res: array<Byte>)
    ensures fresh(res) && res.Length == (bitwidth + 7) / 8
    ensures Value(res[..]) == num % Pow2(8 * res.Length)
  {
    var numBytes := bitwidth / 8;
    if bitwidth % 8 != 0 {
      numBytes := numBytes + 1;
    }
    res := new Byte[numBytes](_ => 0);
    var i := numBytes - 1;
    while i >= 0
      invariant -1 <= i < numBytes
      invariant forall j :: i < j < numBytes ==> res[j] == num / Pow2(8 * (numBytes - 1 - j)) % 256
    {
      res[i] := num / Pow2(8 * (numBytes - 1 - i)) % 256;
      i := i - 1;
    }
    DigitsValue(num, res[..]);
  }

  lemma {:induction false} DigitsValue(num: nat, digits: seq<Byte>)
    requires forall j :: 0 <= j < |digits| ==> digits[j] == num / Pow2(8 * (|digits| - 1 - j)) % 256
    ensures Value(digits) == num % Pow2(8 * |digits|)
    decreases |digits|
  {
    if digits == [] {
    } else {
      var last := |digits| - 1;
      forall j | 0 <= j < last ensures digits[..last][j] == num / 256 / Pow2(8 * (last - 1 - j)) % 256 {
        HigherDigit(num, last - 1 - j);
      }
      DigitsValue(num / 256, digits[..last]);
      LowestDigit(num);
      Pow2Add(8, 8 * last);
      assert Pow2(8) == 256;
      ModParts(num, Pow2(8 * last));
    }
  }

  lemma HigherDigit(num: nat, k: nat)
    ensures num / Pow2(8 * (k + 1)) == num / 256 / Pow2(8 * k)
  {
    Pow2Add(8, 8 * k);
    assert Pow2(8) == 256;
    DivDiv(num, 256, Pow2(8 * k));
  }

  lemma LowestDigit(num: nat)
    ensures num / Pow2(0) % 256 == num % 256
  {
    assert Pow2(0) == 1;
  }
}
