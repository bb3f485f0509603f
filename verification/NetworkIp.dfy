/** The network address of a link, computed in wrapping 32-bit arithmetic.

    The code packs the four octets of an address into an int32, clears the host bits with a mask that it
    builds by shifting, and takes the octets off again with arithmetic shifts. Everything wraps around at
    32 bits, and half of all addresses are negative numbers on the way. */
module NetworkIps {
  import opened BinaryArithmetic
  import opened Bytestrings

  const TWO32: int := 0x1_0000_0000

  /** What an int32 keeps of a number. */
  function Wrap(x: int): (w: int)
    ensures -0x8000_0000 <= w < 0x8000_0000
  {
    (x + 0x8000_0000) % TWO32 - 0x8000_0000
  }

  function Unsigned(x: int): (u: nat)
    ensures u < TWO32
  {
    x % TWO32
  }

  function ShiftLeft(x: int, n: nat): int { Wrap(x * Pow2(n)) }

  function AndInt(x: int, y: int): int { Wrap(And(Unsigned(x), Unsigned(y))) }

  function Not(x: int): int { -x - 1 }

  lemma UnsignedWrap(x: int)
    ensures Unsigned(Wrap(x)) == x % TWO32
  {
  }

  lemma Pow32()
    ensures Pow2(8) == 256 && Pow2(16) == 65536 && Pow2(24) == 16777216 && Pow2(32) == TWO32
  {
    assert Pow2(8) == 256;
    Pow2Add(8, 8);
    Pow2Add(8, 16);
    Pow2Add(8, 24);
  }

  method GetNetworkIp(ip: seq<Byte>, mask: nat) returns (network: seq<Byte>)
    requires |ip| == 4 && mask <= 32
    ensures network == LpmMasked(ip, mask)
  {
    var ipv4 := PackOctets(ip);
    var maskBinary := Wrap(ShiftLeft(1, 32 - mask) - 1);
    MaskedAddress(ip, mask, ipv4);
    ipv4 := AndInt(ipv4, Not(maskBinary));
    network := UnpackOctets(ipv4);
    ValueInjective(network, LpmMasked(ip, mask));
  }

  /** The loop that adds up the shifted octets. */
  method PackOctets(parts: seq<Byte>) returns (ipv4: int)
    requires |parts| == 4
    ensures Unsigned(ipv4) == Value(parts)
  {
    ipv4 := 0;
    var i := 3;
    ghost var rest: seq<Byte> := [];
    while i >= 0
      invariant -1 <= i <= 3 && rest == parts[i + 1..]
      invariant Unsigned(ipv4) == Value(rest)
    {
      ipv4 := AddOctet(ipv4, parts[i], (3 - i) * 8, rest);
      rest := [parts[i]] + rest;
      i := i - 1;
    }
    assert rest == parts;
  }

  method AddOctet(ipv4: int, ipByte: Byte, shift: nat, ghost rest: seq<Byte>) returns (sum: int)
    requires |rest| < 4 && shift == |rest| * 8 && Unsigned(ipv4) == Value(rest)
    ensures Unsigned(sum) == Value([ipByte] + rest)
  {
    AddByte(ipByte, rest, ipv4);
    sum := Wrap(ipv4 + ShiftLeft(ipByte, shift));
  }

  /** The loop that takes the octets off again, lowest first, by arithmetic shifts. */
  method UnpackOctets(ipv4: int) returns (parts: seq<Byte>)
    requires -0x8000_0000 <= ipv4 < 0x8000_0000
    ensures |parts| == 4 && Value(parts) == Unsigned(ipv4)
  {
    var rest := ipv4;
    parts := [];
    var i := 3;
    while i >= 0
      invariant -1 <= i <= 3 && |parts| == 3 - i
      invariant i >= 0 ==> rest == ShiftedRight(ipv4, 3 - i)
      invariant forall j :: 0 <= j < 3 - i ==> parts[j] == Digit(ipv4, 2 - i - j)
    {
      LowByte(rest);
      ShiftedByte(ipv4, 3 - i);
      parts := [AndInt(rest, 0xFF)] + parts;
      rest := rest / 256;
      i := i - 1;
    }
    FourDigits(ipv4, parts);
  }

  lemma FourDigits(x: int, parts: seq<Byte>)
    requires |parts| == 4 && forall j :: 0 <= j < 4 ==> parts[j] == Digit(x, 3 - j)
    ensures Value(parts) == Unsigned(x)
  {
    Pow32();
    assert Pow2(0) == 1;
    DigitsValue(Unsigned(x), parts);
  }

  /** `x` after k arithmetic shifts by one byte, for k at most 3. */
  function ShiftedRight(x: int, k: int): int {
    if k == 0 then x else if k == 1 then x / 0x100 else if k == 2 then x / 0x1_0000 else x / 0x100_0000
  }

  function Digit(x: int, k: int): int {
    ShiftedRight(Unsigned(x), k) % 256
  }

  lemma AddByte(b: Byte, rest: seq<Byte>, ipv4: int)
    requires |rest| < 4 && Unsigned(ipv4) == Value(rest)
    ensures Unsigned(Wrap(ipv4 + ShiftLeft(b, |rest| * 8))) == Value([b] + rest)
  {
    ValueConcat([b], rest);
    assert [b][..0] == [];
    ValueBound([b] + rest);
    Pow32();
    var n := 8 * (1 + |rest|);
    assert Pow2(n) <= TWO32;
    SumModulo(ipv4, b * Pow2(8 * |rest|));
  }

  lemma SumModulo(x: int, y: int)
    ensures Unsigned(Wrap(x + Wrap(y))) == (Unsigned(x) + y) % TWO32
  {
  }

  lemma PowerFits(k: nat)
    requires k <= 32
    ensures Pow2(k) <= TWO32
  {
    Pow32();
    Pow2Add(32 - k, k);
    OneLess(Pow2(32 - k), Pow2(k));
  }

  lemma NotOnes(k: nat)
    requires k <= 32
    ensures Pow2(k) <= TWO32 && Unsigned(Not(Wrap(ShiftLeft(1, k) - 1))) == TWO32 - Pow2(k)
  {
    PowerFits(k);
    NegatedOnes(Pow2(k));
  }

  lemma NegatedOnes(p: int)
    requires 0 < p <= TWO32
    ensures Unsigned(Not(Wrap(Wrap(p) - 1))) == TWO32 - p
  {
  }

  lemma MaskedAddress(ip: seq<Byte>, mask: nat, ipv4: int)
    requires |ip| == 4 && mask <= 32 && Unsigned(ipv4) == Value(ip)
    ensures Unsigned(AndInt(ipv4, Not(Wrap(ShiftLeft(1, 32 - mask) - 1)))) == Value(LpmMasked(ip, mask))
  {
    MaskedNumber(ip, mask);
    var ones := Not(Wrap(ShiftLeft(1, 32 - mask) - 1));
    NotOnes(32 - mask);
    UnsignedAnd(ipv4, ones, Value(ip), TWO32 - Pow2(32 - mask));
  }

  lemma MaskedNumber(ip: seq<Byte>, mask: nat)
    requires |ip| == 4 && mask <= 32 && Value(ip) < TWO32
    ensures Pow2(32 - mask) <= TWO32 && And(Value(ip), TWO32 - Pow2(32 - mask)) == Value(LpmMasked(ip, mask))
  {
    PowerFits(32 - mask);
    MaskedValue(Value(ip), mask, 32 - mask);
    LpmClearsSuffix(ip, mask);
  }

  lemma UnsignedAnd(x: int, y: int, a: nat, b: nat)
    requires Unsigned(x) == a && Unsigned(y) == b
    ensures Unsigned(AndInt(x, y)) == And(a, b)
  {
    UnsignedWrap(And(a, b));
  }

  lemma MaskedValue(v: nat, mask: nat, k: nat)
    requires mask + k == 32 && v < TWO32 && Pow2(k) <= TWO32
    ensures And(v, TWO32 - Pow2(k)) == v / Pow2(k) * Pow2(k)
  {
    Pow32();
    Pow2Add(mask, k);
    MaskedParts(v, mask, k, Pow2(mask), Pow2(k));
  }

  lemma MaskedParts(v: nat, mask: nat, k: nat, p: nat, q: nat)
    requires p == Pow2(mask) && 0 < q == Pow2(k) && p * q == TWO32 && v < TWO32 && q <= TWO32
    ensures And(v, TWO32 - q) == v / q * q
  {
    DivMod(v, q);
    AndHighMask(mask, k, v / q, v % q, v, TWO32 - q);
  }

  lemma LowByte(x: int)
    ensures AndInt(x, 0xFF) == Unsigned(x) % 256
  {
    var u := Unsigned(x);
    assert Pow2(8) == 256;
    AndSplit(8, u / 256, u % 256, 0, 255, u, 255);
    AndOnes(8, u % 256);
  }

  lemma LowBits(y: int)
    ensures Unsigned(y) % 256 == y % 256
  {
  }

  /** An arithmetic shift brings down the same low byte as a logical one. */
  lemma ShiftedByte(x: int, k: int)
    requires -0x8000_0000 <= x < 0x8000_0000 && 0 <= k <= 3
    ensures Unsigned(ShiftedRight(x, k)) % 256 == Digit(x, k)
    ensures k < 3 ==> ShiftedRight(x, k) / 256 == ShiftedRight(x, k + 1)
  {
    LowBits(ShiftedRight(x, k));
    assert Unsigned(x) == if x < 0 then x + TWO32 else x;
    WrappedShift(x, k);
    if k < 3 {
      TwoShifts(x, k);
    }
  }

  /** Adding a full turn before the shift does not change the low byte after it. */
  lemma WrappedShift(x: int, k: int)
    requires 0 <= k <= 3
    ensures ShiftedRight(x + TWO32, k) % 256 == ShiftedRight(x, k) % 256
  {
    if k == 1 {
      assert (x + TWO32) / 0x100 == x / 0x100 + 0x100_0000;
    } else if k == 2 {
      assert (x + TWO32) / 0x1_0000 == x / 0x1_0000 + 0x1_0000;
    } else if k == 3 {
      assert (x + TWO32) / 0x100_0000 == x / 0x100_0000 + 0x100;
    }
  }

  lemma TwoShifts(x: int, k: int)
    requires 0 <= k <= 2
    ensures ShiftedRight(x, k) / 256 == ShiftedRight(x, k + 1)
  {
  }
}
