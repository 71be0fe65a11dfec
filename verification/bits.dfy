/** Bit strings of natural numbers, shared by the register codec and the Gray-code decoder. */
module Bits {

  /** Two to the power k. */
  function Pow2(k: nat): (p: nat)
    ensures p > 0
  {
    if k == 0 then 1 else 2 * Pow2(k - 1)
  }

  /** Bit k of v, bit 0 being the least significant: the test `v & (1 << k)`. */
  predicate BitAt(v: nat, k: nat) {
    if k == 0 then v % 2 == 1 else BitAt(v / 2, k - 1)
  }

  lemma {:induction false} DoubledBit(h: nat, bit: bool, k: nat)
    ensures BitAt(2 * h + if bit then 1 else 0, k) == if k == 0 then bit else BitAt(h, k - 1)
  {
    assert (2 * h + if bit then 1 else 0) / 2 == h;
  }

  /** The number a bit string spells, most significant bit first. */
  function ToNat(bits: seq<bool>): nat {
    if bits == [] then 0
    else 2 * ToNat(bits[..|bits| - 1]) + (if bits[|bits| - 1] then 1 else 0)
  }

  /** The low `width` bits of v, most significant first. */
  function FromNat(v: nat, width: nat): (bits: seq<bool>)
    ensures |bits| == width
  {
    if width == 0 then [] else FromNat(v / 2, width - 1) + [v % 2 == 1]
  }

  lemma {:induction false} FromNatAt(v: nat, width: nat, i: nat)
    requires i < width
    ensures FromNat(v, width)[i] == BitAt(v, width - 1 - i)
  {
    if i < width - 1 {
      FromNatAt(v / 2, width - 1, i);
    }
  }

  /** Writing a number in `width` bits and reading it back keeps it modulo 2^width. */
  lemma {:induction false} ToNatFromNat(v: nat, width: nat)
    ensures ToNat(FromNat(v, width)) == v % Pow2(width)
  {
    if width > 0 {
      ToNatFromNat(v / 2, width - 1);
      assert FromNat(v, width)[..width - 1] == FromNat(v / 2, width - 1);
      HalfMod(v, Pow2(width - 1));
    }
  }

  lemma HalfMod(v: nat, p: nat)
    requires p > 0
    ensures v % (2 * p) == 2 * (v / 2 % p) + v % 2
  {
    var q, r := v / 2 / p, v / 2 % p;
    assert v == 2 * (q * p + r) + v % 2;
    ModUnique(v, 2 * p, q, 2 * r + v % 2);
  }

  lemma ModUnique(v: int, m: int, q: int, r: int)
    requires 0 <= r < m && v == q * m + r
    ensures v / m == q && v % m == r
  {
    var d := v / m - q;
    assert v % m == r - d * m;
    assert d >= 1 ==> d * m >= m;
    assert d <= -1 ==> d * m <= -m;
  }

  /** Bits of two numbers put together. */
  lemma {:induction false} BitOfSum(low: nat, high: nat, width: nat, k: nat)
    requires low < Pow2(width)
    ensures BitAt(low + Pow2(width) * high, k) == if k < width then BitAt(low, k) else BitAt(high, k - width)
    decreases width
  {
    if width > 0 {
      var p := Pow2(width - 1);
      assert low + 2 * p * high == 2 * (low / 2 + p * high) + low % 2;
      DoubledBit(low / 2 + p * high, low % 2 == 1, k);
      DoubledBit(low / 2, low % 2 == 1, k);
      if k > 0 {
        BitOfSum(low / 2, high, width - 1, k - 1);
      }
    }
  }

  lemma ModKeeps(v: nat, max: nat)
    ensures v % (max + 1) == v <==> v <= max
  {
  }

  /** Reading a bit string and writing it back in as many bits is the identity. */
  lemma {:induction false} FromNatToNat(bits: seq<bool>)
    ensures FromNat(ToNat(bits), |bits|) == bits
  {
    if bits != [] {
      FromNatToNat(bits[..|bits| - 1]);
      assert bits == bits[..|bits| - 1] + [bits[|bits| - 1]];
    }
  }

  lemma {:induction false} Pow2Add(a: nat, b: nat)
    ensures Pow2(a + b) == Pow2(a) * Pow2(b)
  {
    if a > 0 {
      Pow2Add(a - 1, b);
      assert Pow2(a) * Pow2(b) == 2 * (Pow2(a - 1) * Pow2(b));
    }
  }
}
