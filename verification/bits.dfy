/** Machine words as natural numbers: bit `i` of a word, the bitwise
    operators defined one bit at a time, and the facts that tie a word to
    its bits. Rust's `&`, `|` and the `as u32` cast are written out here
    so that nothing depends on a solver's bit-vector theory. */
module Bits {

  const TWO_TO_32: nat := 0x1_0000_0000

  /** `u32`. */
  type U32 = n: nat | n < TWO_TO_32

  function Pow2(k: nat): (r: nat)
    ensures r >= 1
  {
    if k == 0 then 1 else 2 * Pow2(k - 1)
  }

  /** The powers of two the library's constants use. */
  lemma Pow2Values()
    ensures Pow2(0) == 1 && Pow2(1) == 2 && Pow2(2) == 4 && Pow2(3) == 8
    ensures Pow2(4) == 0x10 && Pow2(5) == 0x20 && Pow2(6) == 0x40 && Pow2(7) == 0x80
    ensures Pow2(8) == 0x100 && Pow2(9) == 0x200 && Pow2(10) == 0x400 && Pow2(11) == 0x800
    ensures Pow2(12) == 0x1000 && Pow2(32) == TWO_TO_32
  {
    assert Pow2(12) == 0x1000;
    assert Pow2(16) == 0x1_0000;
    assert Pow2(20) == 0x10_0000;
    assert Pow2(24) == 0x100_0000;
    assert Pow2(28) == 0x1000_0000;
  }

  /** Bit `i` of `x`, counting from the least significant bit. */
  predicate BitAt(x: nat, i: nat)
    decreases i
  {
    if i == 0 then x % 2 == 1 else BitAt(x / 2, i - 1)
  }

  /** The bitwise operators the library uses. */
  datatype BitOp = Or | And

  predicate Apply(op: BitOp, a: bool, b: bool) {
    match op
    case Or => a || b
    case And => a && b
  }

  /** `x | y` or `x & y`, computed from the least significant bit up. */
  function Combine(op: BitOp, x: nat, y: nat): (r: nat)
    decreases x + y
  {
    if x == 0 && y == 0 then
      0
    else
      (if Apply(op, x % 2 == 1, y % 2 == 1) then 1 else 0) + 2 * Combine(op, x / 2, y / 2)
  }

  /** Zero has no bit set. */
  lemma {:induction false} ZeroHasNoBits(i: nat)
    ensures !BitAt(0, i)
    decreases i
  {
    if i > 0 {
      ZeroHasNoBits(i - 1);
    }
  }

  /** A low bit `c` and the rest `q` of a word make the word `c + 2q`. */
  lemma SplitLowBit(c: nat, q: nat)
    requires c < 2
    ensures (c + 2 * q) % 2 == c && (c + 2 * q) / 2 == q
  {
  }

  /** Each bit of `x op y` is `op` applied to the same bit of `x` and `y`. */
  lemma {:induction false} CombineBit(op: BitOp, x: nat, y: nat, i: nat)
    ensures BitAt(Combine(op, x, y), i) == Apply(op, BitAt(x, i), BitAt(y, i))
    decreases i
  {
    if x == 0 && y == 0 {
      ZeroHasNoBits(i);
    } else {
      var c := if Apply(op, x % 2 == 1, y % 2 == 1) then 1 else 0;
      var q := Combine(op, x / 2, y / 2);
      SplitLowBit(c, q);
      if i > 0 {
        CombineBit(op, x / 2, y / 2, i - 1);
      }
    }
  }

  /** The bitwise meaning of `Combine`, for every bit at once. */
  lemma CombineBits(op: BitOp, x: nat, y: nat)
    ensures forall i: nat :: BitAt(Combine(op, x, y), i) == Apply(op, BitAt(x, i), BitAt(y, i))
  {
    forall i: nat
      ensures BitAt(Combine(op, x, y), i) == Apply(op, BitAt(x, i), BitAt(y, i))
    {
      CombineBit(op, x, y, i);
    }
  }

  /** Combining two `k`-bit words gives a `k`-bit word. */
  lemma {:induction false} CombineBound(op: BitOp, x: nat, y: nat, k: nat)
    requires x < Pow2(k) && y < Pow2(k)
    ensures Combine(op, x, y) < Pow2(k)
    decreases k
  {
    if k > 0 && !(x == 0 && y == 0) {
      CombineBound(op, x / 2, y / 2, k - 1);
    }
  }

  /** A `k`-bit word is determined by its low `k` bits. */
  lemma {:induction false} BitsDetermine(x: nat, y: nat, k: nat)
    requires x < Pow2(k) && y < Pow2(k)
    requires forall i: nat :: i < k ==> BitAt(x, i) == BitAt(y, i)
    ensures x == y
    decreases k
  {
    if k > 0 {
      assert BitAt(x, 0) == BitAt(y, 0);
      forall i: nat | i < k - 1
        ensures BitAt(x / 2, i) == BitAt(y / 2, i)
      {
        assert BitAt(x, i + 1) == BitAt(y, i + 1);
      }
      BitsDetermine(x / 2, y / 2, k - 1);
    }
  }

  /** A `k`-bit word has no bit at position `k` or above. */
  lemma {:induction false} HighBitsClear(x: nat, k: nat, i: nat)
    requires x < Pow2(k) && k <= i
    ensures !BitAt(x, i)
    decreases k
  {
    if k == 0 {
      ZeroHasNoBits(i);
    } else {
      HighBitsClear(x / 2, k - 1, i - 1);
    }
  }

  /** An `m`-bit word whose bits from `k` up to `m` are clear is a `k`-bit
      word. */
  lemma {:induction false} LowBitsOnly(x: nat, k: nat, m: nat)
    requires k <= m && x < Pow2(m)
    requires forall i: nat :: k <= i < m ==> !BitAt(x, i)
    ensures x < Pow2(k)
    decreases k
  {
    if k == 0 {
      forall i: nat | i < m
        ensures BitAt(x, i) == BitAt(0, i)
      {
        ZeroHasNoBits(i);
      }
      BitsDetermine(x, 0, m);
    } else {
      forall i: nat | k - 1 <= i < m - 1
        ensures !BitAt(x / 2, i)
      {
        assert !BitAt(x, i + 1);
      }
      LowBitsOnly(x / 2, k - 1, m - 1);
    }
  }

  /** No bit of `x` from position `k` up to `m` is set. */
  predicate ClearFrom(x: nat, k: nat, m: nat) {
    forall i: nat :: k <= i < m ==> !BitAt(x, i)
  }

  /** An `m`-bit word is below `2^k` exactly when none of its bits from `k`
      to `m` is set. */
  lemma WordFitsIff(x: nat, k: nat, m: nat)
    requires k <= m && x < Pow2(m)
    ensures x < Pow2(k) <==> ClearFrom(x, k, m)
  {
    if x < Pow2(k) {
      forall i: nat | k <= i < m
        ensures !BitAt(x, i)
      {
        HighBitsClear(x, k, i);
      }
    } else if ClearFrom(x, k, m) {
      LowBitsOnly(x, k, m);
    }
  }

  /** The single-bit word `2^j` has bit `j` and no other. */
  lemma {:induction false} PowerBit(j: nat, i: nat)
    ensures BitAt(Pow2(j), i) <==> i == j
    decreases j
  {
    if j == 0 {
      if i > 0 {
        ZeroHasNoBits(i - 1);
      }
    } else if i == 0 {
    } else {
      PowerBit(j - 1, i - 1);
    }
  }

  /** `2^m - 1` is the word of `m` one bits. */
  lemma {:induction false} AllOnes(m: nat, i: nat)
    ensures BitAt(Pow2(m) - 1, i) <==> i < m
    decreases m
  {
    if m == 0 {
      ZeroHasNoBits(i);
    } else {
      SplitLowBit(1, Pow2(m - 1) - 1);
      if i > 0 {
        AllOnes(m - 1, i - 1);
      }
    }
  }

  /** A multiple of `d` by a positive factor is at least `d`. */
  lemma {:induction false} MulAtLeast(d: nat, x: nat)
    requires x >= 1
    ensures d * x >= d
    decreases x
  {
    if x > 1 {
      MulAtLeast(d, x - 1);
      assert d * x == d * (x - 1) + d;
    }
  }

  /** Multiplication distributes over a difference. */
  lemma Distribute(d: nat, a: nat, b: nat)
    requires a >= b
    ensures d * a == d * b + d * (a - b)
  {
  }

  /** Division with remainder has one answer. */
  lemma DivModUnique(a: nat, d: nat, q: nat, r: nat)
    requires 0 <= r < d && a == d * q + r
    ensures a / d == q && a % d == r
  {
    var q', r' := a / d, a % d;
    assert a == d * q' + r';
    if q' > q {
      Distribute(d, q', q);
      MulAtLeast(d, q' - q);
    } else if q' < q {
      Distribute(d, q, q');
      MulAtLeast(d, q - q');
    }
  }

  /** The word made of bits 0 to `k - 1` of `v`. */
  function LowPart(v: nat, k: nat): nat {
    if k == 0 then 0 else v % 2 + 2 * LowPart(v / 2, k - 1)
  }

  /** The word made of the bits of `v` from position `k` up, shifted down. */
  function HighPart(v: nat, k: nat): nat {
    if k == 0 then v else HighPart(v / 2, k - 1)
  }

  /** The bits of `LowPart(v, k)` are those of `v` below `k`. */
  lemma {:induction false} LowPartBits(v: nat, k: nat, i: nat)
    ensures BitAt(LowPart(v, k), i) <==> BitAt(v, i) && i < k
    decreases k
  {
    if k == 0 {
      ZeroHasNoBits(i);
    } else if i > 0 {
      LowPartBits(v / 2, k - 1, i - 1);
    }
  }

  /** `LowPart(v, k)` is a `k`-bit word. */
  lemma {:induction false} LowPartBound(v: nat, k: nat)
    ensures LowPart(v, k) < Pow2(k)
    decreases k
  {
    if k > 0 {
      LowPartBound(v / 2, k - 1);
    }
  }

  /** Regrouping `b + 2(l + p h)` as `(b + 2l) + (2p) h`. */
  lemma Regroup(v: nat, b: nat, l: nat, p: nat, h: nat)
    requires v == b + 2 * (l + p * h)
    ensures v == (b + 2 * l) + (2 * p) * h
  {
  }

  /** Every word is its low `k` bits plus `2^k` times the rest. */
  lemma {:induction false} SplitAt(v: nat, k: nat)
    ensures v == LowPart(v, k) + Pow2(k) * HighPart(v, k)
    decreases k
  {
    if k > 0 {
      SplitAt(v / 2, k - 1);
      Regroup(v, v % 2, LowPart(v / 2, k - 1), Pow2(k - 1), HighPart(v / 2, k - 1));
    }
  }

  /** Reducing modulo `2^k` keeps the bits below `k` and clears the rest. */
  lemma ModPow2Bit(v: nat, k: nat, i: nat)
    ensures BitAt(v % Pow2(k), i) <==> BitAt(v, i) && i < k
  {
    SplitAt(v, k);
    LowPartBound(v, k);
    DivModUnique(v, Pow2(k), HighPart(v, k), LowPart(v, k));
    LowPartBits(v, k, i);
  }

  /** Rust's `value as u32` on a `u64`: bits 0 to 31 of the value are kept
      and every higher bit is dropped. */
  function TruncateToU32(v: nat): (b: U32)
    ensures forall i: nat :: BitAt(b, i) == (BitAt(v, i) && i < 32)
    ensures b == v % TWO_TO_32
    ensures v < TWO_TO_32 ==> b == v
  {
    Pow2Values();
    forall i: nat
      ensures BitAt(v % TWO_TO_32, i) == (BitAt(v, i) && i < 32)
    {
      ModPow2Bit(v, 32, i);
    }
    v % TWO_TO_32
  }
}
