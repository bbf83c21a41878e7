/** Unsigned machine words as bounded integers, the bitwise operators the sources use on them,
    and the branch-free base-2 logarithm of bpf/headers/bits.bpf.h. */
module Bits {

  const TWO_32: nat := 0x1_0000_0000
  const TWO_63: nat := 0x8000_0000_0000_0000
  const TWO_64: nat := 0x1_0000_0000_0000_0000

  type u32 = x: int | 0 <= x < 0x1_0000_0000
  type u64 = x: int | 0 <= x < 0x1_0000_0000_0000_0000

  datatype Option<+T> = None | Some(value: T)

  function Pow2(n: nat): (p: nat)
    ensures p >= 1
  {
    if n == 0 then 1 else 2 * Pow2(n - 1)
  }

  /** Bitwise or of two naturals, bit by bit. */
  function BitOr(a: nat, b: nat): nat {
    if a == 0 && b == 0 then 0
    else 2 * BitOr(a / 2, b / 2) + (if a % 2 == 1 || b % 2 == 1 then 1 else 0)
  }

  /** Bitwise and of two naturals, bit by bit. */
  function BitAnd(a: nat, b: nat): nat {
    if a == 0 || b == 0 then 0
    else 2 * BitAnd(a / 2, b / 2) + (if a % 2 == 1 && b % 2 == 1 then 1 else 0)
  }

  function Shl(a: nat, k: nat): nat { if k == 0 then a else 2 * Shl(a, k - 1) }
  function Shr(a: nat, k: nat): nat { if k == 0 then a else Shr(a / 2, k - 1) }
  function FromBool(c: bool): nat { if c then 1 else 0 }

  lemma {:induction false} Pow2Add(a: nat, b: nat)
    ensures Pow2(a + b) == Pow2(a) * Pow2(b)
  {
    if a > 0 {
      Pow2Add(a - 1, b);
      MulAssoc(2, Pow2(a - 1), Pow2(b));
      assert Pow2(a + b) == 2 * Pow2(a - 1 + b);
    }
  }

  lemma {:induction false} Pow2Monotone(a: nat, b: nat)
    requires a < b
    ensures 2 * Pow2(a) <= Pow2(b)
  {
    if a + 1 < b { Pow2Monotone(a, b - 1); }
  }

  /** When the low k bits of a are clear and b fits in them, "or" is addition. */
  lemma {:induction false} OrDisjoint(a: nat, b: nat, k: nat)
    requires a % Pow2(k) == 0 && b < Pow2(k)
    ensures BitOr(a, b) == a + b
    decreases a + b, k
  {
    if k == 0 {
      OrZero(a);
    } else if a + b > 0 {
      var p, q := Pow2(k - 1), a / Pow2(k);
      assert a == 2 * (q * p) by { assert a == q * Pow2(k); }
      assert a / 2 == q * p;
      assert (q * p) % p == 0 by { ModMultiple(q, p); }
      OrDisjoint(a / 2, b / 2, k - 1);
    }
  }

  lemma {:induction false} OrZero(a: nat)
    ensures BitOr(a, 0) == a
  {
    if a > 0 { OrZero(a / 2); }
  }

  lemma ModMultiple(q: nat, p: nat)
    requires p > 0
    ensures (q * p) % p == 0
  {
    DivModUnique(q * p, p, q, 0);
  }

  lemma DivModUnique(x: nat, d: nat, q: nat, r: nat)
    requires d > 0 && x == q * d + r && r < d
    ensures x / d == q && x % d == r
  {
    var q', r' := x / d, x % d;
    assert x == q' * d + r';
    assert (q - q') * d == r' - r;
    if q > q' { MulLe(1, q - q', d); }
    if q < q' { MulLe(q - q', -1, d); }
  }

  lemma MulAssoc(a: nat, b: nat, c: nat)
    ensures (a * b) * c == a * (b * c)
  {
  }

  lemma MulLe(a: int, b: int, c: nat)
    requires a <= b
    ensures a * c <= b * c
  {
  }

  lemma DivDiv(a: nat, p: nat)
    requires p > 0
    ensures (a / 2) / p == a / (2 * p)
    ensures a % (2 * p) == 2 * ((a / 2) % p) + a % 2
  {
    var q, r := (a / 2) / p, (a / 2) % p;
    assert a == 2 * (q * p + r) + a % 2;
    assert 2 * (q * p) == q * (2 * p);
    DivModUnique(a, 2 * p, q, 2 * r + a % 2);
  }

  lemma SmallModulo(n: nat)
    requires n < TWO_64
    ensures n % TWO_64 == n
  {
  }

  lemma AndUnfold(a: nat, b: nat)
    ensures BitAnd(a, b) == 2 * BitAnd(a / 2, b / 2) + (if a % 2 == 1 && b % 2 == 1 then 1 else 0)
  {
  }

  /** A mask with a set low bit keeps the low bit of a. */
  lemma AndOdd(a: nat, m: nat)
    ensures BitAnd(a, 2 * m + 1) == 2 * BitAnd(a / 2, m) + a % 2
  {
    assert (2 * m + 1) / 2 == m && (2 * m + 1) % 2 == 1;
    AndUnfold(a, 2 * m + 1);
  }

  lemma HalfOf(a: nat, p: nat, q: nat, r: nat)
    requires a == q * (2 * p) + r
    ensures a / 2 == q * p + r / 2 && a % 2 == r % 2
  {
    assert q * (2 * p) == 2 * (q * p);
  }

  lemma {:induction false} AndLowMaskOf(a: nat, k: nat, q: nat, r: nat)
    requires a == q * Pow2(k) + r && r < Pow2(k)
    ensures BitAnd(a, Pow2(k) - 1) == r
    decreases k
  {
    if k > 0 {
      var p := Pow2(k - 1);
      HalfOf(a, p, q, r);
      AndLowMaskOf(a / 2, k - 1, q, r / 2);
      AndOdd(a, p - 1);
    }
  }

  lemma QuotientRemainder(a: nat, p: nat) returns (q: nat, r: nat)
    requires p > 0
    ensures a == q * p + r && r < p && r == a % p
  {
    q, r := a / p, a % p;
  }

  /** Masking with k low one-bits is the remainder modulo 2^k. */
  lemma AndLowMask(a: nat, k: nat)
    ensures BitAnd(a, Pow2(k) - 1) == a % Pow2(k)
  {
    var q, r := QuotientRemainder(a, Pow2(k));
    AndLowMaskOf(a, k, q, r);
  }

  /** A mask with a clear low bit selects bits of a shifted right by one. */
  lemma AndDouble(a: nat, m: nat)
    ensures BitAnd(a, 2 * m) == 2 * BitAnd(a / 2, m)
  {
    assert (2 * m) / 2 == m && (2 * m) % 2 == 0;
    AndUnfold(a, 2 * m);
  }

  /** Reference definition: the number of halvings that bring v down to 1. */
  function FloorLog2(v: nat): (r: nat)
    ensures v >= 1 ==> Pow2(r) <= v < Pow2(r + 1)
  {
    if v <= 1 then 0 else 1 + FloorLog2(v / 2)
  }

  /** The powers of two around v determine its logarithm. */
  lemma FloorLog2Unique(v: nat, r: nat)
    requires Pow2(r) <= v < Pow2(r + 1)
    ensures r == FloorLog2(v)
  {
    var f := FloorLog2(v);
    if r < f { if r + 1 < f { Pow2Monotone(r + 1, f); } }
    if f < r { if f + 1 < r { Pow2Monotone(f + 1, r); } }
  }

  lemma FloorLog2Monotone(v: nat, w: nat)
    requires 1 <= v <= w
    ensures FloorLog2(v) <= FloorLog2(w)
  {
    var f, g := FloorLog2(v), FloorLog2(w);
    if g < f { if g + 1 < f { Pow2Monotone(g + 1, f); } }
  }

  lemma {:induction false} ShrIsDiv(a: nat, k: nat)
    ensures Shr(a, k) == a / Pow2(k)
    decreases k
  {
    if k > 0 {
      ShrIsDiv(a / 2, k - 1);
      DivDiv(a, Pow2(k - 1));
    }
  }

  lemma {:induction false} ShrBound(v: nat, k: nat, m: nat)
    requires v < Pow2(k + m)
    ensures Shr(v, k) < Pow2(m)
    decreases k
  {
    if k > 0 { ShrBound(v / 2, k - 1, m); }
  }

  lemma {:induction false} ShlOne(k: nat)
    ensures Shl(1, k) == Pow2(k)
  {
    if k > 0 { ShlOne(k - 1); }
  }

  lemma {:induction false} ShlZero(k: nat)
    ensures Shl(0, k) == 0
  {
    if k > 0 { ShlZero(k - 1); }
  }

  /** Shifting out k bits that are not all of v lowers the logarithm by k. */
  lemma {:induction false} ShiftLog(v: nat, k: nat)
    requires Pow2(k) <= v
    ensures FloorLog2(Shr(v, k)) + k == FloorLog2(v)
    decreases k
  {
    if k > 0 { ShiftLog(v / 2, k - 1); }
  }

  lemma ShiftStage(v: nat, k: nat)
    requires v < Pow2(2 * k)
    ensures var shift := if v > Pow2(k) - 1 then k else 0;
            Shr(v, shift) < Pow2(k) && shift + FloorLog2(Shr(v, shift)) == FloorLog2(v)
  {
    if v > Pow2(k) - 1 {
      ShiftLog(v, k);
      ShrBound(v, k, k);
    }
  }

  lemma MultipleOfHalf(r: nat, p: nat)
    requires 0 < p && r % (2 * p) == 0
    ensures r % p == 0 && (r + p) % p == 0
  {
    var q := r / (2 * p);
    calc { r; q * (2 * p); (2 * q) * p; }
    DivModUnique(r, p, 2 * q, 0);
    DivModUnique(r + p, p, 2 * q + 1, 0);
  }

  lemma OrStage(r: nat, shift: nat, j: nat)
    requires r % Pow2(j + 1) == 0 && shift in {0, Pow2(j)}
    ensures BitOr(r, shift) == r + shift && (r + shift) % Pow2(j) == 0
  {
    OrDisjoint(r, shift, j + 1);
    MultipleOfHalf(r, Pow2(j));
  }

  /** One conditional shift of log2, on a value of 2k bits: r takes k or 0 bits off v. */
  lemma HalvingStage(v0: nat, v: nat, r: nat, k: nat, j: nat, shift: nat)
    requires k == Pow2(j) && v < Pow2(2 * k) && r % Pow2(j + 1) == 0
    requires r + FloorLog2(v) == FloorLog2(v0)
    requires shift == Shl(FromBool(v > Pow2(k) - 1), j)
    ensures Shr(v, shift) < Pow2(k)
    ensures BitOr(r, shift) % Pow2(j) == 0
    ensures BitOr(r, shift) + FloorLog2(Shr(v, shift)) == FloorLog2(v0)
  {
    ShlOne(j);
    ShlZero(j);
    ShiftStage(v, k);
    OrStage(r, shift, j);
  }

  lemma Powers()
    ensures Pow2(1) == 2 && Pow2(2) == 4 && Pow2(3) == 8 && Pow2(4) == 16 && Pow2(5) == 32
    ensures Pow2(8) == 0x100 && Pow2(12) == 0x1000 && Pow2(16) == 0x1_0000 && Pow2(20) == 0x10_0000
    ensures Pow2(32) == 0x1_0000_0000 && Pow2(64) == 0x1_0000_0000_0000_0000
  {
    assert Pow2(16) == 0x1_0000;
    PowerSum(16, 16, 0x1_0000, 0x1_0000);
    PowerSum(32, 32, 0x1_0000_0000, 0x1_0000_0000);
  }

  lemma PowerSum(a: nat, b: nat, p: nat, q: nat)
    requires p == Pow2(a) && q == Pow2(b)
    ensures Pow2(a + b) == p * q
  {
    Pow2Add(a, b);
  }

  /** The statement `shift = (v > limit) << j; v >>= shift; r |= shift` of log2. */
  method LogStage(ghost v0: nat, v: nat, r: nat, limit: nat, ghost k: nat, j: nat) returns (v': nat, r': nat)
    requires k == Pow2(j) && limit == Pow2(k) - 1
    requires v < Pow2(2 * k) && r % Pow2(j + 1) == 0 && r + FloorLog2(v) == FloorLog2(v0)
    ensures v' < Pow2(k) && r' % k == 0 && r' + FloorLog2(v') == FloorLog2(v0)
  {
    var shift := Shl(FromBool(v > limit), j);
    v' := Shr(v, shift);
    r' := BitOr(r, shift);
    HalvingStage(v0, v, r, k, j, shift);
  }

  /** log2 of bits.bpf.h: four conditional shifts and a last bit. */
  method Log2(v0: u32) returns (r: nat)
    ensures r == FloorLog2(v0)
  {
    Powers();
    var v: nat := v0;
    v, r := LogStage(v0, v, 0, 0xFFFF, 16, 4);
    v, r := LogStage(v0, v, r, 0xFF, 8, 3);
    v, r := LogStage(v0, v, r, 0xF, 4, 2);
    v, r := LogStage(v0, v, r, 0x3, 2, 1);
    LastBit(r, v);
    r := BitOr(r, Shr(v, 1));
  }

  lemma LastBit(r: nat, v: nat)
    requires r % 2 == 0 && v < 4
    ensures BitOr(r, Shr(v, 1)) == r + FloorLog2(v)
  {
    assert Shr(v, 1) == Shr(v / 2, 0) == v / 2;
    OrDisjoint(r, v / 2, 1);
  }

  lemma LowHalf(v: nat)
    ensures Shr(v, 32) == 0 <==> v < 0x1_0000_0000
  {
    Powers();
    ShrIsDiv(v, 32);
  }

  /** log2l: the high half decides which 32-bit logarithm is taken. */
  method Log2l(v: u64) returns (r: nat)
    ensures r == FloorLog2(v)
  {
    Powers();
    ShrBound(v, 32, 32);
    var hi: u32 := Shr(v, 32);
    LowHalf(v);
    if hi != 0 {
      r := Log2(hi);
      ShiftLog(v, 32);
      r := r + 32;
    } else {
      r := Log2(v);
    }
  }
}
