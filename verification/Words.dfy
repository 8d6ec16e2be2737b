/**
  Machine words as naturals: the bitwise operations of C, defined one bit at a time, and their laws.
 */
module Words {

  type Byte = b: nat | b < 256

  datatype Op = And | Or | Xor

  /** One column of a bitwise operation. */
  function Column(op: Op, a: nat, b: nat): nat {
    match op
    case And => if a == 1 && b == 1 then 1 else 0
    case Or => if a == 1 || b == 1 then 1 else 0
    case Xor => if a != b then 1 else 0
  }

  /** x & y, x | y or x ^ y. */
  function Bitwise(op: Op, x: nat, y: nat): nat
    decreases x + y
  {
    if x == 0 && y == 0 then 0
    else Column(op, x % 2, y % 2) + 2 * Bitwise(op, x / 2, y / 2)
  }

  lemma BitwiseParts(op: Op, x: nat, y: nat)
    ensures Bitwise(op, x, y) % 2 == Column(op, x % 2, y % 2) && Bitwise(op, x, y) / 2 == Bitwise(op, x / 2, y / 2)
  {
  }

  lemma {:induction false} BitwiseCommutes(op: Op, x: nat, y: nat)
    ensures Bitwise(op, x, y) == Bitwise(op, y, x)
    decreases x + y
  {
    if x + y > 0 {
      BitwiseCommutes(op, x / 2, y / 2);
    }
  }

  lemma {:induction false} BitwiseAssociates(op: Op, x: nat, y: nat, z: nat)
    ensures Bitwise(op, Bitwise(op, x, y), z) == Bitwise(op, x, Bitwise(op, y, z))
    decreases x + y + z
  {
    if x + y + z > 0 {
      BitwiseParts(op, x, y);
      BitwiseParts(op, y, z);
      BitwiseParts(op, Bitwise(op, x, y), z);
      BitwiseParts(op, x, Bitwise(op, y, z));
      BitwiseAssociates(op, x / 2, y / 2, z / 2);
    }
  }

  lemma {:induction false} XorZero(x: nat)
    ensures Bitwise(Xor, x, 0) == x
  {
    if x > 0 {
      XorZero(x / 2);
    }
  }

  /** (a ^ b) ^ (c ^ d) == (a ^ c) ^ (b ^ d) */
  lemma XorSwap(a: nat, b: nat, c: nat, d: nat)
    ensures Bitwise(Xor, Bitwise(Xor, a, b), Bitwise(Xor, c, d)) == Bitwise(Xor, Bitwise(Xor, a, c), Bitwise(Xor, b, d))
  {
    BitwiseAssociates(Xor, a, b, Bitwise(Xor, c, d));
    BitwiseAssociates(Xor, b, c, d);
    BitwiseCommutes(Xor, b, c);
    BitwiseAssociates(Xor, c, b, d);
    BitwiseAssociates(Xor, a, c, Bitwise(Xor, b, d));
  }

  function Pow2(k: nat): (r: nat)
    ensures r > 0
  {
    if k == 0 then 1 else 2 * Pow2(k - 1)
  }

  lemma ByteSize()
    ensures Pow2(8) == 256
  {
  }

  /** Operands of `k` bits have results of `k` bits. */
  lemma {:induction false} BitwiseBound(op: Op, x: nat, y: nat, k: nat)
    requires x < Pow2(k) && y < Pow2(k)
    ensures Bitwise(op, x, y) < Pow2(k)
    decreases k
  {
    if k > 0 {
      BitwiseBound(op, x / 2, y / 2, k - 1);
    }
  }

  /** The low `k` bits, and the bits above them. */
  function Low(x: nat, k: nat): nat {
    if k == 0 then 0 else x % 2 + 2 * Low(x / 2, k - 1)
  }

  function High(x: nat, k: nat): nat {
    if k == 0 then x else High(x / 2, k - 1)
  }

  lemma {:induction false} BitwiseLow(op: Op, x: nat, y: nat, k: nat)
    ensures Low(Bitwise(op, x, y), k) == Bitwise(op, Low(x, k), Low(y, k))
    decreases k
  {
    if k > 0 {
      var p, q := Low(x, k), Low(y, k);
      assert p % 2 == x % 2 && p / 2 == Low(x / 2, k - 1) && q % 2 == y % 2 && q / 2 == Low(y / 2, k - 1);
      BitwiseParts(op, x, y);
      BitwiseParts(op, p, q);
      BitwiseLow(op, x / 2, y / 2, k - 1);
    }
  }

  lemma {:induction false} BitwiseHigh(op: Op, x: nat, y: nat, k: nat)
    ensures High(Bitwise(op, x, y), k) == Bitwise(op, High(x, k), High(y, k))
    decreases k
  {
    if k > 0 {
      BitwiseParts(op, x, y);
      BitwiseHigh(op, x / 2, y / 2, k - 1);
    }
  }

  lemma TwiceProduct(p: int, h: int)
    ensures (2 * p) * h == 2 * (p * h)
  {
  }

  lemma {:induction false} LowHigh(x: nat, k: nat)
    ensures x == Low(x, k) + Pow2(k) * High(x, k)
    ensures Low(x, k) < Pow2(k)
    decreases k
  {
    if k > 0 {
      LowHigh(x / 2, k - 1);
      TwiceProduct(Pow2(k - 1), High(x, k));
    }
  }

  lemma {:induction false} LowOfSmall(x: nat, k: nat)
    requires x < Pow2(k)
    ensures Low(x, k) == x && High(x, k) == 0
    decreases k
  {
    if k > 0 {
      LowOfSmall(x / 2, k - 1);
    }
  }

  lemma {:induction false} HighNext(x: nat, k: nat)
    ensures High(x, k) / 2 == High(x, k + 1) && High(x / 2, k) == High(x, k + 1)
    decreases k
  {
    if k > 0 {
      HighNext(x / 2, k - 1);
    }
  }

  /** The top one of the low `k + 1` bits. */
  lemma {:induction false} LowNext(x: nat, k: nat)
    ensures Low(x, k + 1) == Low(x, k) + Pow2(k) * (High(x, k) % 2)
    decreases k
  {
    if k > 0 {
      TwiceProduct(Pow2(k - 1), High(x, k) % 2);
      LowNext(x / 2, k - 1);
    }
  }

  lemma MultiplesAreApart(m: int, d: int)
    requires m >= 0
    ensures d == 0 || m * d >= m || m * d <= -m
  {
  }

  lemma Remainder(x: int, m: nat, q: int, r: nat)
    requires x == m * q + r && r < m
    ensures x % m == r && x / m == q
  {
    assert m * (q - x / m) == m * q - m * (x / m);
    MultiplesAreApart(m, q - x / m);
  }

  lemma LowIsRemainder(x: nat, k: nat)
    ensures Low(x, k) == x % Pow2(k)
  {
    LowHigh(x, k);
    Remainder(x, Pow2(k), High(x, k), Low(x, k));
  }

  lemma {:induction false} Pow2Sum(j: nat, k: nat)
    ensures Pow2(j + k) == Pow2(j) * Pow2(k)
  {
    if j > 0 {
      Pow2Sum(j - 1, k);
    }
  }

  lemma {:induction false} AndZero(x: nat)
    ensures Bitwise(And, x, 0) == 0
  {
    if x > 0 {
      AndZero(x / 2);
    }
  }

  /** Testing a word against a one-bit mask. */
  lemma {:induction false} MaskTestsBit(x: nat, k: nat)
    ensures Bitwise(And, x, Pow2(k)) != 0 <==> High(x, k) % 2 == 1
    decreases k
  {
    if k > 0 {
      BitwiseParts(And, x, Pow2(k));
      MaskTestsBit(x / 2, k - 1);
    } else {
      BitwiseParts(And, x, 1);
      AndZero(x / 2);
    }
  }

  /** Masking with `k` ones keeps the low `k` bits. */
  lemma {:induction false} MaskKeepsLow(x: nat, k: nat)
    ensures Bitwise(And, x, Pow2(k) - 1) == Low(x, k)
    decreases k
  {
    if k > 0 {
      BitwiseParts(And, x, Pow2(k) - 1);
      MaskKeepsLow(x / 2, k - 1);
    } else {
      AndZero(x);
    }
  }

  lemma {:induction false} OrOnes(x: nat, k: nat)
    requires x < Pow2(k)
    ensures Bitwise(Or, x, Pow2(k) - 1) == Pow2(k) - 1
    decreases k
  {
    if k > 0 {
      BitwiseParts(Or, x, Pow2(k) - 1);
      OrOnes(x / 2, k - 1);
    }
  }

  lemma {:induction false} OrZero(x: nat)
    ensures Bitwise(Or, x, 0) == x
  {
    if x > 0 {
      OrZero(x / 2);
    }
  }

  /** Or with ones in bits `k` to `n - 1`: the low bits stay, the bits above are all set. */
  lemma {:induction false} OrHighOnes(x: nat, k: nat, n: nat, ones: nat)
    requires x < Pow2(n) && k <= n && ones == Pow2(n) - Pow2(k)
    ensures Bitwise(Or, x, ones) == Low(x, k) + ones
    decreases k
  {
    if k > 0 {
      BitwiseParts(Or, x, ones);
      OrHighOnes(x / 2, k - 1, n - 1, ones / 2);
    } else {
      OrOnes(x, n);
    }
  }

  /** Bit `k` of a word, 0 being the least significant. */
  function BitOf(x: nat, k: nat): (r: nat)
    ensures r < 2
  {
    High(x, k) % 2
  }

  lemma BitOfBitwise(op: Op, x: nat, y: nat, k: nat)
    ensures BitOf(Bitwise(op, x, y), k) == Column(op, BitOf(x, k), BitOf(y, k))
  {
    BitwiseHigh(op, x, y, k);
    BitwiseParts(op, High(x, k), High(y, k));
  }

  lemma {:induction false} BitOfPow2(m: nat, k: nat)
    ensures BitOf(Pow2(m), k) == if k == m then 1 else 0
    decreases k
  {
    if k > 0 {
      if m > 0 {
        BitOfPow2(m - 1, k - 1);
      } else {
        BitOfZero(k - 1);
      }
    }
  }

  lemma {:induction false} BitOfLow(x: nat, n: nat, k: nat)
    requires k < n
    ensures BitOf(Low(x, n), k) == BitOf(x, k)
    decreases k
  {
    if k > 0 {
      BitOfLow(x / 2, n - 1, k - 1);
    }
  }

  lemma BitOfShifted(v: nat, m: nat, k: nat)
    requires v < 2
    ensures BitOf(v * Pow2(m), k) == if k == m then v else 0
  {
    BitOfPow2(m, k);
    BitOfZero(k);
    assert v * Pow2(m) == if v == 1 then Pow2(m) else 0;
  }

  lemma {:induction false} BitOfZero(k: nat)
    ensures BitOf(0, k) == 0
  {
    if k > 0 {
      BitOfZero(k - 1);
    }
  }

  lemma {:induction false} BitOfOnes(n: nat, k: nat)
    requires k < n
    ensures BitOf(Pow2(n) - 1, k) == 1
    decreases k
  {
    var rest := Pow2(n - 1) - 1;
    assert Pow2(n) - 1 == 2 * rest + 1;
    if k > 0 {
      BitOfOnes(n - 1, k - 1);
    }
  }

  /** All of `n` ones but the one in bit `m`. */
  lemma {:induction false} BitOfOnesBut(n: nat, m: nat, k: nat, ones: int)
    requires m < n && k < n && ones == Pow2(n) - 1 - Pow2(m)
    ensures ones >= 0 && BitOf(ones, k) == if k == m then 0 else 1
    decreases k
  {
    Pow2Rises(m, n);
    if m == 0 {
      if k > 0 {
        BitOfOnes(n - 1, k - 1);
      }
    } else if k > 0 {
      BitOfOnesBut(n - 1, m - 1, k - 1, ones / 2);
    }
  }

  lemma {:induction false} Pow2Rises(m: nat, n: nat)
    requires m < n
    ensures 2 * Pow2(m) <= Pow2(n)
    decreases n
  {
    if m + 1 < n {
      Pow2Rises(m, n - 1);
    }
  }

  lemma {:induction false} OrLowBit(x: nat, b: nat)
    requires b < 2
    ensures Bitwise(Or, 2 * x, b) == 2 * x + b
  {
    BitwiseParts(Or, 2 * x, b);
    OrZero(x);
  }

  // ---------- one residue out of a range ----------

  /** `x` moved by whole multiples of `size` until it is one of the `size` numbers from `lo` on. */
  function Around(x: int, lo: int, size: nat): (r: int)
    requires size > 0
    ensures lo <= r < lo + size
    decreases if x < lo then lo - x + size else x - lo
  {
    if x < lo then Around(x + size, lo, size)
    else if x >= lo + size then Around(x - size, lo, size)
    else x
  }

  lemma {:induction false} AroundIsCongruent(x: int, lo: int, size: nat)
    requires size > 0
    ensures Around(x, lo, size) % size == x % size
    decreases if x < lo then lo - x + size else x - lo
  {
    if x < lo {
      AroundIsCongruent(x + size, lo, size);
      ResidueOfSum(x, size, 1);
    } else if x >= lo + size {
      AroundIsCongruent(x - size, lo, size);
      ResidueOfSum(x, size, -1);
    }
  }

  /** The one number of the range that is congruent to `x`. */
  lemma AroundIs(x: int, lo: int, size: nat, r: int)
    requires size > 0 && lo <= r < lo + size && r % size == x % size
    ensures r == Around(x, lo, size)
  {
    AroundIsCongruent(x, lo, size);
    SameResidue(r, Around(x, lo, size), size);
  }

  lemma ResidueOfSum(x: int, m: nat, k: int)
    requires m > 0
    ensures (m * k + x) % m == x % m
  {
    assert m * k + m * (x / m) == m * (k + x / m);
    Remainder(m * k + x, m, k + x / m, x % m);
  }

  lemma OrLowBits(x: nat, b: nat, k: nat)
    requires b < Pow2(k)
    ensures Bitwise(Or, Pow2(k) * x, b) == Pow2(k) * x + b
  {
    ShiftedIsProduct(x, k);
    OrShifted(x, b, k);
  }

  lemma {:induction false} NothingShifted(k: nat)
    ensures Shifted(0, k) == 0
    decreases k
  {
    if k > 0 {
      NothingShifted(k - 1);
    }
  }

  lemma OrShifted(x: nat, b: nat, k: nat)
    requires b < Pow2(k)
    ensures Bitwise(Or, Shifted(x, k), b) == Shifted(x, k) + b
  {
    OrZero(x);
    NothingShifted(k);
    ShiftedSplits(Or, 0, x, b, 0, x, k);
    BitwiseCommutes(Or, 0, b);
    OrZero(b);
  }

  // ---------- 64-bit words ----------

  const TWO_63: nat := 0x8000_0000_0000_0000
  const TWO_64: nat := 0x1_0000_0000_0000_0000

  /** The word that an integer is stored as, and the signed integer that a word stands for. */
  function Unsigned64(v: int): (r: nat)
    ensures r < TWO_64
  {
    v % TWO_64
  }

  function Signed64(u: int): int {
    if u >= TWO_63 then u - TWO_64 else u
  }

  /** The result of signed 64-bit arithmetic. */
  function Word64(v: int): int {
    Around(v, -(TWO_63 as int), TWO_64)
  }

  predicate Int64(v: int) {
    0 <= v + TWO_63 < TWO_64
  }

  /** All ones, shifted left `bits` times. */
  function OnesFrom(bits: nat): (r: nat)
    ensures r < TWO_64
  {
    if bits == 0 then TWO_64 - 1 else Unsigned64(2 * OnesFrom(bits - 1))
  }

  lemma WordSize()
    ensures Pow2(63) == TWO_63 && Pow2(64) == TWO_64
  {
    HalfWordSize();
    Pow2Sum(32, 32);
  }

  lemma HalfWordSize()
    ensures Pow2(32) == 0x1_0000_0000
  {
    ByteSize();
    Pow2Sum(8, 8);
    Pow2Sum(16, 16);
  }

  lemma {:induction false} SameResidue(a: int, b: int, m: nat)
    requires 0 < m && a % m == b % m && -1 < a - b + m - 1 && a - b < m
    ensures a == b
  {
    assert m * (a / m - b / m) == m * (a / m) - m * (b / m);
    MultiplesAreApart(m, a / m - b / m);
  }

  lemma Pow2Grows(m: nat, n: nat)
    requires m <= n
    ensures Pow2(m) <= Pow2(n)
  {
  }

  lemma {:induction false} OnesFromBit(bits: nat)
    requires bits <= 64
    ensures Pow2(bits) <= TWO_64 && OnesFrom(bits) == TWO_64 - Pow2(bits)
  {
    WordSize();
    Pow2Grows(bits, 64);
    if bits > 0 {
      OnesFromBit(bits - 1);
    }
  }

  lemma SplitOnce(op: Op, a: nat, b: nat, x: nat, y: nat, z: nat)
    requires Bitwise(op, a / 2 + x, b / 2 + y) == Bitwise(op, a / 2, b / 2) + z
    ensures Bitwise(op, a + 2 * x, b + 2 * y) == Bitwise(op, a, b) + 2 * z
  {
    EvenPart(a, x);
    EvenPart(b, y);
    BitwiseParts(op, a + 2 * x, b + 2 * y);
    BitwiseParts(op, a, b);
    FromParts(Bitwise(op, a + 2 * x, b + 2 * y), Bitwise(op, a, b), z);
  }

  lemma EvenPart(a: nat, x: nat)
    ensures (a + 2 * x) % 2 == a % 2 && (a + 2 * x) / 2 == a / 2 + x
  {
  }

  lemma FromParts(u: nat, w: nat, z: nat)
    requires u % 2 == w % 2 && u / 2 == w / 2 + z
    ensures u == w + 2 * z
  {
  }

  /** The number shifted left. */
  function Shifted(x: nat, k: nat): nat
    decreases k
  {
    if k == 0 then x else 2 * Shifted(x, k - 1)
  }

  lemma {:induction false} ShiftedIsProduct(x: nat, k: nat)
    ensures Shifted(x, k) == Pow2(k) * x
    decreases k
  {
    if k > 0 {
      ShiftedIsProduct(x, k - 1);
      TwiceProduct(Pow2(k - 1), x);
    }
  }

  lemma SplitNone(op: Op, x: nat, y: nat)
    ensures Bitwise(op, 0 + x, 0 + y) == Bitwise(op, 0, 0) + Bitwise(op, x, y)
  {
  }

  lemma HalfBelow(a: nat, k: nat)
    requires k > 0 && a < Pow2(k)
    ensures a / 2 < Pow2(k - 1)
  {
  }

  lemma {:induction false} ShiftedSplits(op: Op, a: nat, x: nat, b: nat, y: nat, z: nat, k: nat)
    requires a < Pow2(k) && b < Pow2(k) && z == Bitwise(op, x, y)
    ensures Bitwise(op, a + Shifted(x, k), b + Shifted(y, k)) == Bitwise(op, a, b) + Shifted(z, k)
    decreases k
  {
    if k > 0 {
      HalfBelow(a, k);
      HalfBelow(b, k);
      ShiftedSplits(op, a / 2, x, b / 2, y, z, k - 1);
      SplitOnce(op, a, b, Shifted(x, k - 1), Shifted(y, k - 1), Shifted(z, k - 1));
    } else {
      SplitNone(op, x, y);
    }
  }

  /** A bitwise operation acts on the low `k` bits and on the bits above them separately. */
  lemma BitwiseSplits(op: Op, a: nat, x: nat, b: nat, y: nat, k: nat)
    requires a < Pow2(k) && b < Pow2(k)
    ensures Bitwise(op, a + Pow2(k) * x, b + Pow2(k) * y) == Bitwise(op, a, b) + Pow2(k) * Bitwise(op, x, y)
  {
    ShiftedIsProduct(x, k);
    ShiftedIsProduct(y, k);
    ShiftedIsProduct(Bitwise(op, x, y), k);
    ProductSplits(op, a, x, b, y, Bitwise(op, x, y), k, Pow2(k) * x, Pow2(k) * y, Pow2(k) * Bitwise(op, x, y));
  }

  lemma ProductSplits(op: Op, a: nat, x: nat, b: nat, y: nat, z: nat, k: nat, px: nat, py: nat, pz: nat)
    requires a < Pow2(k) && b < Pow2(k) && z == Bitwise(op, x, y)
    requires px == Shifted(x, k) && py == Shifted(y, k) && pz == Shifted(z, k)
    ensures Bitwise(op, a + px, b + py) == Bitwise(op, a, b) + pz
  {
    ShiftedSplits(op, a, x, b, y, z, k);
  }
}
