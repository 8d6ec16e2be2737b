/**
  The overflow checks of BITFIELD. All their arithmetic is done in 64-bit machine words; the claim is that they
  decide the question as it stands over the integers.
 */
module BitfieldOverflow {
  import opened Words
  import opened Bitfield

  datatype Policy = Wrap | Sat | Fail

  /** What a check returns, and the limit it leaves if it leaves one. */
  datatype Check = Fits | Limited(code: int, limit: int) | Refused(code: int)

  /** No overflow, or one on the side of `verdict`: then the policy picks the limit. */
  function Settle(verdict: int, min: int, max: int, policy: Policy, wrapped: int): Check {
    if verdict == 0 then Fits
    else
      match policy
      case Wrap => Limited(1, wrapped)
      case Sat => Limited(verdict, if verdict == 1 then max else min)
      case Fail => Refused(verdict)
  }

  // ---------- the program ----------

  /** The sign of the overflow that checkUnsignedBitfieldOverflow finds, if any. */
  function UnsignedVerdict(value: nat, incr: int, max: nat): int {
    var maxincr := Word64(max - value);
    var minincr := Word64(0 - value);
    if value > max || (incr > 0 && incr > maxincr) then 1
    else if incr < 0 && incr < minincr then -1
    else 0
  }

  function Max(bits: nat): nat
    requires bits > 0
  {
    Pow2(bits - 1) - 1
  }

  function Min(bits: nat): int
    requires bits > 0
  {
    -(Max(bits) as int) - 1
  }

  /** The sign of the overflow that checkSignedBitfieldOverflow finds; `whole` for a width of 64. */
  function SignedVerdict(value: int, incr: int, max: nat, whole: bool): int {
    var min := -(max as int) - 1;
    var maxincr := Word64(max - value);
    var minincr := Word64(min - value);
    if value > max || (!whole && incr > maxincr) || (value >= 0 && incr > 0 && incr > maxincr) then 1
    else if value < min || (!whole && incr < minincr) || (value < 0 && incr < 0 && incr < minincr) then -1
    else 0
  }

  // ---------- the question over the integers ----------

  /** What should become of the number `asked` in a field that holds the `size` numbers from `lo` on. */
  function Resolve(asked: int, lo: int, size: nat, policy: Policy): Check
    requires size > 0
  {
    if lo <= asked < lo + size then Fits
    else
      match policy
      case Wrap => Limited(1, Around(asked, lo, size))
      case Sat => if asked > lo then Limited(1, lo + size - 1) else Limited(-1, lo)
      case Fail => Refused(if asked > lo then 1 else -1)
  }

  // ---------- wrapping ----------

  lemma ResidueOfWord(s: int, bits: nat)
    requires bits <= 64
    ensures Unsigned64(s) % Pow2(bits) == s % Pow2(bits)
  {
    var m, n := Pow2(bits), Pow2(64 - bits);
    WordSize();
    Pow2Sum(bits, 64 - bits);
    ResidueOfResidue(s, m, n);
  }

  lemma ResidueOfResidue(s: int, m: nat, n: nat)
    requires m > 0 && n > 0
    ensures m * n > 0 && (s % (m * n)) % m == s % m
  {
    var w := s % (m * n);
    var q := s / (m * n);
    assert s == (m * n) * q + w;
    assert (m * n) * q == m * (n * q);
    assert w == m * (w / m) + w % m;
    assert m * (n * q) + m * (w / m) == m * (n * q + w / m);
    Remainder(s, m, n * q + w / m, w % m);
  }

  lemma LowOfWord(s: int, bits: nat)
    requires bits <= 64
    ensures Low(Unsigned64(s), bits) == s % Pow2(bits)
  {
    LowIsRemainder(Unsigned64(s), bits);
    ResidueOfWord(s, bits);
  }

  lemma SumOfWords(value: int, incr: int)
    ensures Unsigned64(Unsigned64(value) + Unsigned64(incr)) == Unsigned64(value + incr)
  {
  }

  lemma LowSigned(c: nat, bits: nat)
    requires c < TWO_64 && 1 <= bits < 64
    ensures Bitwise(And, c, Pow2(bits - 1)) != 0 <==> Low(c, bits) >= Pow2(bits - 1)
    ensures Bitwise(Or, c, OnesFrom(bits)) == Low(c, bits) + TWO_64 - Pow2(bits)
    ensures Bitwise(And, c, TWO_64 - 1 - OnesFrom(bits)) == Low(c, bits) < Pow2(bits)
  {
    SignTested(c, bits);
    SignFilled(c, bits);
    MaskKeepsLow(c, bits);
    OnesFromBit(bits);
  }

  lemma SignTested(c: nat, bits: nat)
    requires bits >= 1
    ensures Bitwise(And, c, Pow2(bits - 1)) != 0 <==> Low(c, bits) >= Pow2(bits - 1)
  {
    MaskTestsBit(c, bits - 1);
    LowNext(c, bits - 1);
    LowHigh(c, bits - 1);
  }

  lemma SignFilled(c: nat, bits: nat)
    requires c < TWO_64 && 1 <= bits < 64
    ensures Bitwise(Or, c, OnesFrom(bits)) == Low(c, bits) + TWO_64 - Pow2(bits)
  {
    WordSize();
    OnesFromBit(bits);
    OrHighOnes(c, bits, 64, OnesFrom(bits));
  }

  lemma SignedOfLow(low: nat, h: nat, m: nat)
    requires low < m && m == 2 * h && m <= TWO_63
    ensures Signed64(low) == low && Signed64(low + TWO_64 - m) == low - m
  {
  }

  // ---------- the checks are exact ----------

  function Side(asked: int, lo: int, size: nat): int {
    if asked >= lo + size then 1 else if asked < lo then -1 else 0
  }

  lemma UnsignedVerdictIsSide(value: nat, incr: int, max: nat)
    requires max < TWO_63 && Int64(incr) && (value <= max || incr == 0)
    ensures UnsignedVerdict(value, incr, max) == Side(value + incr, 0, max + 1)
  {
  }

  lemma SignedVerdictIsSide(value: int, incr: int, max: nat, whole: bool)
    requires Int64(value) && Int64(incr) && if whole then max == TWO_63 - 1 else max < TWO_63 / 2
    requires -(max as int) - 1 <= value <= max || (incr == 0 && max - value < TWO_63)
    ensures SignedVerdict(value, incr, max, whole) == Side(value + incr, -(max as int) - 1, 2 * max + 2)
  {
  }

  lemma FarIsOver(value: int, max: nat)
    requires Int64(value) && max < TWO_63 / 2 && max - value >= TWO_63
    ensures SignedVerdict(value, 0, max, false) == 1
  {
    var far := max - value;
    assert Around(far - TWO_64, -(TWO_63 as int), TWO_64) == far - TWO_64;
  }

  lemma VerdictResolves(verdict: int, asked: int, lo: int, hi: int, size: nat, policy: Policy, wrapped: int)
    requires lo <= hi && size == hi - lo + 1 && verdict == Side(asked, lo, size)
    requires policy.Wrap? ==> wrapped == Around(asked, lo, size)
    ensures Settle(verdict, lo, hi, policy, wrapped) == Resolve(asked, lo, size, policy)
  {
  }

  lemma ResidueIsAround(x: int, size: nat)
    requires size > 0
    ensures x % size == Around(x, 0, size)
  {
    Remainder(x % size, size, 0, x % size);
    AroundIs(x, 0, size, x % size);
  }

  lemma UnsignedSize(bits: nat)
    requires 1 <= bits < 64
    ensures Pow2(bits) <= TWO_63
  {
    WordSize();
    Pow2Grows(bits, 63);
  }

  lemma SignedSize(bits: nat)
    requires 1 <= bits <= 64
    ensures Pow2(bits) == 2 * Max(bits) + 2 && Min(bits) == -(Max(bits) as int) - 1
    ensures if bits == 64 then Max(bits) == TWO_63 - 1 else Max(bits) < TWO_63 / 2
  {
    WordSize();
    if bits < 64 {
      Pow2Grows(bits - 1, 62);
    }
  }

  lemma ExtendedIsAround(x: int, bits: nat)
    requires 1 <= bits < 64
    ensures SignExtended(Low(Unsigned64(x), bits), bits) == Around(x, Min(bits), Pow2(bits))
  {
    var low := Low(Unsigned64(x), bits);
    LowHigh(Unsigned64(x), bits);
    LowOfWord(x, bits);
    SignExtendedFits(low, bits);
    AroundIs(x, Min(bits), Pow2(bits), SignExtended(low, bits));
  }

  lemma SignedSide(value: int, incr: int, bits: nat)
    requires Int64(value) && Int64(incr) && 1 <= bits <= 64
    requires Min(bits) <= value <= Max(bits) || (incr == 0 && Max(bits) - value < TWO_63)
    ensures SignedVerdict(value, incr, Max(bits), bits == 64) == Side(value + incr, Min(bits), Pow2(bits))
  {
    SignedSize(bits);
    SignedVerdictIsSide(value, incr, Max(bits), bits == 64);
  }

  lemma SignedResolves(asked: int, bits: nat, policy: Policy, verdict: int, wrapped: int)
    requires 1 <= bits && verdict == Side(asked, Min(bits), Pow2(bits))
    requires policy.Wrap? ==> wrapped == Around(asked, Min(bits), Pow2(bits))
    ensures Settle(verdict, Min(bits), Max(bits), policy, wrapped) == Resolve(asked, Min(bits), Pow2(bits), policy)
  {
  }

  // ---------- the checks, as the program makes them ----------

  /** handle_wrap of checkUnsignedBitfieldOverflow: the number congruent to the sum in the unsigned range. */
  method WrapUnsigned(value: nat, incr: int, bits: nat) returns (limit: nat)
    requires 1 <= bits < 64
    ensures limit == Around(value + incr, 0, Pow2(bits))
  {
    var mask := OnesFrom(bits);
    var res := Unsigned64(value + incr);
    OnesFromBit(bits);
    MaskKeepsLow(res, bits);
    LowOfWord(value + incr, bits);
    ResidueIsAround(value + incr, Pow2(bits));
    limit := Bitwise(And, res, TWO_64 - 1 - mask);
  }

  /**
    checkUnsignedBitfieldOverflow answers for the mathematical sum. Its callers pass an old value in range, or any
    word with no increment.
   */
  method CheckUnsigned(value: nat, incr: int, bits: nat, policy: Policy) returns (r: Check)
    requires value < TWO_64 && Int64(incr) && 1 <= bits < 64
    requires value < Pow2(bits) || incr == 0
    ensures r == Resolve(value + incr, 0, Pow2(bits), policy)
  {
    var max := Pow2(bits) - 1;
    var verdict, limit := UnsignedVerdict(value, incr, max), 0;
    if policy.Wrap? {
      limit := WrapUnsigned(value, incr, bits);
    }
    UnsignedSize(bits);
    UnsignedVerdictIsSide(value, incr, max);
    VerdictResolves(verdict, value + incr, 0, max, Pow2(bits), policy, limit);
    r := Settle(verdict, 0, max, policy, limit);
  }

  /** handle_wrap of checkSignedBitfieldOverflow: the number congruent to the sum in the signed range. */
  method WrapSigned(value: int, incr: int, bits: nat) returns (limit: int)
    requires 1 <= bits < 64
    ensures limit == Around(value + incr, Min(bits), Pow2(bits))
  {
    var mask, msb := OnesFrom(bits), Pow2(bits - 1);
    var c := Unsigned64(Unsigned64(value) + Unsigned64(incr));
    SumOfWords(value, incr);
    SignWraps(value + incr, bits, c);
    if Bitwise(And, c, msb) != 0 {
      c := Bitwise(Or, c, mask);
    } else {
      c := Bitwise(And, c, TWO_64 - 1 - mask);
    }
    limit := Signed64(c);
  }

  lemma SignWraps(x: int, bits: nat, c: nat)
    requires 1 <= bits < 64 && c == Unsigned64(x)
    ensures Around(x, Min(bits), Pow2(bits)) ==
      Signed64(if Bitwise(And, c, Pow2(bits - 1)) != 0 then Bitwise(Or, c, OnesFrom(bits))
               else Bitwise(And, c, TWO_64 - 1 - OnesFrom(bits)))
  {
    LowSigned(c, bits);
    LowIsSigned(Low(c, bits), bits);
    ExtendedIsAround(x, bits);
  }

  lemma LowIsSigned(low: nat, bits: nat)
    requires low < Pow2(bits) && 1 <= bits < 64
    ensures low < Pow2(bits - 1) ==> Signed64(low) == SignExtended(low, bits)
    ensures low >= Pow2(bits - 1) ==> Signed64(low + TWO_64 - Pow2(bits)) == SignExtended(low, bits)
  {
    UnsignedSize(bits);
    SignedOfLow(low, Pow2(bits - 1), Pow2(bits));
  }

  /** So far below the range that the distance up to the maximum leaves the signed word. */
  predicate FarBelow(value: int, bits: nat)
    requires bits > 0
  {
    value < Min(bits) && Max(bits) - value >= TWO_63
  }

  /**
    checkSignedBitfieldOverflow answers for the mathematical sum, except that a value far below the range, which only
    SET can pass, is answered as an overflow and not as an underflow. Its callers pass an old value in range, or any
    signed word with no increment; to wrap a field of 64 bits is undefined in C.
   */
  method CheckSigned(value: int, incr: int, bits: nat, policy: Policy) returns (r: Check)
    requires Int64(value) && Int64(incr) && 1 <= bits <= 64 && (policy.Wrap? ==> bits < 64)
    requires Min(bits) <= value <= Max(bits) || incr == 0
    ensures r == if FarBelow(value, bits) && policy.Sat? then Limited(1, Max(bits))
                 else if FarBelow(value, bits) && policy.Fail? then Refused(1)
                 else Resolve(value + incr, Min(bits), Pow2(bits), policy)
  {
    var verdict, limit := SignedVerdict(value, incr, Max(bits), bits == 64), 0;
    if policy.Wrap? {
      limit := WrapSigned(value, incr, bits);
    }
    r := Settle(verdict, Min(bits), Max(bits), policy, limit);
    if FarBelow(value, bits) {
      SignedSize(bits);
      FarIsOver(value, Max(bits));
    } else {
      SignedSide(value, incr, bits);
      SignedResolves(value + incr, bits, policy, verdict, limit);
    }
  }

  /** The signed check is right exactly when it wraps or the value is not far below the range. */
  lemma FarBelowIsMisjudged(value: int, bits: nat)
    requires Int64(value) && 1 <= bits < 64 && FarBelow(value, bits)
    ensures Resolve(value, Min(bits), Pow2(bits), Sat) == Limited(-1, Min(bits)) != Limited(1, Max(bits))
    ensures Resolve(value, Min(bits), Pow2(bits), Fail) == Refused(-1) != Refused(1)
  {
  }

  /** SET i8 to the least 64-bit number, saturating: it is far below, and gives 127 where it should give -128. */
  lemma LeastNumberIsFarBelow()
    ensures Int64(-9223372036854775808) && FarBelow(-9223372036854775808, 8)
    ensures Max(8) == 127 && Resolve(-9223372036854775808, Min(8), Pow2(8), Sat) == Limited(-1, -128)
  {
  }
}
