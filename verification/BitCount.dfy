/**
  The population count of a string, 28 bytes at a time.

  A word is counted in place: first its pairs of bits, then its groups of four, then its bytes.  The masks and the
  sums are treated for words of any number of lanes; the program's are words of 32 bits.
 */
module BitCount {
  import opened Words
  import opened Options
  import opened BitString

  // ---------- the count, bit by bit ----------

  function Count(x: nat): nat {
    if x == 0 then 0 else x % 2 + Count(x / 2)
  }

  /** The ones among the first `n` bits of a string. */
  function Ones(s: seq<Byte>, n: nat): nat {
    if n == 0 then 0 else Ones(s, n - 1) + BitAt(s, n - 1)
  }

  function BytesCount(s: seq<Byte>, n: nat): nat
    requires n <= |s|
  {
    if n == 0 then 0 else BytesCount(s, n - 1) + Count(s[n - 1])
  }

  lemma {:induction false} CountByBits(x: nat, n: nat)
    requires x < Pow2(n)
    ensures Count(x) == BitSum(x, n)
    decreases n
  {
    if n > 0 {
      CountByBits(x / 2, n - 1);
      BitSumShifts(x, n);
    }
  }

  function BitSum(x: nat, n: nat): nat {
    if n == 0 then 0 else BitSum(x, n - 1) + BitOf(x, n - 1)
  }

  lemma {:induction false} BitSumShifts(x: nat, n: nat)
    requires n > 0
    ensures BitSum(x, n) == x % 2 + BitSum(x / 2, n - 1)
  {
    if n > 1 {
      BitSumShifts(x, n - 1);
    }
  }

  /** Counting the bits of the bytes is counting the bits of the string. */
  lemma {:induction false} BytesCountOnes(s: seq<Byte>, n: nat)
    requires n <= |s|
    ensures BytesCount(s, n) == Ones(s, 8 * n)
  {
    if n > 0 {
      BytesCountOnes(s, n - 1);
      OnesOfWholeByte(s, n - 1);
    }
  }

  lemma OnesOfWholeByte(s: seq<Byte>, j: nat)
    requires j < |s|
    ensures Ones(s, 8 * j + 8) == Ones(s, 8 * j) + Count(s[j])
  {
    OnesOfByte(s, j, 8);
    CountByBits(s[j], 8);
  }

  /** The first `k` bits of byte `j` are its high ones. */
  lemma {:induction false} OnesOfByte(s: seq<Byte>, j: nat, k: nat)
    requires j < |s| && k <= 8
    ensures Ones(s, 8 * j + k) == Ones(s, 8 * j) + BitSum(s[j], 8) - BitSum(s[j], 8 - k)
    decreases k
  {
    if k > 0 {
      OnesOfByte(s, j, k - 1);
      var i := 8 * j + k - 1;
      assert i / 8 == j && i % 8 == k - 1;
    }
  }

  // ---------- the table ----------

  const BITS_IN_BYTE: seq<seq<nat>> := [
    [0, 1, 1, 2, 1, 2, 2, 3, 1, 2, 2, 3, 2, 3, 3, 4],
    [1, 2, 2, 3, 2, 3, 3, 4, 2, 3, 3, 4, 3, 4, 4, 5],
    [1, 2, 2, 3, 2, 3, 3, 4, 2, 3, 3, 4, 3, 4, 4, 5],
    [2, 3, 3, 4, 3, 4, 4, 5, 3, 4, 4, 5, 4, 5, 5, 6],
    [1, 2, 2, 3, 2, 3, 3, 4, 2, 3, 3, 4, 3, 4, 4, 5],
    [2, 3, 3, 4, 3, 4, 4, 5, 3, 4, 4, 5, 4, 5, 5, 6],
    [2, 3, 3, 4, 3, 4, 4, 5, 3, 4, 4, 5, 4, 5, 5, 6],
    [3, 4, 4, 5, 4, 5, 5, 6, 4, 5, 5, 6, 5, 6, 6, 7],
    [1, 2, 2, 3, 2, 3, 3, 4, 2, 3, 3, 4, 3, 4, 4, 5],
    [2, 3, 3, 4, 3, 4, 4, 5, 3, 4, 4, 5, 4, 5, 5, 6],
    [2, 3, 3, 4, 3, 4, 4, 5, 3, 4, 4, 5, 4, 5, 5, 6],
    [3, 4, 4, 5, 4, 5, 5, 6, 4, 5, 5, 6, 5, 6, 6, 7],
    [2, 3, 3, 4, 3, 4, 4, 5, 3, 4, 4, 5, 4, 5, 5, 6],
    [3, 4, 4, 5, 4, 5, 5, 6, 4, 5, 5, 6, 5, 6, 6, 7],
    [3, 4, 4, 5, 4, 5, 5, 6, 4, 5, 5, 6, 5, 6, 6, 7],
    [4, 5, 5, 6, 5, 6, 6, 7, 5, 6, 6, 7, 6, 7, 7, 8]
  ]

  /** Sixteen consecutive entries of the table. */
  function RowFrom(c: nat): seq<nat> {
    [c, c + 1, c + 1, c + 2, c + 1, c + 2, c + 2, c + 3, c + 1, c + 2, c + 2, c + 3, c + 2, c + 3, c + 3, c + 4]
  }

  lemma TableRow(h: nat)
    requires h < 16
    ensures |BITS_IN_BYTE| == 16 && BITS_IN_BYTE[h] == RowFrom(RowFrom(0)[h])
  {
  }

  lemma CountNibble(l: nat)
    requires l < 16
    ensures Count(l) == RowFrom(0)[l]
  {
  }

  lemma CountSplitsOnce(low: nat, x: nat, c: nat)
    requires Count(low / 2 + x) == Count(low / 2) + c
    ensures Count(low + 2 * x) == Count(low) + c
  {
    CountHalves(low + 2 * x);
    CountHalves(low);
  }

  lemma {:induction false} CountShifted(low: nat, high: nat, k: nat)
    requires low < Pow2(k)
    ensures Count(low + Shifted(high, k)) == Count(low) + Count(high)
    decreases k
  {
    if k > 0 {
      HalfBelow(low, k);
      CountShifted(low / 2, high, k - 1);
      CountSplitsOnce(low, Shifted(high, k - 1), Count(high));
    }
  }

  /** The ones of a number are those of its low `k` bits and those above. */
  lemma CountSplits(low: nat, high: nat, k: nat)
    requires low < Pow2(k)
    ensures Count(low + Pow2(k) * high) == Count(low) + Count(high)
  {
    ShiftedIsProduct(high, k);
    CountShifted(low, high, k);
  }

  lemma CountHalves(x: nat)
    ensures Count(x) == x % 2 + Count(x / 2)
  {
  }

  lemma CountByNibbles(b: Byte)
    ensures Count(b) == Count(b / 16) + Count(b % 16)
  {
    var low, high := b % 16, b / 16;
    assert Pow2(4) == 16 && b == low + 16 * high;
    CountSplits(low, high, 4);
  }

  /** Every entry of the table is the number of ones of its index. */
  lemma TableCounts(b: Byte)
    ensures |BITS_IN_BYTE| == 16 && |BITS_IN_BYTE[b / 16]| == 16 && BITS_IN_BYTE[b / 16][b % 16] == Count(b)
  {
    TableRow(b / 16);
    CountNibble(b / 16);
    CountNibble(b % 16);
    CountByNibbles(b);
    RowShifts(RowFrom(0)[b / 16], b % 16);
  }

  lemma RowShifts(c: nat, l: nat)
    requires l < 16
    ensures RowFrom(c)[l] == c + RowFrom(0)[l]
  {
  }

  // ---------- counting in lanes ----------

  /** The number whose `n` base-4 digits count the pairs of bits of x; likewise for groups of four and for bytes. */
  function PairCounts(x: nat, n: nat): nat
    decreases n, x
  {
    if n == 0 then 0 else Count(x % 4) + 4 * PairCounts(x / 4, n - 1)
  }

  function NibbleCounts(x: nat, n: nat): nat
    decreases n, x
  {
    if n == 0 then 0 else Count(x % 16) + 16 * NibbleCounts(x / 16, n - 1)
  }

  function ByteCounts(x: nat, n: nat): nat
    decreases n, x
  {
    if n == 0 then 0 else Count(x % 256) + 256 * ByteCounts(x / 256, n - 1)
  }

  /** The mask with `value` in each of `n` lanes of `bits` bits. */
  function Lanes(value: nat, bits: nat, n: nat): nat {
    if n == 0 then 0 else value + Pow2(bits) * Lanes(value, bits, n - 1)
  }

  lemma {:induction false} CountFits(x: nat, n: nat)
    requires x < Pow2(n)
    ensures Count(x) <= n
    decreases n
  {
    if n > 0 {
      CountFits(x / 2, n - 1);
    }
  }

  lemma {:induction false} PairsCounted(x: nat, n: nat)
    requires x < Pow2(2 * n)
    ensures x - Bitwise(And, x / 2, Lanes(1, 2, n)) == PairCounts(x, n)
    decreases n
  {
    if n > 0 {
      var d, y, mask := x % 4, x / 4, Lanes(1, 2, n - 1);
      Pow2Sum(2, 2 * (n - 1));
      ByteOfMask();
      assert Lanes(1, 2, n) == 1 + 4 * mask;
      assert x == d + 4 * y;
      PairsCounted(y, n - 1);
      PairLane(d, y, mask);
    } else {
      AndZero(x / 2);
    }
  }

  lemma PairLane(d: nat, y: nat, mask: nat)
    requires d < 4
    ensures (d + 4 * y) - Bitwise(And, (d + 4 * y) / 2, 1 + 4 * mask) == Count(d) + 4 * (y - Bitwise(And, y / 2, mask))
  {
    assert (d + 4 * y) / 2 == d / 2 + 2 * y;
    PairAnd(d / 2, y, mask);
    CountOfPair(d);
  }

  lemma PairAnd(h: nat, y: nat, mask: nat)
    requires h < 2
    ensures Bitwise(And, h + 2 * y, 1 + 4 * mask) == h + 4 * Bitwise(And, y / 2, mask)
  {
    BitwiseParts(And, h + 2 * y, 1 + 4 * mask);
    BitwiseParts(And, y, 2 * mask);
  }

  lemma CountOfPair(d: nat)
    requires d < 4
    ensures Count(d) == d - d / 2
  {
  }

  lemma PairsOfNibble(x: nat, n: nat)
    requires n > 0
    ensures PairCounts(x, 2 * n) == Count(x % 4) + 4 * Count(x / 4 % 4) + 16 * PairCounts(x / 16, 2 * (n - 1))
  {
    assert x / 4 / 4 == x / 16;
    assert PairCounts(x / 4, 2 * n - 1) == Count(x / 4 % 4) + 4 * PairCounts(x / 4 / 4, 2 * (n - 1));
  }

  lemma CountOfNibble(x: nat)
    ensures Count(x % 16) == Count(x % 4) + Count(x / 4 % 4) && Count(x % 4) <= 2 && Count(x / 4 % 4) <= 2
  {
    ByteOfMask();
    assert x % 16 == x % 4 + 4 * (x / 4 % 4);
    CountSplits(x % 4, x / 4 % 4, 2);
    CountFits(x % 4, 2);
    CountFits(x / 4 % 4, 2);
  }

  lemma NibbleStep(x: nat, n: nat, mask: nat)
    requires n > 0
    ensures var p, r := PairCounts(x, 2 * n), PairCounts(x / 16, 2 * (n - 1));
            Bitwise(And, p, 3 + 16 * mask) + Bitwise(And, p / 4, 3 + 16 * mask)
            == Count(x % 16) + 16 * (Bitwise(And, r, mask) + Bitwise(And, r / 4, mask))
  {
    PairsOfNibble(x, n);
    CountOfNibble(x);
    NibbleLane(Count(x % 4), Count(x / 4 % 4), PairCounts(x / 16, 2 * (n - 1)), mask);
  }

  lemma {:induction false} NibblesCounted(x: nat, n: nat, p: nat)
    requires p == PairCounts(x, 2 * n)
    ensures Bitwise(And, p, Lanes(3, 4, n)) + Bitwise(And, p / 4, Lanes(3, 4, n)) == NibbleCounts(x, n)
    decreases n
  {
    if n > 0 {
      NibblesCounted(x / 16, n - 1, PairCounts(x / 16, 2 * (n - 1)));
      NibbleStep(x, n, Lanes(3, 4, n - 1));
      ByteOfMask();
      assert Lanes(3, 4, n) == 3 + 16 * Lanes(3, 4, n - 1);
    }
  }

  lemma NibbleLane(c: nat, d: nat, p: nat, mask: nat)
    requires c < 4 && d < 4
    ensures Bitwise(And, c + 4 * d + 16 * p, 3 + 16 * mask) == c + 16 * Bitwise(And, p, mask)
    ensures Bitwise(And, (c + 4 * d + 16 * p) / 4, 3 + 16 * mask) == d + 16 * Bitwise(And, p / 4, mask)
  {
    OneNibble(c, d, p, mask);
    assert (c + 4 * d + 16 * p) / 4 == d + 4 * (p % 4) + 16 * (p / 4);
    OneNibble(d, p % 4, p / 4, mask);
  }

  lemma OneNibble(c: nat, d: nat, p: nat, mask: nat)
    requires c < 4 && d < 4
    ensures Bitwise(And, c + 4 * d + 16 * p, 3 + 16 * mask) == c + 16 * Bitwise(And, p, mask)
  {
    ByteOfMask();
    BitwiseSplits(And, c + 4 * d, p, 3, mask, 4);
    LowPairOf(c, d);
  }

  lemma LowPairOf(c: nat, d: nat)
    requires c < 4
    ensures Bitwise(And, c + 4 * d, 3) == c
  {
    assert Pow2(2) == 4;
    MaskKeepsLow(c + 4 * d, 2);
    LowIsRemainder(c + 4 * d, 2);
  }

  lemma NibblesOfByte(x: nat, n: nat)
    requires n > 0
    ensures NibbleCounts(x, 2 * n) == Count(x % 16) + 16 * Count(x / 16 % 16) + 256 * NibbleCounts(x / 256, 2 * (n - 1))
  {
    assert x / 16 / 16 == x / 256;
    assert NibbleCounts(x / 16, 2 * n - 1) == Count(x / 16 % 16) + 16 * NibbleCounts(x / 16 / 16, 2 * (n - 1));
  }

  lemma CountOfByte(x: nat)
    ensures Count(x % 256) == Count(x % 16) + Count(x / 16 % 16) && Count(x % 16) <= 4 && Count(x / 16 % 16) <= 4
  {
    ByteOfMask();
    ByteOfNibbles(x);
    CountSplits(x % 16, x / 16 % 16, 4);
    NibbleFits(x);
    NibbleFits(x / 16);
  }

  lemma ByteOfNibbles(x: nat)
    ensures x % 256 == x % 16 + 16 * (x / 16 % 16)
  {
  }

  lemma ByteStep(x: nat, n: nat, mask: nat)
    requires n > 0
    ensures var q, r := NibbleCounts(x, 2 * n), NibbleCounts(x / 256, 2 * (n - 1));
            Bitwise(And, q + q / 16, 15 + 256 * mask) == Count(x % 256) + 256 * Bitwise(And, r + r / 16, mask)
  {
    NibblesOfByte(x, n);
    CountOfByte(x);
    LowNibbleCount(x / 256, 2 * (n - 1));
    ByteLane(Count(x % 16), Count(x / 16 % 16), NibbleCounts(x / 256, 2 * (n - 1)), mask);
  }

  lemma {:induction false} BytesCounted(x: nat, n: nat, q: nat)
    requires q == NibbleCounts(x, 2 * n)
    ensures Bitwise(And, q + q / 16, Lanes(15, 8, n)) == ByteCounts(x, n)
    decreases n
  {
    if n > 0 {
      BytesCounted(x / 256, n - 1, NibbleCounts(x / 256, 2 * (n - 1)));
      ByteStep(x, n, Lanes(15, 8, n - 1));
      LanesOfByte(n);
    }
  }

  lemma LanesOfByte(n: nat)
    requires n > 0
    ensures Lanes(15, 8, n) == 15 + 256 * Lanes(15, 8, n - 1)
  {
    ByteOfMask();
  }

  lemma LowNibbleCount(y: nat, n: nat)
    ensures NibbleCounts(y, n) % 16 <= 4
  {
    if n > 0 {
      var c, rest := Count(y % 16), NibbleCounts(y / 16, n - 1);
      CountOfByte(y);
      Remainder(c + 16 * rest, 16, rest, c);
    }
  }

  /** No carry leaves a byte: the sums in its halves are at most eight. */
  lemma ByteLane(c: nat, d: nat, q: nat, mask: nat)
    requires c <= 4 && d <= 4 && q % 16 <= 4
    ensures Bitwise(And, (c + 16 * d + 256 * q) + (c + 16 * d + 256 * q) / 16, 15 + 256 * mask)
            == c + d + 256 * Bitwise(And, q + q / 16, mask)
  {
    SumOfHalves(c, d, q);
    OneByte(c + d, d + q % 16, q + q / 16, mask);
  }

  lemma SumOfHalves(c: nat, d: nat, q: nat)
    requires c < 16 && d < 16
    ensures var z := c + 16 * d + 256 * q; z + z / 16 == (c + d) + 16 * (d + q % 16) + 256 * (q + q / 16)
  {
  }

  lemma OneByte(e: nat, f: nat, q: nat, mask: nat)
    requires e < 16 && f < 16
    ensures Bitwise(And, e + 16 * f + 256 * q, 15 + 256 * mask) == e + 256 * Bitwise(And, q, mask)
  {
    ByteOfMask();
    BitwiseSplits(And, e + 16 * f, q, 15, mask, 8);
    LowNibbleOf(e, f);
  }

  lemma LowNibbleOf(e: nat, f: nat)
    requires e < 16
    ensures Bitwise(And, e + 16 * f, 15) == e
  {
    var x := e + 16 * f;
    ByteOfMask();
    MaskKeepsLow(x, 4);
    LowIsRemainder(x, 4);
    Remainder(x, 16, f, e);
  }

  lemma ByteOfMask()
    ensures Pow2(2) == 4 && Pow2(4) == 16 && Pow2(8) == 256
  {
  }

  // ---------- words of 32 bits ----------

  const TWO_32: nat := 0x1_0000_0000

  /** The result of unsigned 32-bit arithmetic. */
  function Word32(v: int): (r: nat)
    ensures r < TWO_32
  {
    Around(v, 0, TWO_32)
  }

  lemma PairMask()
    ensures Lanes(1, 2, 16) == 0x55555555
  {
    ByteOfMask();
    assert Lanes(1, 2, 4) == 0x55;
    assert Lanes(1, 2, 8) == 0x5555;
    assert Lanes(1, 2, 12) == 0x555555;
  }

  lemma NibbleMask()
    ensures Lanes(3, 4, 8) == 0x33333333
  {
  }

  lemma ByteMask()
    ensures Lanes(15, 8, 4) == 0x0F0F0F0F
  {
  }

  lemma NibbleFits(x: nat)
    ensures Count(x % 16) <= 4
  {
    ByteOfMask();
    CountFits(x % 16, 4);
  }

  lemma OneMoreNibble(n: nat)
    requires n > 0
    ensures Pow2(4 * n) == 16 * Pow2(4 * (n - 1))
  {
    ByteOfMask();
    Pow2Sum(4, 4 * (n - 1));
  }

  lemma OneMoreFits(c: nat, r: nat, p: nat)
    requires c <= 4 && 15 * r <= 4 * (p - 1)
    ensures 15 * (c + 16 * r) <= 4 * (16 * p - 1)
  {
  }

  lemma {:induction false} NibbleCountsFit(x: nat, n: nat)
    ensures 15 * NibbleCounts(x, n) <= 4 * (Pow2(4 * n) - 1)
    decreases n
  {
    if n > 0 {
      NibbleCountsFit(x / 16, n - 1);
      NibbleFits(x);
      OneMoreNibble(n);
      OneMoreFits(Count(x % 16), NibbleCounts(x / 16, n - 1), Pow2(4 * (n - 1)));
    }
  }

  lemma FirstStep(word: nat, n: nat, mask: nat)
    requires word < TWO_32 && word < Pow2(2 * n) && mask == Lanes(1, 2, n)
    ensures Word32(word - Bitwise(And, word / 2, mask)) == PairCounts(word, n)
  {
    PairsCounted(word, n);
  }

  lemma SecondStep(word: nat, n: nat, p: nat, mask: nat)
    requires p == PairCounts(word, 2 * n) && mask == Lanes(3, 4, n) && NibbleCounts(word, n) < TWO_32
    ensures Word32(Bitwise(And, p, mask) + Bitwise(And, p / 4, mask)) == NibbleCounts(word, n)
  {
    NibblesCounted(word, n, p);
  }

  lemma ThirdStep(word: nat, n: nat, q: nat, mask: nat)
    requires q == NibbleCounts(word, 2 * n) && mask == Lanes(15, 8, n) && q + q / 16 < TWO_32
    ensures Bitwise(And, Word32(q + q / 16), mask) == ByteCounts(word, n)
  {
    BytesCounted(word, n, q);
  }

  lemma NibbleCountsInWord(word: nat)
    ensures var q := NibbleCounts(word, 8); q + q / 16 < TWO_32
  {
    HalfWordSize();
    NibbleCountsFit(word, 8);
  }

  lemma WordFits(word: nat)
    requires word < TWO_32
    ensures word < Pow2(32)
  {
    HalfWordSize();
  }

  method CountPairs(word: nat, mask: nat) returns (aux: nat)
    requires word < TWO_32 && mask == Lanes(1, 2, 16)
    ensures aux == PairCounts(word, 16)
  {
    WordFits(word);
    FirstStep(word, 16, mask);
    aux := Word32(word - Bitwise(And, word / 2, mask));
  }

  method CountNibbles(ghost word: nat, pairs: nat, mask: nat) returns (aux: nat)
    requires pairs == PairCounts(word, 16) && mask == Lanes(3, 4, 8)
    ensures aux == NibbleCounts(word, 8)
  {
    NibbleCountsInWord(word);
    SecondStep(word, 8, pairs, mask);
    aux := Word32(Bitwise(And, pairs, mask) + Bitwise(And, pairs / 4, mask));
  }

  method CountBytes(ghost word: nat, nibbles: nat, mask: nat) returns (aux: nat)
    requires nibbles == NibbleCounts(word, 8) && mask == Lanes(15, 8, 4)
    ensures aux == ByteCounts(word, 4)
  {
    NibbleCountsInWord(word);
    ThirdStep(word, 4, nibbles, mask);
    aux := Bitwise(And, Word32(nibbles + nibbles / 16), mask);
  }

  /** The three steps that count the bytes of one word in place. */
  method CountInBytes(word: nat) returns (aux: nat)
    requires word < TWO_32
    ensures aux == ByteCounts(word, 4)
  {
    PairMask();
    NibbleMask();
    ByteMask();
    aux := CountPairs(word, 0x55555555);
    aux := CountNibbles(word, aux, 0x33333333);
    aux := CountBytes(word, aux, 0x0F0F0F0F);
  }

  // ---------- seven words at a time ----------

  function Join(low: nat, high: nat): nat {
    low + 256 * high
  }

  function Spread(c: nat, d: nat, e: nat, f: nat): nat {
    Join(c, Join(d, Join(e, f)))
  }

  lemma SpreadCounts(c: Byte, d: Byte, e: Byte, f: Byte)
    ensures ByteCounts(Spread(c, d, e, f), 4) == Spread(Count(c), Count(d), Count(e), Count(f))
  {
    LastCount(f, 1);
    OneCount(e, f, 2, Count(f));
    OneCount(d, Join(e, f), 3, Join(Count(e), Count(f)));
    OneCount(c, Join(d, Join(e, f)), 4, Join(Count(d), Join(Count(e), Count(f))));
  }

  lemma LastCount(f: Byte, n: nat)
    requires n == 1
    ensures ByteCounts(f, n) == Count(f)
  {
    assert f % 256 == f;
  }

  lemma LittleStep(s: seq<Byte>, p: nat, n: nat)
    requires n > 0 && p + n <= |s|
    ensures Little(s, p, n) == Join(s[p], Little(s, p + 1, n - 1)) && Little(s, p + n, 0) == 0
  {
  }

  lemma LittleIsSpread(s: seq<Byte>, p: nat)
    requires p + 4 <= |s|
    ensures Little(s, p, 4) == Spread(s[p], s[p + 1], s[p + 2], s[p + 3])
  {
    LittleStep(s, p, 4);
    LittleStep(s, p + 1, 3);
    LittleStep(s, p + 2, 2);
    LittleStep(s, p + 3, 1);
  }

  lemma LoadedCounts(s: seq<Byte>, p: nat)
    requires p + 4 <= |s|
    ensures ByteCounts(Little(s, p, 4), 4) == Spread(Count(s[p]), Count(s[p + 1]), Count(s[p + 2]), Count(s[p + 3]))
  {
    LittleIsSpread(s, p);
    SpreadCounts(s[p], s[p + 1], s[p + 2], s[p + 3]);
  }

  lemma OneCount(b: Byte, rest: nat, n: nat, counts: nat)
    requires n > 0 && counts == ByteCounts(rest, n - 1)
    ensures ByteCounts(Join(b, rest), n) == Join(Count(b), counts)
  {
    var x := Join(b, rest);
    assert x % 256 == b && x / 256 == rest;
  }

  /** Multiplying by 0x01010101 gathers the four bytes in the top one; seven counts of eight do not overflow it. */
  lemma Gathered(c: nat, d: nat, e: nat, f: nat)
    requires c <= 56 && d <= 56 && e <= 56 && f <= 56
    ensures Word32(Spread(c, d, e, f) * 0x0101_0101) / 0x100_0000 == c + d + e + f
  {
    var low := c + 256 * (c + d) + 65536 * (c + d + e);
    var r := low + 0x100_0000 * (c + d + e + f);
    var q := (d + e + f) + 256 * (e + f) + 65536 * f;
    assert Spread(c, d, e, f) * 0x0101_0101 == TWO_32 * q + r;
    Remainder(TWO_32 * q + r, TWO_32, q, r);
    Remainder(r, TWO_32, 0, r);
    AroundIs(TWO_32 * q + r, 0, TWO_32, r);
  }

  /** The sum of the counted words of `n` words from byte `p` on, and its four columns. */
  function WordsSum(s: seq<Byte>, p: nat, n: nat): nat
    requires p + 4 * n <= |s|
  {
    if n == 0 then 0 else WordsSum(s, p, n - 1) + ByteCounts(Little(s, p + 4 * (n - 1), 4), 4)
  }

  function ColumnSum(s: seq<Byte>, p: nat, n: nat): nat
    requires n > 0 ==> p + 4 * (n - 1) < |s|
  {
    if n == 0 then 0 else ColumnSum(s, p, n - 1) + Count(s[p + 4 * (n - 1)])
  }

  lemma {:induction false} ColumnFits(s: seq<Byte>, p: nat, n: nat)
    requires n > 0 ==> p + 4 * (n - 1) < |s|
    ensures ColumnSum(s, p, n) <= 8 * n
  {
    if n > 0 {
      ColumnFits(s, p, n - 1);
      ByteOfMask();
      CountFits(s[p + 4 * (n - 1)], 8);
    }
  }

  lemma {:induction false} ColumnsSum(s: seq<Byte>, p: nat, n: nat)
    requires p + 4 * n <= |s|
    ensures WordsSum(s, p, n)
            == Spread(ColumnSum(s, p, n), ColumnSum(s, p + 1, n), ColumnSum(s, p + 2, n), ColumnSum(s, p + 3, n))
  {
    if n > 0 {
      ColumnsSum(s, p, n - 1);
      LoadedCounts(s, p + 4 * (n - 1));
    }
  }

  lemma {:induction false} ColumnsCount(s: seq<Byte>, p: nat, n: nat)
    requires p + 4 * n <= |s|
    ensures BytesCount(s, p + 4 * n) == BytesCount(s, p) + ColumnSum(s, p, n) + ColumnSum(s, p + 1, n)
                                        + ColumnSum(s, p + 2, n) + ColumnSum(s, p + 3, n)
  {
    if n > 0 {
      ColumnsCount(s, p, n - 1);
      FourMore(s, p + 4 * (n - 1));
    }
  }

  lemma FourMore(s: seq<Byte>, p: nat)
    requires p + 4 <= |s|
    ensures BytesCount(s, p + 4) == BytesCount(s, p) + Count(s[p]) + Count(s[p + 1]) + Count(s[p + 2]) + Count(s[p + 3])
  {
    assert BytesCount(s, p + 2) == BytesCount(s, p) + Count(s[p]) + Count(s[p + 1]);
  }

  /** The top byte of the product, as the program computes it. */
  function Gather(sum: nat): nat {
    Word32(sum * 0x0101_0101) / 0x100_0000
  }

  /** The bound that the method rests on: seven words of bytes that count to eight, 7 * 4 * 8 = 224 < 256. */
  lemma GatheredColumns(sum: nat, c: nat, d: nat, e: nat, f: nat)
    requires sum == Spread(c, d, e, f) && c <= 56 && d <= 56 && e <= 56 && f <= 56
    ensures sum < TWO_32 && Gather(sum) == c + d + e + f
  {
    Gathered(c, d, e, f);
  }

  lemma SevenWords(s: seq<Byte>, p: nat, n: nat, sum: nat)
    requires n == 7 && p + 4 * n <= |s| && sum == WordsSum(s, p, n)
    ensures sum < TWO_32 && BytesCount(s, p) + Gather(sum) == BytesCount(s, p + 4 * n)
  {
    ColumnFits(s, p, n);
    ColumnFits(s, p + 1, n);
    ColumnFits(s, p + 2, n);
    ColumnFits(s, p + 3, n);
    ColumnsSum(s, p, n);
    ColumnsCount(s, p, n);
    GatheredColumns(sum, ColumnSum(s, p, n), ColumnSum(s, p + 1, n), ColumnSum(s, p + 2, n), ColumnSum(s, p + 3, n));
  }

  lemma AddWord(s: seq<Byte>, p: nat, n: nat)
    requires p + 4 * n + 4 <= |s|
    ensures WordsSum(s, p, n + 1) == WordsSum(s, p, n) + ByteCounts(Little(s, p + 4 * n, 4), 4)
  {
  }

  // ---------- redisPopcount ----------

  method CountSevenWords(s: seq<Byte>, p: nat) returns (bits: nat)
    requires p + 28 <= |s|
    ensures BytesCount(s, p) + bits == BytesCount(s, p + 28)
  {
    var sum := SumSevenWords(s, p);
    SevenWords(s, p, 7, sum);
    bits := Word32(Word32(sum) * 0x0101_0101) / 0x100_0000;
  }

  method CountWordAt(s: seq<Byte>, p: nat, n: nat, sum: nat) returns (more: nat)
    requires p + 4 * n + 4 <= |s| && sum == WordsSum(s, p, n)
    ensures more == WordsSum(s, p, n + 1)
  {
    HalfWordSize();
    LittleFits(s, p + 4 * n, 4);
    var aux := CountInBytes(Little(s, p + 4 * n, 4));
    AddWord(s, p, n);
    more := sum + aux;
  }

  method SumSevenWords(s: seq<Byte>, p: nat) returns (sum: nat)
    requires p + 28 <= |s|
    ensures sum == WordsSum(s, p, 7)
  {
    sum := CountWordAt(s, p, 0, 0);
    sum := CountWordAt(s, p, 1, sum);
    sum := CountWordAt(s, p, 2, sum);
    sum := CountWordAt(s, p, 3, sum);
    sum := CountWordAt(s, p, 4, sum);
    sum := CountWordAt(s, p, 5, sum);
    sum := CountWordAt(s, p, 6, sum);
  }

  /** One lookup in the table. */
  method InTable(b: Byte) returns (c: nat)
    ensures c == Count(b)
  {
    TableCounts(b);
    c := BITS_IN_BYTE[b / 16][b % 16];
  }

  method CountByTable(s: seq<Byte>, from: nat, to: nat, bits0: nat) returns (bits: nat)
    requires from <= to <= |s| && bits0 == BytesCount(s, from)
    ensures bits == BytesCount(s, to)
  {
    bits := bits0;
    for p := from to to
      invariant bits == BytesCount(s, p)
    {
      var c := InTable(s[p]);
      bits := bits + c;
    }
  }

  /** redisPopcount counts the ones of the string, wherever in memory it starts and however long it is. */
  method Popcount(s: seq<Byte>, address: nat) returns (bits: nat)
    ensures bits == Ones(s, 8 * |s|)
  {
    var p := 0;
    bits := 0;
    while (address + p) % 4 != 0 && p < |s|
      invariant p <= |s| && bits == BytesCount(s, p)
      decreases |s| - p
    {
      var c := InTable(s[p]);
      bits := bits + c;
      p := p + 1;
    }
    while |s| - p >= 28
      invariant p <= |s| && bits == BytesCount(s, p)
    {
      var more := CountSevenWords(s, p);
      bits := bits + more;
      p := p + 28;
    }
    bits := CountByTable(s, p, |s|, bits);
    BytesCountOnes(s, |s|);
  }

  // ---------- bitcountCommand ----------

  /** The ones among the `n` bits from `from` on. */
  function OnesFrom(s: seq<Byte>, from: nat, n: nat): nat {
    if n == 0 then 0 else OnesFrom(s, from, n - 1) + BitAt(s, from + n - 1)
  }

  lemma {:induction false} OnesOfSlice(s: seq<Byte>, lo: nat, hi: nat, n: nat)
    requires lo <= hi <= |s| && n <= 8 * (hi - lo)
    ensures Ones(s[lo..hi], n) == OnesFrom(s, 8 * lo, n)
    decreases n
  {
    if n > 0 {
      OnesOfSlice(s, lo, hi, n - 1);
      SliceBit(s, lo, hi, n - 1);
    }
  }

  /** bitcountCommand: the ones in the range of bytes; none for a missing key or negative indices out of order. */
  method BitcountCommand(value: Option<seq<Byte>>, address: nat, start: Option<int>, end: Option<int>)
    returns (bits: nat)
    requires start.Some? <==> end.Some?
    ensures match value
            case None => bits == 0
            case Some(s) =>
              var lo, hi := RangeStart(start, |s|), RangeEnd(end, |s|);
              var crossed := start.Some? && end.Some? && end.value < start.value < 0;
              bits == if crossed || lo > hi then 0 else OnesFrom(s, 8 * lo, 8 * (hi + 1 - lo))
  {
    if value.None? {
      return 0;
    }
    var s := value.value;
    if start.Some? && end.Some? && end.value < start.value < 0 {
      return 0;
    }
    var lo, hi := RangeStart(start, |s|), RangeEnd(end, |s|);
    if lo > hi {
      return 0;
    }
    bits := Popcount(s[lo..hi + 1], address + lo);
    OnesOfSlice(s, lo, hi + 1, 8 * (hi + 1 - lo));
  }
}
