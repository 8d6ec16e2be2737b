/**
  The position of the first one or the first zero in a string, a word at a time.
 */
module BitPos {
  import opened Words
  import opened Options
  import opened BitString
  import opened Bitfield

  /** None of the first `n` bits of the zero-padded string is `bit`. */
  predicate Absent(s: seq<Byte>, bit: nat, n: nat) {
    n == 0 || (BitAt(s, n - 1) != bit && Absent(s, bit, n - 1))
  }

  /** Position `r` holds the first `bit` of the string. */
  predicate First(s: seq<Byte>, bit: nat, r: nat) {
    BitAt(s, r) == bit && Absent(s, bit, r)
  }

  /** There is only one first. */
  lemma {:induction false} FirstIsUnique(s: seq<Byte>, bit: nat, r: nat, q: nat)
    requires First(s, bit, r) && First(s, bit, q)
    ensures r == q
  {
    if r < q {
      AbsentBelow(s, bit, q, r);
    } else if q < r {
      AbsentBelow(s, bit, r, q);
    }
  }

  lemma {:induction false} AbsentBelow(s: seq<Byte>, bit: nat, n: nat, i: nat)
    requires Absent(s, bit, n) && i < n
    ensures BitAt(s, i) != bit
  {
    if i < n - 1 {
      AbsentBelow(s, bit, n - 1, i);
    }
  }

  // ---------- words of equal bytes ----------

  /** The word of `n` bytes from byte `p` on, the first the most significant. */
  function Big(s: seq<Byte>, p: nat, n: nat): nat
    decreases n, p
  {
    if n == 0 then 0 else 256 * Big(s, p, n - 1) + ByteAt(s, p + n - 1)
  }

  predicate AllBytes(s: seq<Byte>, p: nat, n: nat, v: Byte)
    decreases n, p
  {
    n == 0 || (ByteAt(s, p) == v && AllBytes(s, p + 1, n - 1, v))
  }

  lemma {:induction false} LittleIsConstant(s: seq<Byte>, p: nat, n: nat)
    ensures Little(s, p, n) == 0 <==> AllBytes(s, p, n, 0)
    ensures Little(s, p, n) == Pow2(8 * n) - 1 <==> AllBytes(s, p, n, 255)
    decreases n
  {
    if n > 0 {
      LittleIsConstant(s, p + 1, n - 1);
      LittleFits(s, p + 1, n - 1);
      EightMore(n - 1);
    }
  }

  lemma {:induction false} LastByte(s: seq<Byte>, p: nat, n: nat, v: Byte)
    requires n > 0
    ensures AllBytes(s, p, n, v) <==> AllBytes(s, p, n - 1, v) && ByteAt(s, p + n - 1) == v
    decreases n
  {
    if n > 1 {
      LastByte(s, p + 1, n - 1, v);
    }
  }

  lemma {:induction false} BigIsConstant(s: seq<Byte>, p: nat, n: nat)
    ensures Big(s, p, n) < Pow2(8 * n)
    ensures Big(s, p, n) == 0 <==> AllBytes(s, p, n, 0)
    ensures Big(s, p, n) == Pow2(8 * n) - 1 <==> AllBytes(s, p, n, 255)
    decreases n
  {
    if n > 0 {
      BigIsConstant(s, p, n - 1);
      EightMore(n - 1);
      LastByte(s, p, n, 0);
      LastByte(s, p, n, 255);
    }
  }

  lemma {:induction false} FieldSplits(s: seq<Byte>, offset: nat, a: nat, b: nat)
    ensures Field(s, offset, a + b) == Pow2(b) * Field(s, offset, a) + Field(s, offset + a, b)
    decreases b
  {
    if b > 0 {
      FieldSplits(s, offset, a, b - 1);
      TwiceProduct(Pow2(b - 1), Field(s, offset, a));
    }
  }

  /** The first `k` bits of byte `p` are its high bits. */
  lemma {:induction false} FieldOfByte(s: seq<Byte>, p: nat, k: nat)
    requires k <= 8
    ensures Field(s, 8 * p, k) == High(ByteAt(s, p), 8 - k)
    decreases k
  {
    if k > 0 {
      FieldOfByte(s, p, k - 1);
      var i := 8 * p + k - 1;
      assert i / 8 == p && i % 8 == k - 1;
      HighNext(ByteAt(s, p), 8 - k);
      BitOfZero(8 - k);
    } else {
      ByteSize();
      LowOfSmall(ByteAt(s, p), 8);
    }
  }

  /** The word loaded byte by byte is the field of its bits. */
  lemma FieldOfWholeByte(s: seq<Byte>, p: nat, k: nat)
    requires k == 8
    ensures Field(s, 8 * p, k) == ByteAt(s, p)
  {
    FieldOfByte(s, p, k);
  }

  lemma FieldGrowsByByte(s: seq<Byte>, p: nat, m: nat, k: nat)
    requires k == 8
    ensures Field(s, 8 * p, 8 * m + k) == 256 * Field(s, 8 * p, 8 * m) + ByteAt(s, p + m)
  {
    FieldSplits(s, 8 * p, 8 * m, k);
    FieldOfWholeByte(s, p + m, k);
    assert 8 * p + 8 * m == 8 * (p + m);
    ByteSize();
  }

  lemma {:induction false} BigIsField(s: seq<Byte>, p: nat, n: nat)
    ensures Big(s, p, n) == Field(s, 8 * p, 8 * n)
    decreases n
  {
    if n > 0 {
      BigIsField(s, p, n - 1);
      FieldGrowsByByte(s, p, n - 1, 8);
    }
  }

  // ---------- skipping ----------

  function SkipByte(bit: nat): Byte {
    if bit == 1 then 0 else 255
  }

  lemma {:induction false} BitsOfSkipByte(bit: nat, k: nat)
    requires bit < 2 && k < 8
    ensures BitOf(SkipByte(bit), k) != bit
  {
    BitOfZero(k);
    ByteSize();
    BitOfOnes(8, k);
  }

  lemma {:induction false} SkippedByte(s: seq<Byte>, bit: nat, p: nat, k: nat)
    requires bit < 2 && k <= 8 && p < |s| && s[p] == SkipByte(bit) && Absent(s, bit, 8 * p)
    ensures Absent(s, bit, 8 * p + k)
    decreases k
  {
    if k > 0 {
      SkippedByte(s, bit, p, k - 1);
      var i := 8 * p + k - 1;
      assert i / 8 == p && i % 8 == k - 1;
      BitsOfSkipByte(bit, 8 - k);
    }
  }

  lemma {:induction false} SkippedBytes(s: seq<Byte>, bit: nat, p: nat, n: nat)
    requires bit < 2 && p + n <= |s| && AllBytes(s, p, n, SkipByte(bit)) && Absent(s, bit, 8 * p)
    ensures Absent(s, bit, 8 * (p + n))
    decreases n
  {
    if n > 0 {
      SkippedByte(s, bit, p, 8);
      SkippedBytes(s, bit, p + 1, n - 1);
    }
  }

  // ---------- the word with the answer ----------

  function SkipWord(bit: nat): nat {
    if bit == 1 then 0 else TWO_64 - 1
  }

  /** None of the `k` high bits of a 64-bit word is `bit`. */
  predicate TopAbsent(word: nat, bit: nat, k: nat)
    requires k <= 64
  {
    k == 0 || (BitOf(word, 64 - k) != bit && TopAbsent(word, bit, k - 1))
  }

  lemma {:induction false} TopAbsentAt(word: nat, bit: nat, k: nat, i: nat)
    requires i < k <= 64 && TopAbsent(word, bit, k)
    ensures BitOf(word, 63 - i) != bit
    decreases k
  {
    if i < k - 1 {
      TopAbsentAt(word, bit, k - 1, i);
    }
  }

  /** A word without `bit` is the word that is skipped. */
  lemma WordWithout(word: nat, bit: nat)
    requires bit < 2 && word < TWO_64 && TopAbsent(word, bit, 64)
    ensures word == SkipWord(bit)
  {
    WordSize();
    forall k: nat | k < 64 ensures BitOf(word, k) == BitOf(SkipWord(bit), k) {
      TopAbsentAt(word, bit, 64, 63 - k);
      BitOfZero(k);
      BitOfOnes(64, k);
    }
    SameByte(word, SkipWord(bit), 64);
  }

  lemma BitsOfBig(s: seq<Byte>, p: nat, k: nat)
    requires k < 64
    ensures BitOf(Big(s, p, 8), 63 - k) == BitAt(s, 8 * p + k)
  {
    BigIsField(s, p, 8);
    BitOfField(s, 8 * p, 64, k);
  }

  /** The word at which skipping stopped is not one to skip, if the string goes on or a zero is sought. */
  lemma StoppedWord(s: seq<Byte>, bit: nat, p: nat)
    requires bit < 2 && (p + 8 <= |s| ==> Little(s, p, 8) != SkipWord(bit))
    ensures Big(s, p, 8) < TWO_64
    ensures p + 8 <= |s| || bit == 0 ==> Big(s, p, 8) != SkipWord(bit)
  {
    WordSize();
    LittleIsConstant(s, p, 8);
    BigIsConstant(s, p, 8);
    if p + 8 > |s| {
      LastByte(s, p, 8, 255);
    }
  }

  // ---------- redisBitpos ----------

  /** Skips whole bytes up to an aligned address, then whole words. */
  method Skip(s: seq<Byte>, address: nat, bit: nat) returns (c: nat)
    requires bit < 2
    ensures c <= |s| && Absent(s, bit, 8 * c)
    ensures c + 8 <= |s| ==> Little(s, c, 8) != SkipWord(bit)
  {
    c := 0;
    while (address + c) % 8 != 0 && c < |s|
      invariant c <= |s| && Absent(s, bit, 8 * c)
      decreases |s| - c
    {
      if s[c] != SkipByte(bit) {
        break;
      }
      SkippedByte(s, bit, c, 8);
      c := c + 1;
    }
    while |s| - c >= 8
      invariant c <= |s| && Absent(s, bit, 8 * c)
    {
      if Little(s, c, 8) != SkipWord(bit) {
        break;
      }
      WordSize();
      LittleIsConstant(s, c, 8);
      SkippedBytes(s, bit, c, 8);
      c := c + 8;
    }
  }

  lemma ShiftedByte(s: seq<Byte>, p: nat, j: nat)
    requires j < 8
    ensures Bitwise(Or, Unsigned64(256 * Big(s, p, j)), ByteAt(s, p + j)) == Big(s, p, j + 1)
  {
    BigIsConstant(s, p, j);
    EightMore(j);
    WordSize();
    Pow2Grows(8 * (j + 1), 64);
    ByteSize();
    assert Unsigned64(256 * Big(s, p, j)) == 256 * Big(s, p, j);
    OrLowBits(Big(s, p, j), ByteAt(s, p + j), 8);
  }

  /** Loads up to eight bytes, the first as the most significant, zeros after the last. */
  method Load(s: seq<Byte>, p: nat) returns (word: nat)
    ensures word == Big(s, p, 8)
  {
    word := 0;
    for j := 0 to 8
      invariant word == Big(s, p, j)
    {
      ShiftedByte(s, p, j);
      OrZero(Unsigned64(256 * word));
      word := Unsigned64(256 * word);
      if p + j < |s| {
        word := Bitwise(Or, word, s[p + j]);
      }
    }
  }

  /** The first bit of the word that is `bit`, from the most significant on; the loop never runs out of bits. */
  method Scan(word: nat, bit: nat) returns (k: nat)
    requires bit < 2 && word < TWO_64 && word != SkipWord(bit)
    ensures k < 64 && BitOf(word, 63 - k) == bit && TopAbsent(word, bit, k)
  {
    var one := TWO_64 - 1;
    one := one / 2;
    one := TWO_64 - 1 - one;
    WordSize();
    k := 0;
    while one != 0
      invariant k <= 64 && one == OneAt(k) && TopAbsent(word, bit, k)
      decreases 64 - k
    {
      OneMoves(k);
      MaskTestsBit(word, 63 - k);
      if (if Bitwise(And, word, one) != 0 then 1 else 0) == bit {
        return;
      }
      k := k + 1;
      one := one / 2;
    }
    WordWithout(word, bit);
    assert false;
  }

  /** The mask after `k` steps. */
  function OneAt(k: nat): nat {
    if k < 64 then Pow2(63 - k) else 0
  }

  lemma OneMoves(k: nat)
    ensures OneAt(k) / 2 == OneAt(k + 1)
  {
  }

  lemma {:induction false} FirstInWord(s: seq<Byte>, bit: nat, c: nat, k: nat)
    requires k <= 64 && Absent(s, bit, 8 * c) && TopAbsent(Big(s, c, 8), bit, k)
    ensures Absent(s, bit, 8 * c + k)
    decreases k
  {
    if k > 0 {
      FirstInWord(s, bit, c, k - 1);
      BitsOfBig(s, c, k - 1);
    }
  }

  /** Behind the last byte there are only zeros. */
  lemma {:induction false} AbsentBehind(s: seq<Byte>, n: nat)
    requires Absent(s, 1, 8 * |s|) && n >= 8 * |s|
    ensures Absent(s, 1, n)
    decreases n
  {
    if n > 8 * |s| {
      AbsentBehind(s, n - 1);
    }
  }

  /** A word of zeros at the end of the string: there is no one at all. */
  lemma NoOneLeft(s: seq<Byte>, c: nat)
    requires c <= |s| < c + 8 && Absent(s, 1, 8 * c) && Big(s, c, 8) == 0
    ensures Absent(s, 1, 8 * |s|)
  {
    ZeroWord(8 * (|s| - c));
    FirstInWord(s, 1, c, 8 * (|s| - c));
  }

  lemma {:induction false} ZeroWord(k: nat)
    requires k <= 64
    ensures TopAbsent(0, 1, k)
  {
    if k > 0 {
      ZeroWord(k - 1);
      BitOfZero(64 - k);
    }
  }

  lemma OneIsSeen(s: seq<Byte>, pos: nat)
    requires BitAt(s, pos) == 1
    ensures !Absent(s, 1, 8 * |s|)
  {
    if Absent(s, 1, 8 * |s|) {
      AbsentBehind(s, 8 * |s| + pos + 1);
      AbsentBelow(s, 1, 8 * |s| + pos + 1, pos);
    }
  }

  /**
    redisBitpos: the position of the first `bit` of the zero-padded string, wherever in memory the string starts; -1
    exactly if a one is sought and there is none.
   */
  method Bitpos(s: seq<Byte>, address: nat, bit: nat) returns (pos: int)
    requires bit < 2
    ensures pos == -1 <==> bit == 1 && Absent(s, 1, 8 * |s|)
    ensures pos != -1 ==> 0 <= pos && First(s, bit, pos)
  {
    var c := Skip(s, address, bit);
    var word := Load(s, c);
    StoppedWord(s, bit, c);
    if bit == 1 && word == 0 {
      NoOneLeft(s, c);
      return -1;
    }
    var k := Scan(word, bit);
    FirstInWord(s, bit, c, k);
    BitsOfBig(s, c, k);
    pos := 8 * c + k;
    if bit == 1 {
      OneIsSeen(s, pos);
    }
  }

  /** When a zero is sought in a string of ones, the answer is the first bit behind it. */
  lemma {:induction false} ZeroBehindOnes(s: seq<Byte>, r: nat)
    requires First(s, 0, r)
    ensures r <= 8 * |s|
    ensures r == 8 * |s| <==> Absent(s, 0, 8 * |s|)
  {
    if r > 8 * |s| {
      AbsentBelow(s, 0, r, 8 * |s|);
    }
    if Absent(s, 0, 8 * |s|) {
      FirstIsUnique(s, 0, r, 8 * |s|);
    }
  }

  // ---------- bitposCommand ----------

  /** None of the `n` bits from `from` on is `bit`. */
  predicate AbsentFrom(s: seq<Byte>, bit: nat, from: nat, n: nat) {
    n == 0 || (BitAt(s, from + n - 1) != bit && AbsentFrom(s, bit, from, n - 1))
  }

  lemma {:induction false} SliceAbsent(s: seq<Byte>, bit: nat, lo: nat, hi: nat, n: nat)
    requires lo <= hi <= |s| && n <= 8 * (hi - lo)
    ensures Absent(s[lo..hi], bit, n) <==> AbsentFrom(s, bit, 8 * lo, n)
    decreases n
  {
    if n > 0 {
      SliceAbsent(s, bit, lo, hi, n - 1);
      SliceBit(s, lo, hi, n - 1);
    }
  }

  /** What a search for `bit` in the bytes from `lo` to `hi` should give; zero-padded behind if `open`. */
  predicate IsAnswer(s: seq<Byte>, bit: nat, lo: nat, hi: int, open: bool, pos: int) {
    if lo > hi then pos == -1
    else if pos == -1 then !(open && bit == 0) && AbsentFrom(s, bit, 8 * lo, 8 * (hi + 1 - lo))
    else
      && 8 * lo <= pos && BitAt(s, pos) == bit && AbsentFrom(s, bit, 8 * lo, pos - 8 * lo)
      && (open || pos < 8 * (hi + 1))
  }

  lemma FoundInSlice(s: seq<Byte>, bit: nat, lo: nat, hi: nat, r: nat)
    requires bit < 2 && lo <= hi <= |s| && First(s[lo..hi], bit, r)
    ensures r <= 8 * (hi - lo) && AbsentFrom(s, bit, 8 * lo, r)
    ensures r < 8 * (hi - lo) ==> BitAt(s, 8 * lo + r) == bit
    ensures bit == 1 ==> r < 8 * (hi - lo)
  {
    var t := s[lo..hi];
    if bit == 0 {
      ZeroBehindOnes(t, r);
    }
    SliceAbsent(s, bit, lo, hi, r);
    if r < 8 * |t| {
      SliceBit(s, lo, hi, r);
    }
  }

  lemma NotInSlice(s: seq<Byte>, bit: nat, lo: nat, hi: nat, open: bool)
    requires lo <= hi < |s| && !(open && bit == 0) && Absent(s[lo..hi + 1], bit, 8 * (hi + 1 - lo))
    ensures IsAnswer(s, bit, lo, hi, open, -1)
  {
    SliceAbsent(s, bit, lo, hi + 1, 8 * (hi + 1 - lo));
  }

  lemma InSlice(s: seq<Byte>, bit: nat, lo: nat, hi: nat, open: bool, r: nat)
    requires bit < 2 && lo <= hi < |s| && First(s[lo..hi + 1], bit, r)
    requires r < 8 * (hi + 1 - lo) || (open && hi == |s| - 1)
    ensures IsAnswer(s, bit, lo, hi, open, r + lo * 8)
  {
    FoundInSlice(s, bit, lo, hi + 1, r);
  }

  /** What is found in the slice, and what that means for the range. */
  lemma SliceAnswers(s: seq<Byte>, bit: nat, lo: nat, hi: nat, open: bool, t: seq<Byte>, r: int)
    requires bit < 2 && lo <= hi < |s| && (open ==> hi == |s| - 1) && t == s[lo..hi + 1]
    requires (r == -1 <==> bit == 1 && Absent(t, 1, 8 * |t|)) && (r != -1 ==> 0 <= r && First(t, bit, r))
    ensures IsAnswer(s, bit, lo, hi, open,
                     if r == -1 || (!open && bit == 0 && r == 8 * (hi - lo + 1)) then -1 else r + lo * 8)
  {
    if r == -1 {
      NotInSlice(s, bit, lo, hi, open);
    } else {
      FoundInSlice(s, bit, lo, hi + 1, r);
      if !open && bit == 0 && r == 8 * (hi - lo + 1) {
        NotInSlice(s, bit, lo, hi, open);
      } else {
        InSlice(s, bit, lo, hi, open, r);
      }
    }
  }

  /** The search itself: an answer just behind an explicit range is none. */
  method SearchRange(s: seq<Byte>, address: nat, bit: nat, lo: nat, hi: nat, open: bool) returns (pos: int)
    requires bit < 2 && lo <= hi < |s| && (open ==> hi == |s| - 1)
    ensures IsAnswer(s, bit, lo, hi, open, pos)
  {
    var bytes := hi - lo + 1;
    pos := Bitpos(s[lo..hi + 1], address + lo, bit);
    SliceAnswers(s, bit, lo, hi, open, s[lo..hi + 1], pos);
    if pos == -1 {
      return;
    }
    if !open && bit == 0 && pos == bytes * 8 {
      return -1;
    }
    pos := pos + lo * 8;
  }

  /**
    bitposCommand: a missing key is an endless string of zeros; otherwise the first `bit` in the range of bytes, or -1.
    The string counts as zero-padded exactly if no end was given.
   */
  method BitposCommand(value: Option<seq<Byte>>, address: nat, bit: nat, start: Option<int>, end: Option<int>)
    returns (pos: int)
    requires bit < 2 && (end.Some? ==> start.Some?)
    ensures match value
            case None => pos == if bit == 1 then -1 else 0
            case Some(s) => IsAnswer(s, bit, RangeStart(start, |s|), RangeEnd(end, |s|), end.None?, pos)
  {
    if value.None? {
      return if bit == 1 then -1 else 0;
    }
    var s := value.value;
    var lo, hi := RangeStart(start, |s|), RangeEnd(end, |s|);
    if lo > hi {
      return -1;
    }
    pos := SearchRange(s, address, bit, lo, hi, end.None?);
  }

  /** The answer is unique: -1 exactly if the range, padded or not, does not hold the bit. */
  lemma AnswerIsUnique(s: seq<Byte>, bit: nat, lo: nat, hi: int, open: bool, p: int, q: int)
    requires IsAnswer(s, bit, lo, hi, open, p) && IsAnswer(s, bit, lo, hi, open, q)
    requires bit < 2 && hi < |s| && (open ==> hi == |s| - 1)
    ensures p == q
  {
    if lo <= hi && p != q {
      if p == -1 {
        AnswerIsSeen(s, bit, lo, hi, open, q);
      } else if q == -1 {
        AnswerIsSeen(s, bit, lo, hi, open, p);
      } else if p < q {
        AbsentFromBelow(s, bit, 8 * lo, q - 8 * lo, p - 8 * lo);
      } else {
        AbsentFromBelow(s, bit, 8 * lo, p - 8 * lo, q - 8 * lo);
      }
    }
  }

  lemma AnswerIsSeen(s: seq<Byte>, bit: nat, lo: nat, hi: nat, open: bool, p: int)
    requires lo <= hi < |s| && p != -1 && IsAnswer(s, bit, lo, hi, open, p) && (open ==> hi == |s| - 1 && bit == 1)
    ensures !AbsentFrom(s, bit, 8 * lo, 8 * (hi + 1 - lo))
  {
    if AbsentFrom(s, bit, 8 * lo, 8 * (hi + 1 - lo)) {
      AbsentFromBelow(s, bit, 8 * lo, 8 * (hi + 1 - lo), p - 8 * lo);
    }
  }

  lemma {:induction false} AbsentFromBelow(s: seq<Byte>, bit: nat, from: nat, n: nat, i: nat)
    requires AbsentFrom(s, bit, from, n) && i < n
    ensures BitAt(s, from + i) != bit
  {
    if i < n - 1 {
      AbsentFromBelow(s, bit, from, n - 1, i);
    }
  }
}
