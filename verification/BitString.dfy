/**
  Strings of bytes as strings of bits: bit 0 is the most significant bit of the first byte.
 */
module BitString {
  import opened Words
  import opened Options

  /** Bit `k` of a byte, 0 being the most significant. */
  function Bit(b: Byte, k: nat): (r: nat)
    requires k < 8
    ensures r < 2
  {
    BitOf(b, 7 - k)
  }

  /** Bit `i` of the string; the string is zero-padded on the right. */
  function BitAt(s: seq<Byte>, i: nat): (r: nat)
    ensures r < 2
  {
    if i / 8 < |s| then Bit(s[i / 8], i % 8) else 0
  }

  lemma {:induction false} SameByte(b: nat, c: nat, n: nat)
    requires b < Pow2(n) && c < Pow2(n)
    requires forall k: nat | k < n :: BitOf(b, k) == BitOf(c, k)
    ensures b == c
    decreases n
  {
    if n > 0 {
      assert BitOf(b, 0) == BitOf(c, 0);
      forall k: nat | k < n - 1 ensures BitOf(b / 2, k) == BitOf(c / 2, k) {
        assert BitOf(b, k + 1) == BitOf(c, k + 1);
      }
      SameByte(b / 2, c / 2, n - 1);
    }
  }

  /** The bits of a string determine its bytes. */
  lemma SameBits(s: seq<Byte>, t: seq<Byte>)
    requires |s| == |t| && forall i: nat | i < 8 * |s| :: BitAt(s, i) == BitAt(t, i)
    ensures s == t
  {
    forall j | 0 <= j < |s| ensures s[j] == t[j] {
      forall k: nat | k < 8 ensures BitOf(s[j], k) == BitOf(t[j], k) {
        assert BitAt(s, 8 * j + 7 - k) == BitAt(t, 8 * j + 7 - k);
      }
      SameByte(s[j], t[j], 8);
    }
  }

  // ---------- bytes and words ----------

  /** Byte `i` of the zero-padded string. */
  function ByteAt(s: seq<Byte>, i: nat): Byte {
    if i < |s| then s[i] else 0
  }

  /** The word in the `n` bytes from `p` on, in the order of memory of a little-endian machine. */
  function Little(s: seq<Byte>, p: nat, n: nat): nat
    decreases n, p
  {
    if n == 0 then 0 else (ByteAt(s, p) as nat) + 256 * Little(s, p + 1, n - 1)
  }

  lemma EightMore(n: nat)
    ensures Pow2(8 * (n + 1)) == 256 * Pow2(8 * n)
  {
    ByteSize();
    Pow2Sum(8, 8 * n);
  }

  lemma {:induction false} LittleFits(s: seq<Byte>, p: nat, n: nat)
    ensures Little(s, p, n) < Pow2(8 * n)
    decreases n
  {
    if n > 0 {
      LittleFits(s, p + 1, n - 1);
      EightMore(n - 1);
    }
  }

  // ---------- ranges of bytes ----------

  /** The first byte of a range, and the last, of a string of `length` bytes: negative indices count from its end. */
  function RangeStart(start: Option<int>, length: nat): nat {
    if start.None? then 0
    else if start.value >= 0 then start.value
    else if length + start.value < 0 then 0
    else length + start.value
  }

  function RangeEnd(end: Option<int>, length: nat): int {
    if end.None? || end.value >= length then length - 1
    else if end.value >= 0 then end.value
    else if length == 0 then -1
    else if length + end.value < 0 then 0
    else length + end.value
  }

  /** An index counts from the end if it is negative; the start is at least 0, the end also at most the last byte. */
  lemma RangeIs(start: Option<int>, end: Option<int>, length: nat)
    ensures var i := if start.None? then 0 else if start.value < 0 then start.value + length else start.value;
      var j := if end.None? then length - 1 else if end.value < 0 then end.value + length else end.value;
      var positive := if j < 0 then 0 else j;
      && RangeStart(start, length) == (if i < 0 then 0 else i)
      && RangeEnd(end, length) == if end.None? || positive > length - 1 then length - 1 else positive
  {
  }

  lemma SliceBit(s: seq<Byte>, lo: nat, hi: nat, i: nat)
    requires lo <= hi <= |s| && i < 8 * (hi - lo)
    ensures BitAt(s[lo..hi], i) == BitAt(s, 8 * lo + i)
  {
    assert (8 * lo + i) / 8 == lo + i / 8 && (8 * lo + i) % 8 == i % 8;
  }
}
