/**
  Fields of arbitrary offset and width inside a string of bytes, as the BITFIELD command reads and writes them.
 */
module Bitfield {
  import opened Words
  import opened BitString

  // ---------- writing one bit ----------

  function WithBit(b: Byte, k: nat, v: nat): (r: Byte)
    requires k < 8 && v < 2
  {
    WithBitFits(b, k, v);
    Bitwise(Or, Bitwise(And, b, 255 - Pow2(7 - k)), v * Pow2(7 - k))
  }

  lemma WithBitFits(b: Byte, k: nat, v: nat)
    requires k < 8 && v < 2
    ensures Pow2(7 - k) < 256 && Bitwise(Or, Bitwise(And, b, 255 - Pow2(7 - k)), v * Pow2(7 - k)) < 256
  {
    Pow2Rises(7 - k, 8);
    BitwiseBound(And, b, 255 - Pow2(7 - k), 8);
    BitwiseBound(Or, Bitwise(And, b, 255 - Pow2(7 - k)), v * Pow2(7 - k), 8);
  }

  lemma WithBitReads(b: Byte, k: nat, v: nat, i: nat)
    requires k < 8 && i < 8 && v < 2
    ensures Bit(WithBit(b, k, v), i) == if i == k then v else Bit(b, i)
  {
    Replaced(b, 7 - k, 255 - Pow2(7 - k), v, 7 - i);
  }

  lemma Replaced(b: nat, m: nat, ones: int, v: nat, j: nat)
    requires m < 8 && j < 8 && v < 2 && ones == 255 - Pow2(m)
    ensures ones >= 0
    ensures BitOf(Bitwise(Or, Bitwise(And, b, ones), v * Pow2(m)), j) == if j == m then v else BitOf(b, j)
  {
    BitOfOnesBut(8, m, j, ones);
    BitOfBitwise(And, b, ones, j);
    BitOfShifted(v, m, j);
    BitOfBitwise(Or, Bitwise(And, b, ones), v * Pow2(m), j);
  }

  /** The number in `bits` bits from `offset` on, most significant bit first. */
  function Field(s: seq<Byte>, offset: nat, bits: nat): (r: nat)
    ensures r < Pow2(bits)
  {
    if bits == 0 then 0 else 2 * Field(s, offset, bits - 1) + BitAt(s, offset + bits - 1)
  }

  function PutBit(s: seq<Byte>, i: nat, v: nat): (r: seq<Byte>)
    requires i / 8 < |s| && v < 2
    ensures |r| == |s|
  {
    s[i / 8 := WithBit(s[i / 8], i % 8, v)]
  }

  /** The low `bits` bits of `value`, written from `offset` on. */
  function Store(s: seq<Byte>, offset: nat, bits: nat, value: nat): (r: seq<Byte>)
    requires offset + bits <= 8 * |s|
    ensures |r| == |s|
    decreases bits
  {
    if bits == 0 then s
    else Store(PutBit(s, offset, BitOf(value, bits - 1)), offset + 1, bits - 1, value)
  }

  // ---------- reading what was written, and the frame ----------

  lemma PutBitReads(s: seq<Byte>, i: nat, v: nat, k: nat)
    requires i / 8 < |s| && v < 2
    ensures BitAt(PutBit(s, i, v), k) == if k == i then v else BitAt(s, k)
  {
    if k / 8 == i / 8 {
      WithBitReads(s[i / 8], i % 8, v, k % 8);
    }
  }

  /** Every bit outside the field is unchanged. */
  lemma {:induction false} StoreFrame(s: seq<Byte>, offset: nat, bits: nat, value: nat, i: nat)
    requires offset + bits <= 8 * |s| && !(offset <= i < offset + bits)
    ensures BitAt(Store(s, offset, bits, value), i) == BitAt(s, i)
    decreases bits
  {
    if bits > 0 {
      var v := BitOf(value, bits - 1);
      PutBitReads(s, offset, v, i);
      StoreFrame(PutBit(s, offset, v), offset + 1, bits - 1, value, i);
    }
  }

  lemma {:induction false} StoreBit(s: seq<Byte>, offset: nat, bits: nat, value: nat, k: nat)
    requires offset + bits <= 8 * |s| && k < bits
    ensures BitAt(Store(s, offset, bits, value), offset + k) == BitOf(value, bits - 1 - k)
    decreases bits
  {
    var v := BitOf(value, bits - 1);
    if k == 0 {
      StoreFrame(PutBit(s, offset, v), offset + 1, bits - 1, value, offset);
      PutBitReads(s, offset, v, offset);
    } else {
      StoreBit(PutBit(s, offset, v), offset + 1, bits - 1, value, k - 1);
    }
  }

  lemma LowOfHigh(value: nat, k: nat, n: nat)
    requires n > 0
    ensures Low(High(value, k), n) == 2 * Low(High(value, k + 1), n - 1) + BitOf(value, k)
  {
    HighNext(value, k);
  }

  lemma {:induction false} StoredPrefix(s: seq<Byte>, offset: nat, bits: nat, value: nat, n: nat)
    requires offset + bits <= 8 * |s| && n <= bits
    ensures Field(Store(s, offset, bits, value), offset, n) == Low(High(value, bits - n), n)
    decreases n
  {
    if n > 0 {
      StoredPrefix(s, offset, bits, value, n - 1);
      StoreBit(s, offset, bits, value, n - 1);
      LowOfHigh(value, bits - n, n);
    }
  }

  /** Reading a field back gives the value written, modulo 2 to the width. */
  lemma FieldOfStore(s: seq<Byte>, offset: nat, bits: nat, value: nat)
    requires offset + bits <= 8 * |s|
    ensures Field(Store(s, offset, bits, value), offset, bits) == value % Pow2(bits)
  {
    StoredPrefix(s, offset, bits, value, bits);
    LowIsRemainder(value, bits);
  }

  lemma {:induction false} FieldDepends(s: seq<Byte>, t: seq<Byte>, offset: nat, at: nat, bits: nat)
    requires forall i: nat | offset <= i < offset + bits :: BitAt(s, i) == BitAt(t, i - offset + at)
    ensures Field(s, offset, bits) == Field(t, at, bits)
    decreases bits
  {
    if bits > 0 {
      FieldDepends(s, t, offset, at, bits - 1);
      assert BitAt(s, offset + bits - 1) == BitAt(t, at + bits - 1);
    }
  }

  /** A field written elsewhere reads as before. */
  lemma StoreElsewhere(s: seq<Byte>, offset: nat, bits: nat, value: nat, at: nat, width: nat)
    requires offset + bits <= 8 * |s|
    requires Apart(offset, bits, at, width)
    ensures Field(Store(s, offset, bits, value), at, width) == Field(s, at, width)
  {
    forall i: nat | at <= i < at + width ensures BitAt(Store(s, offset, bits, value), i) == BitAt(s, i) {
      StoreFrame(s, offset, bits, value, i);
    }
    FieldDepends(Store(s, offset, bits, value), s, at, at, width);
  }

  lemma {:induction false} BitOfField(s: seq<Byte>, offset: nat, bits: nat, k: nat)
    requires k < bits
    ensures BitOf(Field(s, offset, bits), bits - 1 - k) == BitAt(s, offset + k)
    decreases bits
  {
    if k < bits - 1 {
      BitOfField(s, offset, bits - 1, k);
      assert Field(s, offset, bits) / 2 == Field(s, offset, bits - 1);
    }
  }

  /** Only the low `bits` bits of the value matter. */
  lemma {:induction false} StoreOfLow(s: seq<Byte>, offset: nat, bits: nat, v: nat, w: nat, n: nat)
    requires offset + bits <= 8 * |s| && bits <= n && Low(v, n) == Low(w, n)
    ensures Store(s, offset, bits, v) == Store(s, offset, bits, w)
    decreases bits
  {
    if bits > 0 {
      BitOfLow(v, n, bits - 1);
      BitOfLow(w, n, bits - 1);
      StoreOfLow(PutBit(s, offset, BitOf(v, bits - 1)), offset + 1, bits - 1, v, w, n);
    }
  }

  /** Writing over a field and then writing back what was there restores the string. */
  lemma StoreUndone(s: seq<Byte>, offset: nat, bits: nat, value: nat)
    requires offset + bits <= 8 * |s|
    ensures Store(Store(s, offset, bits, value), offset, bits, Field(s, offset, bits)) == s
  {
    var was := Field(s, offset, bits);
    var once := Store(s, offset, bits, value);
    var twice := Store(once, offset, bits, was);
    forall i: nat | i < 8 * |s| ensures BitAt(twice, i) == BitAt(s, i) {
      if offset <= i < offset + bits {
        StoreBit(once, offset, bits, was, i - offset);
        BitOfField(s, offset, bits, i - offset);
      } else {
        StoreFrame(once, offset, bits, was, i);
        StoreFrame(s, offset, bits, value, i);
      }
    }
    SameBits(twice, s);
  }

  predicate Apart(offset: nat, bits: nat, at: nat, width: nat) {
    at + width <= offset || offset + bits <= at
  }

  predicate Within(i: nat, offset: nat, bits: nat) { offset <= i < offset + bits }

  /** Fields are apart exactly if they share no bit. */
  lemma ApartIff(offset: nat, bits: nat, at: nat, width: nat)
    requires bits > 0 && width > 0
    ensures Apart(offset, bits, at, width) <==> forall i: nat :: !(Within(i, offset, bits) && Within(i, at, width))
  {
    if !Apart(offset, bits, at, width) {
      var i := if offset < at then at else offset;
      assert Within(i, offset, bits) && Within(i, at, width);
    }
  }

  /** Every bit after a write. */
  lemma BitOfStore(s: seq<Byte>, offset: nat, bits: nat, value: nat, i: nat)
    requires offset + bits <= 8 * |s|
    ensures BitAt(Store(s, offset, bits, value), i) ==
              if offset <= i < offset + bits then BitOf(value, offset + bits - 1 - i) else BitAt(s, i)
  {
    if offset <= i < offset + bits {
      StoreBit(s, offset, bits, value, i - offset);
    } else {
      StoreFrame(s, offset, bits, value, i);
    }
  }

  /** Writes to fields that do not meet commute. */
  lemma StoresCommute(s: seq<Byte>, offset: nat, bits: nat, value: nat, at: nat, width: nat, other: nat)
    requires offset + bits <= 8 * |s| && at + width <= 8 * |s| && Apart(offset, bits, at, width)
    ensures Store(Store(s, offset, bits, value), at, width, other) ==
              Store(Store(s, at, width, other), offset, bits, value)
  {
    var s12 := Store(Store(s, offset, bits, value), at, width, other);
    var s21 := Store(Store(s, at, width, other), offset, bits, value);
    forall i: nat | i < 8 * |s|
      ensures BitAt(s12, i) == BitAt(s21, i)
    {
      BitCommutes(s, offset, bits, value, at, width, other, i);
    }
    SameBits(s12, s21);
  }

  lemma BitCommutes(s: seq<Byte>, offset: nat, bits: nat, value: nat, at: nat, width: nat, other: nat, i: nat)
    requires offset + bits <= 8 * |s| && at + width <= 8 * |s| && Apart(offset, bits, at, width) && i < 8 * |s|
    ensures BitAt(Store(Store(s, offset, bits, value), at, width, other), i) ==
              BitAt(Store(Store(s, at, width, other), offset, bits, value), i)
  {
    BitOfStore(Store(s, offset, bits, value), at, width, other, i);
    BitOfStore(s, offset, bits, value, i);
    BitOfStore(Store(s, at, width, other), offset, bits, value, i);
    BitOfStore(s, at, width, other, i);
  }

  // ---------- the program ----------

  lemma StoreOne(s: seq<Byte>, at: nat, n: nat, value: nat)
    requires n > 0 && at + n <= 8 * |s|
    ensures Store(s, at, n, value) == Store(PutBit(s, at, BitOf(value, n - 1)), at + 1, n - 1, value)
  {
  }

  /** setUnsignedBitfield */
  method SetUnsigned(p: array<Byte>, offset: nat, bits: nat, value: nat)
    requires offset + bits <= 8 * p.Length
    modifies p
    ensures p[..] == Store(old(p[..]), offset, bits, value)
  {
    var at := offset;
    for j := 0 to bits
      invariant at == offset + j
      invariant Store(p[..], at, bits - j, value) == Store(old(p[..]), offset, bits, value)
    {
      StoreOne(p[..], at, bits - j, value);
      SetOne(p, at, bits - 1 - j, value);
      at := at + 1;
    }
  }

  method SetOne(p: array<Byte>, at: nat, k: nat, value: nat)
    requires at < 8 * p.Length
    modifies p
    ensures p[..] == PutBit(old(p[..]), at, BitOf(value, k))
  {
    var bitval := if Bitwise(And, value, Pow2(k)) != 0 then 1 else 0;
    MaskTestsBit(value, k);
    WriteBit(p, at, bitval);
  }

  method WriteBit(p: array<Byte>, at: nat, bitval: nat)
    requires at < 8 * p.Length && bitval < 2
    modifies p
    ensures p[..] == PutBit(old(p[..]), at, bitval)
  {
    var bit := 7 - at % 8;
    var byteval: nat := p[at / 8];
    WithBitFits(p[at / 8], at % 8, bitval);
    byteval := Bitwise(And, byteval, 255 - Pow2(bit));
    byteval := Bitwise(Or, byteval, bitval * Pow2(bit));
    p[at / 8] := byteval;
  }

  /** Shifting in one more bit does not leave the 64-bit word. */
  lemma ShiftIn(value: nat, bit: nat, j: nat)
    requires j < 64 && value < Pow2(j) && bit < 2
    ensures Bitwise(Or, Unsigned64(2 * value), bit) == 2 * value + bit
  {
    WordSize();
    Pow2Grows(j + 1, 64);
    assert Unsigned64(2 * value) == 2 * value;
    OrLowBit(value, bit);
  }

  lemma FieldNext(s: seq<Byte>, offset: nat, j: nat)
    requires j < 64 && offset + j < 8 * |s|
    ensures var at := offset + j;
      Bitwise(Or, Unsigned64(2 * Field(s, offset, j)), BitOf(s[at / 8], 7 - at % 8)) == Field(s, offset, j + 1)
  {
    ShiftIn(Field(s, offset, j), BitOf(s[(offset + j) / 8], 7 - (offset + j) % 8), j);
  }

  /** getUnsignedBitfield */
  method GetUnsigned(p: array<Byte>, offset: nat, bits: nat) returns (value: nat)
    requires offset + bits <= 8 * p.Length && bits <= 64
    ensures value == Field(p[..], offset, bits)
  {
    value := 0;
    for j := 0 to bits
      invariant value == Field(p[..], offset, j)
    {
      var at := offset + j;
      var bitval := BitOf(p[at / 8], 7 - at % 8);
      FieldNext(p[..], offset, j);
      value := Bitwise(Or, Unsigned64(2 * value), bitval);
    }
  }

  /** The value of a field in two's complement. */
  function SignExtended(u: nat, bits: nat): int {
    if bits > 0 && u >= Pow2(bits - 1) then u - Pow2(bits) else u
  }

  lemma SignExtendedFits(u: nat, bits: nat)
    requires u < Pow2(bits) && bits > 0
    ensures 0 <= SignExtended(u, bits) + Pow2(bits - 1) < Pow2(bits)
    ensures SignExtended(u, bits) % Pow2(bits) == u
  {
    var m, r := Pow2(bits), SignExtended(u, bits);
    Remainder(r, m, if r == u then 0 else -1, u);
  }

  /** It is the one number in the signed range that is congruent to the field. */
  lemma SignExtendedIs(u: nat, bits: nat, r: int)
    requires u < Pow2(bits) && bits > 0
    ensures r == SignExtended(u, bits) <==> 0 <= r + Pow2(bits - 1) < Pow2(bits) && r % Pow2(bits) == u
  {
    SignExtendedFits(u, bits);
    if 0 <= r + Pow2(bits - 1) < Pow2(bits) && r % Pow2(bits) == u {
      SameResidue(r, SignExtended(u, bits), Pow2(bits));
    }
  }

  /** getSignedBitfield */
  method GetSigned(p: array<Byte>, offset: nat, bits: nat) returns (value: int)
    requires offset + bits <= 8 * p.Length && 1 <= bits < 64
    ensures value == SignExtended(Field(p[..], offset, bits), bits)
  {
    var u := GetUnsigned(p, offset, bits);
    SignBit(u, bits);
    if Bitwise(And, u, Pow2(bits - 1)) != 0 {
      PropagatesSign(u, bits);
      u := Bitwise(Or, u, OnesFrom(bits));
    }
    value := Signed64(u);
  }

  lemma SignBit(u: nat, bits: nat)
    requires 1 <= bits < 64 && u < Pow2(bits)
    ensures Bitwise(And, u, Pow2(bits - 1)) != 0 <==> u >= Pow2(bits - 1)
    ensures u < Pow2(bits - 1) ==> Signed64(u) == u
  {
    TopBit(u, bits - 1);
    MaskTestsBit(u, bits - 1);
    WordSize();
    Pow2Grows(bits - 1, 63);
  }

  lemma TopBit(u: nat, k: nat)
    requires u < Pow2(k + 1)
    ensures BitOf(u, k) == 1 <==> u >= Pow2(k)
  {
    LowOfSmall(u, k + 1);
    LowNext(u, k);
    LowHigh(u, k);
  }

  lemma PropagatesSign(u: nat, bits: nat)
    requires 1 <= bits < 64 && Pow2(bits - 1) <= u < Pow2(bits)
    ensures Signed64(Bitwise(Or, u, OnesFrom(bits))) == u - Pow2(bits)
  {
    OnesFromBit(bits);
    WordSize();
    Pow2Grows(bits, 63);
    OrHighOnes(u, bits, 64, OnesFrom(bits));
    LowOfSmall(u, bits);
  }
}
