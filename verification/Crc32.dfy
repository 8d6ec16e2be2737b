/**
  The table-driven CRC-32 and the bit-serial register it stands for.
 */
module Crc32 {
  import opened Words

  const IEEE_POLY: nat := 0xedb8_8320
  const UINT32_MAX: nat := 0xffff_ffff

  /** One step of the reflected register. */
  function Step(c: nat, poly: nat): nat {
    if c % 2 == 1 then Bitwise(Xor, c / 2, poly) else c / 2
  }

  function Steps(c: nat, poly: nat, n: nat): nat
    decreases n, poly
  {
    if n == 0 then c else Steps(Step(c, poly), poly, n - 1)
  }

  // ---------- the reference: the message one bit at a time, low bits first ----------

  /** The register after the `n` low bits of `b` were shifted in. */
  function Serial(c: nat, poly: nat, b: nat, n: nat): nat
    decreases n, poly
  {
    if n == 0 then c else Serial(Step(Bitwise(Xor, c, b % 2), poly), poly, b / 2, n - 1)
  }

  function SerialBytes(c: nat, poly: nat, buf: seq<Byte>): nat {
    if buf == [] then c else Serial(SerialBytes(c, poly, buf[..|buf| - 1]), poly, buf[|buf| - 1], 8)
  }

  /** The checksum: the register starts and ends complemented. */
  function Crc(crc: nat, poly: nat, buf: seq<Byte>): int
    requires crc <= UINT32_MAX
  {
    UINT32_MAX - SerialBytes(UINT32_MAX - crc, poly, buf)
  }

  // ---------- linearity ----------

  /** What a step feeds back. */
  function Fed(c: nat, poly: nat): nat {
    if c % 2 == 1 then poly else 0
  }

  lemma StepFeeds(c: nat, poly: nat)
    ensures Step(c, poly) == Bitwise(Xor, c / 2, Fed(c, poly))
  {
    XorZero(c / 2);
  }

  lemma {:induction false} XorWithItself(x: nat)
    ensures Bitwise(Xor, x, x) == 0
  {
    if x > 0 {
      XorWithItself(x / 2);
    }
  }

  lemma FeedIsLinear(x: nat, y: nat, poly: nat)
    ensures Fed(Bitwise(Xor, x, y), poly) == Bitwise(Xor, Fed(x, poly), Fed(y, poly))
  {
    BitwiseParts(Xor, x, y);
    XorWithItself(poly);
    XorZero(poly);
    BitwiseCommutes(Xor, 0, poly);
  }

  lemma StepIsLinear(x: nat, y: nat, poly: nat)
    ensures Step(Bitwise(Xor, x, y), poly) == Bitwise(Xor, Step(x, poly), Step(y, poly))
  {
    StepFeeds(x, poly);
    StepFeeds(y, poly);
    StepFeeds(Bitwise(Xor, x, y), poly);
    FeedIsLinear(x, y, poly);
    BitwiseParts(Xor, x, y);
    XorSwap(x / 2, Fed(x, poly), y / 2, Fed(y, poly));
  }

  lemma {:induction false} StepsAreLinear(x: nat, y: nat, poly: nat, n: nat)
    ensures Steps(Bitwise(Xor, x, y), poly, n) == Bitwise(Xor, Steps(x, poly, n), Steps(y, poly, n))
    decreases n
  {
    if n > 0 {
      StepIsLinear(x, y, poly);
      StepsAreLinear(Step(x, poly), Step(y, poly), poly, n - 1);
    }
  }

  /** Only the low bit of what is xored in can feed back at once; the rest moves down. */
  lemma StepOfParts(c: nat, b: nat, poly: nat)
    ensures Step(Bitwise(Xor, c, b), poly) == Bitwise(Xor, Step(Bitwise(Xor, c, b % 2), poly), b / 2)
  {
    StepFeeds(Bitwise(Xor, c, b), poly);
    StepFeeds(Bitwise(Xor, c, b % 2), poly);
    LowBitFeeds(c, b, b % 2, poly);
    XorRotate(c / 2, b / 2, Fed(Bitwise(Xor, c, b), poly));
  }

  lemma LowBitFeeds(c: nat, b: nat, low: nat, poly: nat)
    requires low / 2 == 0 && low % 2 == b % 2
    ensures Fed(Bitwise(Xor, c, low), poly) == Fed(Bitwise(Xor, c, b), poly)
    ensures Bitwise(Xor, c, low) / 2 == c / 2 && Bitwise(Xor, c, b) / 2 == Bitwise(Xor, c / 2, b / 2)
  {
    BitwiseParts(Xor, c, b);
    BitwiseParts(Xor, c, low);
    XorZero(c / 2);
  }

  lemma XorRotate(x: nat, y: nat, z: nat)
    ensures Bitwise(Xor, Bitwise(Xor, x, y), z) == Bitwise(Xor, Bitwise(Xor, x, z), y)
  {
  }

  /** Xoring in `n` bits at once and then stepping is shifting them in one by one. */
  lemma {:induction false} StepsAreSerial(c: nat, b: nat, poly: nat, n: nat)
    requires b < Pow2(n)
    ensures Steps(Bitwise(Xor, c, b), poly, n) == Serial(c, poly, b, n)
    decreases n
  {
    if n > 0 {
      StepOfParts(c, b, poly);
      StepsAreSerial(Step(Bitwise(Xor, c, b % 2), poly), b / 2, poly, n - 1);
    } else {
      XorZero(c);
    }
  }

  lemma FirstStep(x: nat, poly: nat, n: nat)
    requires n > 0
    ensures Steps(x, poly, n) == Bitwise(Xor, Steps(x / 2, poly, n - 1), Steps(Fed(x, poly), poly, n - 1))
  {
    StepFeeds(x, poly);
    StepsAreLinear(x / 2, Fed(x, poly), poly, n - 1);
  }

  /** The low bits decide the feedback; the bits above them pass by. */
  lemma {:induction false} LowBitsDecide(x: nat, poly: nat, n: nat)
    ensures Steps(x, poly, n) == Bitwise(Xor, Steps(Low(x, n), poly, n), High(x, n))
    decreases n
  {
    if n == 0 {
      BitwiseCommutes(Xor, 0, x);
      XorZero(x);
    } else {
      var q, low := Fed(x, poly), Low(x / 2, n - 1);
      FirstStep(x, poly, n);
      FirstStep(Low(x, n), poly, n);
      assert Low(x, n) / 2 == low && Fed(Low(x, n), poly) == q;
      LowBitsDecide(x / 2, poly, n - 1);
      XorRotate(Steps(low, poly, n - 1), High(x, n), Steps(q, poly, n - 1));
    }
  }

  lemma ByteOf(x: nat)
    ensures Low(x, 8) == x % 256 && High(x, 8) == x / 256 && Pow2(8) == 256
  {
    LowHigh(x, 8);
    ByteSize();
  }

  /** One byte through the table is eight bits through the register. */
  lemma TableByteIsSerial(c: nat, b: Byte, poly: nat)
    ensures Bitwise(Xor, c % 256, b) < 256
    ensures Bitwise(Xor, Steps(Bitwise(Xor, c % 256, b), poly, 8), c / 256) == Serial(c, poly, b, 8)
  {
    ByteOf(c);
    ByteOf(b);
    ByteOf(Bitwise(Xor, c, b));
    BitwiseLow(Xor, c, b, 8);
    BitwiseHigh(Xor, c, b, 8);
    BitwiseBound(Xor, c % 256, b, 8);
    XorZero(c / 256);
    LowBitsDecide(Bitwise(Xor, c, b), poly, 8);
    StepsAreSerial(c, b, poly, 8);
  }

  lemma ByteContinues(c: nat, poly: nat, buf: seq<Byte>, i: nat)
    requires i < |buf|
    ensures SerialBytes(c, poly, buf[..i + 1]) == Serial(SerialBytes(c, poly, buf[..i]), poly, buf[i], 8)
  {
    assert buf[..i + 1][..i] == buf[..i];
  }

  // ---------- the program ----------

  class Crc32Table {
    const tab: array<nat>
    ghost const poly: nat

    ghost predicate Valid()
      reads tab
    {
      tab.Length == 256 && poly <= UINT32_MAX && forall i | 0 <= i < 256 :: tab[i] == Steps(i, poly, 8)
    }

    /** crc32_tabinit */
    constructor (p: nat)
      requires p <= UINT32_MAX
      ensures Valid() && poly == p
    {
      tab := new nat[256];
      poly := p;
      new;
      var i := 0;
      while i < 256
        invariant 0 <= i <= 256 && forall k | 0 <= k < i :: tab[k] == Steps(k, p, 8)
      {
        var crc := i;
        var j := 0;
        while j < 8
          invariant 0 <= j <= 8 && Steps(i, p, 8) == Steps(crc, p, 8 - j)
        {
          if crc % 2 == 1 {
            crc := Bitwise(Xor, crc / 2, p);
          } else {
            crc := crc / 2;
          }
          j := j + 1;
        }
        tab[i] := crc;
        i := i + 1;
      }
    }

    /** The loop of crc32_update. */
    method Feed(register: nat, buf: seq<Byte>) returns (c: nat)
      requires Valid()
      ensures c == SerialBytes(register, poly, buf)
    {
      c := register;
      for i := 0 to |buf|
        invariant c == SerialBytes(register, poly, buf[..i])
      {
        TableByteIsSerial(c, buf[i], poly);
        ByteContinues(register, poly, buf, i);
        c := Bitwise(Xor, tab[Bitwise(Xor, c % 256, buf[i])], c / 256);
      }
      assert buf[..|buf|] == buf;
    }

    /** crc32_update */
    method Update(crc: nat, buf: seq<Byte>) returns (r: nat)
      requires Valid() && crc <= UINT32_MAX
      ensures r <= UINT32_MAX && r == Crc(crc, poly, buf)
    {
      var c := Feed(UINT32_MAX - crc, buf);
      SerialFits(UINT32_MAX - crc, poly, buf);
      r := UINT32_MAX - c;
    }
  }

  /** crc32_init and crc32_checksum: the CRC-32 of IEEE 802.3. */
  method Checksum(buf: seq<Byte>) returns (r: nat)
    ensures r == Crc(0, IEEE_POLY, buf)
  {
    var t := new Crc32Table(IEEE_POLY);
    r := t.Update(0, buf);
  }

  lemma StepFits(c: nat, poly: nat)
    requires c < Pow2(32) && poly < Pow2(32)
    ensures Step(c, poly) < Pow2(32)
  {
    BitwiseBound(Xor, c / 2, poly, 32);
  }

  lemma {:induction false} SerialByteFits(c: nat, poly: nat, b: nat, n: nat)
    requires c < Pow2(32) && poly < Pow2(32)
    ensures Serial(c, poly, b, n) < Pow2(32)
    decreases n
  {
    if n > 0 {
      BitwiseBound(Xor, c, b % 2, 32);
      StepFits(Bitwise(Xor, c, b % 2), poly);
      SerialByteFits(Step(Bitwise(Xor, c, b % 2), poly), poly, b / 2, n - 1);
    }
  }

  /** The register never leaves its 32 bits. */
  lemma {:induction false} SerialFits(c: nat, poly: nat, buf: seq<Byte>)
    requires c <= UINT32_MAX && poly <= UINT32_MAX
    ensures SerialBytes(c, poly, buf) <= UINT32_MAX
  {
    if buf != [] {
      HalfWordSize();
      SerialFits(c, poly, buf[..|buf| - 1]);
      SerialByteFits(SerialBytes(c, poly, buf[..|buf| - 1]), poly, buf[|buf| - 1], 8);
    }
  }

  lemma {:induction false} SerialContinues(c: nat, poly: nat, a: seq<Byte>, b: seq<Byte>)
    ensures SerialBytes(c, poly, a + b) == SerialBytes(SerialBytes(c, poly, a), poly, b)
  {
    if b == [] {
      assert a + b == a;
    } else {
      SerialContinues(c, poly, a, b[..|b| - 1]);
      assert (a + b)[..|a + b| - 1] == a + b[..|b| - 1];
    }
  }

  /** A checksum continued over the second part of a message is the checksum of the whole. */
  lemma CrcContinues(crc: nat, poly: nat, a: seq<Byte>, b: seq<Byte>)
    requires crc <= UINT32_MAX && poly <= UINT32_MAX
    ensures 0 <= Crc(crc, poly, a) <= UINT32_MAX && Crc(Crc(crc, poly, a), poly, b) == Crc(crc, poly, a + b)
  {
    var c := UINT32_MAX - crc;
    SerialFits(c, poly, a);
    SerialContinues(c, poly, a, b);
    var d := SerialBytes(c, poly, a);
    assert Crc(crc, poly, a) == UINT32_MAX - d && UINT32_MAX - (UINT32_MAX - d) == d;
  }
}
