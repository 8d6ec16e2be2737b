/**
  The BITFIELD command: reads, writes and increments of fields of a string, done in order on one string.
 */
module BitfieldCommand {
  import opened Words
  import opened Options
  import opened BitString
  import opened Bitfield
  import opened BitfieldOverflow

  datatype Opcode = Get | Set | IncrBy

  datatype FieldOp = FieldOp(offset: nat, arg: int, opcode: Opcode, policy: Policy, bits: nat, signed: bool)

  /** What the argument parser lets through, but for signed fields of 64 bits. */
  predicate Parsed(op: FieldOp) {
    Int64(op.arg) && 1 <= op.bits < 64
  }

  predicate Reaches(op: FieldOp, length: nat) {
    op.offset + op.bits <= 8 * length
  }

  // ---------- what one operation means ----------

  function Read(s: seq<Byte>, op: FieldOp): int {
    var u := Field(s, op.offset, op.bits);
    if op.signed then SignExtended(u, op.bits) else u
  }

  function Lo(op: FieldOp): int
    requires op.bits > 0
  {
    if op.signed then Min(op.bits) else 0
  }

  function Asked(was: int, op: FieldOp): int {
    if op.opcode.IncrBy? then was + op.arg
    else if op.signed then op.arg
    else Unsigned64(op.arg)
  }

  predicate Misjudged(op: FieldOp)
    requires op.bits > 0
  {
    op.opcode.Set? && op.signed && FarBelow(op.arg, op.bits)
  }

  /** On overflow the limit is written, or nothing if the policy is to fail. */
  function Decided(newval: int, check: Check): Option<int> {
    match check
    case Fits => Some(newval)
    case Limited(_, limit) => Some(limit)
    case Refused(_) => None
  }

  /** The number that a SET or INCRBY leaves in a field that held `was`; none if it refuses to write. */
  function Outcome(was: int, op: FieldOp): Option<int>
    requires Parsed(op)
  {
    if Misjudged(op) && op.policy.Sat? then Some(Max(op.bits))
    else if Misjudged(op) && op.policy.Fail? then None
    else Decided(Asked(was, op), Resolve(Asked(was, op), Lo(op), Pow2(op.bits), op.policy))
  }

  function Put(s: seq<Byte>, op: FieldOp, n: Option<int>): (r: seq<Byte>)
    requires Reaches(op, |s|)
    ensures |r| == |s|
  {
    if n.None? then s else Store(s, op.offset, op.bits, Unsigned64(n.value))
  }

  /** The string after a SET or INCRBY. */
  function Written(s: seq<Byte>, op: FieldOp): (r: seq<Byte>)
    requires Parsed(op) && Reaches(op, |s|)
    ensures |r| == |s|
  {
    Put(s, op, Outcome(Read(s, op), op))
  }

  function Reply(s: seq<Byte>, op: FieldOp): Option<int>
    requires Parsed(op)
  {
    if op.opcode.Get? then Some(Read(s, op))
    else
      match Outcome(Read(s, op), op)
      case None => None
      case Some(n) => Some(if op.opcode.Set? then Read(s, op) else n)
  }

  function After(s: seq<Byte>, op: FieldOp): (r: seq<Byte>)
    requires Parsed(op) && (op.opcode.Get? || Reaches(op, |s|))
    ensures |r| == |s|
  {
    if op.opcode.Get? then s else Written(s, op)
  }

  // ---------- laws of one operation ----------

  lemma ReadFits(s: seq<Byte>, op: FieldOp)
    requires Parsed(op)
    ensures Lo(op) <= Read(s, op) < Lo(op) + Pow2(op.bits)
    ensures Read(s, op) % Pow2(op.bits) == Field(s, op.offset, op.bits)
  {
    var u := Field(s, op.offset, op.bits);
    SignExtendedFits(u, op.bits);
    Remainder(u, Pow2(op.bits), 0, u);
  }

  /** The number congruent to the field is the number read. */
  lemma ReadIs(s: seq<Byte>, op: FieldOp, n: int)
    requires Parsed(op) && Lo(op) <= n < Lo(op) + Pow2(op.bits) && n % Pow2(op.bits) == Field(s, op.offset, op.bits)
    ensures Read(s, op) == n
  {
    ReadFits(s, op);
    SameResidue(n, Read(s, op), Pow2(op.bits));
  }

  lemma OutcomeFits(was: int, op: FieldOp)
    requires Parsed(op) && Outcome(was, op).Some?
    ensures Lo(op) <= Outcome(was, op).value < Lo(op) + Pow2(op.bits)
  {
  }

  lemma PutIsRead(s: seq<Byte>, op: FieldOp, n: int)
    requires Parsed(op) && Reaches(op, |s|) && Lo(op) <= n < Lo(op) + Pow2(op.bits)
    ensures Read(Put(s, op, Some(n)), op) == n
  {
    FieldOfStore(s, op.offset, op.bits, Unsigned64(n));
    ResidueOfWord(n, op.bits);
    ReadIs(Put(s, op, Some(n)), op, n);
  }

  /** What an operation leaves in its field is what the next one reads there, sign and all. */
  lemma WrittenIsRead(s: seq<Byte>, op: FieldOp)
    requires Parsed(op) && Reaches(op, |s|)
    ensures match Outcome(Read(s, op), op)
            case None => Written(s, op) == s
            case Some(n) => Read(Written(s, op), op) == n
  {
    var n := Outcome(Read(s, op), op);
    if n.Some? {
      OutcomeFits(Read(s, op), op);
      PutIsRead(s, op, n.value);
    }
  }

  /** An operation leaves every bit outside its field alone. */
  lemma WrittenFrame(s: seq<Byte>, op: FieldOp, i: nat)
    requires Parsed(op) && Reaches(op, |s|) && !(op.offset <= i < op.offset + op.bits)
    ensures BitAt(Written(s, op), i) == BitAt(s, i)
  {
    var n := Outcome(Read(s, op), op);
    if n.Some? {
      StoreFrame(s, op.offset, op.bits, Unsigned64(n.value), i);
    }
  }

  predicate Meet(op: FieldOp, other: FieldOp) {
    !Apart(op.offset, op.bits, other.offset, other.bits)
  }

  lemma ReadElsewhere(s: seq<Byte>, op: FieldOp, other: FieldOp)
    requires Parsed(op) && Parsed(other) && Reaches(op, |s|) && !Meet(op, other)
    ensures Read(Written(s, op), other) == Read(s, other)
  {
    var n := Outcome(Read(s, op), op);
    if n.Some? {
      StoreElsewhere(s, op.offset, op.bits, Unsigned64(n.value), other.offset, other.bits);
    }
  }

  lemma PutsCommute(s: seq<Byte>, op: FieldOp, m: Option<int>, other: FieldOp, n: Option<int>)
    requires Reaches(op, |s|) && Reaches(other, |s|) && !Meet(op, other)
    ensures Put(Put(s, op, m), other, n) == Put(Put(s, other, n), op, m)
  {
    if m.Some? && n.Some? {
      StoresCommute(s, op.offset, op.bits, Unsigned64(m.value), other.offset, other.bits, Unsigned64(n.value));
    }
  }

  /** Operations on fields that do not meet commute, replies included. */
  lemma OperationsCommute(s: seq<Byte>, op: FieldOp, other: FieldOp)
    requires Parsed(op) && Parsed(other) && Reaches(op, |s|) && Reaches(other, |s|) && !Meet(op, other)
    ensures Written(Written(s, op), other) == Written(Written(s, other), op)
    ensures Reply(Written(s, op), other) == Reply(s, other) && Reply(Written(s, other), op) == Reply(s, op)
  {
    ReadElsewhere(s, op, other);
    ReadElsewhere(s, other, op);
    PutsCommute(s, op, Outcome(Read(s, op), op), other, Outcome(Read(s, other), other));
  }

  lemma WrappedIncrement(was: int, op: FieldOp)
    requires Parsed(op) && op.opcode.IncrBy? && op.policy.Wrap?
    ensures Outcome(was, op) == Some(Around(was + op.arg, Lo(op), Pow2(op.bits)))
  {
  }

  lemma AroundAndBack(x: int, d: int, lo: int, size: nat)
    requires size > 0 && lo <= x < lo + size
    ensures Around(Around(x + d, lo, size) - d, lo, size) == x
  {
    var y := Around(x + d, lo, size);
    AroundIsCongruent(x + d, lo, size);
    var k := y / size - (x + d) / size;
    assert size * k == size * (y / size) - size * ((x + d) / size);
    assert y - d == size * k + x;
    ResidueOfSum(x, size, k);
    AroundIs(y - d, lo, size, x);
  }

  lemma OutcomeCancels(was: int, op: FieldOp)
    requires Parsed(op) && Int64(-op.arg) && op.opcode.IncrBy? && op.policy.Wrap?
    requires Lo(op) <= was < Lo(op) + Pow2(op.bits)
    ensures Outcome(was, op).Some? && Outcome(Outcome(was, op).value, op.(arg := -op.arg)) == Some(was)
  {
    var back := op.(arg := -op.arg);
    WrappedIncrement(was, op);
    WrappedIncrement(Outcome(was, op).value, back);
    AroundAndBack(was, op.arg, Lo(op), Pow2(op.bits));
  }

  /** Wrapping increments by opposite amounts cancel: the whole string is as before. */
  lemma IncrementsCancel(s: seq<Byte>, op: FieldOp)
    requires Parsed(op) && Int64(-op.arg) && Reaches(op, |s|) && op.opcode.IncrBy? && op.policy.Wrap?
    ensures Written(Written(s, op), op.(arg := -op.arg)) == s
  {
    var was := Read(s, op);
    ReadFits(s, op);
    OutcomeCancels(was, op);
    WrittenIsRead(s, op);
    RestoresField(s, op, Unsigned64(Outcome(was, op).value));
  }

  lemma RestoresField(s: seq<Byte>, op: FieldOp, over: nat)
    requires Parsed(op) && Reaches(op, |s|)
    ensures Store(Store(s, op.offset, op.bits, over), op.offset, op.bits, Unsigned64(Read(s, op))) == s
  {
    var was, u := Read(s, op), Field(s, op.offset, op.bits);
    ReadFits(s, op);
    LowOfWord(was, op.bits);
    LowOfSmall(u, op.bits);
    StoreOfLow(Store(s, op.offset, op.bits, over), op.offset, op.bits, Unsigned64(was), u, op.bits);
    StoreUndone(s, op.offset, op.bits, over);
  }

  /** A saturating SET of an unsigned field with a negative number stores the maximum, not zero. */
  lemma NegativeUnsignedSaturatesUp(was: int, op: FieldOp)
    requires Parsed(op) && op.opcode.Set? && !op.signed && op.policy.Sat?
    ensures Outcome(was, op) == Some(if op.arg < 0 || op.arg >= Pow2(op.bits) then Pow2(op.bits) - 1 else op.arg)
  {
    UnsignedSize(op.bits);
  }

  // ---------- the program ----------

  /** The SET and INCRBY branches of bitfieldCommand. */
  method Write(p: array<Byte>, op: FieldOp) returns (reply: Option<int>)
    requires Parsed(op) && !op.opcode.Get? && Reaches(op, p.Length)
    modifies p
    ensures p[..] == Written(old(p[..]), op) && reply == Reply(old(p[..]), op)
  {
    if op.signed {
      reply := WriteSigned(p, op);
    } else {
      reply := WriteUnsigned(p, op);
    }
  }

  method WriteSigned(p: array<Byte>, op: FieldOp) returns (reply: Option<int>)
    requires Parsed(op) && !op.opcode.Get? && op.signed && Reaches(op, p.Length)
    modifies p
    ensures p[..] == Written(old(p[..]), op) && reply == Reply(old(p[..]), op)
  {
    var oldval := GetSigned(p, op.offset, op.bits);
    SignedFieldIsWord(p[..], op);
    var newval := DecideSigned(oldval, op);
    if newval.None? {
      return None;
    }
    reply := Some(if op.opcode.Set? then oldval else newval.value);
    SetUnsigned(p, op.offset, op.bits, Unsigned64(newval.value));
  }

  method WriteUnsigned(p: array<Byte>, op: FieldOp) returns (reply: Option<int>)
    requires Parsed(op) && !op.opcode.Get? && !op.signed && Reaches(op, p.Length)
    modifies p
    ensures p[..] == Written(old(p[..]), op) && reply == Reply(old(p[..]), op)
  {
    var oldval := GetUnsigned(p, op.offset, op.bits);
    var newval := DecideUnsigned(oldval, op);
    if newval.None? {
      return None;
    }
    reply := Some(if op.opcode.Set? then oldval else newval.value);
    SetUnsigned(p, op.offset, op.bits, Unsigned64(newval.value));
  }

  method DecideSigned(oldval: int, op: FieldOp) returns (n: Option<int>)
    requires Parsed(op) && !op.opcode.Get? && op.signed && Min(op.bits) <= oldval <= Max(op.bits)
    ensures n == Outcome(oldval, op)
  {
    SignedSize(op.bits);
    var newval, check := op.arg, Fits;
    if op.opcode.IncrBy? {
      newval := Word64(oldval + op.arg);
      check := CheckSigned(oldval, op.arg, op.bits, op.policy);
    } else {
      check := CheckSigned(newval, 0, op.bits, op.policy);
    }
    n := Decided(newval, check);
  }

  method DecideUnsigned(oldval: nat, op: FieldOp) returns (n: Option<int>)
    requires Parsed(op) && !op.opcode.Get? && !op.signed && oldval < Pow2(op.bits)
    ensures n == Outcome(oldval, op)
  {
    UnsignedSize(op.bits);
    var newval, check := Unsigned64(op.arg), Fits;
    if op.opcode.IncrBy? {
      newval := Unsigned64(oldval + op.arg);
      check := CheckUnsigned(oldval, op.arg, op.bits, op.policy);
    } else {
      check := CheckUnsigned(newval, 0, op.bits, op.policy);
    }
    n := Decided(newval, check);
  }

  lemma SignedFieldIsWord(s: seq<Byte>, op: FieldOp)
    requires Parsed(op) && op.signed
    ensures Min(op.bits) <= Read(s, op) <= Max(op.bits) && Int64(Read(s, op))
  {
    ReadFits(s, op);
    SignedSize(op.bits);
  }

  // ---------- GET, through a window of nine bytes ----------

  predicate IsWindow(b: seq<Byte>, src: seq<Byte>, start: nat) {
    |b| == 9 && forall k: nat | k < 9 :: b[k] == if k + start < |src| then src[k + start] else 0
  }

  lemma WindowBit(b: seq<Byte>, src: seq<Byte>, start: nat, i: nat)
    requires IsWindow(b, src, start) && i < 72
    ensures BitAt(b, i) == BitAt(src, i + 8 * start)
  {
    ZeroByte(i % 8);
    assert (i + 8 * start) / 8 == i / 8 + start && (i + 8 * start) % 8 == i % 8;
    assert b[i / 8] == if i / 8 + start < |src| then src[i / 8 + start] else 0;
  }

  lemma WindowReads(b: seq<Byte>, src: seq<Byte>, offset: nat, bits: nat)
    requires IsWindow(b, src, offset / 8) && bits <= 64
    ensures Field(b, offset % 8, bits) == Field(src, offset, bits)
  {
    forall i: nat | offset % 8 <= i < offset % 8 + bits ensures BitAt(b, i) == BitAt(src, i - offset % 8 + offset) {
      WindowBit(b, src, offset / 8, i);
    }
    FieldDepends(b, src, offset % 8, offset, bits);
  }

  lemma ZeroByte(k: nat)
    requires k < 8
    ensures Bit(0, k) == 0
  {
    BitOfZero(7 - k);
  }

  /** Copies up to nine bytes of the string into a buffer of zeros. */
  method CopyWindow(src: seq<Byte>, start: nat) returns (buf: array<Byte>)
    ensures fresh(buf) && IsWindow(buf[..], src, start)
  {
    buf := new Byte[9](_ => 0);
    var i := 0;
    while i < 9 && i + start < |src|
      invariant i <= 9 && (i == 0 || i + start <= |src|)
      invariant forall k: nat | k < 9 :: buf[k] == if k < i then src[k + start] else 0
    {
      buf[i] := src[i + start];
      i := i + 1;
    }
  }

  /** The GET branch reads the field of the zero-padded string, wherever the string ends. */
  method ReadWindow(src: seq<Byte>, op: FieldOp) returns (val: int)
    requires Parsed(op)
    ensures val == Read(src, op)
  {
    var start := op.offset / 8;
    var buf := CopyWindow(src, start);
    WindowReads(buf[..], src, op.offset, op.bits);
    if op.signed {
      val := GetSigned(buf, op.offset - start * 8, op.bits);
    } else {
      val := GetUnsigned(buf, op.offset - start * 8, op.bits);
    }
  }

  // ---------- the whole command ----------

  predicate AllParsed(ops: seq<FieldOp>) {
    ops == [] || (Parsed(ops[|ops| - 1]) && AllParsed(ops[..|ops| - 1]))
  }

  predicate ReadOnly(ops: seq<FieldOp>) {
    ops == [] || (ops[|ops| - 1].opcode.Get? && ReadOnly(ops[..|ops| - 1]))
  }

  /** The highest bit that the operations may write. */
  function HighestWrite(ops: seq<FieldOp>): nat
    requires AllParsed(ops)
  {
    if ops == [] then 0
    else
      var rest, op := HighestWrite(ops[..|ops| - 1]), ops[|ops| - 1];
      if !op.opcode.Get? && rest < op.offset + op.bits - 1 then op.offset + op.bits - 1 else rest
  }

  /** No write reaches beyond that bit, and it is the last one of some write, if there is any that is not of bit 0. */
  lemma {:induction false} HighestIsMet(ops: seq<FieldOp>)
    requires AllParsed(ops)
    ensures forall op <- ops :: !op.opcode.Get? ==> op.offset + op.bits - 1 <= HighestWrite(ops)
    ensures HighestWrite(ops) == 0 ||
            exists op <- ops :: !op.opcode.Get? && op.offset + op.bits - 1 == HighestWrite(ops)
  {
    if ops != [] {
      var rest, op := ops[..|ops| - 1], ops[|ops| - 1];
      HighestIsMet(rest);
      assert ops == rest + [op];
    }
  }

  predicate AllReach(ops: seq<FieldOp>, length: nat) {
    ops == [] || ((ops[|ops| - 1].opcode.Get? || Reaches(ops[|ops| - 1], length)) && AllReach(ops[..|ops| - 1], length))
  }

  lemma {:induction false} HighestReaches(ops: seq<FieldOp>, length: nat)
    requires AllParsed(ops) && (ReadOnly(ops) || HighestWrite(ops) < 8 * length)
    ensures AllReach(ops, length)
  {
    if ops != [] {
      HighestReaches(ops[..|ops| - 1], length);
    }
  }

  /** The string after the operations, in order. */
  function AfterAll(s: seq<Byte>, ops: seq<FieldOp>): (r: seq<Byte>)
    requires AllParsed(ops) && AllReach(ops, |s|)
    ensures |r| == |s|
  {
    if ops == [] then s else After(AfterAll(s, ops[..|ops| - 1]), ops[|ops| - 1])
  }

  function Replies(s: seq<Byte>, ops: seq<FieldOp>): (r: seq<Option<int>>)
    requires AllParsed(ops) && AllReach(ops, |s|)
  {
    if ops == [] then []
    else Replies(s, ops[..|ops| - 1]) + [Reply(AfterAll(s, ops[..|ops| - 1]), ops[|ops| - 1])]
  }

  function Zeros(n: nat): (r: seq<Byte>)
    ensures |r| == n
  {
    if n == 0 then [] else Zeros(n - 1) + [0]
  }

  /** sdsgrowzero */
  function Grown(s: seq<Byte>, length: nat): seq<Byte> {
    if |s| < length then s + Zeros(length - |s|) else s
  }

  // ---------- growing the string is not seen ----------

  ghost predicate SameString(s: seq<Byte>, t: seq<Byte>) {
    forall i: nat :: BitAt(s, i) == BitAt(t, i)
  }

  lemma {:induction false} ZerosAreZero(n: nat, k: nat)
    requires k < n
    ensures Zeros(n)[k] == 0
  {
    if k < n - 1 {
      ZerosAreZero(n - 1, k);
    }
  }

  lemma GrownIsSame(s: seq<Byte>, length: nat)
    ensures SameString(s, Grown(s, length))
  {
    forall i: nat ensures BitAt(s, i) == BitAt(Grown(s, length), i) {
      ZeroByte(i % 8);
      if |s| <= i / 8 < length {
        ZerosAreZero(length - |s|, i / 8 - |s|);
      }
    }
  }

  lemma SameReads(s: seq<Byte>, t: seq<Byte>, op: FieldOp)
    requires SameString(s, t)
    ensures Read(s, op) == Read(t, op)
  {
    forall i: nat | op.offset <= i < op.offset + op.bits ensures BitAt(s, i) == BitAt(t, i - op.offset + op.offset) {
    }
    FieldDepends(s, t, op.offset, op.offset, op.bits);
  }

  lemma SamePut(s: seq<Byte>, t: seq<Byte>, op: FieldOp, n: Option<int>)
    requires SameString(s, t) && Reaches(op, |s|) && Reaches(op, |t|)
    ensures SameString(Put(s, op, n), Put(t, op, n))
  {
    if n.Some? {
      var u := Unsigned64(n.value);
      forall i: nat ensures BitAt(Put(s, op, n), i) == BitAt(Put(t, op, n), i) {
        if op.offset <= i < op.offset + op.bits {
          StoreBit(s, op.offset, op.bits, u, i - op.offset);
          StoreBit(t, op.offset, op.bits, u, i - op.offset);
        } else {
          StoreFrame(s, op.offset, op.bits, u, i);
          StoreFrame(t, op.offset, op.bits, u, i);
        }
      }
    }
  }

  /** Strings that differ only in trailing zeros give the same replies and stay the same. */
  lemma {:induction false} PaddingIsNotSeen(s: seq<Byte>, t: seq<Byte>, ops: seq<FieldOp>)
    requires SameString(s, t) && AllParsed(ops) && AllReach(ops, |s|) && AllReach(ops, |t|)
    ensures Replies(s, ops) == Replies(t, ops) && SameString(AfterAll(s, ops), AfterAll(t, ops))
  {
    if ops != [] {
      var rest, op := ops[..|ops| - 1], ops[|ops| - 1];
      PaddingIsNotSeen(s, t, rest);
      var s1, t1 := AfterAll(s, rest), AfterAll(t, rest);
      SameReads(s1, t1, op);
      if !op.opcode.Get? {
        SamePut(s1, t1, op, Outcome(Read(s1, op), op));
      }
    }
  }

  // ---------- bitfieldCommand ----------

  /** The number that an operation asks to be in its field. */
  function Wanted(was: int, op: FieldOp): int {
    match op.opcode
    case Get => was
    case Set => if op.signed || op.arg >= 0 then op.arg else op.arg + 0x1_0000_0000_0000_0000
    case IncrBy => was + op.arg
  }

  /** The least number of the field. */
  function Least(op: FieldOp): int
    requires op.bits > 0
  {
    if op.signed then -(Pow2(op.bits - 1) as int) else 0
  }

  predicate InField(n: int, op: FieldOp)
    requires op.bits > 0
  {
    Least(op) <= n < Least(op) + Pow2(op.bits)
  }

  /** What the reply to an operation says of the string before and after it: a GET and a SET are answered what the field
      held, an INCRBY what it holds now, and nothing exactly if the number wanted is not written for not fitting. */
  ghost predicate Answered(before: seq<Byte>, after: seq<Byte>, op: FieldOp, reply: Option<int>)
    requires op.bits > 0
  {
    && (op.opcode.Get? ==> after == before && reply == Some(Read(before, op)))
    && (op.opcode.Set? && reply.Some? ==> reply.value == Read(before, op))
    && (op.opcode.IncrBy? && reply.Some? ==> reply.value == Read(after, op))
    && (!op.opcode.Get? ==> (reply.None? <==> op.policy.Fail? && !InField(Wanted(Read(before, op), op), op)))
    && (reply.None? ==> after == before)
  }

  /** The number left in the field: the one wanted if it fits; else the congruent one, or the nearer bound, but for
      numbers far below the range, which a saturating SET takes for large ones. */
  lemma NumberLeft(was: int, op: FieldOp)
    requires Parsed(op) && !op.opcode.Get? && InField(was, op)
    ensures var n, o := Wanted(was, op), Outcome(was, op);
      var least, greatest := Least(op), Least(op) + Pow2(op.bits) - 1;
      && (o.None? <==> op.policy.Fail? && !InField(n, op))
      && (InField(n, op) ==> o == Some(n))
      && (op.policy.Wrap? ==> InField(o.value, op) && o.value % Pow2(op.bits) == n % Pow2(op.bits))
      && (op.policy.Sat? && n > greatest ==> o.value == greatest)
      && (op.policy.Sat? && n < least ==>
            o.value == if op.opcode.Set? && greatest - n >= 0x8000_0000_0000_0000 then greatest else least)
  {
    LeastIsLo(op);
    WantedIsAsked(was, op);
    if Misjudged(op) {
      FarBelowIsBelow(op.arg, op.bits);
    }
    ResolvedIs(Wanted(was, op), Least(op), Pow2(op.bits), op.policy);
  }

  lemma LeastIsLo(op: FieldOp)
    requires Parsed(op)
    ensures Least(op) == Lo(op) && (op.signed ==> Max(op.bits) == Least(op) + Pow2(op.bits) - 1)
  {
    SignedSize(op.bits);
  }

  lemma WantedIsAsked(was: int, op: FieldOp)
    requires Parsed(op) && !op.opcode.Get?
    ensures Wanted(was, op) == Asked(was, op)
  {
  }

  lemma FarBelowIsBelow(value: int, bits: nat)
    requires 1 <= bits < 64
    ensures FarBelow(value, bits) <==> value < Min(bits) && Max(bits) - value >= 0x8000_0000_0000_0000
  {
  }

  lemma ResolvedIs(n: int, least: int, size: nat, policy: Policy)
    requires size > 0
    ensures var c, greatest := Resolve(n, least, size, policy), least + size - 1;
      && (least <= n <= greatest ==> c == Fits)
      && (n < least || n > greatest ==>
            match policy
            case Wrap => c.Limited? && least <= c.limit <= greatest && c.limit % size == n % size
            case Sat => c.Limited? && c.limit == if n > greatest then greatest else least
            case Fail => c.Refused?)
  {
    AroundIsCongruent(n, least, size);
  }

  lemma OneAnswered(s: seq<Byte>, op: FieldOp)
    requires Parsed(op) && (op.opcode.Get? || Reaches(op, |s|))
    ensures Answered(s, After(s, op), op, Reply(s, op))
  {
    if !op.opcode.Get? {
      ReadFits(s, op);
      SignedSize(op.bits);
      NumberLeft(Read(s, op), op);
      WrittenIsRead(s, op);
    }
  }

  /** Every reply is the answer of its operation on the string as it was left by those before it. */
  ghost predicate EachAnswered(base: seq<Byte>, ops: seq<FieldOp>, replies: seq<Option<int>>)
    requires AllParsed(ops) && AllReach(ops, |base|)
  {
    && |replies| == |ops|
    && (ops == [] ||
        var n := |ops| - 1;
        && EachAnswered(base, ops[..n], replies[..n])
        && Answered(AfterAll(base, ops[..n]), AfterAll(base, ops), ops[n], replies[n]))
  }

  lemma {:induction false} AllAnswered(base: seq<Byte>, ops: seq<FieldOp>)
    requires AllParsed(ops) && AllReach(ops, |base|)
    ensures EachAnswered(base, ops, Replies(base, ops))
  {
    if ops != [] {
      var rest, op := ops[..|ops| - 1], ops[|ops| - 1];
      AllAnswered(base, rest);
      OneAnswered(AfterAll(base, rest), op);
      assert Replies(base, ops)[..|rest|] == Replies(base, rest);
    }
  }

  /** bitfieldCommand, its arguments parsed; `value` is the string at the key. */
  method Execute(value: Option<seq<Byte>>, ops: seq<FieldOp>)
    returns (after: Option<seq<Byte>>, replies: seq<Option<int>>)
    requires AllParsed(ops)
    ensures ReadOnly(ops) ==> after == value
    ensures var needed := HighestWrite(ops) / 8 + 1;
            var length := if value.None? then 0 else |value.value|;
            !ReadOnly(ops) ==> after.Some? && |after.value| == if length < needed then needed else length
    ensures var s := if value.Some? then value.value else [];
            var base := if ReadOnly(ops) then s else Grown(s, HighestWrite(ops) / 8 + 1);
            AllReach(ops, |base|) && replies == Replies(base, ops) &&
             (after.Some? ==> after.value == AfterAll(base, ops)) && EachAnswered(base, ops, replies)
  {
    var s := if value.Some? then value.value else [];
    var base := if ReadOnly(ops) then s else Grown(s, HighestWrite(ops) / 8 + 1);
    HighestReaches(ops, |base|);
    var last;
    last, replies := Process(base, ops);
    AllAnswered(base, ops);
    after := if ReadOnly(ops) then value else Some(last);
    if ReadOnly(ops) {
      ReadOnlyKeeps(base, ops);
    }
  }

  lemma {:induction false} ReadOnlyKeeps(s: seq<Byte>, ops: seq<FieldOp>)
    requires AllParsed(ops) && ReadOnly(ops) && AllReach(ops, |s|)
    ensures AfterAll(s, ops) == s
  {
    if ops != [] {
      ReadOnlyKeeps(s, ops[..|ops| - 1]);
    }
  }

  lemma {:induction false} PrefixOfOps(ops: seq<FieldOp>, length: nat, j: nat)
    requires AllParsed(ops) && AllReach(ops, length) && j <= |ops|
    ensures AllParsed(ops[..j]) && AllReach(ops[..j], length)
  {
    if j < |ops| {
      PrefixOfOps(ops[..|ops| - 1], length, j);
      assert ops[..|ops| - 1][..j] == ops[..j];
    } else {
      assert ops[..j] == ops;
    }
  }

  /** The loop over the operations. */
  method Process(base: seq<Byte>, ops: seq<FieldOp>) returns (last: seq<Byte>, replies: seq<Option<int>>)
    requires AllParsed(ops) && AllReach(ops, |base|)
    ensures last == AfterAll(base, ops) && replies == Replies(base, ops)
  {
    var p := new Byte[|base|](i requires 0 <= i < |base| => base[i]);
    replies := [];
    assert p[..] == base;
    for j := 0 to |ops|
      invariant AllParsed(ops[..j]) && AllReach(ops[..j], |base|) && p.Length == |base|
      invariant p[..] == AfterAll(base, ops[..j]) && replies == Replies(base, ops[..j])
    {
      PrefixOfOps(ops, |base|, j + 1);
      assert ops[..j + 1][..j] == ops[..j];
      var reply := One(p, ops[j]);
      replies := replies + [reply];
    }
    assert ops[..|ops|] == ops;
    last := p[..];
  }

  method One(p: array<Byte>, op: FieldOp) returns (reply: Option<int>)
    requires Parsed(op) && (op.opcode.Get? || Reaches(op, p.Length))
    modifies p
    ensures p[..] == After(old(p[..]), op) && reply == Reply(old(p[..]), op)
  {
    if op.opcode.Get? {
      var val := ReadWindow(p[..], op);
      reply := Some(val);
    } else {
      reply := Write(p, op);
    }
  }
}
