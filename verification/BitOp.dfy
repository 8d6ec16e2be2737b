/**
  The BITOP command: strings combined bit by bit, four words at a time as far as all of them reach.
 */
module BitOp {
  import opened Words
  import opened Options
  import opened BitString

  datatype Operation = Fold(op: Op) | Not

  // ---------- the result, byte by byte ----------

  lemma BytesFit(op: Op, x: Byte, y: Byte)
    ensures Bitwise(op, x, y) < 256
  {
    ByteSize();
    BitwiseBound(op, x, y, 8);
  }

  function BytesOp(op: Op, x: Byte, y: Byte): Byte {
    BytesFit(op, x, y);
    Bitwise(op, x, y)
  }

  /** Byte `i` of the first `n` strings combined; the strings are zero-padded. */
  function Combined(op: Op, src: seq<seq<Byte>>, i: nat, n: nat): Byte
    requires 1 <= n <= |src|
  {
    if n == 1 then ByteAt(src[0], i) else BytesOp(op, Combined(op, src, i, n - 1), ByteAt(src[n - 1], i))
  }

  predicate Accepted(o: Operation, numkeys: nat) {
    numkeys >= 1 && (o.Not? ==> numkeys == 1)
  }

  function ResultByte(o: Operation, src: seq<seq<Byte>>, i: nat): Byte
    requires Accepted(o, |src|)
  {
    match o
    case Fold(op) => Combined(op, src, i, |src|)
    case Not => 255 - ByteAt(src[0], i)
  }

  // ---------- what that means for the bits ----------

  /** The ones among bit `k` of byte `i` of the first `n` strings. */
  function OnesAt(src: seq<seq<Byte>>, i: nat, k: nat, n: nat): nat
    requires n <= |src|
  {
    if n == 0 then 0 else OnesAt(src, i, k, n - 1) + BitOf(ByteAt(src[n - 1], i), k)
  }

  lemma {:induction false} OnesAreFew(src: seq<seq<Byte>>, i: nat, k: nat, n: nat)
    requires n <= |src|
    ensures OnesAt(src, i, k, n) <= n
  {
    if n > 0 {
      OnesAreFew(src, i, k, n - 1);
    }
  }

  /** AND: one if all are; OR: one if any is; XOR: one if an odd number is. */
  lemma {:induction false} CombinedBit(op: Op, src: seq<seq<Byte>>, i: nat, k: nat, n: nat)
    requires 1 <= n <= |src|
    ensures var ones := OnesAt(src, i, k, n);
            BitOf(Combined(op, src, i, n), k) == 1 <==>
            match op case And => ones == n case Or => ones > 0 case Xor => ones % 2 == 1
  {
    if n > 1 {
      CombinedBit(op, src, i, k, n - 1);
      OnesAreFew(src, i, k, n - 1);
      BitOfBitwise(op, Combined(op, src, i, n - 1), ByteAt(src[n - 1], i), k);
    }
  }

  lemma {:induction false} NotBit(b: nat, n: nat, k: nat)
    requires b < Pow2(n) && k < n
    ensures BitOf(Pow2(n) - 1 - b, k) == 1 - BitOf(b, k)
    decreases n
  {
    var rest := Pow2(n - 1) - 1 - b / 2;
    assert Pow2(n) - 1 - b == 2 * rest + (1 - b % 2);
    if k > 0 {
      NotBit(b / 2, n - 1, k - 1);
    }
  }

  // ---------- words and their bytes ----------

  function ByteOf(w: nat, k: nat): Byte {
    if k == 0 then w % 256 else ByteOf(w / 256, k - 1)
  }

  lemma {:induction false} LoadedByte(s: seq<Byte>, p: nat, n: nat, k: nat)
    requires k < n
    ensures ByteOf(Little(s, p, n), k) == ByteAt(s, p + k)
    decreases n
  {
    var b, rest: nat := ByteAt(s, p), Little(s, p + 1, n - 1);
    assert (b + 256 * rest) % 256 == b && (b + 256 * rest) / 256 == rest;
    if k > 0 {
      LoadedByte(s, p + 1, n - 1, k - 1);
    }
  }

  lemma PartsJoin(op: Op, a: Byte, x: nat, b: Byte, y: nat)
    ensures Bitwise(op, (a as nat) + 256 * x, (b as nat) + 256 * y) ==
              (BytesOp(op, a, b) as nat) + 256 * Bitwise(op, x, y)
  {
    ByteSize();
    BitwiseSplits(op, a, x, b, y, 8);
  }

  lemma Parts(w: nat, low: Byte, high: nat)
    requires w == (low as nat) + 256 * high
    ensures w % 256 == low && w / 256 == high
  {
  }

  lemma ByteParts(op: Op, w: nat, v: nat)
    ensures Bitwise(op, w, v) % 256 == BytesOp(op, w % 256, v % 256)
    ensures Bitwise(op, w, v) / 256 == Bitwise(op, w / 256, v / 256)
  {
    PartsJoin(op, w % 256, w / 256, v % 256, v / 256);
    Parts(Bitwise(op, w, v), BytesOp(op, w % 256, v % 256), Bitwise(op, w / 256, v / 256));
  }

  /** A bitwise operation on words acts on each of their bytes. */
  lemma {:induction false} ByteOfWords(op: Op, w: nat, v: nat, k: nat)
    ensures ByteOf(Bitwise(op, w, v), k) == BytesOp(op, ByteOf(w, k), ByteOf(v, k))
    decreases k
  {
    ByteParts(op, w, v);
    if k > 0 {
      ByteOfWords(op, w / 256, v / 256, k - 1);
    }
  }

  lemma {:induction false} ByteOfComplement(w: nat, n: nat, k: nat, all: nat)
    requires w <= all && all == Pow2(8 * n) - 1 && k < n
    ensures ByteOf(all - w, k) == 255 - ByteOf(w, k)
    decreases n
  {
    var rest := Pow2(8 * (n - 1)) - 1;
    Pow2Sum(8, 8 * (n - 1));
    ByteSize();
    assert all == 255 + 256 * rest;
    Complemented(w, rest);
    if k > 0 {
      ByteOfComplement(w / 256, n - 1, k - 1, rest);
    }
  }

  lemma Complemented(w: nat, rest: nat)
    requires w <= 255 + 256 * rest
    ensures w / 256 <= rest
    ensures (255 + 256 * rest - w) % 256 == 255 - w % 256 && (255 + 256 * rest - w) / 256 == rest - w / 256
  {
  }

  // ---------- the fast path ----------

  /** Bytes `from` to `to` of the string combined with those of `t`, the others as they were. */
  ghost predicate Merged(after: seq<Byte>, before: seq<Byte>, t: seq<Byte>, op: Op, from: nat, to: nat) {
    |after| == |before| && to <= |t| &&
    forall x: nat | x < |after| :: after[x] == if from <= x < to then BytesOp(op, before[x], t[x]) else before[x]
  }

  lemma MergedOn(c: seq<Byte>, b: seq<Byte>, a: seq<Byte>, t: seq<Byte>, op: Op, from: nat, mid: nat, to: nat)
    requires from <= mid <= to && Merged(b, a, t, op, from, mid) && Merged(c, b, t, op, mid, to)
    ensures Merged(c, a, t, op, from, to)
  {
  }

  method StoreWord(res: array<Byte>, p: nat, w: nat)
    requires p + 8 <= res.Length
    modifies res
    ensures forall x: nat | x < res.Length :: res[x] == if p <= x < p + 8 then ByteOf(w, x - p) else old(res[x])
  {
    forall k: nat | k < 8 {
      res[p + k] := ByteOf(w, k);
    }
  }

  /** lres[k] op= lp[i][k] */
  method MergeWord(res: array<Byte>, p: nat, t: seq<Byte>, op: Op)
    requires p + 8 <= res.Length && p + 8 <= |t|
    modifies res
    ensures Merged(res[..], old(res[..]), t, op, p, p + 8)
  {
    ghost var before := res[..];
    var w, v := Little(res[..], p, 8), Little(t, p, 8);
    StoreWord(res, p, Bitwise(op, w, v));
    forall x: nat | p <= x < p + 8 ensures ByteOf(Bitwise(op, w, v), x - p) == BytesOp(op, before[x], t[x]) {
      LoadedByte(before, p, 8, x - p);
      LoadedByte(t, p, 8, x - p);
      ByteOfWords(op, w, v, x - p);
    }
  }

  /** The four word operations of one key. */
  method MergeFourWords(res: array<Byte>, j: nat, t: seq<Byte>, op: Op)
    requires j + 32 <= res.Length && j + 32 <= |t|
    modifies res
    ensures Merged(res[..], old(res[..]), t, op, j, j + 32)
  {
    ghost var s0 := res[..];
    MergeWord(res, j, t, op);
    ghost var s1 := res[..];
    MergeWord(res, j + 8, t, op);
    ghost var s2 := res[..];
    MergedOn(s2, s1, s0, t, op, j, j + 8, j + 16);
    MergeWord(res, j + 16, t, op);
    ghost var s3 := res[..];
    MergedOn(s3, s2, s0, t, op, j, j + 16, j + 24);
    MergeWord(res, j + 24, t, op);
    MergedOn(res[..], s3, s0, t, op, j, j + 24, j + 32);
  }

  /** Bytes `from` to `to` of the string are those of the first `n` strings combined, the others as they were. */
  ghost predicate Folded(after: seq<Byte>, before: seq<Byte>, src: seq<seq<Byte>>, op: Op, from: nat, to: nat, n: nat)
    requires 1 <= n <= |src|
  {
    |after| == |before| &&
    forall x: nat | x < |after| :: after[x] == if from <= x < to then Combined(op, src, x, n) else before[x]
  }

  /** The bytes from `from` to `to` are still those of the first string. */
  ghost predicate Copied(s: seq<Byte>, first: seq<Byte>, from: nat, to: nat) {
    to <= |s| && to <= |first| && forall x: nat | from <= x < to :: s[x] == first[x]
  }

  lemma MergeFolds(c: seq<Byte>, b: seq<Byte>, a: seq<Byte>, src: seq<seq<Byte>>, op: Op, from: nat, to: nat, n: nat)
    requires 1 <= n < |src| && Folded(b, a, src, op, from, to, n) && Merged(c, b, src[n], op, from, to)
    ensures Folded(c, a, src, op, from, to, n + 1)
  {
  }

  ghost predicate AllReach(src: seq<seq<Byte>>, n: nat) {
    forall i | 0 <= i < |src| :: n <= |src[i]|
  }

  /** One round of the fast path for AND, OR and XOR. */
  method MergeBlock(res: array<Byte>, j: nat, src: seq<seq<Byte>>, op: Op)
    requires |src| >= 1 && AllReach(src, j + 32) && Copied(res[..], src[0], j, j + 32)
    modifies res
    ensures Folded(res[..], old(res[..]), src, op, j, j + 32, |src|)
  {
    ghost var s0 := res[..];
    for i := 1 to |src|
      invariant Folded(res[..], s0, src, op, j, j + 32, i)
    {
      ghost var s := res[..];
      MergeFourWords(res, j, src[i], op);
      MergeFolds(res[..], s, s0, src, op, j, j + 32, i);
    }
  }

  /** Bytes `from` to `to` complemented, the others as they were. */
  ghost predicate Complement(after: seq<Byte>, before: seq<Byte>, from: nat, to: nat) {
    |after| == |before| &&
    forall x: nat | x < |after| :: after[x] == if from <= x < to then 255 - before[x] else before[x]
  }

  method ComplementWord(res: array<Byte>, p: nat)
    requires p + 8 <= res.Length
    modifies res
    ensures Complement(res[..], old(res[..]), p, p + 8)
  {
    ghost var before := res[..];
    var w := Little(res[..], p, 8);
    WordSize();
    LittleFits(before, p, 8);
    StoreWord(res, p, TWO_64 - 1 - w);
    forall x: nat | p <= x < p + 8 ensures ByteOf(TWO_64 - 1 - w, x - p) == 255 - before[x] {
      LoadedByte(before, p, 8, x - p);
      ByteOfComplement(w, 8, x - p, TWO_64 - 1);
    }
  }

  lemma ComplementOn(c: seq<Byte>, b: seq<Byte>, a: seq<Byte>, from: nat, mid: nat, to: nat)
    requires from <= mid <= to && Complement(b, a, from, mid) && Complement(c, b, mid, to)
    ensures Complement(c, a, from, to)
  {
  }

  /** One round of the fast path for NOT. */
  method ComplementBlock(res: array<Byte>, j: nat)
    requires j + 32 <= res.Length
    modifies res
    ensures Complement(res[..], old(res[..]), j, j + 32)
  {
    ghost var s0 := res[..];
    ComplementWord(res, j);
    ghost var s1 := res[..];
    ComplementWord(res, j + 8);
    ghost var s2 := res[..];
    ComplementOn(s2, s1, s0, j, j + 8, j + 16);
    ComplementWord(res, j + 16);
    ghost var s3 := res[..];
    ComplementOn(s3, s2, s0, j, j + 16, j + 24);
    ComplementWord(res, j + 24);
    ComplementOn(res[..], s3, s0, j, j + 24, j + 32);
  }

  /** The bytes before `n` are the result. */
  ghost predicate Done(s: seq<Byte>, o: Operation, src: seq<seq<Byte>>, n: nat)
    requires Accepted(o, |src|)
  {
    n <= |s| && forall x: nat | x < n :: s[x] == ResultByte(o, src, x)
  }

  method Block(res: array<Byte>, j: nat, src: seq<seq<Byte>>, o: Operation, minlen: nat)
    requires Accepted(o, |src|) && j + 32 <= minlen && AllReach(src, minlen)
    requires Done(res[..], o, src, j) && Copied(res[..], src[0], j, minlen)
    modifies res
    ensures Done(res[..], o, src, j + 32) && Copied(res[..], src[0], j + 32, minlen)
  {
    ghost var s := res[..];
    match o {
      case Fold(op) =>
        MergeBlock(res, j, src, op);
        FoldedIsDone(res[..], s, src, op, j, minlen);
      case Not =>
        ComplementBlock(res, j);
        ComplementIsDone(res[..], s, src, j, minlen);
    }
  }

  lemma FoldedIsDone(after: seq<Byte>, before: seq<Byte>, src: seq<seq<Byte>>, op: Op, j: nat, minlen: nat)
    requires |src| >= 1 && j + 32 <= minlen && Done(before, Fold(op), src, j) && Copied(before, src[0], j, minlen)
    requires Folded(after, before, src, op, j, j + 32, |src|)
    ensures Done(after, Fold(op), src, j + 32) && Copied(after, src[0], j + 32, minlen)
  {
  }

  lemma ComplementIsDone(after: seq<Byte>, before: seq<Byte>, src: seq<seq<Byte>>, j: nat, minlen: nat)
    requires |src| == 1 && j + 32 <= minlen && Done(before, Not, src, j) && Copied(before, src[0], j, minlen)
    requires Complement(after, before, j, j + 32)
    ensures Done(after, Not, src, j + 32) && Copied(after, src[0], j + 32, minlen)
  {
  }

  /** The fast path: as far as all strings reach, at most 16 of them; returns the next byte to process. */
  method FastPath(res: array<Byte>, src: seq<seq<Byte>>, o: Operation, len: nat) returns (j: nat)
    requires Accepted(o, |src|) && AllReach(src, len) && len <= res.Length
    modifies res
    ensures j == (if |src| <= 16 then len - len % 32 else 0) && Done(res[..], o, src, j)
  {
    j := 0;
    var minlen := len;
    if minlen >= 32 && |src| <= 16 {
      forall x | 0 <= x < len {
        res[x] := src[0][x];
      }
      while minlen >= 32
        invariant j + minlen == len && j % 32 == 0 && Done(res[..], o, src, j) && Copied(res[..], src[0], j, len)
      {
        Block(res, j, src, o, len);
        j := j + 32;
        minlen := minlen - 32;
      }
    }
  }

  // ---------- the rest, byte by byte ----------

  method OneByte(src: seq<seq<Byte>>, o: Operation, j: nat) returns (output: Byte)
    requires Accepted(o, |src|)
    ensures output == ResultByte(o, src, j)
  {
    output := if |src[0]| <= j then 0 else src[0][j];
    if o.Not? {
      output := 255 - output;
    }
    for i := 1 to |src|
      invariant output == if o.Not? then 255 - ByteAt(src[0], j) else Combined(o.op, src, j, i)
    {
      var byte: Byte := if |src[i]| <= j then 0 else src[i][j];
      output := BytesOp(o.op, output, byte);
    }
  }

  method SlowPath(res: array<Byte>, src: seq<seq<Byte>>, o: Operation, from: nat)
    requires Accepted(o, |src|) && from <= res.Length && Done(res[..], o, src, from)
    modifies res
    ensures Done(res[..], o, src, res.Length)
  {
    for j := from to res.Length
      invariant Done(res[..], o, src, j)
    {
      var output := OneByte(src, o, j);
      res[j] := output;
    }
  }

  // ---------- bitopCommand ----------

  function Contents(keys: seq<Option<seq<Byte>>>): (r: seq<seq<Byte>>)
    ensures |r| == |keys|
  {
    if keys == [] then []
    else
      var last := keys[|keys| - 1];
      Contents(keys[..|keys| - 1]) + [if last.Some? then last.value else []]
  }

  function Longest(src: seq<seq<Byte>>): nat {
    if src == [] then 0
    else
      var rest, last := Longest(src[..|src| - 1]), |src[|src| - 1]|;
      if last > rest then last else rest
  }

  lemma {:induction false} LongestBounds(src: seq<seq<Byte>>, i: nat)
    requires i < |src|
    ensures |src[i]| <= Longest(src)
  {
    if i < |src| - 1 {
      LongestBounds(src[..|src| - 1], i);
    }
  }

  lemma ReachGrows(src: seq<seq<Byte>>, m: nat, t: seq<Byte>, n: nat)
    requires AllReach(src, m) && n <= |t| && (n <= m || src == [])
    ensures AllReach(src + [t], n) && (src + [t])[..|src|] == src
  {
  }

  lemma ContentsGrow(keys: seq<Option<seq<Byte>>>, j: nat)
    requires j < |keys|
    ensures Contents(keys[..j + 1]) == Contents(keys[..j]) + [if keys[j].None? then [] else keys[j].value]
  {
    assert keys[..j + 1][..j] == keys[..j];
  }

  lemma LongestGrows(src: seq<seq<Byte>>, t: seq<Byte>)
    ensures Longest(src + [t]) == if |t| > Longest(src) then |t| else Longest(src)
  {
    assert (src + [t])[..|src|] == src;
  }

  /** What is known when `j` keys were looked up. */
  ghost predicate Looked(keys: seq<Option<seq<Byte>>>, j: nat, src: seq<seq<Byte>>, minlen: nat, maxlen: nat)
    requires j <= |keys|
  {
    src == Contents(keys[..j]) && |src| == j && maxlen == Longest(src) && AllReach(src, minlen)
  }

  lemma LookedNext(keys: seq<Option<seq<Byte>>>, j: nat, src: seq<seq<Byte>>, minlen: nat, maxlen: nat,
                   s: seq<Byte>, m: nat)
    requires j < |keys| && Looked(keys, j, src, minlen, maxlen) && s == if keys[j].None? then [] else keys[j].value
    requires m <= |s| && (m <= minlen || j == 0)
    ensures Looked(keys, j + 1, src + [s], m, if |s| > maxlen then |s| else maxlen)
  {
    ContentsGrow(keys, j);
    LongestGrows(src, s);
    ReachGrows(src, minlen, s, m);
  }

  /** The loop that looks the keys up: a missing key is an empty string. */
  method Lookup(keys: seq<Option<seq<Byte>>>) returns (src: seq<seq<Byte>>, minlen: nat, maxlen: nat)
    ensures src == Contents(keys) && maxlen == Longest(src) && AllReach(src, minlen)
  {
    src, minlen, maxlen := [], 0, 0;
    for j := 0 to |keys|
      invariant Looked(keys, j, src, minlen, maxlen)
    {
      if keys[j].None? {
        LookedNext(keys, j, src, minlen, maxlen, [], 0);
        src := src + [[]];
        minlen := 0;
      } else {
        var s := keys[j].value;
        LookedNext(keys, j, src, minlen, maxlen, s, if j == 0 || |s| < minlen then |s| else minlen);
        src := src + [s];
        if |s| > maxlen {
          maxlen := |s|;
        }
        if j == 0 || |s| < minlen {
          minlen := |s|;
        }
      }
    }
    assert keys[..|keys|] == keys;
  }

  datatype Target = SyntaxError | Deleted | Stored(value: seq<Byte>)

  /**
    bitopCommand, after the parsing of its arguments: what becomes of the target key.  The string stored is as long
    as the longest source and combines the zero-padded sources byte by byte, whichever path computed it.
   */
  method Bitop(o: Operation, keys: seq<Option<seq<Byte>>>) returns (t: Target)
    requires |keys| >= 1
    ensures t.SyntaxError? <==> o.Not? && |keys| != 1
    ensures t.Deleted? ==> Longest(Contents(keys)) == 0
    ensures t.Stored? ==> 0 < |t.value| == Longest(Contents(keys)) && Done(t.value, o, Contents(keys), |t.value|)
  {
    if o.Not? && |keys| != 1 {
      return SyntaxError;
    }
    var src, minlen, maxlen := Lookup(keys);
    if maxlen == 0 {
      return Deleted;
    }
    LongestBounds(src, 0);
    assert minlen <= |src[0]|;
    var res := new Byte[maxlen](_ => 0);
    var j := FastPath(res, src, o, minlen);
    SlowPath(res, src, o, j);
    t := Stored(res[..]);
  }
}
