/**
  The append-only file format: the encoder of command vectors and the loader that reads them back,
  also from a file that ends in the middle of a command.
 */
module AofCodec {

  /** A byte is written as the character with its code. */
  type Bytes = string

  /** A command: its name and arguments, arbitrary binary strings. */
  type Command = seq<Bytes>

  const STAR := '*'
  const DOLLAR := '$'
  const CR := '\r'
  const LF := '\n'

  // ---------- encoder ----------

  function Digit(d: nat): char
    requires d < 10
  {
    ('0' as int + d) as char
  }

  /** ll2string of a natural number. */
  function Digits(n: nat): (r: Bytes)
    ensures r != []
  {
    if n < 10 then [Digit(n)] else Digits(n / 10) + [Digit(n % 10)]
  }

  function Line(kind: char, n: nat): Bytes {
    [kind] + Digits(n) + [CR, LF]
  }

  function EncodeArg(a: Bytes): Bytes {
    Line(DOLLAR, |a|) + a + [CR, LF]
  }

  function EncodeArgs(args: Command): Bytes {
    if args == [] then [] else EncodeArg(args[0]) + EncodeArgs(args[1..])
  }

  function EncodeCommand(c: Command): Bytes {
    Line(STAR, |c|) + EncodeArgs(c)
  }

  function EncodeAll(cs: seq<Command>): Bytes {
    if cs == [] then [] else EncodeCommand(cs[0]) + EncodeAll(cs[1..])
  }

  /** The order in which the digits come out of a machine division. */
  method FormatNumber(n: nat) returns (r: Bytes)
    ensures r == Digits(n)
  {
    var m := n;
    r := [];
    while m >= 10
      invariant Digits(n) == Digits(m) + r
    {
      r := [Digit(m % 10)] + r;
      m := m / 10;
    }
    r := [Digit(m)] + r;
  }

  lemma EncodeArgsAppend(args: Command, a: Bytes)
    ensures EncodeArgs(args + [a]) == EncodeArgs(args) + EncodeArg(a)
  {
    if args == [] {
      assert [a][1..] == [];
    } else {
      assert (args + [a])[1..] == args[1..] + [a];
    }
  }

  /** One bulk argument: its length line, its bytes, CRLF. */
  method CatArg(dst: Bytes, a: Bytes) returns (r: Bytes)
    ensures r == dst + EncodeArg(a)
  {
    var n := FormatNumber(|a|);
    r := dst + ([DOLLAR] + n + [CR, LF]);
    r := r + a;
    r := r + [CR, LF];
  }

  method CatAppendOnlyGenericCommand(dst: Bytes, argv: Command) returns (r: Bytes)
    ensures r == dst + EncodeCommand(argv)
  {
    var n := FormatNumber(|argv|);
    r := dst + ([STAR] + n + [CR, LF]);
    for j := 0 to |argv|
      invariant r == dst + (Line(STAR, |argv|) + EncodeArgs(argv[..j]))
    {
      EncodeArgsAppend(argv[..j], argv[j]);
      assert argv[..j] + [argv[j]] == argv[..j + 1];
      r := CatArg(r, argv[j]);
    }
    assert argv[..|argv|] == argv;
  }

  // ---------- the C library ----------

  /** How many bytes fgets takes: through a newline, but not more than the buffer holds. */
  function LineLength(b: Bytes, limit: nat): (n: nat)
    ensures n <= |b| && n <= limit && (b != [] && limit > 0 ==> n > 0)
  {
    if b == [] || limit == 0 then 0
    else if b[0] == LF then 1
    else 1 + LineLength(b[1..], limit - 1)
  }

  /** sizeof(buf) - 1 */
  const LINE_MAX: nat := 127

  predicate IsDigit(c: char) { '0' <= c <= '9' }

  function DigitsValue(b: Bytes, acc: nat): nat {
    if b == [] || !IsDigit(b[0]) then acc else DigitsValue(b[1..], acc * 10 + (b[0] as int - '0' as int))
  }

  predicate IsSpace(c: char) { c == ' ' || '\t' <= c <= '\r' }

  /** atoi and strtol: white space, a sign, digits. */
  function ParseNumber(b: Bytes): int {
    if b == [] then 0
    else if IsSpace(b[0]) then ParseNumber(b[1..])
    else if b[0] == '-' then 0 - DigitsValue(b[1..], 0)
    else if b[0] == '+' then DigitsValue(b[1..], 0)
    else DigitsValue(b, 0)
  }

  lemma SpaceIs(c: char)
    ensures IsSpace(c) <==> c == ' ' || c as int in {9, 10, 11, 12, 13}
  {
  }

  /** White space is skipped, as much as there is; a sign may follow; digits count up to the first other byte. */
  lemma {:induction false} NumberAfterSpace(spaces: Bytes, b: Bytes)
    requires forall c <- spaces :: IsSpace(c)
    ensures ParseNumber(spaces + b) == ParseNumber(b)
  {
    if spaces == [] {
      assert spaces + b == b;
    } else {
      assert (spaces + b)[1..] == spaces[1..] + b;
      assert spaces[0] in spaces;
      NumberAfterSpace(spaces[1..], b);
    }
  }

  lemma NumberIs(b: Bytes)
    ensures b == [] ==> ParseNumber(b) == 0
    ensures b != [] && b[0] == '-' ==> ParseNumber(b) == 0 - DigitsValue(b[1..], 0)
    ensures b != [] && b[0] == '+' ==> ParseNumber(b) == DigitsValue(b[1..], 0)
    ensures b != [] && b[0] != '-' && b[0] != '+' && !IsSpace(b[0]) ==> ParseNumber(b) == DigitsValue(b, 0)
  {
  }

  // ---------- loader ----------

  /** One reading step: a value and what is left, the end of the file too early, or a fatal error. */
  datatype Read<T> = Got(value: T, rest: Bytes) | Short | Fatal

  function ReadArg(b: Bytes): (r: Read<Bytes>)
    ensures r.Got? ==> |r.rest| < |b|
  {
    if b == [] then Short
    else
      var n := LineLength(b, LINE_MAX);
      if b[0] != DOLLAR then Fatal
      else
        var len := ParseNumber(b[1..n]);
        var rest := b[n..];
        if len < 0 then Fatal
        else if |rest| < len + 2 then Short
        else Got(rest[..len], rest[len + 2..])
  }

  function ReadArgs(b: Bytes, n: nat): (r: Read<Command>)
    ensures r.Got? ==> |r.rest| <= |b| && |r.value| == n
    decreases n
  {
    if n == 0 then Got([], b)
    else
      match ReadArg(b)
      case Got(a, rest) =>
        (match ReadArgs(rest, n - 1)
         case Got(more, rest') => Got([a] + more, rest')
         case Short => Short
         case Fatal => Fatal)
      case Short => Short
      case Fatal => Fatal
  }

  function ReadCommand(b: Bytes): (r: Read<Command>)
    requires b != []
    ensures r.Got? ==> |r.rest| < |b| && r.value != []
  {
    var n := LineLength(b, LINE_MAX);
    if b[0] != STAR then Fatal
    else if n == 1 then Short
    else if b[1] == '\0' then (if n == |b| && n < LINE_MAX && b[n - 1] != LF then Short else Fatal)
    else
      var argc := ParseNumber(b[1..n]);
      if argc < 1 then Fatal else ReadArgs(b[n..], argc)
  }

  /** A line that does not start a command is fatal; so is one whose second byte is NUL, unless the file ends before the
      line does, and a count below one; a lone star at the end is a short read. */
  lemma BadCommandLine(b: Bytes)
    requires b != []
    ensures b[0] != '*' ==> ReadCommand(b) == Fatal
    ensures b == ['*'] ==> ReadCommand(b) == Short
    ensures |b| > 1 && b[0] == '*' && b[1] == '\0' ==>
              ReadCommand(b) == if LF !in b && |b| < LINE_MAX then Short else Fatal
    ensures |b| > 1 && b[0] == '*' && b[1] != '\0' && ParseNumber(b[1..LineLength(b, LINE_MAX)]) < 1 ==>
              ReadCommand(b) == Fatal
  {
    WholeLine(b, LINE_MAX);
  }

  lemma {:induction false} WholeLine(b: Bytes, limit: nat)
    ensures var n := LineLength(b, limit);
      && (n == |b| && n < limit && n > 0 && b[n - 1] != LF <==> LF !in b && 0 < |b| < limit)
      && (|b| > 1 && limit > 1 && b[0] != LF ==> n > 1)
  {
    if b != [] && limit > 0 {
      WholeLine(b[1..], limit - 1);
      assert b == [b[0]] + b[1..];
    }
  }

  datatype Ending = AtEof | Truncated | Died

  /** The commands handed to the fake client, how reading ended, and the bytes after the last of them. */
  datatype Loaded = Loaded(commands: seq<Command>, ending: Ending, rest: Bytes)

  function LoadAll(b: Bytes, known: Bytes -> bool): Loaded
    decreases |b|
  {
    if b == [] then Loaded([], AtEof, b)
    else
      match ReadCommand(b)
      case Got(c, rest) =>
        if !known(c[0]) then Loaded([], Died, b)
        else
          var l := LoadAll(rest, known);
          Loaded([c] + l.commands, l.ending, l.rest)
      case Short => Loaded([], Truncated, b)
      case Fatal => Loaded([], Died, b)
  }

  // ---------- numbers come back ----------

  lemma {:induction false} DigitsAreDigits(n: nat)
    ensures forall d <- Digits(n) :: IsDigit(d)
    ensures n > 0 ==> Digits(n)[0] != '0'
  {
    if n >= 10 {
      DigitsAreDigits(n / 10);
    }
  }

  lemma {:induction false} DigitsRead(n: nat, tail: Bytes)
    ensures DigitsValue(Digits(n) + tail, 0) == DigitsValue(tail, n)
  {
    if n >= 10 {
      DigitsRead(n / 10, [Digit(n % 10)] + tail);
      assert Digits(n) + tail == Digits(n / 10) + ([Digit(n % 10)] + tail);
      assert ([Digit(n % 10)] + tail)[1..] == tail;
    } else {
      assert ([Digit(n)] + tail)[1..] == tail;
    }
  }

  function Pow10(k: nat): nat { if k == 0 then 1 else 10 * Pow10(k - 1) }

  lemma {:induction false} DigitsAreFew(n: nat, k: nat)
    requires n < Pow10(k) && k > 0
    ensures |Digits(n)| <= k
  {
    if n >= 10 {
      DigitsAreFew(n / 10, k - 1);
    }
  }

  /** What the C types of argc and of the lengths hold. */
  const INT32_MAX: nat := 0x7fff_ffff
  const INT64_MAX: nat := 0x7fff_ffff_ffff_ffff

  lemma DigitsFitLine(n: nat)
    requires n <= INT64_MAX
    ensures |Digits(n)| <= 19
  {
    assert Pow10(19) == 10_000_000_000_000_000_000 by {
      assert Pow10(5) == 100_000;
      assert Pow10(10) == 10_000_000_000;
      assert Pow10(15) == 1_000_000_000_000_000;
    }
    DigitsAreFew(n, 19);
  }

  /** Cutting a decimal number off at the right leaves a decimal number, positive if it was. */
  lemma {:induction false} DigitsPrefix(n: nat, m: nat) returns (k: nat)
    requires 0 < m <= |Digits(n)|
    ensures Digits(n)[..m] == Digits(k) && (n > 0 ==> k > 0)
  {
    if m == |Digits(n)| {
      k := n;
      assert Digits(n)[..m] == Digits(n);
    } else {
      k := DigitsPrefix(n / 10, m);
      assert Digits(n)[..m] == Digits(n / 10)[..m];
    }
  }

  lemma {:induction false} LineEnds(x: Bytes, tail: Bytes, limit: nat)
    requires LF !in x && |x| < limit
    ensures LineLength(x, limit) == |x| && LineLength(x + [LF] + tail, limit) == |x| + 1
  {
    if x == [] {
      assert x + [LF] + tail == [LF] + tail;
    } else {
      LineEnds(x[1..], tail, limit - 1);
      assert (x + [LF] + tail)[1..] == x[1..] + [LF] + tail;
    }
  }

  /** A length line is read whole, and its number comes back. */
  lemma LineReads(kind: char, n: nat, tail: Bytes)
    requires n <= INT64_MAX && kind != LF
    ensures var b, h := Line(kind, n) + tail, |Line(kind, n)|;
      LineLength(b, LINE_MAX) == h && b[h..] == tail && b[1] != '\0' && h > 3 && ParseNumber(b[1..h]) == n
  {
    DigitsFitLine(n);
    DigitsAreDigits(n);
    DigitsRead(n, [CR, LF]);
    var x := [kind] + Digits(n) + [CR];
    LineEnds(x, tail, LINE_MAX);
    assert Line(kind, n) + tail == x + [LF] + tail;
    assert (Line(kind, n) + tail)[1..|Line(kind, n)|] == Digits(n) + [CR, LF];
  }

  /** A length line cut short still reads as one line, of some number: positive if the whole one was. */
  lemma CutLineReads(kind: char, n: nat, m: nat)
    requires n <= INT64_MAX && kind != LF && 1 < m < |Line(kind, n)|
    ensures var b := Line(kind, n)[..m];
      LineLength(b, LINE_MAX) == m && b[1] != '\0' && ParseNumber(b[1..m]) >= (if n > 0 then 1 else 0)
  {
    DigitsFitLine(n);
    DigitsAreDigits(n);
    var b := Line(kind, n)[..m];
    var whole := [kind] + Digits(n) + [CR];
    assert b == whole[..m] && LF !in whole;
    LineEnds(b, [], LINE_MAX);
    var k;
    CutMiddle(kind, Digits(n), m);
    if m - 1 <= |Digits(n)| {
      k := DigitsPrefix(n, m - 1);
      assert b[1..m] == Digits(k) + [];
      DigitsRead(k, []);
    } else {
      k := n;
      DigitsRead(k, [CR]);
    }
    DigitsAreDigits(k);
  }

  lemma CutMiddle(kind: char, d: Bytes, m: nat)
    requires 1 < m < |d| + 3
    ensures ([kind] + d + [CR, LF])[..m][1..m] == if m - 1 <= |d| then d[..m - 1] else d + [CR]
  {
  }

  // ---------- whole commands come back, cut ones are noticed ----------

  ghost predicate Storable(c: Command) {
    0 < |c| <= INT32_MAX && forall a <- c :: |a| <= INT64_MAX
  }

  lemma ArgReads(a: Bytes, tail: Bytes)
    requires |a| <= INT64_MAX
    ensures ReadArg(EncodeArg(a) + tail) == Got(a, tail)
  {
    LineReads(DOLLAR, |a|, a + [CR, LF] + tail);
    assert EncodeArg(a) + tail == Line(DOLLAR, |a|) + (a + [CR, LF] + tail);
    var rest := a + [CR, LF] + tail;
    assert rest[..|a|] == a && rest[|a| + 2..] == tail;
  }

  lemma CutArgIsShort(a: Bytes, m: nat)
    requires |a| <= INT64_MAX && m < |EncodeArg(a)|
    ensures ReadArg(EncodeArg(a)[..m]) == Short
  {
    var h := |Line(DOLLAR, |a|)|;
    if h <= m {
      var tail := (a + [CR, LF])[..m - h];
      LineReads(DOLLAR, |a|, tail);
      assert EncodeArg(a)[..m] == Line(DOLLAR, |a|) + tail;
    } else if m > 1 {
      CutLineReads(DOLLAR, |a|, m);
      assert EncodeArg(a)[..m] == Line(DOLLAR, |a|)[..m];
    } else if m == 1 {
      assert EncodeArg(a)[..m] == [DOLLAR];
      assert [DOLLAR][1..1] == [];
    }
  }

  lemma NextArgReads(a: Bytes, n: nat, tail: Bytes)
    requires |a| <= INT64_MAX && n > 0
    ensures ReadArgs(EncodeArg(a) + tail, n) ==
      match ReadArgs(tail, n - 1)
      case Got(more, rest) => Got([a] + more, rest)
      case Short => Short
      case Fatal => Fatal
  {
    ArgReads(a, tail);
  }

  lemma EncodeArgsSplits(args: Command, tail: Bytes)
    requires args != []
    ensures EncodeArgs(args) + tail == EncodeArg(args[0]) + (EncodeArgs(args[1..]) + tail)
  {
  }

  lemma MoreArgsRead(a: Bytes, more: Command, text: Bytes, tail: Bytes)
    requires |a| <= INT64_MAX && ReadArgs(text, |more|) == Got(more, tail)
    ensures ReadArgs(EncodeArg(a) + text, |more| + 1) == Got([a] + more, tail)
  {
    NextArgReads(a, |more| + 1, text);
  }

  lemma {:induction false} ArgsRead(args: Command, tail: Bytes)
    requires forall a <- args :: |a| <= INT64_MAX
    ensures ReadArgs(EncodeArgs(args) + tail, |args|) == Got(args, tail)
  {
    if args == [] {
      assert EncodeArgs(args) + tail == tail;
    } else {
      ArgsRead(args[1..], tail);
      MoreArgsRead(args[0], args[1..], EncodeArgs(args[1..]) + tail, tail);
      EncodeArgsSplits(args, tail);
      assert [args[0]] + args[1..] == args;
    }
  }

  lemma {:induction false} CutArgsAreShort(args: Command, m: nat)
    requires (forall a <- args :: |a| <= INT64_MAX) && m < |EncodeArgs(args)|
    ensures ReadArgs(EncodeArgs(args)[..m], |args|) == Short
  {
    var e, b := EncodeArg(args[0]), EncodeArgs(args)[..m];
    if m < |e| {
      CutArgIsShort(args[0], m);
      assert b == e[..m];
    } else {
      var more := EncodeArgs(args[1..])[..m - |e|];
      NextArgReads(args[0], |args|, more);
      CutArgsAreShort(args[1..], m - |e|);
      assert b == e + more;
    }
  }

  /** Encoding and reading undo each other, for arbitrary binary arguments. */
  lemma CommandReads(c: Command, tail: Bytes)
    requires Storable(c)
    ensures EncodeCommand(c) + tail != [] && ReadCommand(EncodeCommand(c) + tail) == Got(c, tail)
  {
    LineReads(STAR, |c|, EncodeArgs(c) + tail);
    ArgsRead(c, tail);
    assert EncodeCommand(c) + tail == Line(STAR, |c|) + (EncodeArgs(c) + tail);
  }

  /** A command cut anywhere is never taken for another one. */
  lemma CutCommandIsShort(c: Command, m: nat)
    requires Storable(c) && 0 < m < |EncodeCommand(c)|
    ensures EncodeCommand(c)[..m] != [] && ReadCommand(EncodeCommand(c)[..m]) == Short
  {
    var h, b := |Line(STAR, |c|)|, EncodeCommand(c)[..m];
    if h <= m {
      var tail := EncodeArgs(c)[..m - h];
      LineReads(STAR, |c|, tail);
      CutArgsAreShort(c, m - h);
      assert b == Line(STAR, |c|) + tail;
    } else if m > 1 {
      CutLineReads(STAR, |c|, m);
      assert b == Line(STAR, |c|)[..m];
      assert b[m..] == [];
      CutArgsAreShortAtOnce(ParseNumber(b[1..m]));
    }
  }

  lemma CutArgsAreShortAtOnce(n: nat)
    requires n > 0
    ensures ReadArgs([], n) == Short
  {
  }

  // ---------- whole files ----------

  /** How many commands lie completely within the first `n` bytes. */
  ghost function Complete(cs: seq<Command>, n: nat): (k: nat)
    ensures k <= |cs|
  {
    if cs == [] || n < |EncodeCommand(cs[0])| then 0 else 1 + Complete(cs[1..], n - |EncodeCommand(cs[0])|)
  }

  lemma {:induction false} CompleteIsGreatest(cs: seq<Command>, n: nat)
    ensures var k := Complete(cs, n);
      |EncodeAll(cs[..k])| <= n && (k < |cs| ==> n < |EncodeAll(cs[..k + 1])|)
  {
    if cs != [] && n >= |EncodeCommand(cs[0])| {
      var k := Complete(cs[1..], n - |EncodeCommand(cs[0])|);
      CompleteIsGreatest(cs[1..], n - |EncodeCommand(cs[0])|);
      assert cs[..k + 1][1..] == cs[1..][..k];
      assert k < |cs[1..]| ==> cs[..k + 2][1..] == cs[1..][..k + 1];
    } else if cs != [] {
      assert cs[..1][1..] == [];
    }
  }

  lemma NextCommandLoads(c: Command, tail: Bytes, known: Bytes -> bool)
    requires Storable(c) && known(c[0])
    ensures var l := LoadAll(tail, known);
      LoadAll(EncodeCommand(c) + tail, known) == Loaded([c] + l.commands, l.ending, l.rest)
  {
    CommandReads(c, tail);
  }

  /** `l` holds exactly the commands that are complete in the first `n` bytes of the encoded stream, and
      exactly the bytes behind the last of them. */
  ghost predicate HoldsComplete(cs: seq<Command>, n: nat, l: Loaded)
    requires n <= |EncodeAll(cs)|
  {
    var k := Complete(cs, n);
    && l.commands == cs[..k]
    && EncodeAll(cs)[..n] == EncodeAll(cs[..k]) + l.rest
    && l.ending == if l.rest == [] then AtEof else Truncated
  }

  lemma PrefixSplits(cs: seq<Command>, n: nat)
    requires cs != [] && |EncodeCommand(cs[0])| <= n <= |EncodeAll(cs)|
    ensures EncodeAll(cs)[..n] == EncodeCommand(cs[0]) + EncodeAll(cs[1..])[..n - |EncodeCommand(cs[0])|]
  {
  }

  lemma OneMoreHeld(cs: seq<Command>, n: nat, l: Loaded)
    requires cs != [] && |EncodeCommand(cs[0])| <= n <= |EncodeAll(cs)|
    requires HoldsComplete(cs[1..], n - |EncodeCommand(cs[0])|, l)
    ensures HoldsComplete(cs, n, Loaded([cs[0]] + l.commands, l.ending, l.rest))
  {
    var k, m := Complete(cs, n), n - |EncodeCommand(cs[0])|;
    PrefixSplits(cs, n);
    Glue(EncodeAll(cs)[..n], EncodeCommand(cs[0]), EncodeAll(cs[1..])[..m], EncodeAll(cs[1..][..k - 1]), l.rest);
    OneMoreComplete(cs, k);
  }

  lemma Glue(all: Bytes, a: Bytes, tail: Bytes, b: Bytes, c: Bytes)
    requires all == a + tail && tail == b + c
    ensures all == a + b + c
  {
  }

  lemma NextPrefixLoads(cs: seq<Command>, n: nat, known: Bytes -> bool)
    requires cs != [] && Storable(cs[0]) && known(cs[0][0]) && |EncodeCommand(cs[0])| <= n <= |EncodeAll(cs)|
    ensures var l := LoadAll(EncodeAll(cs[1..])[..n - |EncodeCommand(cs[0])|], known);
      LoadAll(EncodeAll(cs)[..n], known) == Loaded([cs[0]] + l.commands, l.ending, l.rest)
  {
    PrefixSplits(cs, n);
    NextCommandLoads(cs[0], EncodeAll(cs[1..])[..n - |EncodeCommand(cs[0])|], known);
  }

  /** Main result: so loads every prefix of every encoded stream. */
  lemma {:induction false} PrefixLoads(cs: seq<Command>, n: nat, known: Bytes -> bool)
    requires (forall c <- cs :: Storable(c) && known(c[0])) && n <= |EncodeAll(cs)|
    ensures HoldsComplete(cs, n, LoadAll(EncodeAll(cs)[..n], known))
  {
    if Complete(cs, n) > 0 {
      var m := n - |EncodeCommand(cs[0])|;
      PrefixLoads(cs[1..], m, known);
      OneMoreHeld(cs, n, LoadAll(EncodeAll(cs[1..])[..m], known));
      NextPrefixLoads(cs, n, known);
    } else {
      NoneComplete(cs, n, known);
    }
  }

  lemma OneMoreComplete(cs: seq<Command>, k: nat)
    requires 0 < k <= |cs|
    ensures cs[..k] == [cs[0]] + cs[1..][..k - 1]
    ensures EncodeAll(cs[..k]) == EncodeCommand(cs[0]) + EncodeAll(cs[1..][..k - 1])
  {
  }

  lemma NoneComplete(cs: seq<Command>, n: nat, known: Bytes -> bool)
    requires (forall c <- cs :: Storable(c)) && n <= |EncodeAll(cs)| && Complete(cs, n) == 0
    ensures var b := EncodeAll(cs)[..n];
      LoadAll(b, known) == Loaded([], if b == [] then AtEof else Truncated, b)
  {
    if n > 0 {
      CutCommandIsShort(cs[0], n);
      assert EncodeAll(cs)[..n] == EncodeCommand(cs[0])[..n];
    }
  }

  /** Round trip: the whole stream loads as the commands it was made of. */
  lemma {:induction false} StreamLoads(cs: seq<Command>, known: Bytes -> bool)
    requires forall c <- cs :: Storable(c) && known(c[0])
    ensures LoadAll(EncodeAll(cs), known) == Loaded(cs, AtEof, [])
  {
    if cs != [] {
      StreamLoads(cs[1..], known);
      NextCommandLoads(cs[0], EncodeAll(cs[1..]), known);
      assert [cs[0]] + cs[1..] == cs;
    }
  }

  lemma {:induction false} EncodeSplits(cs: seq<Command>, k: nat)
    requires k <= |cs|
    ensures EncodeAll(cs) == EncodeAll(cs[..k]) + EncodeAll(cs[k..])
  {
    if k > 0 {
      EncodeSplits(cs[1..], k - 1);
      assert cs[..k][1..] == cs[1..][..k - 1] && cs[1..][k - 1..] == cs[k..];
    } else {
      assert cs[..0] == [] && cs[0..] == cs;
    }
  }

  // ---------- the loader as it runs ----------

  /** The fake client is inside MULTI after these commands. */
  function InMulti(cs: seq<Command>, multi: Bytes -> bool, leaves: Bytes -> bool): bool {
    if cs == [] then false
    else
      var c := cs[|cs| - 1];
      c != [] && (multi(c[0]) || (InMulti(cs[..|cs| - 1], multi, leaves) && !leaves(c[0])))
  }

  /** Command `i` opened MULTI, and none behind it left it. */
  ghost predicate OpenSince(cs: seq<Command>, multi: Bytes -> bool, leaves: Bytes -> bool, i: int)
    requires forall j | 0 <= j < |cs| :: cs[j] != []
  {
    && 0 <= i < |cs| && multi(cs[i][0])
    && forall j | i < j < |cs| :: multi(cs[j][0]) || !leaves(cs[j][0])
  }

  lemma {:induction false} InMultiIs(cs: seq<Command>, multi: Bytes -> bool, leaves: Bytes -> bool)
    requires forall j | 0 <= j < |cs| :: cs[j] != []
    ensures InMulti(cs, multi, leaves) <==> exists i :: OpenSince(cs, multi, leaves, i)
  {
    if cs != [] {
      var n := |cs| - 1;
      var prior := cs[..n];
      InMultiIs(prior, multi, leaves);
      assert multi(cs[n][0]) ==> OpenSince(cs, multi, leaves, n);
      if i :| OpenSince(prior, multi, leaves, i) {
        assert !leaves(cs[n][0]) ==> OpenSince(cs, multi, leaves, i);
      }
      if i :| OpenSince(cs, multi, leaves, i) {
        assert i < n ==> OpenSince(prior, multi, leaves, i);
      }
    }
  }

  datatype Settings = Settings(
    truncatedOk: bool, cutWorks: bool, known: Bytes -> bool, multi: Bytes -> bool, leaves: Bytes -> bool)

  /** An empty file, a loaded one with what is left of it, or the exit of the server. */
  datatype Outcome = Empty | Served(commands: seq<Command>, file: Bytes) | Exited

  function LoadFile(file: Bytes, x: Settings): Outcome {
    if file == [] then Empty
    else
      var l := LoadAll(file, x.known);
      if l.ending == Died then Exited
      else if l.ending == AtEof && !InMulti(l.commands, x.multi, x.leaves) then Served(l.commands, file)
      else if x.truncatedOk && x.cutWorks && |l.rest| <= |file| then Served(l.commands, file[..|file| - |l.rest|])
      else Exited
  }

  function Prepend(argv: Command, r: Read<Command>): Read<Command> {
    match r
    case Got(more, rest) => Got(argv + more, rest)
    case Short => Short
    case Fatal => Fatal
  }

  lemma PrependOne(argv: Command, a: Bytes, r: Read<Command>)
    ensures Prepend(argv, Prepend([a], r)) == Prepend(argv + [a], r)
  {
    if r.Got? {
      assert argv + ([a] + r.value) == argv + [a] + r.value;
    }
  }

  /** The loop over the arguments of one command. */
  method ReadArguments(b: Bytes, argc: nat) returns (r: Read<Command>)
    ensures r == ReadArgs(b, argc)
  {
    var argv: Command, rest := [], b;
    assert forall c: Command :: [] + c == c;
    for j := 0 to argc
      invariant ReadArgs(b, argc) == Prepend(argv, ReadArgs(rest, argc - j))
    {
      var a := ReadArg(rest);
      if !a.Got? {
        return if a.Short? then Short else Fatal;
      }
      PrependOne(argv, a.value, ReadArgs(a.rest, argc - j - 1));
      argv, rest := argv + [a.value], a.rest;
    }
    assert argv + [] == argv;
    r := Got(argv, rest);
  }

  /** One round of the loading loop, up to the command lookup. */
  method ReadOneCommand(b: Bytes) returns (r: Read<Command>)
    requires b != []
    ensures r == ReadCommand(b)
  {
    var n := LineLength(b, LINE_MAX);
    if b[0] != STAR {
      return Fatal;
    }
    if n == 1 {
      return Short;
    }
    if b[1] == '\0' {
      return if n == |b| && n < LINE_MAX && b[n - 1] != LF then Short else Fatal;
    }
    var argc := ParseNumber(b[1..n]);
    if argc < 1 {
      return Fatal;
    }
    r := ReadArguments(b[n..], argc);
  }

  function Resume(commands: seq<Command>, l: Loaded): Loaded {
    Loaded(commands + l.commands, l.ending, l.rest)
  }

  lemma LoadStep(b: Bytes, commands: seq<Command>, known: Bytes -> bool)
    requires b != [] && ReadCommand(b).Got? && known(ReadCommand(b).value[0])
    ensures Resume(commands, LoadAll(b, known)) ==
      Resume(commands + [ReadCommand(b).value], LoadAll(ReadCommand(b).rest, known))
  {
  }

  /** The loading loop; `validUpTo` is the offset behind the last command handed over. */
  method ReadCommands(file: Bytes, x: Settings) returns (l: Loaded, multi: bool, validUpTo: nat)
    ensures l == LoadAll(file, x.known)
    ensures multi == InMulti(l.commands, x.multi, x.leaves)
    ensures validUpTo == |file| - |l.rest|
  {
    var commands: seq<Command>, rest := [], file;
    multi := false;
    var ending := AtEof;
    assert forall c: seq<Command> :: [] + c == c;
    while rest != []
      invariant |rest| <= |file| && multi == InMulti(commands, x.multi, x.leaves)
      invariant LoadAll(file, x.known) == Resume(commands, LoadAll(rest, x.known))
      decreases |rest|
    {
      var c := ReadOneCommand(rest);
      if !c.Got? || !x.known(c.value[0]) {
        ending := if c.Short? then Truncated else Died;
        break;
      }
      LoadStep(rest, commands, x.known);
      multi := x.multi(c.value[0]) || (multi && !x.leaves(c.value[0]));
      assert (commands + [c.value])[..|commands|] == commands;
      commands, rest := commands + [c.value], c.rest;
    }
    assert commands + [] == commands;
    l, validUpTo := Loaded(commands, ending, rest), |file| - |rest|;
  }

  method LoadAppendOnlyFile(file: Bytes, x: Settings) returns (r: Outcome)
    ensures r == LoadFile(file, x)
  {
    if |file| == 0 {
      return Empty;
    }
    var l, multi, validUpTo := ReadCommands(file, x);
    if l.ending == Died {
      return Exited;
    }
    if l.ending == AtEof && !multi {
      return Served(l.commands, file);
    }
    if x.truncatedOk && x.cutWorks {
      return Served(l.commands, file[..validUpTo]);
    }
    r := Exited;
  }

  lemma ServedUpTo(file: Bytes, head: Bytes, x: Settings, l: Loaded)
    requires file != [] && x.truncatedOk && x.cutWorks
    requires l == LoadAll(file, x.known) && file == head + l.rest
    requires l.ending != Died && (l.ending == AtEof ==> l.rest == [])
    ensures LoadFile(file, x) == Served(l.commands, head)
  {
  }

  /** A non-empty prefix of an encoded stream is always served when truncated files are accepted: with
      exactly its complete commands, and cut at their boundary. */
  lemma CrashedFileIsServed(cs: seq<Command>, n: nat, x: Settings)
    requires (forall c <- cs :: Storable(c) && x.known(c[0])) && 0 < n <= |EncodeAll(cs)|
    requires x.truncatedOk && x.cutWorks
    ensures LoadFile(EncodeAll(cs)[..n], x) == Served(cs[..Complete(cs, n)], EncodeAll(cs[..Complete(cs, n)]))
  {
    PrefixLoads(cs, n, x.known);
    ServedUpTo(EncodeAll(cs)[..n], EncodeAll(cs[..Complete(cs, n)]), x, LoadAll(EncodeAll(cs)[..n], x.known));
  }

  /** When they are not accepted, it is served exactly when it ends at a command boundary outside MULTI. */
  lemma CutFileIsRefused(cs: seq<Command>, n: nat, x: Settings)
    requires (forall c <- cs :: Storable(c) && x.known(c[0])) && 0 < n <= |EncodeAll(cs)|
    requires !x.truncatedOk
    ensures var k := Complete(cs, n);
      LoadFile(EncodeAll(cs)[..n], x).Served? <==> n == |EncodeAll(cs[..k])| && !InMulti(cs[..k], x.multi, x.leaves)
  {
    PrefixLoads(cs, n, x.known);
    assert |EncodeAll(cs)[..n]| == n;
  }
}
