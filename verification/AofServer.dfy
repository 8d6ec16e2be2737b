/**
  The append-only file of a running server: feeding commands, flushing with short writes, and the
  background rewrite with its pipe to the child and its stop handshake.
 */
module AofServer {
  import opened AofCodec
  import opened AofBuffer

  // ---------- flushing ----------

  datatype Policy = Always | EverySecond | Never

  /** The file, the buffer in front of it, and the flush bookkeeping. */
  datatype Aof = Aof(file: Bytes, buf: Bytes, size: nat, failed: bool, postponed: int, exited: bool)

  /** The result of write is `written`, clipped to the range write can return; `cut` is ftruncate's success. */
  datatype Attempt = Attempt(policy: Policy, force: bool, syncPending: bool, now: int, written: int, cut: bool)

  predicate Delayed(a: Aof, t: Attempt) {
    t.policy == EverySecond && !t.force && t.syncPending && (a.postponed == 0 || t.now - a.postponed < 2)
  }

  function Accepted(a: Aof, t: Attempt): int {
    if t.written < 0 then -1 else if t.written < |a.buf| then t.written else |a.buf|
  }

  /** ftruncate to a length the file has. */
  function CutTo(file: Bytes, size: nat): Bytes {
    if size <= |file| then file[..size] else file
  }

  function Flush(a: Aof, t: Attempt): Aof {
    if a.buf == [] then a
    else if Delayed(a, t) then a.(postponed := if a.postponed == 0 then t.now else a.postponed)
    else
      var n := Accepted(a, t);
      if n == |a.buf| then
        a.(file := a.file + a.buf, buf := [], size := a.size + n, failed := false, postponed := 0)
      else if n < 0 then
        a.(failed := t.policy != Always || a.failed, postponed := 0, exited := t.policy == Always || a.exited)
      else
        var file := a.file + a.buf[..n];
        if t.policy == Always then
          a.(file := if t.cut then CutTo(file, a.size) else file, postponed := 0, exited := true)
        else if t.cut then a.(file := CutTo(file, a.size), failed := true, postponed := 0)
        else a.(file := file, buf := a.buf[n..], size := a.size + n, failed := true, postponed := 0)
  }

  /** What was fed is in the file, then in the buffer; a server that exited left at least a front part. */
  ghost predicate Conserved(a: Aof, fed: Bytes) {
    if a.exited then a.file <= fed else a.file + a.buf == fed && a.size == |a.file|
  }

  /** Flush conservation, for every result of write and ftruncate. */
  lemma FlushConserves(a: Aof, t: Attempt, fed: Bytes)
    requires Conserved(a, fed) && !a.exited
    ensures Conserved(Flush(a, t), fed)
  {
  }

  /** What a flush does. With nothing buffered, nothing. With an fsync pending and no need to hurry, it waits, for two
      seconds at most. Otherwise the buffer is written: as a whole, or not at all, or in part; a part is cut off again,
      or, if it cannot be, counts as written. After an error a server with fsync-always exits. */
  lemma FlushIs(a: Aof, t: Attempt)
    requires a.size == |a.file| && !a.exited
    ensures var f, have := Flush(a, t), |a.buf|;
      var pending := t.policy == EverySecond && !t.force && t.syncPending;
      var waits := pending && (a.postponed == 0 || t.now < a.postponed + 2);
      && (have == 0 ==> f == a)
      && (have > 0 && waits ==> f == a.(postponed := if a.postponed == 0 then t.now else a.postponed))
      && (have > 0 && !waits && t.written >= have ==> f == Aof(a.file + a.buf, [], a.size + have, false, 0, false))
      && (have > 0 && !waits && t.written < have ==>
            && f.postponed == 0 && f.exited == (t.policy == Always)
            && (t.policy != Always ==> f.failed)
            && (t.written < 0 || t.cut ==> f.file == a.file && f.buf == a.buf && f.size == a.size)
            && (t.written >= 0 && !t.cut ==>
                  && f.file == a.file + a.buf[..t.written]
                  && (t.policy != Always ==> f.buf == a.buf[t.written..] && f.size == a.size + t.written)))
  {
  }

  // ---------- feeding ----------

  /** "SELECT db" */
  function Select(db: nat): Command { ["SELECT", Digits(db)] }

  /** What is appended for one command: a SELECT first, if the last command was for another database. */
  function Emitted(selected: int, db: nat, c: Command): seq<Command> {
    if db != selected then [Select(db), c] else [c]
  }

  lemma SelectWord()
    ensures Line(STAR, 2) == "*2\r\n" && EncodeArg("SELECT") == "$6\r\nSELECT\r\n"
  {
  }

  lemma TwoArgs(a: Bytes, b: Bytes)
    ensures EncodeArgs([a, b]) == EncodeArg(a) + EncodeArg(b)
  {
    EncodeArgsAppend([a], b);
    EncodeArgsAppend([], a);
    assert [] + [a] == [a] && [a] + [b] == [a, b];
    assert EncodeArgs([]) + EncodeArg(a) == EncodeArg(a);
  }

  /** The text printed for a change of database is the encoded SELECT. */
  lemma SelectText(db: nat)
    ensures EncodeCommand(Select(db)) == "*2\r\n" + "$6\r\nSELECT\r\n" + EncodeArg(Digits(db))
  {
    SelectWord();
    TwoArgs("SELECT", Digits(db));
  }

  lemma EncodeEmitted(selected: int, db: nat, c: Command)
    ensures EncodeAll(Emitted(selected, db, c)) ==
      if db != selected then EncodeCommand(Select(db)) + EncodeCommand(c) else EncodeCommand(c)
  {
    assert [c][1..] == [] && EncodeCommand(c) + [] == EncodeCommand(c);
    assert EncodeAll([c]) == EncodeCommand(c) + EncodeAll([]);
    assert [Select(db), c][1..] == [c];
  }

  /** The appending side of a server; the file itself is the operating system's. */
  class Writer {
    var file: Bytes
    var buf: Bytes
    var size: nat
    var failed: bool
    var postponed: int
    var exited: bool
    var selectedDb: int
    var childRunning: bool
    const diff: DiffBuffer

    ghost function State(): Aof
      reads this
    {
      Aof(file, buf, size, failed, postponed, exited)
    }

    constructor (existing: Bytes)
      ensures State() == Aof(existing, [], |existing|, false, 0, false) && selectedDb == -1 && !childRunning
      ensures fresh(diff) && diff.Valid()
    {
      file, buf, size, failed, postponed, exited := existing, [], |existing|, false, 0, false;
      selectedDb, childRunning := -1, false;
      diff := new DiffBuffer();
    }

    /** The text of a command, preceded by a SELECT if another database was selected last. */
    method CatCommand(db: nat, c: Command) returns (text: Bytes)
      modifies this`selectedDb
      ensures selectedDb == db && text == EncodeAll(Emitted(old(selectedDb), db, c))
    {
      text := [];
      EncodeEmitted(selectedDb, db, c);
      if db != selectedDb {
        SelectText(db);
        var digits := FormatNumber(db);
        text := CatArg("*2\r\n" + "$6\r\nSELECT\r\n", digits);
        selectedDb := db;
      }
      text := CatAppendOnlyGenericCommand(text, c);
    }

    /** feedAppendOnlyFile for a command that needs no translation. */
    method Feed(db: nat, c: Command)
      requires diff.Valid()
      modifies this`buf, this`selectedDb, diff
      ensures diff.Valid() && selectedDb == db
      ensures var text := EncodeAll(Emitted(old(selectedDb), db, c));
        && buf == old(buf) + text
        && Contents(diff.blocks) == old(Contents(diff.blocks)) + if childRunning then text else []
    {
      var text := CatCommand(db, c);
      buf := buf + text;
      if childRunning {
        diff.Append(text);
      }
    }

    /** rewriteAppendOnlyFileBackground, in the parent: the next feed will start with a SELECT. */
    method Fork()
      requires !childRunning
      modifies this`selectedDb, this`childRunning
      ensures selectedDb == -1 && childRunning
    {
      childRunning := true;
      selectedDb := -1;
    }

    /** backgroundRewriteDoneHandler, the AOF being on: `temp` is the child's file, `accepted` the results
        of appending the residual diff, `renamed` that of rename. */
    method RewriteDone(temp: Bytes, accepted: seq<int>, renamed: bool) returns (ok: bool)
      requires diff.Valid()
      modifies this, diff
      ensures diff.Valid() && Contents(diff.blocks) == [] && !childRunning
      ensures ok <==> renamed && AllAccepted(Used(old(diff.blocks)), accepted)
      ensures ok ==> selectedDb == -1
      ensures var whole := temp + old(Contents(diff.blocks));
        ok ==> State() == old(State()).(file := whole, buf := [], size := |whole|)
      ensures !ok ==> State() == old(State()) && selectedDb == old(selectedDb)
    {
      var written;
      ok, written := diff.WriteTo(accepted);
      if ok && renamed {
        file := temp + written;
        selectedDb := -1;
        size := |file|;
        buf := [];
      } else {
        ok := false;
      }
      diff.Reset();
      childRunning := false;
    }

    method FlushAppendOnlyFile(t: Attempt)
      requires size <= |file|
      modifies this`file, this`buf, this`size, this`failed, this`postponed, this`exited
      ensures State() == Flush(old(State()), t)
    {
      if |buf| == 0 {
        return;
      }
      if t.policy == EverySecond && !t.force && t.syncPending {
        if postponed == 0 {
          postponed := t.now;
          return;
        } else if t.now - postponed < 2 {
          return;
        }
      }
      var n := if t.written < 0 then -1 else if t.written < |buf| then t.written else |buf|;
      assert n == 0 ==> buf[..n] == [] && file + [] == file && buf[n..] == buf;
      if n > 0 {
        file := file + buf[..n];
      }
      postponed := 0;
      if n != |buf| {
        var partial := n;
        if n != -1 && t.cut {
          file := file[..size];
          partial := -1;
        }
        if t.policy == Always {
          exited := true;
          return;
        }
        failed := true;
        if partial > 0 {
          size := size + partial;
          buf := buf[partial..];
        }
        return;
      }
      failed := false;
      size := size + n;
      buf := [];
    }
  }
}
