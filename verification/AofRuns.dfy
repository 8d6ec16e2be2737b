/**
  Runs of a server with an append-only file: commands, flushes and background rewrites in any order.

  The dataset is any type with any meaning of commands; `log` and `diff` record, as commands, what was
  put into the file and into the rewrite buffer.
 */
module AofRuns {
  import opened AofCodec
  import opened AofServer
  import opened Options

  // ---------- replay ----------

  /** A dataset and the database that a client has selected. */
  datatype Db<D> = Db(data: D, current: int)

  /** How a command, run against a numbered database, changes the data. */
  type Exec<!D> = (D, int, Command) -> D

  predicate IsSelect(c: Command) {
    |c| == 2 && c[0] == "SELECT"
  }

  function Run1<D>(exec: Exec<D>, s: Db<D>, c: Command): Db<D> {
    if IsSelect(c) then Db(s.data, ParseNumber(c[1])) else Db(exec(s.data, s.current, c), s.current)
  }

  function Replay<D>(exec: Exec<D>, s: Db<D>, cs: seq<Command>): Db<D> {
    if cs == [] then s else Run1(exec, Replay(exec, s, cs[..|cs| - 1]), cs[|cs| - 1])
  }

  lemma {:induction false} ReplayConcat<D>(exec: Exec<D>, s: Db<D>, a: seq<Command>, b: seq<Command>)
    ensures Replay(exec, s, a + b) == Replay(exec, Replay(exec, s, a), b)
  {
    if b == [] {
      assert a + b == a;
    } else {
      ReplayConcat(exec, s, a, b[..|b| - 1]);
      assert (a + b)[..|a + b| - 1] == a + b[..|b| - 1];
    }
  }

  lemma SelectNumber(db: nat)
    ensures ParseNumber(Digits(db)) == db
  {
    DigitsAreDigits(db);
    DigitsRead(db, []);
    assert Digits(db) + [] == Digits(db);
  }

  /** What one fed command appends runs that command in its own database, wherever replay stood. */
  lemma EmittedReplays<D>(exec: Exec<D>, s: Db<D>, selected: int, db: nat, c: Command)
    requires !IsSelect(c) && (selected >= 0 ==> selected == s.current)
    ensures Replay(exec, s, Emitted(selected, db, c)) == Db(exec(s.data, db, c), db)
  {
    var e := Emitted(selected, db, c);
    SelectNumber(db);
    if db != selected {
      assert e[..1][..0] == [] && e[..1] == [Select(db)];
      assert Replay(exec, s, e[..1]) == Run1(exec, s, Select(db));
    } else {
      assert e[..0] == [];
    }
  }

  // ---------- the system ----------

  /** A rewrite under way: what the child was forked with, what was fed since, where those bytes are now,
      how far the stop handshake got, the child's finished file, and how many bytes its last read left. */
  datatype Rewrite = Rewrite(
    snapshot: seq<Command>, diff: seq<Command>,
    child: Bytes, pipe: Bytes, buffer: Bytes,
    asked: bool, stopped: bool, acked: bool, temp: Option<Bytes>, left: nat)

  datatype System<D> = System(data: D, aof: Aof, selectedDb: int, log: seq<Command>, rewrite: Option<Rewrite>)

  datatype Event =
    | Feed(db: nat, c: Command)
    | DoFlush(t: Attempt)
    | Fork(snapshot: seq<Command>)
    | Send(n: nat)                  // the parent writes n bytes of the buffer into the pipe
    | ChildRead(n: nat)
    | ChildAsk                      // "!" to the parent
    | ParentStop(answered: bool)    // the parent stops sending, and answers "!" if it can
    | ChildFinish(n: nat)           // the last read gets n bytes; the child writes its file and exits
    | ChildFail
    | Done(ok: bool)                // backgroundRewriteDoneHandler; ok if all its system calls succeed

  datatype Config<!D> = Config(empty: D, exec: Exec<D>)

  function Start<D>(x: Config<D>): Db<D> { Db(x.empty, 0) }

  ghost predicate AllStorable(cs: seq<Command>) { forall c <- cs :: Storable(c) }

  ghost predicate Enabled<D>(x: Config<D>, s: System<D>, e: Event) {
    && !s.aof.exited
    && match e
       case Feed(_, c) => Storable(c) && !IsSelect(c)
       case DoFlush(_) => true
       case Fork(snapshot) =>
         s.rewrite.None? && AllStorable(snapshot) && Replay(x.exec, Start(x), snapshot).data == s.data
       case _ => s.rewrite.Some? && RewriteEnabled(s.rewrite.value, e)
  }

  predicate RewriteEnabled(r: Rewrite, e: Event) {
    match e
    case Send(n) => !r.stopped && n <= |r.buffer|
    case ChildRead(n) => r.temp.None? && n <= |r.pipe|
    case ChildAsk => !r.asked
    case ParentStop(_) => r.asked && !r.stopped
    case ChildFinish(n) => r.acked && r.temp.None? && n <= |r.pipe|
    case Done(_) => r.temp.Some?
    case _ => true
  }

  /** What may happen is not restricted beyond what the program does: a running server takes any storable command but
      SELECT, and any flush; a rewrite may fail at any time, the parent sends as long as it was not told to stop, the
      child reads what there is, and it finishes once its request was answered. */
  lemma EventsArePossible<D>(x: Config<D>, s: System<D>, db: nat, c: Command, t: Attempt, n: nat)
    requires !s.aof.exited
    ensures Storable(c) && !IsSelect(c) ==> Enabled(x, s, Feed(db, c))
    ensures Enabled(x, s, DoFlush(t))
    ensures s.rewrite.Some? ==>
      var r := s.rewrite.value;
      && Enabled(x, s, ChildFail)
      && (n <= |r.buffer| && !r.stopped ==> Enabled(x, s, Send(n)))
      && (n <= |r.pipe| && r.temp.None? ==> Enabled(x, s, ChildRead(n)) && (r.acked ==> Enabled(x, s, ChildFinish(n))))
      && (!r.asked ==> Enabled(x, s, ChildAsk))
      && (r.asked && !r.stopped ==> Enabled(x, s, ParentStop(true)) && Enabled(x, s, ParentStop(false)))
      && (r.temp.Some? ==> Enabled(x, s, Done(true)) && Enabled(x, s, Done(false)))
  {
  }

  /** The steps that only move bytes between the parent and the child. */
  function Moved(r: Rewrite, e: Event): Rewrite
    requires RewriteEnabled(r, e)
  {
    match e
    case Send(n) => r.(pipe := r.pipe + r.buffer[..n], buffer := r.buffer[n..])
    case ChildRead(n) => r.(child := r.child + r.pipe[..n], pipe := r.pipe[n..])
    case ChildAsk => r.(asked := true)
    case ParentStop(answered) => r.(stopped := true, acked := answered)
    case ChildFinish(n) =>
      r.(temp := Some(EncodeAll(r.snapshot) + (r.child + r.pipe[..n])), pipe := r.pipe[n..], left := |r.pipe| - n)
    case _ => r
  }

  function Fed(r: Rewrite, cs: seq<Command>): Rewrite {
    r.(diff := r.diff + cs, buffer := r.buffer + EncodeAll(cs))
  }

  /** The rewritten file takes the place of the old one; the buffer in front of it is dropped. */
  function Switched(a: Aof, r: Rewrite): Aof
    requires r.temp.Some?
  {
    var file := r.temp.value + r.buffer;
    a.(file := file, buf := [], size := |file|)
  }

  function Forked(snapshot: seq<Command>): Rewrite {
    Rewrite(snapshot, [], [], [], [], false, false, false, None, 0)
  }

  function Apply<D>(x: Config<D>, s: System<D>, e: Event): System<D>
    requires s.rewrite.Some? ==> RewriteEnabled(s.rewrite.value, e)
    requires s.rewrite.None? ==> e.Feed? || e.DoFlush? || e.Fork?
  {
    match e
    case Feed(db, c) =>
      var cs := Emitted(s.selectedDb, db, c);
      System(x.exec(s.data, db, c), s.aof.(buf := s.aof.buf + EncodeAll(cs)), db, s.log + cs,
             if s.rewrite.None? then None else Some(Fed(s.rewrite.value, cs)))
    case DoFlush(t) => s.(aof := Flush(s.aof, t))
    case Fork(snapshot) => s.(selectedDb := -1, rewrite := Some(Forked(snapshot)))
    case ChildFail => s.(rewrite := None)
    case Done(ok) =>
      var r := s.rewrite.value;
      if ok then System(s.data, Switched(s.aof, r), -1, r.snapshot + r.diff, None) else s.(rewrite := None)
    case _ => s.(rewrite := Some(Moved(s.rewrite.value, e)))
  }

  // ---------- what every step keeps ----------

  /** A log that replays to the present data, and leaves the database selected that the next command
      may rely on. */
  ghost predicate LogInv<D>(x: Config<D>, log: seq<Command>, data: D, selected: int) {
    && AllStorable(log)
    && var s := Replay(x.exec, Start(x), log);
    s.data == data && (selected >= 0 ==> s.current == selected)
  }

  /** Bytes read by the child, then bytes in the pipe, then the buffer are all bytes fed since the fork.  Once the child
      is done, the pipe holds what its last read left and nothing else, as the parent had stopped sending before. */
  ghost predicate InOrder(r: Rewrite) {
    match r.temp
    case None => r.child + (r.pipe + r.buffer) == EncodeAll(r.diff)
    case Some(t) =>
      r.stopped && |r.pipe| == r.left && t + (r.pipe + r.buffer) == EncodeAll(r.snapshot) + EncodeAll(r.diff)
  }

  ghost predicate StartsWithSelect(diff: seq<Command>, selected: int) {
    if diff == [] then selected == -1 else IsSelect(diff[0])
  }

  ghost predicate RewriteInv<D>(x: Config<D>, r: Rewrite, data: D, selected: int) {
    && InOrder(r) && (r.acked ==> r.stopped) && StartsWithSelect(r.diff, selected)
    && LogInv(x, r.snapshot + r.diff, data, selected)
  }

  /** The log and the rewrite under way, whatever became of the file. */
  ghost predicate LogsInv<D>(x: Config<D>, s: System<D>) {
    && s.selectedDb >= -1
    && LogInv(x, s.log, s.data, s.selectedDb)
    && (s.rewrite.Some? ==> RewriteInv(x, s.rewrite.value, s.data, s.selectedDb))
  }

  ghost predicate Inv<D>(x: Config<D>, s: System<D>) {
    LogsInv(x, s) && Conserved(s.aof, EncodeAll(s.log))
  }

  lemma Regroup(a: Bytes, b: Bytes, c: Bytes)
    ensures a + (b + c) == a + b + c
  {
  }

  lemma EncodeCons(c: Command, cs: seq<Command>, text: Bytes)
    requires text == EncodeCommand(c)
    ensures EncodeAll([c] + cs) == text + EncodeAll(cs)
  {
    assert ([c] + cs)[1..] == cs;
  }

  lemma {:induction false} EncodeConcat(a: seq<Command>, b: seq<Command>)
    ensures EncodeAll(a + b) == EncodeAll(a) + EncodeAll(b)
  {
    if a == [] {
      assert a + b == b;
    } else {
      var c, rest := a[0], a[1..];
      assert a == [c] + rest && a + b == [c] + (rest + b);
      EncodeConcat(rest, b);
      var text := EncodeCommand(c);
      EncodeCons(c, rest, text);
      EncodeCons(c, rest + b, text);
      Regroup(text, EncodeAll(rest), EncodeAll(b));
    }
  }

  lemma SelectStorable(db: nat)
    requires db <= INT64_MAX
    ensures Storable(Select(db)) && IsSelect(Select(db))
  {
    DigitsFitLine(db);
  }

  lemma LogGrows<D>(x: Config<D>, log: seq<Command>, data: D, selected: int, db: nat, c: Command)
    requires LogInv(x, log, data, selected) && Storable(c) && !IsSelect(c) && db <= INT64_MAX
    ensures LogInv(x, log + Emitted(selected, db, c), x.exec(data, db, c), db)
  {
    SelectStorable(db);
    ReplayConcat(x.exec, Start(x), log, Emitted(selected, db, c));
    EmittedReplays(x.exec, Replay(x.exec, Start(x), log), selected, db, c);
  }

  lemma MoreAtTheEnd(head: Bytes, pipe: Bytes, buffer: Bytes, more: Bytes)
    ensures head + (pipe + (buffer + more)) == head + (pipe + buffer) + more
  {
  }

  lemma FedInOrder(r: Rewrite, cs: seq<Command>)
    requires InOrder(r)
    ensures InOrder(Fed(r, cs))
  {
    EncodeConcat(r.diff, cs);
    match r.temp
    case None => MoreAtTheEnd(r.child, r.pipe, r.buffer, EncodeAll(cs));
    case Some(t) =>
      MoreAtTheEnd(t, r.pipe, r.buffer, EncodeAll(cs));
      Regroup(EncodeAll(r.snapshot), EncodeAll(r.diff), EncodeAll(cs));
  }

  lemma PassOn(head: Bytes, front: Bytes, n: nat, tail: Bytes)
    requires n <= |front|
    ensures head + (front + tail) == (head + front[..n]) + (front[n..] + tail)
  {
  }

  lemma MovedInOrder(r: Rewrite, e: Event)
    requires InOrder(r) && (r.acked ==> r.stopped) && RewriteEnabled(r, e)
    ensures InOrder(Moved(r, e)) && (Moved(r, e).acked ==> Moved(r, e).stopped)
  {
    match e
    case Send(n) =>
      Regroup(r.pipe, r.buffer[..n], r.buffer[n..]);
      assert r.buffer == r.buffer[..n] + r.buffer[n..];
    case ChildRead(n) => PassOn(r.child, r.pipe, n, r.buffer);
    case ChildFinish(n) =>
      PassOn(r.child, r.pipe, n, r.buffer);
      Regroup(EncodeAll(r.snapshot), r.child + r.pipe[..n], r.pipe[n..] + r.buffer);
    case _ =>
  }

  lemma FedConserves(a: Aof, log: seq<Command>, cs: seq<Command>)
    requires Conserved(a, EncodeAll(log)) && !a.exited
    ensures Conserved(a.(buf := a.buf + EncodeAll(cs)), EncodeAll(log + cs))
  {
    EncodeConcat(log, cs);
    Regroup(a.file, a.buf, EncodeAll(cs));
  }

  lemma FedRewriteInv<D>(x: Config<D>, r: Rewrite, data: D, selected: int, db: nat, c: Command)
    requires RewriteInv(x, r, data, selected) && Storable(c) && !IsSelect(c) && db <= INT64_MAX
    ensures RewriteInv(x, Fed(r, Emitted(selected, db, c)), x.exec(data, db, c), db)
  {
    var cs := Emitted(selected, db, c);
    FedInOrder(r, cs);
    LogGrows(x, r.snapshot + r.diff, data, selected, db, c);
    assert r.snapshot + (r.diff + cs) == r.snapshot + r.diff + cs;
    SelectStorable(db);
  }

  lemma FeedKeepsLogsInv<D>(x: Config<D>, s: System<D>, e: Event)
    requires LogsInv(x, s) && Enabled(x, s, e) && e.Feed? && e.db <= INT64_MAX
    ensures LogsInv(x, Apply(x, s, e))
  {
    LogGrows(x, s.log, s.data, s.selectedDb, e.db, e.c);
    if s.rewrite.Some? {
      FedRewriteInv(x, s.rewrite.value, s.data, s.selectedDb, e.db, e.c);
    }
  }

  lemma SwitchConserves(a: Aof, r: Rewrite)
    requires InOrder(r) && r.temp.Some? && !a.exited
    ensures Conserved(Switched(a, r), EncodeAll(r.snapshot + r.diff)) <==> r.left == 0
  {
    EncodeConcat(r.snapshot, r.diff);
    var file := r.temp.value + r.buffer;
    assert file + [] == file;
    assert r.left == 0 ==> r.pipe + r.buffer == r.buffer;
    assert |r.temp.value + (r.pipe + r.buffer)| == |file| + |r.pipe|;
  }

  lemma ForkKeepsLogsInv<D>(x: Config<D>, s: System<D>, e: Event)
    requires LogsInv(x, s) && Enabled(x, s, e) && e.Fork?
    ensures LogsInv(x, Apply(x, s, e))
  {
    assert e.snapshot + [] == e.snapshot;
  }

  /** Every step keeps the logs and the order of the bytes of a rewrite, even a switch that loses some. */
  lemma StepKeepsLogsInv<D>(x: Config<D>, s: System<D>, e: Event)
    requires LogsInv(x, s) && Enabled(x, s, e) && (e.Feed? ==> e.db <= INT64_MAX)
    ensures LogsInv(x, Apply(x, s, e))
  {
    match e
    case Feed(_, _) => FeedKeepsLogsInv(x, s, e);
    case DoFlush(_) =>
    case Fork(_) => ForkKeepsLogsInv(x, s, e);
    case ChildFail =>
    case Done(_) =>
    case _ => MovedInOrder(s.rewrite.value, e);
  }

  /** The rewrite that a switch completes: the child's last read left nothing. */
  predicate Clean<D>(s: System<D>, e: Event) {
    e.Done? && e.ok && s.rewrite.Some? ==> s.rewrite.value.left == 0
  }

  /** aofReadDiffFromParent reads until the pipe is empty. */
  predicate ReadsOut<D>(s: System<D>, e: Event) {
    e.ChildFinish? && s.rewrite.Some? ==> e.n == |s.rewrite.value.pipe|
  }

  lemma StepKeepsInv<D>(x: Config<D>, s: System<D>, e: Event)
    requires Inv(x, s) && Enabled(x, s, e) && Clean(s, e) && (e.Feed? ==> e.db <= INT64_MAX)
    ensures Inv(x, Apply(x, s, e))
  {
    StepKeepsLogsInv(x, s, e);
    match e
    case Feed(db, c) => FedConserves(s.aof, s.log, Emitted(s.selectedDb, db, c));
    case DoFlush(t) => FlushConserves(s.aof, t, EncodeAll(s.log));
    case Done(ok) =>
      if ok {
        SwitchConserves(s.aof, s.rewrite.value);
      }
    case _ =>
  }

  // ---------- whole runs ----------

  datatype Run<D> = Boot(system: System<D>) | Then(prior: Run<D>, event: Event)

  /** A server that has just loaded its file, or starts with none. */
  ghost predicate Booted<D>(x: Config<D>, s: System<D>) {
    && s.selectedDb == -1 && s.rewrite.None? && LogInv(x, s.log, s.data, -1)
    && s.aof.file == EncodeAll(s.log) && s.aof.buf == [] && s.aof.size == |s.aof.file| && !s.aof.exited
  }

  ghost function Last<D>(x: Config<D>, r: Run<D>): System<D> {
    match r
    case Boot(s) => s
    case Then(prior, e) => var s := Last(x, prior); if Enabled(x, s, e) then Apply(x, s, e) else s
  }

  /** Every event was possible, and databases are numbered within the C types. */
  ghost predicate Legal<D>(x: Config<D>, r: Run<D>) {
    match r
    case Boot(s) => Booted(x, s)
    case Then(prior, e) =>
      Legal(x, prior) && Enabled(x, Last(x, prior), e) && (e.Feed? ==> e.db <= INT64_MAX)
  }

  ghost predicate AllClean<D>(x: Config<D>, r: Run<D>) {
    r.Then? ==> AllClean(x, r.prior) && Clean(Last(x, r.prior), r.event)
  }

  ghost predicate AllReadOut<D>(x: Config<D>, r: Run<D>) {
    r.Then? ==> AllReadOut(x, r.prior) && ReadsOut(Last(x, r.prior), r.event)
  }

  lemma NothingLeftBy<D>(x: Config<D>, s: System<D>, e: Event)
    requires Enabled(x, s, e) && ReadsOut(s, e) && (s.rewrite.Some? ==> s.rewrite.value.left == 0)
    ensures var t := Apply(x, s, e); t.rewrite.Some? ==> t.rewrite.value.left == 0
  {
  }

  lemma {:induction false} NothingIsLeft<D>(x: Config<D>, r: Run<D>)
    requires Legal(x, r) && AllReadOut(x, r)
    ensures AllClean(x, r) && (Last(x, r).rewrite.Some? ==> Last(x, r).rewrite.value.left == 0)
  {
    if r.Then? {
      NothingIsLeft(x, r.prior);
      NothingLeftBy(x, Last(x, r.prior), r.event);
    }
  }

  lemma {:induction false} RunKeepsLogsInv<D>(x: Config<D>, r: Run<D>)
    requires Legal(x, r)
    ensures LogsInv(x, Last(x, r))
  {
    if r.Then? {
      RunKeepsLogsInv(x, r.prior);
      StepKeepsLogsInv(x, Last(x, r.prior), r.event);
    }
  }

  lemma {:induction false} RunKeepsInv<D>(x: Config<D>, r: Run<D>)
    requires Legal(x, r) && AllClean(x, r)
    ensures Inv(x, Last(x, r))
  {
    match r
    case Boot(s) => assert s.aof.file + [] == s.aof.file;
    case Then(prior, e) =>
      RunKeepsInv(x, prior);
      StepKeepsInv(x, Last(x, prior), e);
  }

  /** The handshake: when a switch is due, the child has got all of the pipe, since its last read emptied it and the
      parent had stopped sending before. */
  lemma PipeIsEmptyAtSwitch<D>(x: Config<D>, r: Run<D>)
    requires Legal(x, r) && AllReadOut(x, r) && Enabled(x, Last(x, r), Done(true))
    ensures Last(x, r).rewrite.value.pipe == []
  {
    NothingIsLeft(x, r);
    RunKeepsInv(x, r);
  }

  /** Nothing is lost and nothing is reordered: at any moment of any run, loading the file followed by the
      buffer and replaying it from the empty dataset gives the present dataset, each command having run
      in its own database, and the recorded size is the size of the file. */
  lemma FileAndBufferReplay<D>(x: Config<D>, r: Run<D>, known: Bytes -> bool)
    requires Legal(x, r) && AllReadOut(x, r) && !Last(x, r).aof.exited
    requires forall c <- Last(x, r).log :: c != [] ==> known(c[0])
    ensures var s := Last(x, r);
      && s.aof.size == |s.aof.file|
      && LoadAll(s.aof.file + s.aof.buf, known) == Loaded(s.log, AtEof, [])
      && Replay(x.exec, Start(x), s.log).data == s.data
  {
    NothingIsLeft(x, r);
    RunKeepsInv(x, r);
    StreamLoads(Last(x, r).log, known);
  }

  /** Crash recovery: at any moment, even after a server with fsync-always gave up over a short write, a
      non-empty file is served, with exactly the commands of a front part of the log. */
  lemma AnyFileIsServed<D>(x: Config<D>, r: Run<D>, settings: Settings)
    requires Legal(x, r) && AllReadOut(x, r) && forall c <- Last(x, r).log :: c != [] ==> settings.known(c[0])
    requires settings.truncatedOk && settings.cutWorks && Last(x, r).aof.file != []
    ensures var s := Last(x, r);
      var k := Complete(s.log, |s.aof.file|);
      LoadFile(s.aof.file, settings) == Served(s.log[..k], EncodeAll(s.log[..k]))
  {
    NothingIsLeft(x, r);
    RunKeepsInv(x, r);
    var s := Last(x, r);
    assert s.aof.file <= EncodeAll(s.log);
    assert EncodeAll(s.log)[..|s.aof.file|] == s.aof.file;
    CrashedFileIsServed(s.log, |s.aof.file|, settings);
  }

  /** The rewrite loses and reorders nothing, in every run: what the child read, what is in the pipe and what is still
      buffered are, in this order, all bytes fed since the fork, and these start with a SELECT. */
  lemma RewriteIsInOrder<D>(x: Config<D>, r: Run<D>)
    requires Legal(x, r) && Last(x, r).rewrite.Some? && Last(x, r).rewrite.value.temp.None?
    ensures var w := Last(x, r).rewrite.value;
      && w.child + w.pipe + w.buffer == EncodeAll(w.diff)
      && (w.diff != [] ==> IsSelect(w.diff[0]))
      && Replay(x.exec, Start(x), w.snapshot + w.diff).data == Last(x, r).data
  {
    RunKeepsLogsInv(x, r);
    var w := Last(x, r).rewrite.value;
    Regroup(w.child, w.pipe, w.buffer);
  }

  /** The switch to the rewritten file is right exactly when the child's last read left nothing. */
  lemma SwitchIsRightIffReadOut<D>(x: Config<D>, r: Run<D>)
    requires Legal(x, r) && AllClean(x, r) && Enabled(x, Last(x, r), Done(true))
    ensures var s := Apply(x, Last(x, r), Done(true));
      Conserved(s.aof, EncodeAll(s.log)) <==> Last(x, r).rewrite.value.left == 0
  {
    RunKeepsInv(x, r);
    DoneConserves(x, Last(x, r));
  }

  lemma DoneConserves<D>(x: Config<D>, s: System<D>)
    requires Inv(x, s) && Enabled(x, s, Done(true))
    ensures var t := Apply(x, s, Done(true)); Conserved(t.aof, EncodeAll(t.log)) <==> s.rewrite.value.left == 0
  {
    SwitchConserves(s.aof, s.rewrite.value);
  }

  // ---------- a last read that fails ----------

  lemma Extend<D>(x: Config<D>, r: Run<D>, s: System<D>, e: Event) returns (longer: Run<D>)
    requires Legal(x, r) && Last(x, r) == s && Enabled(x, s, e) && (e.Feed? ==> e.db <= INT64_MAX)
    ensures Legal(x, longer) && Last(x, longer) == Apply(x, s, e)
  {
    longer := Then(r, e);
  }

  /** A step that only moves bytes of the rewrite. */
  lemma Move<D>(x: Config<D>, r: Run<D>, s: System<D>, w: Rewrite, e: Event) returns (longer: Run<D>)
    requires Legal(x, r) && Last(x, r) == s && !s.aof.exited && s.rewrite == Some(w)
    requires e.Send? || e.ChildAsk? || e.ParentStop? || e.ChildFinish?
    requires RewriteEnabled(w, e)
    ensures Legal(x, longer) && Last(x, longer) == s.(rewrite := Some(Moved(w, e)))
  {
    longer := Extend(x, r, s, e);
  }

  /** All of the buffer has gone into the pipe, the handshake is complete, and the child has not read. */
  ghost predicate Waiting(w: Rewrite) {
    w.child == [] && w.buffer == [] && w.acked && w.stopped && w.temp.None?
  }

  lemma HandOver<D>(x: Config<D>, before: Run<D>, s: System<D>, w: Rewrite) returns (r: Run<D>, v: Rewrite)
    requires Legal(x, before) && Last(x, before) == s && !s.aof.exited && s.rewrite == Some(w)
    requires w == Forked(w.snapshot).(diff := w.diff, buffer := w.buffer)
    ensures Legal(x, r) && Last(x, r) == s.(rewrite := Some(v))
    ensures Waiting(v) && v.snapshot == w.snapshot && v.diff == w.diff
  {
    r := Move(x, before, s, w, Send(|w.buffer|));
    v := Moved(w, Send(|w.buffer|));
    r := Move(x, r, Last(x, r), v, ChildAsk);
    v := Moved(v, ChildAsk);
    r := Move(x, r, Last(x, r), v, ParentStop(true));
    v := Moved(v, ParentStop(true));
  }

  lemma UnreadFile(a: Aof, v: Rewrite, w: Rewrite)
    requires Waiting(v) && RewriteEnabled(v, ChildFinish(0)) && w == Moved(v, ChildFinish(0))
    ensures var file := EncodeAll(v.snapshot);
      && w.temp.Some? && Switched(a, w) == a.(file := file, buf := [], size := |file|)
      && w.snapshot == v.snapshot && w.diff == v.diff
  {
    var file := EncodeAll(v.snapshot);
    assert file + ([] + v.pipe[..0]) == file;
    assert w.temp.value + w.buffer == file;
  }

  /** The child finishes without reading, and its file, which has the snapshot only, replaces the old one. */
  lemma FinishUnread<D>(x: Config<D>, before: Run<D>, s: System<D>, v: Rewrite) returns (r: Run<D>)
    requires Legal(x, before) && Last(x, before) == s && !s.aof.exited && s.rewrite == Some(v) && Waiting(v)
    ensures Legal(x, r)
    ensures var file := EncodeAll(v.snapshot);
      Last(x, r) == System(s.data, s.aof.(file := file, buf := [], size := |file|), -1, v.snapshot + v.diff, None)
  {
    r := Move(x, before, s, v, ChildFinish(0));
    var w := Moved(v, ChildFinish(0));
    UnreadFile(s.aof, v, w);
    r := Extend(x, r, s.(rewrite := Some(w)), Done(true));
  }

  lemma FeedInto<D>(x: Config<D>, before: Run<D>, s: System<D>, c: Command) returns (r: Run<D>)
    requires Legal(x, before) && Last(x, before) == s && s == System(x.empty, s.aof, -1, [], Some(Forked([])))
    requires !s.aof.exited && Storable(c) && !IsSelect(c)
    ensures Legal(x, r) && !Last(x, r).aof.exited
    ensures var cs := [Select(0), c];
      Last(x, r).rewrite == Some(Forked([]).(diff := cs, buffer := EncodeAll(cs)))
  {
    r := Extend(x, before, s, Feed(0, c));
    var cs := Emitted(-1, 0, c);
    assert [] + cs == cs && [] + EncodeAll(cs) == EncodeAll(cs);
  }

  /** The last read of the child fails while a command is in the pipe: after the switch that command, which was fed
      since the fork, is neither in the file nor in the buffer. */
  lemma FailedReadLosesCommand<D>(x: Config<D>, c: Command) returns (r: Run<D>)
    requires Storable(c) && !IsSelect(c)
    ensures Legal(x, r)
    ensures var s := Last(x, r); s.log == [Select(0), c] && s.aof.file == [] && s.aof.buf == [] && !s.aof.exited
  {
    var s := System(x.empty, Aof([], [], 0, false, 0, false), -1, [], None);
    assert AllStorable([]) && LogInv(x, [], x.empty, -1);
    r := Extend(x, Boot(s), s, Fork([]));
    r := FeedInto(x, r, Last(x, r), c);
    var v: Rewrite;
    r, v := HandOver(x, r, Last(x, r), Last(x, r).rewrite.value);
    r := FinishUnread(x, r, Last(x, r), v);
    assert [] + [Select(0), c] == [Select(0), c];
  }
}
