/**
  The flag that says the sentinels are out of date: when it is clear, the sentinels watch the present masters.
 */
module TopomFlags {
  import opened TopomModel
  import opened TopomRuns

  /** There are sentinels, and they are not marked out of sync. */
  predicate InSync(x: Sentinel) {
    x.servers != [] && !x.outOfSync
  }

  /** Sentinels in sync watch the masters that memory has. */
  ghost predicate FlagSound(s: System) {
    InSync(s.d.memory.sentinel) ==> s.pushed == Masters(s.d.memory.groups)
  }

  /** Sentinels in sync by the records watch the masters on record, which are those in memory. */
  ghost predicate RecordSound(s: System) {
    InSync(s.d.records.sentinel) ==>
      && s.pushed == Masters(s.d.records.groups) == Masters(s.d.memory.groups)
      && s.d.memory.sentinel.servers != []
  }

  /** The sentinels can be read when a server is added or removed. */
  predicate SentinelRead(e: Event) {
    match e
    case DoAdd(_, _, _, readSentinel, _, _, _) => readSentinel
    case DoDel(_, _, _, readSentinel, _, _, _) => readSentinel
    case _ => true
  }

  // ---------- events that leave the sentinels watching what they watch ----------

  lemma MastersAfterPut(groups: map<Name, Group>, g: Group)
    ensures Masters(groups[g.name := g]) ==
      if g.Master() == "" then Masters(groups) - {g.name} else Masters(groups)[g.name := g.Master()]
  {
  }

  lemma MastersWithout(groups: map<Name, Group>, n: Name)
    ensures Masters(groups - {n}) == Masters(groups) - {n}
  {
  }

  lemma SameMasterSameMasters(groups: map<Name, Group>, g: Group)
    requires (if g.name in Masters(groups) then Masters(groups)[g.name] else "") == g.Master()
    ensures Masters(groups[g.name := g]) == Masters(groups)
  {
    MastersAfterPut(groups, g);
  }

  /** Memory keeps its masters, and so do the records if they had the same ones. */
  ghost predicate KeepsMasters(d: Dashboard, t: Dashboard) {
    && Masters(t.memory.groups) == Masters(d.memory.groups)
    && (Masters(d.records.groups) == Masters(d.memory.groups) ==>
          Masters(t.records.groups) == Masters(d.records.groups))
  }

  /** Memory and records are each flagged, or kept, and with them the masters if there are sentinels. */
  ghost predicate KeptOrFlagged(d: Dashboard, t: Dashboard) {
    && t.memory.sentinel.servers == d.memory.sentinel.servers
    && (t.memory.sentinel.outOfSync
        || (t.memory.sentinel == d.memory.sentinel && (d.memory.sentinel.servers != [] ==> KeepsMasters(d, t))))
    && (t.records.sentinel.outOfSync
        || (t.records.sentinel == d.records.sentinel && (d.memory.sentinel.servers != [] ==> KeepsMasters(d, t))))
  }

  ghost predicate BothFlagged(d: Dashboard) {
    d.memory.sentinel.outOfSync && d.records.sentinel.outOfSync
  }

  lemma KeptIsSound(s: System, t: Dashboard)
    requires KeptOrFlagged(s.d, t)
    ensures FlagSound(s) ==> FlagSound(System(t, s.pushed))
    ensures RecordSound(s) ==> RecordSound(System(t, s.pushed))
  {
  }

  lemma PutKeeps(r: Dashboard, d: Dashboard, g: Group, w: Write)
    requires KeptOrFlagged(r, d) && g.name in d.memory.groups
    requires BothFlagged(d) || r.memory.sentinel.servers == [] || g.Master() == d.memory.groups[g.name].Master()
    ensures KeptOrFlagged(r, PutGroup(d, g, w)) && KeptOrFlagged(r, PutNewGroup(d, g, w))
  {
    if !BothFlagged(d) && r.memory.sentinel.servers != [] {
      SameMasterSameMasters(d.memory.groups, g);
      if Masters(d.records.groups) == Masters(d.memory.groups) {
        SameMasterSameMasters(d.records.groups, g);
      }
    }
  }

  lemma FlagKeeps(r: Dashboard, d: Dashboard, w: Write)
    requires KeptOrFlagged(r, d)
    ensures var o := FlagSentinel(d, true, w);
      && KeptOrFlagged(r, o.after) && o.after.memory.groups == d.memory.groups
      && (o.ok ==> r.memory.sentinel.servers == [] || BothFlagged(o.after))
  {
  }

  lemma CreateKeeps(d: Dashboard, e: Event)
    requires e.DoCreate?
    ensures KeptOrFlagged(d, After(d, e))
  {
    var g := Group(e.name, [], 0, Nothing, false, e.r, e.w, e.now);
    MastersAfterPut(d.memory.groups, g);
    MastersAfterPut(d.records.groups, g);
  }

  lemma WithoutKeepsMasters(d: Dashboard, n: Name)
    requires n in d.memory.groups && d.memory.groups[n].servers == []
    ensures Masters(WithoutGroup(d.memory, n).groups) == Masters(d.memory.groups)
    ensures Masters(d.records.groups) == Masters(d.memory.groups) ==>
              Masters(WithoutGroup(d.records, n).groups) == Masters(d.records.groups)
  {
    assert n !in Masters(d.memory.groups);
    MastersWithout(d.memory.groups, n);
    MastersWithout(d.records.groups, n);
  }

  lemma RemoveKeeps(d: Dashboard, e: Event)
    requires Unique(d.memory.groups) && e.DoRemove?
    ensures KeptOrFlagged(d, After(d, e))
  {
    if e.name in d.memory.groups && d.memory.groups[e.name].servers == [] {
      assert GroupOk(e.name, d.memory.groups[e.name]);
      WithoutKeepsMasters(d, e.name);
    }
  }

  lemma ResyncKeeps(d: Dashboard, e: Event)
    requires Unique(d.memory.groups) && e.DoResync?
    ensures KeptOrFlagged(d, After(d, e))
  {
    if e.name in d.memory.groups {
      var g := d.memory.groups[e.name];
      assert GroupOk(e.name, g);
      var off := g.(outOfSync := false);
      PutKeeps(d, d, off, e.put);
      PutKeeps(d, PutGroup(d, off, e.put), off.(outOfSync := true), e.put');
    }
  }

  lemma AddKeeps(d: Dashboard, e: Event)
    requires Unique(d.memory.groups) && e.DoAdd? && e.readSentinel
    ensures KeptOrFlagged(d, After(d, e))
  {
    if e.name in d.memory.groups {
      var g := d.memory.groups[e.name];
      assert GroupOk(e.name, g);
      FlagKeeps(d, d, e.flag);
      var f := FlagSentinel(d, true, e.flag);
      if f.ok {
        PutKeeps(d, f.after, Grown(g, e.addr), e.put);
      }
    }
  }

  lemma DelKeeps(d: Dashboard, e: Event)
    requires Unique(d.memory.groups) && e.DoDel? && e.readSentinel
    ensures KeptOrFlagged(d, After(d, e))
  {
    if e.name in d.memory.groups && e.addr in d.memory.groups[e.name].servers {
      var g := d.memory.groups[e.name];
      assert GroupOk(e.name, g);
      FlagKeeps(d, d, e.flag);
      var f := FlagSentinel(d, true, e.flag);
      if f.ok {
        PutKeeps(d, f.after, Shrunk(g, IndexOf(g.servers, e.addr)), e.put);
      }
    }
  }

  lemma FinishKeeps(r: Dashboard, d: Dashboard, g: Group, f: Faults)
    requires KeptOrFlagged(r, d)
    requires g.name in d.memory.groups && d.memory.groups[g.name].servers == g.servers
    ensures KeptOrFlagged(r, FromFinished(d, g, f).after)
  {
    PutKeeps(r, d, Rebuilt(g), f.finish);
  }

  lemma SwapKeeps(r: Dashboard, d: Dashboard, g: Group, i: nat, f: Faults)
    requires KeptOrFlagged(r, d) && g.name in d.memory.groups && i < |g.servers|
    requires BothFlagged(d) || r.memory.sentinel.servers == []
    ensures KeptOrFlagged(r, FromFlagged(d, g, i, f).after)
  {
    var g' := SwappedGroup(g, i);
    var t := PutGroup(d, g', f.swap);
    PutKeeps(r, d, g', f.swap);
    PutKeeps(r, t, g'.(outOfSync := true), f.resync);
    FinishKeeps(r, Resynced(t, g', f.synced, f.resync), g', f);
  }

  lemma FlaggedKeeps(r: Dashboard, d: Dashboard, g: Group, i: nat, f: Faults)
    requires KeptOrFlagged(r, d) && g.name in d.memory.groups && i < |g.servers|
    ensures KeptOrFlagged(r, FromPrepared(d, g, i, f).after)
  {
    FlagKeeps(r, d, f.flag);
    if FlagSentinel(d, true, f.flag).ok {
      SwapKeeps(r, FlagSentinel(d, true, f.flag).after, g, i, f);
    }
  }

  lemma CommitKeeps(r: Dashboard, d: Dashboard, g: Group, i: nat, f: Faults)
    requires KeptOrFlagged(r, d)
    requires g.name in d.memory.groups && d.memory.groups[g.name].servers == g.servers && i < |g.servers|
    ensures KeptOrFlagged(r, FromPreparing(d, g, i, f).after)
  {
    var g' := g.(promotingState := Prepared);
    PutKeeps(r, d, g', f.prepared);
    FlaggedKeeps(r, PutGroup(d, g', f.prepared), g', i, f);
  }

  lemma PromoteKeeps(d: Dashboard, e: Event)
    requires Unique(d.memory.groups) && e.DoPromote?
    ensures KeptOrFlagged(d, After(d, e))
  {
    if e.name in d.memory.groups && e.addr in d.memory.groups[e.name].servers {
      var g, f := d.memory.groups[e.name], e.faults;
      var i := IndexOf(g.servers, e.addr);
      assert GroupOk(e.name, g);
      match g.promotingState
      case Nothing =>
        PutKeeps(d, d, Announcement(g, i), f.prepare);
        CommitKeeps(d, PutGroup(d, Announcement(g, i), f.prepare), Announcement(g, i), i, f);
      case Preparing => CommitKeeps(d, d, g, i, f);
      case Prepared => FlaggedKeeps(d, d, g, i, f);
      case Finished => FinishKeeps(d, d, g, f);
      case Other(_) =>
    }
  }

  predicate OnGroups(e: Event) {
    e.DoCreate? || e.DoRemove? || e.DoResync? || e.DoAdd? || e.DoDel? || e.DoPromote?
  }

  lemma GroupEventKeeps(d: Dashboard, e: Event)
    requires Unique(d.memory.groups) && OnGroups(e) && SentinelRead(e)
    ensures KeptOrFlagged(d, After(d, e))
  {
    match e
    case DoCreate(_, _, _, _, _, _) => CreateKeeps(d, e);
    case DoRemove(_, _, _) => RemoveKeeps(d, e);
    case DoResync(_, _, _, _, _) => ResyncKeeps(d, e);
    case DoAdd(_, _, _, _, _, _, _) => AddKeeps(d, e);
    case DoDel(_, _, _, _, _, _, _) => DelKeeps(d, e);
    case DoPromote(_, _, _) => PromoteKeeps(d, e);
  }

  // ---------- soundness in memory ----------

  lemma SwitchKeepsFlagSound(s: System, e: Event)
    requires Unique(s.d.memory.groups) && FlagSound(s) && e.DoSwitch?
    ensures FlagSound(Apply(s, e))
  {
    if Switches(s.d, e) {
      var g := s.d.memory.groups[e.name];
      assert GroupOk(e.name, g);
      MastersAfterPut(s.d.memory.groups, SwitchedGroup(g, SwitchIndex(g.servers, e.addr, e.runId)));
    }
  }

  lemma StepKeepsFlagSound(s: System, e: Event)
    requires Unique(s.d.memory.groups) && FlagSound(s) && SentinelRead(e) && !e.DoRestart?
    ensures FlagSound(Apply(s, e))
  {
    if OnGroups(e) {
      GroupEventKeeps(s.d, e);
      KeptIsSound(s, After(s.d, e));
    } else if e.DoSwitch? {
      SwitchKeepsFlagSound(s, e);
    }
  }

  ghost predicate AllRead(r: Run) {
    r.Start? || (AllRead(r.prior) && SentinelRead(r.event))
  }

  /** In every run without a restart in which the sentinels can be read, the flag in memory is sound. */
  lemma {:induction false} RunKeepsFlagSound(r: Run)
    requires FromEmpty(r) && NoRestart(r) && AllRead(r)
    ensures FlagSound(Last(r))
  {
    if r.Then? {
      RunKeepsFlagSound(r.prior);
      RunKeepsUnique(r.prior);
      StepKeepsFlagSound(Last(r.prior), r.event);
    }
  }

  // ---------- restarts ----------

  /**
    The guard that the program lacks: the record of the flag is cleared only while the records have the masters of
    memory, and a switch that is not recorded finds that record flagged.
   */
  ghost predicate FlagCareful(s: System, e: Event) {
    match e
    case DoResyncSentinels(read, flag, monitored, _, put) =>
      read && flag.Ok? && monitored && !put.FailedUnwritten? && s.d.memory.sentinel.servers != [] ==>
        Masters(s.d.records.groups) == Masters(s.d.memory.groups)
    case DoSwitch(_, _, _, _, put, _) => Switches(s.d, e) && put.FailedUnwritten? ==> !InSync(s.d.records.sentinel)
    case _ => true
  }

  /** A switch in memory, recorded or not, whose records had the masters of memory. */
  lemma MastersAfterSwitch(d: Dashboard, n: Name, i: nat, w: Write)
    requires n in d.memory.groups && GroupOk(n, d.memory.groups[n]) && 0 < i < |d.memory.groups[n].servers|
    requires Masters(d.records.groups) == Masters(d.memory.groups)
    ensures var g := d.memory.groups[n]; var t := PutGroup(d, SwitchedGroup(g, i), w);
      && Masters(t.memory.groups) == Masters(d.memory.groups)[n := g.servers[i]] != Masters(d.memory.groups)
      && Masters(t.records.groups) == if w.FailedUnwritten? then Masters(d.records.groups) else Masters(t.memory.groups)
  {
    var g := d.memory.groups[n];
    var h := SwitchedGroup(g, i);
    assert g.servers[i] in g.servers && g.servers[i] != g.servers[0] && h.Master() == g.servers[i];
    MastersAfterPut(d.memory.groups, h);
    MastersAfterPut(d.records.groups, h);
    assert Masters(d.memory.groups)[n] == g.servers[0];
  }

  lemma SwitchKeepsRecordSoundIff(s: System, e: Event)
    requires Unique(s.d.memory.groups) && RecordSound(s) && e.DoSwitch?
    ensures RecordSound(Apply(s, e)) <==> FlagCareful(s, e)
    ensures FlagSound(Apply(Apply(s, e), DoRestart)) <==> FlagCareful(s, e)
  {
    if Switches(s.d, e) && InSync(s.d.records.sentinel) {
      var g := s.d.memory.groups[e.name];
      assert GroupOk(e.name, g);
      MastersAfterSwitch(s.d, e.name, SwitchIndex(g.servers, e.addr, e.runId), e.put);
    }
  }

  lemma AddSentinelKeepsRecordSound(s: System, e: Event)
    requires RecordSound(s) && e.DoAddSentinel?
    ensures RecordSound(Apply(s, e)) && FlagSound(Apply(Apply(s, e), DoRestart))
  {
  }

  lemma DelSentinelKeepsRecordSound(s: System, e: Event)
    requires RecordSound(s) && e.DoDelSentinel?
    ensures RecordSound(Apply(s, e)) && FlagSound(Apply(Apply(s, e), DoRestart))
  {
  }

  lemma ResyncSentinelsKeepsRecordSoundIff(s: System, e: Event)
    requires RecordSound(s) && e.DoResyncSentinels?
    ensures RecordSound(Apply(s, e)) <==> FlagCareful(s, e)
    ensures FlagSound(Apply(Apply(s, e), DoRestart)) <==> FlagCareful(s, e)
  {
  }

  lemma SentinelEventKeepsRecordSoundIff(s: System, e: Event)
    requires RecordSound(s) && (e.DoAddSentinel? || e.DoDelSentinel? || e.DoResyncSentinels?)
    ensures RecordSound(Apply(s, e)) <==> FlagCareful(s, e)
    ensures FlagSound(Apply(Apply(s, e), DoRestart)) <==> FlagCareful(s, e)
  {
    match e
    case DoAddSentinel(_, _, _, _) => AddSentinelKeepsRecordSound(s, e);
    case DoDelSentinel(_, _, _, _, _, _) => DelSentinelKeepsRecordSound(s, e);
    case DoResyncSentinels(_, _, _, _, _) => ResyncSentinelsKeepsRecordSoundIff(s, e);
  }

  /** The record of the flag stays sound exactly when the event is careful; if it does not, a restart right after the
      event leaves the flag unsound. */
  lemma StepKeepsRecordSoundIff(s: System, e: Event)
    requires Unique(s.d.memory.groups) && RecordSound(s) && SentinelRead(e)
    ensures RecordSound(Apply(s, e)) <==> FlagCareful(s, e)
    ensures FlagSound(Apply(Apply(s, e), DoRestart)) <==> FlagCareful(s, e)
  {
    if OnGroups(e) {
      GroupEventKeeps(s.d, e);
      KeptIsSound(s, After(s.d, e));
    } else if e.DoSwitch? {
      SwitchKeepsRecordSoundIff(s, e);
    } else if !e.DoRestart? {
      SentinelEventKeepsRecordSoundIff(s, e);
    }
  }

  ghost predicate FlagCarefulRun(r: Run) {
    r.Start? || (FlagCarefulRun(r.prior) && FlagCareful(Last(r.prior), r.event))
  }

  /** In every careful run, with restarts anywhere, the flag is sound. */
  lemma {:induction false} CarefulRunKeepsFlagSound(r: Run)
    requires FromEmpty(r) && CarefulRun(r) && FlagCarefulRun(r) && AllRead(r)
    ensures FlagSound(Last(r)) && RecordSound(Last(r))
  {
    if r.Then? {
      CarefulRunKeepsFlagSound(r.prior);
      RecordsUniqueIffCareful(r.prior);
      StepKeepsRecordSoundIff(Last(r.prior), r.event);
      if !r.event.DoRestart? {
        StepKeepsFlagSound(Last(r.prior), r.event);
      }
    }
  }

  ghost predicate AlwaysRecordSound(r: Run) {
    RecordSound(Last(r)) && (r.Then? ==> AlwaysRecordSound(r.prior))
  }

  /** Over every run with unique records, restarts included: the record of the flag was sound all along exactly when
      every event was careful with it. */
  lemma {:induction false} RecordsSoundIffFlagCareful(r: Run)
    requires FromEmpty(r) && CarefulRun(r) && AllRead(r)
    ensures AlwaysRecordSound(r) <==> FlagCarefulRun(r)
  {
    if r.Then? {
      RecordsSoundIffFlagCareful(r.prior);
      RecordsUniqueIffCareful(r.prior);
      if FlagCarefulRun(r.prior) {
        StepKeepsRecordSoundIff(Last(r.prior), r.event);
      }
    }
  }

  // ---------- runs that leave the flag unsound ----------

  function One(servers: seq<Addr>, x: Sentinel): Store {
    Store(map["g" := Plain("g", servers, 1)], x)
  }

  /** One more event, for which the sentinels can be read. */
  lemma Read(r: Run, s: System, e: Event, t: System) returns (longer: Run)
    requires FromEmpty(r) && NoRestart(r) && AllRead(r) && !e.DoRestart? && SentinelRead(e)
    requires Last(r) == s && Apply(s, e) == t
    ensures FromEmpty(longer) && NoRestart(longer) && AllRead(longer) && Last(longer) == t
  {
    longer := Then(r, e);
  }

  /** One group on record with `recorded` servers, in memory with `servers`; one sentinel, told what memory has. */
  lemma Watched(servers: seq<Addr>, recorded: seq<Addr>) returns (r: Run)
    requires servers == recorded == [] || (servers == ["a"] && (recorded == ["a"] || recorded == []))
    ensures FromEmpty(r) && NoRestart(r) && AllRead(r)
    ensures var x := Sentinel(["s"], false);
      Last(r) == System(Dashboard(One(servers, x), One(recorded, x)), Masters(One(servers, x).groups))
  {
    var none, off := Sentinel([], false), Sentinel(["s"], true);
    r := Start(System(Dashboard(EMPTY, EMPTY), map[]));
    assert AllRead(r);
    r := Read(r, Last(r), DoCreate("g", 1, 2, "", true, Ok), System(Dashboard(One([], none), One([], none)), map[]));
    if servers == ["a"] {
      r := Gets(r, recorded);
    }
    r := Read(r, Last(r), DoAddSentinel("s", true, true, Ok),
              System(Dashboard(One(servers, off), One(recorded, off)), map[]));
    r := Then(r, DoResyncSentinels(true, Ok, true, map[], Ok));
  }

  lemma Gets(before: Run, recorded: seq<Addr>) returns (r: Run)
    requires FromEmpty(before) && NoRestart(before) && AllRead(before) && (recorded == ["a"] || recorded == [])
    requires var s := One([], Sentinel([], false)); Last(before) == System(Dashboard(s, s), map[])
    ensures FromEmpty(r) && NoRestart(r) && AllRead(r)
    ensures Last(r) == System(Dashboard(One(["a"], Sentinel([], false)), One(recorded, Sentinel([], false))), map[])
  {
    r := Then(before, DoAdd("g", "a", true, true, Ok, if recorded == [] then FailedUnwritten else Ok, true));
    assert Grown(Plain("g", [], 1), "a") == Plain("g", ["a"], 1);
  }

  /** The sentinels are told of a server whose addition was not recorded: after a restart the flag is clear, though
      they watch a group that has no master. */
  lemma LostAdditionBreaksFlag() returns (r: Run)
    ensures FromEmpty(r) && NoRestart(r) && AllRead(r)
    ensures FlagSound(Last(r)) && !FlagSound(Last(Then(r, DoRestart)))
  {
    r := Watched(["a"], []);
    assert "g" in Masters(One(["a"], Sentinel(["s"], false)).groups);
    assert "g" !in Masters(One([], Sentinel(["s"], false)).groups);
  }

  /** With a SentinelMapper whose Info can fail: an unread addition leaves the flag clear and a master unwatched. */
  lemma UnreadAddition() returns (r: Run)
    ensures FromEmpty(r) && NoRestart(r) && !FlagSound(Last(r))
  {
    r := Watched([], []);
    r := Then(r, DoAdd("g", "a", true, false, Ok, Ok, true));
    assert "g" !in Masters(One([], Sentinel(["s"], false)).groups);
    assert "g" in Masters(Last(r).d.memory.groups);
  }

  /** Likewise an unread removal: the sentinels go on watching a master that is gone. */
  lemma UnreadRemoval() returns (r: Run)
    ensures FromEmpty(r) && NoRestart(r) && !FlagSound(Last(r))
  {
    r := Watched(["a"], ["a"]);
    r := Then(r, DoDel("g", "a", true, false, Ok, Ok, true));
    assert "g" in Masters(One(["a"], Sentinel(["s"], false)).groups);
    assert "g" !in Masters(Last(r).d.memory.groups);
  }

  /** When the sentinels cannot be read, adding a server makes a sound flag unsound exactly when there are
      sentinels in sync and the server really became the first of an empty group. */
  lemma UnreadAddBreaksFlag(s: System, e: Event)
    requires Unique(s.d.memory.groups) && FlagSound(s) && e.DoAdd? && !e.readSentinel
    ensures FlagSound(Apply(s, e)) <==>
      !(InSync(s.d.memory.sentinel) && e.read && e.addr != "" && e.name in s.d.memory.groups
        && s.d.memory.groups[e.name].servers == [] && !AddrTaken(s.d.memory.groups, e.addr))
  {
    if e.name in s.d.memory.groups {
      var g := s.d.memory.groups[e.name];
      assert GroupOk(e.name, g);
      MastersAfterPut(s.d.memory.groups, Grown(g, e.addr));
      assert e.name in Masters(s.d.memory.groups) <==> g.servers != [];
      assert g.servers != [] ==> g.Master() == Grown(g, e.addr).Master();
    }
  }

  /** Likewise removing a server: the flag breaks exactly when the only server of its group went. */
  lemma UnreadDelBreaksFlag(s: System, e: Event)
    requires Unique(s.d.memory.groups) && FlagSound(s) && e.DoDel? && !e.readSentinel
    ensures FlagSound(Apply(s, e)) <==>
      !(InSync(s.d.memory.sentinel) && e.read && e.name in s.d.memory.groups
        && s.d.memory.groups[e.name].servers == [e.addr])
  {
    if e.name in s.d.memory.groups {
      var g := s.d.memory.groups[e.name];
      assert GroupOk(e.name, g);
      var i := IndexOf(g.servers, e.addr);
      if i != -1 {
        MastersAfterPut(s.d.memory.groups, Shrunk(g, i));
        assert e.name in Masters(s.d.memory.groups);
      }
    }
  }
}
