/**
  Runs of the dashboard: any operations, in any order, each stopped by any failing write, and restarts.

  Every operation runs under one mutex, so a run is a sequence of operations.  Memory and records drift apart when a
  write fails: an object edited in place keeps its edit, a new object is dropped.  A restart reads the records.
  `pushed` is not kept anywhere: it records the masters that the sentinels were last told, as changed since by the
  masters the dashboard adopted from them.
 */
module TopomRuns {
  import opened TopomModel
  import opened TopomPromotion
  import opened Options

  datatype System = System(d: Dashboard, pushed: map<Name, Addr>)

  datatype Event =
    | DoCreate(name: Name, r: int, w: int, now: string, read: bool, put: Write)
    | DoRemove(name: Name, read: bool, remove: Write)
    | DoResync(name: Name, read: bool, put: Write, synced: bool, put': Write)
    | DoAdd(name: Name, addr: Addr, read: bool, readSentinel: bool, flag: Write, put: Write, refreshed: bool)
    | DoDel(name: Name, addr: Addr, read: bool, readSentinel: bool, flag: Write, put: Write, refreshed: bool)
    | DoPromote(name: Name, addr: Addr, faults: Faults)
    | DoAddSentinel(addr: Addr, read: bool, flushed: bool, put: Write)
    | DoDelSentinel(addr: Addr, force: bool, read: bool, flag: Write, removed: bool, put: Write)
    | DoResyncSentinels(read: bool, flag: Write, monitored: bool, partly: map<Name, Addr>, put: Write)
    | DoSwitch(name: Name, addr: Addr, runId: Addr -> string, read: bool, put: Write, refreshed: bool)
    | DoRestart

  ghost function After(d: Dashboard, e: Event): Dashboard {
    match e
    case DoCreate(name, r, w, now, read, put) => CreateGroup(d, name, r, w, now, read, put).after
    case DoRemove(name, read, remove) => RemoveGroup(d, name, read, remove).after
    case DoResync(name, read, put, synced, put') => ResyncGroup(d, name, read, put, synced, put').after
    case DoAdd(name, addr, read, rs, flag, put, ok) => AddGroupServer(d, name, addr, read, rs, flag, put, ok).after
    case DoDel(name, addr, read, rs, flag, put, ok) => DelGroupServer(d, name, addr, read, rs, flag, put, ok).after
    case DoPromote(name, addr, faults) => PromoteServer(d, name, addr, faults).after
    case DoAddSentinel(addr, read, flushed, put) => AddSentinel(d, addr, read, flushed, put).after
    case DoDelSentinel(addr, force, read, flag, removed, put) =>
      DelSentinel(d, addr, force, read, flag, removed, put).after
    case DoResyncSentinels(read, flag, monitored, _, put) => ResyncSentinels(d, read, flag, monitored, put).after
    case DoSwitch(name, addr, runId, read, put, ok) => SwitchMaster(d, name, addr, runId, read, put, ok).after
    case DoRestart => Reloaded(d)
  }

  /** The sentinels' choice is another server of the group than its first. */
  predicate Switches(d: Dashboard, e: Event) {
    && e.DoSwitch? && e.read && e.name in d.memory.groups
    && SwitchIndex(d.memory.groups[e.name].servers, e.addr, e.runId) > 0
  }

  /** What the sentinels watch afterwards.  A resync that fails half-way leaves them with anything. */
  ghost function PushedAfter(s: System, e: Event): map<Name, Addr> {
    match e
    case DoResyncSentinels(read, flag, monitored, partly, _) =>
      if !read || !flag.Ok? then s.pushed else if monitored then Masters(s.d.memory.groups) else partly
    case DoSwitch(name, addr, runId, _, _, _) =>
      if Switches(s.d, e) then
        var servers := s.d.memory.groups[name].servers;
        s.pushed[name := servers[SwitchIndex(servers, addr, runId)]]
      else s.pushed
    case _ => s.pushed
  }

  ghost function Apply(s: System, e: Event): System {
    System(After(s.d, e), PushedAfter(s, e))
  }

  datatype Run = Start(system: System) | Then(prior: Run, event: Event)

  ghost function Last(r: Run): System {
    match r
    case Start(s) => s
    case Then(prior, e) => Apply(Last(prior), e)
  }

  const EMPTY := Store(map[], Sentinel([], false))

  /** A run from an empty dashboard. */
  ghost predicate FromEmpty(r: Run) {
    match r
    case Start(s) => s == System(Dashboard(EMPTY, EMPTY), map[])
    case Then(prior, _) => FromEmpty(prior)
  }

  ghost predicate NoRestart(r: Run) {
    r.Start? || (NoRestart(r.prior) && !r.event.DoRestart?)
  }

  // ---------- uniqueness across groups ----------

  ghost function Elems(servers: seq<Addr>): set<Addr> { set a | a in servers }

  function Ports(g: Group): set<int> { {g.readPort, g.writePort} }

  ghost predicate NoRepeats(servers: seq<Addr>) {
    forall i, j | 0 <= i < j < |servers| :: servers[i] != servers[j]
  }

  ghost predicate GroupOk(n: Name, g: Group) {
    g.name == n && NoRepeats(g.servers) && "" !in g.servers && g.readPort != g.writePort
  }

  ghost predicate Apart(g: Group, h: Group) {
    Elems(g.servers) !! Elems(h.servers) && Ports(g) !! Ports(h)
  }

  /** No address occurs twice in any or across groups, and all ports are pairwise different. */
  ghost predicate Unique(groups: map<Name, Group>) {
    && (forall n <- groups :: GroupOk(n, groups[n]))
    && (forall n, m | n in groups && m in groups && n != m :: Apart(groups[n], groups[m]))
  }

  lemma SwappedElems(servers: seq<Addr>, i: nat)
    requires i < |servers| && NoRepeats(servers)
    ensures NoRepeats(Swapped(servers, i)) && Elems(Swapped(servers, i)) == Elems(servers)
  {
    var t := Swapped(servers, i);
    SwappedIsPermutation(servers, i);
    forall a ensures a in t <==> a in servers {
      assert a in t <==> a in multiset(t);
    }
  }

  lemma WithoutElems(servers: seq<Addr>, i: nat)
    requires i < |servers| && NoRepeats(servers)
    ensures NoRepeats(Without(servers, i)) && Elems(Without(servers, i)) <= Elems(servers)
  {
  }

  // ---------- what one event writes ----------

  /** The same group as far as uniqueness goes. */
  ghost predicate Alike(g: Group, h: Group) {
    && h.name == g.name && h.readPort == g.readPort && h.writePort == g.writePort
    && NoRepeats(h.servers) && Elems(h.servers) == Elems(g.servers)
  }

  /** At most one group was written, and it is like `g`. */
  ghost predicate Wrote(groups: map<Name, Group>, after: map<Name, Group>, g: Group) {
    after == groups
    || (g.name in after && Alike(g, after[g.name]) && "" !in after[g.name].servers &&
        after == groups[g.name := after[g.name]])
  }

  ghost predicate BothWrote(d: Dashboard, t: Dashboard, g: Group) {
    Wrote(d.memory.groups, t.memory.groups, g) && Wrote(d.records.groups, t.records.groups, g)
  }

  /** The group that the event writes, if it writes any, as far as uniqueness goes. */
  ghost function Target(d: Dashboard, e: Event): Option<Group> {
    var groups := d.memory.groups;
    match e
    case DoCreate(name, r, w, now, _, _) =>
      if name !in groups && r != w && !PortTaken(groups, r, w)
      then Some(Group(name, [], 0, Nothing, false, r, w, now)) else None
    case DoAdd(name, addr, _, _, _, _, _) =>
      if name in groups && addr != "" && !AddrTaken(groups, addr) then Some(Grown(groups[name], addr)) else None
    case DoDel(name, addr, _, _, _, _, _) =>
      if name in groups && addr in groups[name].servers
      then Some(Shrunk(groups[name], IndexOf(groups[name].servers, addr))) else None
    case DoPromote(name, addr, _) =>
      if name in groups && addr in groups[name].servers then Some(groups[name]) else None
    case DoResync(name, _, _, _, _) => if name in groups then Some(groups[name]) else None
    case DoSwitch(name, _, _, _, _, _) => if name in groups then Some(groups[name]) else None
    case _ => None
  }

  lemma PutWrote(d: Dashboard, t: Dashboard, g: Group, h: Group, w: Write)
    requires BothWrote(d, t, g) && Alike(g, h) && "" !in h.servers
    ensures BothWrote(d, PutGroup(t, h, w), g) && BothWrote(d, PutNewGroup(t, h, w), g)
  {
  }

  /** No other group has a server or a port of `g`. */
  ghost predicate Clear(groups: map<Name, Group>, g: Group) {
    forall m | m in groups && m != g.name :: Apart(g, groups[m])
  }

  lemma TargetIsClear(d: Dashboard, e: Event)
    requires Unique(d.memory.groups) && Target(d, e).Some?
    ensures var g := Target(d, e).value; GroupOk(g.name, g) && Clear(d.memory.groups, g)
  {
    var groups, g := d.memory.groups, Target(d, e).value;
    if e.DoCreate? {
      forall m | m in groups ensures Apart(g, groups[m]) {
        assert !PortClash(groups[m], e.r, e.w);
      }
    } else {
      var was := groups[e.name];
      assert GroupOk(e.name, was);
      if e.DoDel? {
        WithoutElems(was.servers, IndexOf(was.servers, e.addr));
      }
      forall m | m in groups && m != g.name ensures Apart(g, groups[m]) {
        assert Apart(was, groups[m]);
        assert e.DoAdd? ==> e.addr !in groups[m].servers;
      }
    }
  }

  lemma ResyncWrites(d: Dashboard, e: Event)
    requires e.DoResync? && e.name in d.memory.groups && GroupOk(e.name, d.memory.groups[e.name])
    ensures BothWrote(d, After(d, e), d.memory.groups[e.name])
  {
    var g := d.memory.groups[e.name];
    var off := g.(outOfSync := false);
    PutWrote(d, d, g, off, e.put);
    PutWrote(d, PutGroup(d, off, e.put), g, off.(outOfSync := true), e.put');
  }

  lemma PromoteWrites(d: Dashboard, e: Event)
    requires e.DoPromote? && e.name in d.memory.groups && GroupOk(e.name, d.memory.groups[e.name])
    requires e.addr in d.memory.groups[e.name].servers
    ensures BothWrote(d, After(d, e), d.memory.groups[e.name])
  {
    var g := d.memory.groups[e.name];
    PromotesTheRequestedServer(d, e.name, e.addr, e.faults);
    SwappedElems(g.servers, IndexOf(g.servers, e.addr));
  }

  lemma SwitchWrites(d: Dashboard, e: Event)
    requires e.DoSwitch? && e.name in d.memory.groups && GroupOk(e.name, d.memory.groups[e.name])
    ensures BothWrote(d, After(d, e), d.memory.groups[e.name])
  {
    var g := d.memory.groups[e.name];
    var i := SwitchIndex(g.servers, e.addr, e.runId);
    if i > 0 {
      SwappedElems(g.servers, i);
      PutWrote(d, d, g, SwitchedGroup(g, i), e.put);
    }
  }

  /** An event with a target writes at most that group, in memory and on record. */
  lemma EventWrites(d: Dashboard, e: Event)
    requires Unique(d.memory.groups) && Target(d, e).Some?
    ensures BothWrote(d, After(d, e), Target(d, e).value)
  {
    TargetIsClear(d, e);
    var g := Target(d, e).value;
    match e
    case DoCreate(_, _, _, _, _, put) => PutWrote(d, d, g, g, put);
    case DoAdd(_, _, _, readSentinel, flag, put, _) =>
      PutWrote(d, FlagSentinel(d, readSentinel, flag).after, g, g, put);
    case DoDel(_, _, _, readSentinel, flag, put, _) =>
      PutWrote(d, FlagSentinel(d, readSentinel, flag).after, g, g, put);
    case DoPromote(name, _, _) =>
      assert GroupOk(name, d.memory.groups[name]);
      PromoteWrites(d, e);
    case DoResync(name, _, _, _, _) =>
      assert GroupOk(name, d.memory.groups[name]);
      ResyncWrites(d, e);
    case DoSwitch(name, _, _, _, _, _) =>
      assert GroupOk(name, d.memory.groups[name]);
      SwitchWrites(d, e);
  }

  /** An event without a target changes no group, but for the removal of one; a restart aside. */
  lemma OthersWriteNothing(d: Dashboard, e: Event)
    requires Target(d, e).None? && !e.DoRestart?
    ensures var t := After(d, e);
      && (t.memory.groups == d.memory.groups || (e.DoRemove? && t.memory.groups.Keys < d.memory.groups.Keys
          && forall n <- t.memory.groups :: t.memory.groups[n] == d.memory.groups[n]))
      && (t.records.groups == d.records.groups || (e.DoRemove? && t.records.groups.Keys <= d.records.groups.Keys
          && forall n <- t.records.groups :: t.records.groups[n] == d.records.groups[n]))
  {
  }

  // ---------- uniqueness, in memory and on record ----------

  /** Writing a group keeps uniqueness exactly when no other group has a server or a port of it. */
  lemma WroteStaysUniqueIff(groups: map<Name, Group>, after: map<Name, Group>, g: Group)
    requires Unique(groups) && GroupOk(g.name, g) && Wrote(groups, after, g)
    ensures Unique(after) <==> after == groups || Clear(groups, g)
  {
    if after != groups && Unique(after) {
      forall m | m in groups && m != g.name ensures Apart(g, groups[m]) {
        assert Apart(after[g.name], after[m]);
      }
    }
  }

  lemma MemoryStaysUnique(d: Dashboard, e: Event)
    requires Unique(d.memory.groups) && !e.DoRestart?
    ensures Unique(After(d, e).memory.groups)
  {
    if Target(d, e).Some? {
      TargetIsClear(d, e);
      EventWrites(d, e);
      WroteStaysUniqueIff(d.memory.groups, After(d, e).memory.groups, Target(d, e).value);
    } else {
      OthersWriteNothing(d, e);
    }
  }

  /** In every run without a restart, whatever writes fail, addresses and ports in memory stay unique. */
  lemma {:induction false} RunKeepsUnique(r: Run)
    requires FromEmpty(r) && NoRestart(r)
    ensures Unique(Last(r).d.memory.groups)
  {
    if r.Then? {
      RunKeepsUnique(r.prior);
      MemoryStaysUnique(Last(r.prior).d, r.event);
    }
  }

  /** The guard that the program lacks: what is about to be recorded clashes with no other record. */
  ghost predicate Careful(d: Dashboard, e: Event) {
    Target(d, e).Some? && After(d, e).records.groups != d.records.groups ==> Clear(d.records.groups, Target(d, e).value)
  }

  /** The records stay unique exactly when the event is careful. */
  lemma RecordsStayUniqueIff(d: Dashboard, e: Event)
    requires Unique(d.memory.groups) && Unique(d.records.groups)
    ensures Unique(After(d, e).records.groups) <==> Careful(d, e)
  {
    if Target(d, e).Some? {
      TargetIsClear(d, e);
      EventWrites(d, e);
      WroteStaysUniqueIff(d.records.groups, After(d, e).records.groups, Target(d, e).value);
    } else if !e.DoRestart? {
      OthersWriteNothing(d, e);
    }
  }

  ghost predicate AlwaysUnique(r: Run) {
    Unique(Last(r).d.records.groups) && (r.Then? ==> AlwaysUnique(r.prior))
  }

  ghost predicate CarefulRun(r: Run) {
    r.Start? || (CarefulRun(r.prior) && Careful(Last(r.prior).d, r.event))
  }

  /** Over every run, restarts included: the records were unique all along exactly when every event was careful, and
      then memory is unique as well. */
  lemma {:induction false} RecordsUniqueIffCareful(r: Run)
    requires FromEmpty(r)
    ensures AlwaysUnique(r) <==> CarefulRun(r)
    ensures CarefulRun(r) ==> Unique(Last(r).d.memory.groups)
  {
    if r.Then? {
      RecordsUniqueIffCareful(r.prior);
      if CarefulRun(r.prior) {
        RecordsStayUniqueIff(Last(r.prior).d, r.event);
        if !r.event.DoRestart? {
          MemoryStaysUnique(Last(r.prior).d, r.event);
        }
      }
    }
  }

  /** Every record is of a group in memory, with the same servers and ports. */
  ghost predicate UpToDate(d: Dashboard) {
    forall n <- d.records.groups :: n in d.memory.groups && Alike(d.memory.groups[n], d.records.groups[n])
  }

  /** As long as no failing write has made the records differ, every event is careful. */
  lemma UpToDateIsCareful(d: Dashboard, e: Event)
    requires Unique(d.memory.groups) && UpToDate(d)
    ensures Careful(d, e)
  {
    if Target(d, e).Some? {
      TargetIsClear(d, e);
      forall m | m in d.records.groups && m != Target(d, e).value.name
        ensures Apart(Target(d, e).value, d.records.groups[m])
      {
        assert Alike(d.memory.groups[m], d.records.groups[m]);
      }
    }
  }

  // ---------- runs that leave the records not unique ----------

  lemma Extend(r: Run, s: System, e: Event, t: System) returns (longer: Run)
    requires FromEmpty(r) && NoRestart(r) && !e.DoRestart? && Last(r) == s && Apply(s, e) == t
    ensures FromEmpty(longer) && NoRestart(longer) && Last(longer) == t && longer == Then(r, e)
  {
    longer := Then(r, e);
  }

  function Plain(name: Name, servers: seq<Addr>, r: int): Group {
    Group(name, servers, 0, Nothing, false, r, r + 1, "")
  }

  function Pair(first: seq<Addr>, second: seq<Addr>): Store {
    Store(map["g1" := Plain("g1", first, 1), "g2" := Plain("g2", second, 3)], Sentinel([], false))
  }

  lemma TwoGroups() returns (r: Run)
    ensures FromEmpty(r) && NoRestart(r) && Last(r) == System(Dashboard(Pair([], []), Pair([], [])), map[])
  {
    r := Start(System(Dashboard(EMPTY, EMPTY), map[]));
    var s := Store(map["g1" := Plain("g1", [], 1)], Sentinel([], false));
    r := Extend(r, Last(r), DoCreate("g1", 1, 2, "", true, Ok), System(Dashboard(s, s), map[]));
    r := Extend(r, Last(r), DoCreate("g2", 3, 4, "", true, Ok), System(Dashboard(Pair([], []), Pair([], [])), map[]));
  }

  lemma FirstGets() returns (r: Run)
    ensures FromEmpty(r) && NoRestart(r) && Last(r) == System(Dashboard(Pair(["a"], []), Pair(["a"], [])), map[])
  {
    r := TwoGroups();
    r := Then(r, DoAdd("g1", "a", true, true, Ok, Ok, true));
    assert Grown(Plain("g1", [], 1), "a") == Plain("g1", ["a"], 1);
  }

  lemma FirstLosesInMemory() returns (r: Run)
    ensures FromEmpty(r) && NoRestart(r) && Last(r) == System(Dashboard(Pair([], []), Pair(["a"], [])), map[])
  {
    r := FirstGets();
    r := Then(r, DoDel("g1", "a", true, true, Ok, FailedUnwritten, true));
    assert Shrunk(Plain("g1", ["a"], 1), 0) == Plain("g1", [], 1);
  }

  lemma SecondGets() returns (r: Run)
    ensures FromEmpty(r) && NoRestart(r) && Last(r) == System(Dashboard(Pair([], ["a"]), Pair(["a"], ["a"])), map[])
  {
    r := FirstLosesInMemory();
    r := Then(r, DoAdd("g2", "a", true, true, Ok, Ok, true));
    assert Grown(Plain("g2", [], 3), "a") == Plain("g2", ["a"], 3);
  }

  lemma RestartReloads(r: Run)
    ensures Last(Then(r, DoRestart)).d.memory == Last(r).d.records
  {
  }

  /** A server is removed from g1, which fails to be recorded, and added to g2: both records have it. */
  lemma LostRemovalDuplicatesServer() returns (r: Run)
    ensures FromEmpty(r) && NoRestart(r)
    ensures Unique(Last(r).d.memory.groups) && !Unique(Last(r).d.records.groups)
    ensures !Unique(Last(Then(r, DoRestart)).d.memory.groups)
  {
    r := SecondGets();
    RunKeepsUnique(r);
    SameServerTwice();
    RestartReloads(r);
  }

  lemma SameServerTwice()
    ensures !Unique(Pair(["a"], ["a"]).groups)
  {
    var groups := Pair(["a"], ["a"]).groups;
    assert "a" in Elems(groups["g1"].servers) && "a" in Elems(groups["g2"].servers);
    assert !Apart(groups["g1"], groups["g2"]);
  }

  /** A group whose creation is recorded but reported as failed is missing in memory: its port is taken again. */
  lemma AmbiguousCreateDuplicatesPort() returns (r: Run)
    ensures FromEmpty(r) && NoRestart(r)
    ensures Unique(Last(r).d.memory.groups) && !Unique(Last(r).d.records.groups)
  {
    var none, g1, g2 := Sentinel([], false), Plain("g1", [], 1), Plain("g2", [], 2);
    r := Start(System(Dashboard(EMPTY, EMPTY), map[]));
    var t1 := Store(map["g1" := g1], none);
    r := Extend(r, Last(r), DoCreate("g1", 1, 2, "", true, FailedWritten), System(Dashboard(EMPTY, t1), map[]));
    var s2, t2 := Store(map["g2" := g2], none), Store(map["g1" := g1, "g2" := g2], none);
    r := Extend(r, Last(r), DoCreate("g2", 2, 3, "", true, Ok), System(Dashboard(s2, t2), map[]));
    RunKeepsUnique(r);
    assert 2 in Ports(g1) && 2 in Ports(g2);
    assert !Apart(t2.groups["g1"], t2.groups["g2"]);
  }

  // ---------- masters ----------

  function MasterOf(s: Store, n: Name): Addr {
    if n in s.groups then s.groups[n].Master() else ""
  }

  lemma PromoteKeepsMaster(d: Dashboard, e: Event, n: Name)
    requires Unique(d.memory.groups) && e.DoPromote? && MasterOf(After(d, e).memory, n) != MasterOf(d.memory, n)
    ensures e.name == n && MasterOf(After(d, e).memory, n) == e.addr
  {
    assert e.name in d.memory.groups ==> GroupOk(e.name, d.memory.groups[e.name]);
    PromotesTheRequestedServer(d, e.name, e.addr, e.faults);
  }

  lemma SwitchKeepsMaster(d: Dashboard, e: Event)
    requires Unique(d.memory.groups) && e.DoSwitch?
    requires MasterOf(After(d, e).memory, e.name) != MasterOf(d.memory, e.name)
    ensures Switches(d, e)
    ensures var servers := d.memory.groups[e.name].servers;
      MasterOf(After(d, e).memory, e.name) == servers[SwitchIndex(servers, e.addr, e.runId)]
  {
    assert e.name in d.memory.groups ==> GroupOk(e.name, d.memory.groups[e.name]);
  }

  lemma AddKeepsMaster(d: Dashboard, e: Event, n: Name)
    requires e.DoAdd? && n in d.memory.groups && GroupOk(n, d.memory.groups[n]) && MasterOf(d.memory, n) != ""
    requires e.name in d.memory.groups ==> GroupOk(e.name, d.memory.groups[e.name])
    ensures MasterOf(After(d, e).memory, n) == MasterOf(d.memory, n)
  {
  }

  lemma ResyncKeepsMaster(d: Dashboard, e: Event, n: Name)
    requires e.DoResync? && n in d.memory.groups && MasterOf(d.memory, n) != ""
    requires e.name in d.memory.groups ==> GroupOk(e.name, d.memory.groups[e.name])
    ensures MasterOf(After(d, e).memory, n) == MasterOf(d.memory, n)
  {
  }

  lemma DelKeepsMaster(d: Dashboard, e: Event, n: Name)
    requires e.DoDel? && n in d.memory.groups && MasterOf(d.memory, n) != ""
    requires e.name in d.memory.groups ==> GroupOk(e.name, d.memory.groups[e.name])
    requires MasterOf(After(d, e).memory, n) != MasterOf(d.memory, n)
    ensures e.name == n && d.memory.groups[n].servers == [e.addr]
  {
  }

  lemma SwitchElsewhereKeepsMaster(d: Dashboard, e: Event, n: Name)
    requires e.DoSwitch? && e.name != n && n in d.memory.groups
    requires e.name in d.memory.groups ==> GroupOk(e.name, d.memory.groups[e.name])
    ensures MasterOf(After(d, e).memory, n) == MasterOf(d.memory, n)
  {
  }

  /** Otherwise a group in memory keeps its first server. */
  lemma OtherKeepsMaster(d: Dashboard, e: Event, n: Name)
    requires Unique(d.memory.groups) && MasterOf(d.memory, n) != ""
    requires !e.DoPromote? && !e.DoDel? && !(e.DoSwitch? && e.name == n) && !e.DoRestart?
    ensures MasterOf(After(d, e).memory, n) == MasterOf(d.memory, n)
  {
    assert GroupOk(n, d.memory.groups[n]);
    match e
    case DoAdd(name, _, _, _, _, _, _) =>
      assert name in d.memory.groups ==> GroupOk(name, d.memory.groups[name]);
      AddKeepsMaster(d, e, n);
    case DoResync(name, _, _, _, _) =>
      assert name in d.memory.groups ==> GroupOk(name, d.memory.groups[name]);
      ResyncKeepsMaster(d, e, n);
    case DoSwitch(name, _, _, _, _, _) =>
      assert name in d.memory.groups ==> GroupOk(name, d.memory.groups[name]);
      SwitchElsewhereKeepsMaster(d, e, n);
    case _ =>
  }

  /** The server that a switch adopts: the address the sentinels name, or, if the group does not have it, a server with
      its run id. */
  ghost predicate Elected(servers: seq<Addr>, addr: Addr, runId: Addr -> string, now: Addr) {
    && now in servers
    && if addr in servers then now == addr else runId(addr) != "" && runId(now) == runId(addr)
  }

  /** After a switch the sentinels are taken to watch that server. */
  lemma SwitchIsWatched(s: System, e: Event)
    requires e.DoSwitch? && e.read && e.name in s.d.memory.groups
    ensures var servers, t := s.d.memory.groups[e.name].servers, Apply(s, e);
      t.pushed == s.pushed || (e.name in t.pushed && t.pushed == s.pushed[e.name := t.pushed[e.name]] &&
                               Elected(servers, e.addr, e.runId, t.pushed[e.name]))
    ensures var servers := s.d.memory.groups[e.name].servers;
      e.addr in servers && e.addr != servers[0] ==> Apply(s, e).pushed == s.pushed[e.name := e.addr]
  {
    var servers := s.d.memory.groups[e.name].servers;
    var i := SwitchIndex(servers, e.addr, e.runId);
    assert i >= 0 ==> servers[i] in servers;
  }

  /**
    In memory, the first server of a non-empty group changes only by a promotion, which puts the requested server
    there, by a switch to the server that the sentinels mean, by the removal of its last server, or by a restart, which
    puts the recorded one there.
   */
  lemma MasterChangesOnlyBy(d: Dashboard, e: Event, n: Name)
    requires Unique(d.memory.groups) && MasterOf(d.memory, n) != ""
    requires MasterOf(After(d, e).memory, n) != MasterOf(d.memory, n)
    ensures var now := MasterOf(After(d, e).memory, n);
      || (e.DoPromote? && e.name == n && now == e.addr)
      || (e.DoSwitch? && e.name == n && n in d.memory.groups &&
          Elected(d.memory.groups[n].servers, e.addr, e.runId, now))
      || (e.DoDel? && e.name == n && n in d.memory.groups && d.memory.groups[n].servers == [e.addr])
      || (e.DoRestart? && now == MasterOf(d.records, n))
  {
    assert GroupOk(n, d.memory.groups[n]);
    if e.DoPromote? {
      PromoteKeepsMaster(d, e, n);
    } else if e.DoSwitch? && e.name == n {
      SwitchKeepsMaster(d, e);
      var servers := d.memory.groups[n].servers;
      assert servers[SwitchIndex(servers, e.addr, e.runId)] in servers;
    } else if e.DoDel? {
      assert e.name in d.memory.groups ==> GroupOk(e.name, d.memory.groups[e.name]);
      DelKeepsMaster(d, e, n);
    } else if !e.DoRestart? {
      OtherKeepsMaster(d, e, n);
    }
  }
}
