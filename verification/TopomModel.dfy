/**
  What the dashboard keeps, and what each of its operations does to it.

  The mappers hold all groups and the sentinels in memory and hand out these very objects; the coordinator
  has a record of each.  An operation edits an object and then writes it.  A write succeeds, or reports an
  error with the record written or not.
 */
module TopomModel {

  type Name = string
  type Addr = string

  datatype Action = Nothing | Preparing | Prepared | Finished | Other(text: string)

  datatype Group = Group(
    name: Name, servers: seq<Addr>, promotingIndex: int, promotingState: Action, outOfSync: bool,
    readPort: int, writePort: int, createTime: string)
  {
    function Master(): Addr { if servers == [] then "" else servers[0] }
  }

  datatype Sentinel = Sentinel(servers: seq<Addr>, outOfSync: bool)

  datatype Store = Store(groups: map<Name, Group>, sentinel: Sentinel)

  /** The mappers' objects in memory, and the coordinator's records of them. */
  datatype Dashboard = Dashboard(memory: Store, records: Store)

  /** How one write to the coordinator ends. */
  datatype Write = Ok | FailedUnwritten | FailedWritten

  /** The dashboard after an operation, and whether it reported success. */
  datatype Outcome = Outcome(after: Dashboard, ok: bool)

  function WithGroup(s: Store, g: Group): Store {
    s.(groups := s.groups[g.name := g])
  }

  /** A group that was edited in place is written: memory has changed already, whatever becomes of the record. */
  function PutGroup(d: Dashboard, g: Group, w: Write): Dashboard {
    Dashboard(WithGroup(d.memory, g), if w.FailedUnwritten? then d.records else WithGroup(d.records, g))
  }

  /** A new group object is written: memory takes it only if the write succeeds. */
  function PutNewGroup(d: Dashboard, g: Group, w: Write): Dashboard {
    Dashboard(if w.Ok? then WithGroup(d.memory, g) else d.memory,
              if w.FailedUnwritten? then d.records else WithGroup(d.records, g))
  }

  /** The sentinels, edited in place, are written. */
  function PutSentinel(d: Dashboard, x: Sentinel, w: Write): Dashboard {
    Dashboard(d.memory.(sentinel := x), if w.FailedUnwritten? then d.records else d.records.(sentinel := x))
  }

  /** A restarted dashboard reads everything from the records. */
  function Reloaded(d: Dashboard): Dashboard {
    Dashboard(d.records, d.records)
  }

  // ---------- lookups ----------

  /** The first index of an address, or -1. */
  function IndexOf(servers: seq<Addr>, addr: Addr): (i: int)
    ensures -1 <= i < |servers|
    ensures i >= 0 ==> servers[i] == addr && addr !in servers[..i] && forall j | 0 <= j < i :: servers[j] != addr
    ensures i == -1 <==> addr !in servers
  {
    if servers == [] then -1
    else if servers[0] == addr then 0
    else
      var i := IndexOf(servers[1..], addr);
      assert forall a :: a in servers <==> a == servers[0] || a in servers[1..];
      assert i >= 0 ==> servers[..i + 1] == [servers[0]] + servers[1..][..i];
      if i == -1 then -1 else i + 1
  }

  function Swapped(servers: seq<Addr>, i: nat): (r: seq<Addr>)
    requires i < |servers|
    ensures |r| == |servers| && r[0] == servers[i]
  {
    servers[0 := servers[i]][i := servers[0]]
  }

  lemma SwappedIsPermutation(servers: seq<Addr>, i: nat)
    requires i < |servers|
    ensures multiset(Swapped(servers, i)) == multiset(servers)
  {
  }

  function Without(servers: seq<Addr>, i: nat): seq<Addr>
    requires i < |servers|
  {
    servers[..i] + servers[i + 1..]
  }

  /** The master of every group that has one. */
  ghost function Masters(groups: map<Name, Group>): map<Name, Addr> {
    map n | n in groups && groups[n].Master() != "" :: groups[n].Master()
  }

  ghost predicate AddrTaken(groups: map<Name, Group>, addr: Addr) {
    exists n <- groups :: addr in groups[n].servers
  }

  predicate PortClash(g: Group, r: int, w: int) {
    r == g.readPort || r == g.writePort || w == g.readPort || w == g.writePort
  }

  ghost predicate PortTaken(groups: map<Name, Group>, r: int, w: int) {
    exists n <- groups :: PortClash(groups[n], r, w)
  }

  // ---------- group operations ----------

  const MAX_GROUP_NAME: nat := 32

  ghost function CreateGroup(d: Dashboard, name: Name, r: int, w: int, now: string, read: bool, put: Write): Outcome {
    var groups := d.memory.groups;
    if name == "" || |name| > MAX_GROUP_NAME || r == w || !read || name in groups || PortTaken(groups, r, w)
    then Outcome(d, false)
    else Outcome(PutNewGroup(d, Group(name, [], 0, Nothing, false, r, w, now), put), put.Ok?)
  }

  function WithoutGroup(s: Store, name: Name): Store {
    s.(groups := s.groups - {name})
  }

  function RemoveGroup(d: Dashboard, name: Name, read: bool, remove: Write): Outcome {
    if !read || name !in d.memory.groups || d.memory.groups[name].servers != [] then Outcome(d, false)
    else
      var key := d.memory.groups[name].name;
      Outcome(Dashboard(if remove.Ok? then WithoutGroup(d.memory, key) else d.memory,
                        if remove.FailedUnwritten? then d.records else WithoutGroup(d.records, key)), remove.Ok?)
  }

  /** resyncGroup: every server was told its master, or the group is flagged again. */
  function Resynced(d: Dashboard, g: Group, synced: bool, put: Write): Dashboard {
    if g.servers == [] || synced then d else PutGroup(d, g.(outOfSync := true), put)
  }

  function ResyncGroup(d: Dashboard, name: Name, read: bool, put: Write, synced: bool, put': Write): Outcome {
    if !read || name !in d.memory.groups then Outcome(d, false)
    else
      var g := d.memory.groups[name].(outOfSync := false);
      if !put.Ok? then Outcome(PutGroup(d, g, put), false)
      else Outcome(Resynced(PutGroup(d, g, put), g, synced, put'), g.servers == [] || synced)
  }

  /** outOfSyncBySentinel: a failing read is silently taken for "no sentinels". */
  function FlagSentinel(d: Dashboard, read: bool, put: Write): Outcome {
    if !read || d.memory.sentinel.servers == [] then Outcome(d, true)
    else Outcome(PutSentinel(d, d.memory.sentinel.(outOfSync := true), put), put.Ok?)
  }

  function Grown(g: Group, addr: Addr): Group {
    g.(servers := g.servers + [addr])
  }

  ghost function AddGroupServer(d: Dashboard, name: Name, addr: Addr, read: bool, readSentinel: bool,
                                flag: Write, put: Write, refreshed: bool): Outcome
  {
    if addr == "" || !read || AddrTaken(d.memory.groups, addr) || name !in d.memory.groups then Outcome(d, false)
    else
      var f := FlagSentinel(d, readSentinel, flag);
      if !f.ok then f
      else Outcome(PutGroup(f.after, Grown(d.memory.groups[name], addr), put), put.Ok? && refreshed)
  }

  /** The group without its server `i`: flagged when a slave went, not flagged when it is empty. */
  function Shrunk(g: Group, i: nat): Group
    requires i < |g.servers|
  {
    g.(servers := Without(g.servers, i), outOfSync := if |g.servers| == 1 then false else i != 0 || g.outOfSync)
  }

  function DelGroupServer(d: Dashboard, name: Name, addr: Addr, read: bool, readSentinel: bool,
                          flag: Write, put: Write, refreshed: bool): Outcome
  {
    if !read || name !in d.memory.groups then Outcome(d, false)
    else
      var g := d.memory.groups[name];
      var i := IndexOf(g.servers, addr);
      if i == -1 || (i == 0 && |g.servers| > 1) then Outcome(d, false)
      else
        var f := FlagSentinel(d, readSentinel, flag);
        if !f.ok then f else Outcome(PutGroup(f.after, Shrunk(g, i), put), put.Ok? && refreshed)
  }

  // ---------- promotion ----------

  /** Everything that can go wrong while a server is promoted. */
  datatype Faults = Faults(
    readSentinel: bool, readGroups: bool, prepare: Write, prepared: Write, flag: Write, swap: Write,
    synced: bool, resync: Write, finish: Write)

  function PromoteServer(d: Dashboard, name: Name, addr: Addr, f: Faults): Outcome {
    if !f.readSentinel || !f.readGroups || name !in d.memory.groups then Outcome(d, false)
    else
      var g := d.memory.groups[name];
      var i := IndexOf(g.servers, addr);
      if i == -1 || (if g.promotingState.Nothing? then i == 0 else i != g.promotingIndex) then Outcome(d, false)
      else
        match g.promotingState
        case Nothing => FromNothing(d, g, i, f)
        case Preparing => FromPreparing(d, g, i, f)
        case Prepared => FromPrepared(d, g, i, f)
        case Finished => FromFinished(d, g, f)
        case Other(_) => Outcome(d, false)
  }

  function Announcement(g: Group, i: nat): Group {
    g.(promotingIndex := i, promotingState := Preparing)
  }

  function FromNothing(d: Dashboard, g: Group, i: nat, f: Faults): Outcome
    requires i < |g.servers|
  {
    var d' := PutGroup(d, Announcement(g, i), f.prepare);
    if f.prepare.Ok? then FromPreparing(d', Announcement(g, i), i, f) else Outcome(d', false)
  }

  function FromPreparing(d: Dashboard, g: Group, i: nat, f: Faults): Outcome
    requires i < |g.servers|
  {
    var g' := g.(promotingState := Prepared);
    var d' := PutGroup(d, g', f.prepared);
    if f.prepared.Ok? then FromPrepared(d', g', i, f) else Outcome(d', false)
  }

  function SwappedGroup(g: Group, i: nat): Group
    requires i < |g.servers|
  {
    g.(servers := Swapped(g.servers, i), promotingIndex := 0, promotingState := Finished)
  }

  function FromPrepared(d: Dashboard, g: Group, i: nat, f: Faults): Outcome
    requires i < |g.servers|
  {
    var flagged := FlagSentinel(d, true, f.flag);
    if !flagged.ok then flagged else FromFlagged(flagged.after, g, i, f)
  }

  function FromFlagged(d: Dashboard, g: Group, i: nat, f: Faults): Outcome
    requires i < |g.servers|
  {
    var g' := SwappedGroup(g, i);
    var d' := PutGroup(d, g', f.swap);
    if !f.swap.Ok? then Outcome(d', false) else FromFinished(Resynced(d', g', f.synced, f.resync), g', f)
  }

  /** The group is rebuilt from five fields, as a new object: the promotion and the resync flag are dropped. */
  function Rebuilt(g: Group): Group {
    g.(promotingIndex := 0, promotingState := Nothing, outOfSync := false)
  }

  function FromFinished(d: Dashboard, g: Group, f: Faults): Outcome {
    Outcome(PutNewGroup(d, Rebuilt(g), f.finish), f.finish.Ok?)
  }

  // ---------- sentinel operations ----------

  function AddSentinel(d: Dashboard, addr: Addr, read: bool, flushed: bool, put: Write): Outcome {
    if addr == "" || !read || addr in d.memory.sentinel.servers || !flushed then Outcome(d, false)
    else Outcome(PutSentinel(d, Sentinel(d.memory.sentinel.servers + [addr], true), put), put.Ok?)
  }

  function DelSentinel(d: Dashboard, addr: Addr, force: bool, read: bool,
                       flag: Write, removed: bool, put: Write): Outcome
  {
    if addr == "" || !read || IndexOf(d.memory.sentinel.servers, addr) == -1 then Outcome(d, false)
    else
      var x := d.memory.sentinel.(outOfSync := true);
      var d' := PutSentinel(d, x, flag);
      if !flag.Ok? || (!removed && !force) then Outcome(d', false)
      else Outcome(PutSentinel(d', x.(servers := Without(x.servers, IndexOf(x.servers, addr))), put), put.Ok?)
  }

  function ResyncSentinels(d: Dashboard, read: bool, flag: Write, monitored: bool, put: Write): Outcome {
    if !read then Outcome(d, false)
    else
      var d' := PutSentinel(d, d.memory.sentinel.(outOfSync := true), flag);
      if !flag.Ok? || !monitored then Outcome(d', false)
      else Outcome(PutSentinel(d', d.memory.sentinel.(outOfSync := false), put), put.Ok?)
  }

  /** Server `i` is the one the sentinels mean: the first of that address, or, if there is none, the first that has the
      run id of that address. */
  ghost predicate Meant(servers: seq<Addr>, addr: Addr, runId: Addr -> string, i: int) {
    && 0 <= i < |servers|
    && if addr in servers then servers[i] == addr && forall j | 0 <= j < i :: servers[j] != addr
       else
         && runId(addr) != "" && runId(servers[i]) == runId(addr)
         && forall j | 0 <= j < i :: runId(servers[j]) != runId(addr)
  }

  /** The index of that server, or -1. */
  function SwitchIndex(servers: seq<Addr>, addr: Addr, runId: Addr -> string): (i: int)
    ensures -1 <= i < |servers|
    ensures i >= 0 ==> Meant(servers, addr, runId, i)
    ensures i == -1 ==> addr !in servers && (runId(addr) == "" || forall s <- servers :: runId(s) != runId(addr))
  {
    if addr in servers then IndexOf(servers, addr) else SameRunId(servers, runId(addr), runId)
  }

  function SameRunId(servers: seq<Addr>, id: string, runId: Addr -> string): (i: int)
    ensures -1 <= i < |servers|
    ensures i >= 0 ==> id != "" && runId(servers[i]) == id && forall j | 0 <= j < i :: runId(servers[j]) != id
    ensures i == -1 ==> id == "" || forall s <- servers :: runId(s) != id
  {
    if servers == [] then -1
    else if id != "" && id == runId(servers[0]) then 0
    else
      var i := SameRunId(servers[1..], id, runId);
      if i == -1 then -1 else i + 1
  }

  function SwitchedGroup(g: Group, i: nat): Group
    requires i < |g.servers|
  {
    g.(servers := Swapped(g.servers, i), outOfSync := true)
  }

  function SwitchMaster(d: Dashboard, name: Name, addr: Addr, runId: Addr -> string,
                        read: bool, put: Write, refreshed: bool): Outcome
  {
    if !read || name !in d.memory.groups then Outcome(d, false)
    else
      var g := d.memory.groups[name];
      var i := SwitchIndex(g.servers, addr, runId);
      if i == -1 then Outcome(d, false)
      else if i == 0 then Outcome(d, true)
      else Outcome(PutGroup(d, SwitchedGroup(g, i), put), put.Ok? && refreshed)
  }

  /** A switch makes the server meant the first one of its group, in the place of which the old first one goes, and
      marks the group; without such a server, it fails and does nothing. */
  lemma SwitchAdoptsTheServerMeant(d: Dashboard, name: Name, addr: Addr, runId: Addr -> string,
                                   read: bool, put: Write, refreshed: bool, i: int)
    requires read && name in d.memory.groups && d.memory.groups[name].name == name
    ensures var g, o := d.memory.groups[name], SwitchMaster(d, name, addr, runId, read, put, refreshed);
      && (Meant(g.servers, addr, runId, i) && i == 0 ==> o == Outcome(d, true))
      && (Meant(g.servers, addr, runId, i) && i > 0 ==>
            var h := g.(servers := g.servers[0 := g.servers[i]][i := g.servers[0]], outOfSync := true);
            && o.after.memory == d.memory.(groups := d.memory.groups[name := h])
            && o.after.records == (if put.FailedUnwritten? then d.records
                                   else d.records.(groups := d.records.groups[name := h]))
            && (o.ok <==> put.Ok? && refreshed))
      && ((forall j :: !Meant(g.servers, addr, runId, j)) ==> o == Outcome(d, false))
  {
    var servers := d.memory.groups[name].servers;
    var k := SwitchIndex(servers, addr, runId);
    if Meant(servers, addr, runId, i) {
      MeantIsOne(servers, addr, runId, i, k);
    }
  }

  lemma MeantIsOne(servers: seq<Addr>, addr: Addr, runId: Addr -> string, i: int, k: int)
    requires Meant(servers, addr, runId, i) && (k == -1 || Meant(servers, addr, runId, k))
    requires k == -1 ==> addr !in servers && (runId(addr) == "" || forall s <- servers :: runId(s) != runId(addr))
    ensures i == k
  {
  }
}
