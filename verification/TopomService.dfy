/**
  The dashboard's operations as the service runs them: step by step, on the objects in memory and on the records,
  each step possibly the last one.  Every method is proved to do to the dashboard what TopomModel says.
 */
module TopomService {
  import opened TopomModel

  /** dao.Group.GetServerIndex */
  method GetServerIndex(servers: seq<Addr>, addr: Addr) returns (index: int)
    ensures index == IndexOf(servers, addr)
  {
    for i := 0 to |servers|
      invariant addr !in servers[..i]
    {
      if servers[i] == addr {
        return i;
      }
    }
    assert servers[..|servers|] == servers;
    index := -1;
  }

  /** dao.Groups.GetMasters */
  method GetMasters(groups: map<Name, Group>) returns (masters: map<Name, Addr>)
    ensures masters == Masters(groups)
  {
    masters := map[];
    var todo := groups.Keys;
    while todo != {}
      invariant todo <= groups.Keys
      invariant masters == map n | n in groups && n !in todo && groups[n].Master() != "" :: groups[n].Master()
    {
      var n :| n in todo;
      if groups[n].Master() != "" {
        masters := masters[n := groups[n].Master()];
      }
      todo := todo - {n};
    }
  }

  class Service {
    var groups: map<Name, Group>
    var sentinel: Sentinel
    var groupRecords: map<Name, Group>
    var sentinelRecord: Sentinel

    ghost function State(): Dashboard
      reads this
    {
      Dashboard(Store(groups, sentinel), Store(groupRecords, sentinelRecord))
    }

    /** A dashboard that starts, and one that starts again, has in memory what is on record. */
    constructor (records: Store)
      ensures State() == Dashboard(records, records)
    {
      groups, sentinel := records.groups, records.sentinel;
      groupRecords, sentinelRecord := records.groups, records.sentinel;
    }

    // ---------- the mappers ----------

    /** Update of a group that is in memory and was edited there. */
    method UpdateGroup(g: Group, w: Write) returns (ok: bool)
      modifies this`groups, this`groupRecords
      ensures State() == PutGroup(old(State()), g, w) && ok == w.Ok?
    {
      groups := groups[g.name := g];
      if !w.FailedUnwritten? {
        groupRecords := groupRecords[g.name := g];
      }
      ok := w.Ok?;
    }

    /** Create, or Update of a group object that memory does not have yet. */
    method UpdateNewGroup(g: Group, w: Write) returns (ok: bool)
      modifies this`groups, this`groupRecords
      ensures State() == PutNewGroup(old(State()), g, w) && ok == w.Ok?
    {
      if !w.FailedUnwritten? {
        groupRecords := groupRecords[g.name := g];
      }
      if w.Ok? {
        groups := groups[g.name := g];
      }
      ok := w.Ok?;
    }

    method UpdateSentinel(x: Sentinel, w: Write) returns (ok: bool)
      modifies this`sentinel, this`sentinelRecord
      ensures State() == PutSentinel(old(State()), x, w) && ok == w.Ok?
    {
      sentinel := x;
      if !w.FailedUnwritten? {
        sentinelRecord := x;
      }
      ok := w.Ok?;
    }

    // ---------- groups ----------

    method CreateGroup(name: Name, r: int, w: int, now: string, read: bool, put: Write) returns (ok: bool)
      modifies this
      ensures Outcome(State(), ok) == TopomModel.CreateGroup(old(State()), name, r, w, now, read, put)
    {
      if name == "" || |name| > MAX_GROUP_NAME || r == w || !read || name in groups {
        return false;
      }
      var todo := groups.Keys;
      while todo != {}
        invariant todo <= groups.Keys && forall n | n in groups && n !in todo :: !PortClash(groups[n], r, w)
      {
        var n :| n in todo;
        if PortClash(groups[n], r, w) {
          return false;
        }
        todo := todo - {n};
      }
      ok := UpdateNewGroup(Group(name, [], 0, Nothing, false, r, w, now), put);
    }

    method RemoveGroup(name: Name, read: bool, remove: Write) returns (ok: bool)
      modifies this
      ensures Outcome(State(), ok) == TopomModel.RemoveGroup(old(State()), name, read, remove)
    {
      if !read || name !in groups || |groups[name].servers| != 0 {
        return false;
      }
      var key := groups[name].name;
      if !remove.FailedUnwritten? {
        groupRecords := groupRecords - {key};
      }
      if remove.Ok? {
        groups := groups - {key};
      }
      ok := remove.Ok?;
    }

    /** resyncGroup; `told[i]` says whether server `i` accepted its master. */
    method ResyncServers(g: Group, told: seq<bool>, put: Write) returns (ok: bool)
      requires |told| == |g.servers|
      modifies this`groups, this`groupRecords
      ensures ok <==> false !in told
      ensures State() == Resynced(old(State()), g, false !in told, put)
    {
      if |g.servers| == 0 {
        return true;
      }
      ok := true;
      for i := 0 to |g.servers|
        invariant ok <==> false !in told[..i]
        invariant State() == old(State())
      {
        assert told[..i + 1] == told[..i] + [told[i]];
        if !told[i] {
          ok := false;
        }
      }
      assert told[..|told|] == told;
      if !ok {
        var _ := UpdateGroup(g.(outOfSync := true), put);
      }
    }

    method ResyncGroup(name: Name, read: bool, put: Write, told: seq<bool>, put': Write) returns (ok: bool)
      requires name in groups ==> |told| == |groups[name].servers|
      modifies this
      ensures Outcome(State(), ok) == TopomModel.ResyncGroup(old(State()), name, read, put, false !in told, put')
    {
      if !read || name !in groups {
        return false;
      }
      var g := groups[name].(outOfSync := false);
      ok := UpdateGroup(g, put);
      if !ok {
        return;
      }
      ok := ResyncServers(g, told, put');
    }

    method OutOfSyncBySentinel(read: bool, put: Write) returns (ok: bool)
      modifies this`sentinel, this`sentinelRecord
      ensures Outcome(State(), ok) == FlagSentinel(old(State()), read, put)
    {
      ok := true;
      if read && |sentinel.servers| != 0 {
        ok := UpdateSentinel(sentinel.(outOfSync := true), put);
      }
    }

    /** The scan over all servers of all groups. */
    method IsTaken(addr: Addr) returns (taken: bool)
      ensures taken <==> AddrTaken(groups, addr)
    {
      var todo := groups.Keys;
      while todo != {}
        invariant todo <= groups.Keys && forall n | n in groups && n !in todo :: addr !in groups[n].servers
      {
        var n :| n in todo;
        var i := GetServerIndex(groups[n].servers, addr);
        if i != -1 {
          return true;
        }
        todo := todo - {n};
      }
      taken := false;
    }

    method AddGroupServer(name: Name, addr: Addr,
                          read: bool, readSentinel: bool, flag: Write, put: Write, refreshed: bool)
      returns (ok: bool)
      modifies this
      ensures Outcome(State(), ok) ==
        TopomModel.AddGroupServer(old(State()), name, addr, read, readSentinel, flag, put, refreshed)
    {
      if addr == "" || !read {
        return false;
      }
      var taken := IsTaken(addr);
      if taken || name !in groups {
        return false;
      }
      var g := groups[name];
      ok := OutOfSyncBySentinel(readSentinel, flag);
      if !ok {
        return;
      }
      ok := UpdateGroup(g.(servers := g.servers + [addr]), put);
      ok := ok && refreshed;
    }

    method DelGroupServer(name: Name, addr: Addr,
                          read: bool, readSentinel: bool, flag: Write, put: Write, refreshed: bool)
      returns (ok: bool)
      modifies this
      ensures Outcome(State(), ok) ==
        TopomModel.DelGroupServer(old(State()), name, addr, read, readSentinel, flag, put, refreshed)
    {
      if !read || name !in groups {
        return false;
      }
      var g := groups[name];
      var index := GetServerIndex(g.servers, addr);
      if index == -1 || (index == 0 && |g.servers| > 1) {
        return false;
      }
      ok := OutOfSyncBySentinel(readSentinel, flag);
      if !ok {
        return;
      }
      if index != 0 {
        g := g.(outOfSync := true);
      }
      g := g.(servers := g.servers[..index] + g.servers[index + 1..]);
      if |g.servers| == 0 {
        g := g.(outOfSync := false);
      }
      ok := UpdateGroup(g, put);
      ok := ok && refreshed;
    }

    /** The four states fall through to one another; each is persisted before the next one starts. */
    method PromoteServer(name: Name, addr: Addr, f: Faults, told: seq<bool>) returns (ok: bool)
      requires name in groups ==> |told| == |groups[name].servers|
      requires f.synced == (false !in told)
      modifies this
      ensures Outcome(State(), ok) == TopomModel.PromoteServer(old(State()), name, addr, f)
    {
      if !f.readSentinel || !f.readGroups || name !in groups {
        return false;
      }
      var g := groups[name];
      var index := GetServerIndex(g.servers, addr);
      if index == -1 {
        return false;
      }
      if !g.promotingState.Nothing? {
        if index != g.promotingIndex {
          return false;
        }
      } else if index == 0 {
        return false;
      }
      if g.promotingState.Other? {
        return false;
      }
      if g.promotingState.Nothing? {
        g := g.(promotingIndex := index, promotingState := Preparing);
        ok := UpdateGroup(g, f.prepare);
        if !ok {
          return;
        }
      }
      ok := PromoteFromPreparing(g, index, f, told);
    }

    method PromoteFromPreparing(group: Group, index: nat, f: Faults, told: seq<bool>) returns (ok: bool)
      requires index < |group.servers| == |told| && f.synced == (false !in told)
      requires !group.promotingState.Nothing? && !group.promotingState.Other?
      modifies this
      ensures Outcome(State(), ok) ==
        match group.promotingState
        case Preparing => FromPreparing(old(State()), group, index, f)
        case Prepared => FromPrepared(old(State()), group, index, f)
        case _ => FromFinished(old(State()), group, f)
    {
      var g := group;
      if g.promotingState.Preparing? {
        g := g.(promotingState := Prepared);
        ok := UpdateGroup(g, f.prepared);
        if !ok {
          return;
        }
      }
      if g.promotingState.Prepared? {
        if |sentinel.servers| > 0 {
          ok := UpdateSentinel(sentinel.(outOfSync := true), f.flag);
          if !ok {
            return;
          }
        }
        g := g.(servers := g.servers[0 := g.servers[index]][index := g.servers[0]]);
        g := g.(promotingIndex := 0, promotingState := Finished);
        ok := UpdateGroup(g, f.swap);
        if !ok {
          return;
        }
        var _ := ResyncServers(g, told, f.resync);
      }
      g := Group(g.name, g.servers, 0, Nothing, false, g.readPort, g.writePort, g.createTime);
      ok := UpdateNewGroup(g, f.finish);
    }

    // ---------- sentinels ----------

    method AddSentinel(addr: Addr, read: bool, flushed: bool, put: Write) returns (ok: bool)
      modifies this
      ensures Outcome(State(), ok) == TopomModel.AddSentinel(old(State()), addr, read, flushed, put)
    {
      if |addr| == 0 || !read {
        return false;
      }
      var index := GetServerIndex(sentinel.servers, addr);
      if index != -1 || !flushed {
        return false;
      }
      ok := UpdateSentinel(Sentinel(sentinel.servers + [addr], true), put);
    }

    method DelSentinel(addr: Addr, force: bool, read: bool, flag: Write, removed: bool, put: Write) returns (ok: bool)
      modifies this
      ensures Outcome(State(), ok) == TopomModel.DelSentinel(old(State()), addr, force, read, flag, removed, put)
    {
      if |addr| == 0 || !read {
        return false;
      }
      var x := sentinel;
      var index := GetServerIndex(x.servers, addr);
      if index < 0 {
        return false;
      }
      x := x.(outOfSync := true);
      ok := UpdateSentinel(x, flag);
      if !ok {
        return;
      }
      if !removed && !force {
        return false;
      }
      x := x.(servers := x.servers[..index] + x.servers[index + 1..]);
      ok := UpdateSentinel(x, put);
    }

    /** Returns also what the sentinels were told to watch. */
    method ResyncSentinels(read: bool, flag: Write, monitored: bool, put: Write)
      returns (ok: bool, told: map<Name, Addr>)
      modifies this
      ensures Outcome(State(), ok) == TopomModel.ResyncSentinels(old(State()), read, flag, monitored, put)
      ensures read && flag.Ok? && monitored ==> told == Masters(old(groups))
    {
      told := map[];
      if !read {
        return false, told;
      }
      var x := sentinel.(outOfSync := true);
      ok := UpdateSentinel(x, flag);
      if !ok {
        return;
      }
      if !monitored {
        return false, told;
      }
      told := GetMasters(groups);
      x := x.(outOfSync := false);
      ok := UpdateSentinel(x, put);
    }

    method TrySwitchGroupMaster(name: Name, addr: Addr, runId: Addr -> string, read: bool, put: Write, refreshed: bool)
      returns (ok: bool)
      modifies this
      ensures Outcome(State(), ok) == SwitchMaster(old(State()), name, addr, runId, read, put, refreshed)
    {
      if !read || name !in groups {
        return false;
      }
      var g := groups[name];
      var index := GetServerIndex(g.servers, addr);
      if index == -1 {
        index := FindRunId(g.servers, runId(addr), runId);
      }
      if index == -1 {
        return false;
      }
      if index == 0 {
        return true;
      }
      g := g.(servers := g.servers[0 := g.servers[index]][index := g.servers[0]]);
      ok := UpdateGroup(g.(outOfSync := true), put);
      ok := ok && refreshed;
    }
  }

  method FindRunId(servers: seq<Addr>, id: string, runId: Addr -> string) returns (index: int)
    ensures index == SameRunId(servers, id, runId)
  {
    var i := 0;
    while i < |servers|
      invariant 0 <= i <= |servers|
      invariant SameRunId(servers, id, runId) ==
        var rest := SameRunId(servers[i..], id, runId); if rest == -1 then -1 else i + rest
    {
      if id != "" && id == runId(servers[i]) {
        return i;
      }
      assert servers[i..][1..] == servers[i + 1..];
      i := i + 1;
    }
    index := -1;
  }
}
