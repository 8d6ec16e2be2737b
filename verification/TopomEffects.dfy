/**
  What each operation of the dashboard leaves, spelled out on the two stores: which requests are refused, which
  servers, ports and flags a group has afterwards, and what a failing write leaves behind.
 */
module TopomEffects {
  import opened TopomModel

  /** One group after a write: an object edited in place stays edited in memory, a new one goes there on success. */
  function Stored(d: Dashboard, name: Name, g: Group, w: Write, inPlace: bool): Dashboard {
    Dashboard(
      if inPlace || w == Ok then Store(d.memory.groups[name := g], d.memory.sentinel) else d.memory,
      if w != FailedUnwritten then Store(d.records.groups[name := g], d.records.sentinel) else d.records)
  }

  function WithSentinel(d: Dashboard, servers: seq<Addr>, outOfSync: bool, w: Write): Dashboard {
    var x := Sentinel(servers, outOfSync);
    Dashboard(Store(d.memory.groups, x),
              if w != FailedUnwritten then Store(d.records.groups, x) else d.records)
  }

  /** The sentinels, if there are any and they can be read, are flagged before the masters change. */
  function FlaggedFirst(d: Dashboard, read: bool, w: Write): Dashboard {
    if read && |d.memory.sentinel.servers| > 0 then WithSentinel(d, d.memory.sentinel.servers, true, w) else d
  }

  predicate FlagFails(d: Dashboard, read: bool, w: Write) {
    read && |d.memory.sentinel.servers| > 0 && w != Ok
  }

  lemma CreateIs(d: Dashboard, name: Name, r: int, w: int, now: string, read: bool, put: Write)
    ensures var o, groups := CreateGroup(d, name, r, w, now, read, put), d.memory.groups;
      var free := forall n <- groups :: {r, w} !! {groups[n].readPort, groups[n].writePort};
      o == if read && 0 < |name| <= 32 && r != w && name !in groups && free
           then Outcome(Stored(d, name, Group(name, [], 0, Nothing, false, r, w, now), put, false), put == Ok)
           else Outcome(d, false)
  {
    var groups := d.memory.groups;
    if n :| n in groups && PortClash(groups[n], r, w) {
      assert !({r, w} !! {groups[n].readPort, groups[n].writePort}) by {
        assert r in {r, w} && w in {r, w};
      }
    }
  }

  lemma RemoveIs(d: Dashboard, name: Name, read: bool, remove: Write)
    requires name in d.memory.groups ==> d.memory.groups[name].name == name
    ensures var o := RemoveGroup(d, name, read, remove);
      && o.after.memory.sentinel == d.memory.sentinel && o.after.records.sentinel == d.records.sentinel
      && (o.ok <==> read && name in d.memory.groups && |d.memory.groups[name].servers| == 0 && remove == Ok)
      && (o.ok ==> o.after.memory.groups == map n | n in d.memory.groups && n != name :: d.memory.groups[n])
      && (!o.ok ==> o.after.memory == d.memory)
      && (read && name in d.memory.groups && |d.memory.groups[name].servers| == 0 && remove != FailedUnwritten ==>
            o.after.records.groups == map n | n in d.records.groups && n != name :: d.records.groups[n])
      && (!read || name !in d.memory.groups || |d.memory.groups[name].servers| > 0 || remove == FailedUnwritten ==>
            o.after.records == d.records)
  {
  }

  lemma AddIs(d: Dashboard, name: Name, addr: Addr, read: bool, rs: bool, flag: Write, put: Write, refreshed: bool)
    requires name in d.memory.groups ==> d.memory.groups[name].name == name
    ensures var o, groups := AddGroupServer(d, name, addr, read, rs, flag, put, refreshed), d.memory.groups;
      o == if !read || addr == "" || name !in groups || exists n <- groups :: addr in groups[n].servers
           then Outcome(d, false)
           else if FlagFails(d, rs, flag) then Outcome(FlaggedFirst(d, rs, flag), false)
           else
             var g := groups[name];
             Outcome(Stored(FlaggedFirst(d, rs, flag), name, g.(servers := g.servers + [addr]), put, true),
                     put == Ok && refreshed)
  {
  }

  /** `k` is where the address is first. */
  lemma DelIs(d: Dashboard, name: Name, addr: Addr, read: bool, rs: bool, flag: Write, put: Write, refreshed: bool,
              k: nat)
    requires read && name in d.memory.groups && d.memory.groups[name].name == name
    requires k < |d.memory.groups[name].servers| && d.memory.groups[name].servers[k] == addr
    requires forall j | 0 <= j < k :: d.memory.groups[name].servers[j] != addr
    ensures var o, g := DelGroupServer(d, name, addr, read, rs, flag, put, refreshed), d.memory.groups[name];
      o == if k == 0 && |g.servers| > 1 then Outcome(d, false)
           else if FlagFails(d, rs, flag) then Outcome(FlaggedFirst(d, rs, flag), false)
           else
             var marked := |g.servers| > 1 && (k > 0 || g.outOfSync);
             var h := g.(servers := g.servers[..k] + g.servers[k + 1..], outOfSync := marked);
             Outcome(Stored(FlaggedFirst(d, rs, flag), name, h, put, true), put == Ok && refreshed)
  {
    FirstIndex(d.memory.groups[name].servers, addr, k);
  }

  lemma FirstIndex(servers: seq<Addr>, addr: Addr, k: nat)
    requires k < |servers| && servers[k] == addr && forall j | 0 <= j < k :: servers[j] != addr
    ensures IndexOf(servers, addr) == k
  {
  }

  lemma DelRefused(d: Dashboard, name: Name, addr: Addr, read: bool, rs: bool, flag: Write, put: Write, refreshed: bool)
    requires !read || name !in d.memory.groups || addr !in d.memory.groups[name].servers
    ensures DelGroupServer(d, name, addr, read, rs, flag, put, refreshed) == Outcome(d, false)
  {
  }

  lemma ResyncIs(d: Dashboard, name: Name, read: bool, put: Write, synced: bool, put': Write)
    requires name in d.memory.groups ==> d.memory.groups[name].name == name
    ensures var o := ResyncGroup(d, name, read, put, synced, put');
      o == if !read || name !in d.memory.groups then Outcome(d, false)
           else
             var g := d.memory.groups[name];
             var told := |g.servers| == 0 || synced;
             var cleared := Stored(d, name, g.(outOfSync := false), put, true);
             if put != Ok then Outcome(cleared, false)
             else if told then Outcome(cleared, true)
             else Outcome(Stored(cleared, name, g.(outOfSync := true), put', true), false)
  {
  }

  /** Which promotions are refused: of a server the group does not have, of its first server, and of another server than
      the one whose promotion is under way. */
  lemma PromoteRefusedIff(d: Dashboard, name: Name, addr: Addr, f: Faults, k: nat)
    requires f.readSentinel && f.readGroups && name in d.memory.groups
    requires var servers := d.memory.groups[name].servers;
      k < |servers| && servers[k] == addr && forall j | 0 <= j < k :: servers[j] != addr
    ensures var g, o := d.memory.groups[name], PromoteServer(d, name, addr, f);
      && (g.promotingState.Nothing? && k == 0 ==> o == Outcome(d, false))
      && (!g.promotingState.Nothing? && k != g.promotingIndex ==> o == Outcome(d, false))
      && (g.promotingState.Other? ==> o == Outcome(d, false))
      && (g.promotingState.Nothing? && k > 0 && o.ok ==>
            f.prepare == Ok && f.prepared == Ok && f.swap == Ok && f.finish == Ok && !FlagFails(d, true, f.flag))
      && (g.promotingState.Nothing? && k > 0 && f.prepare != Ok ==>
            o.after == PutGroup(d, g.(promotingIndex := k, promotingState := Preparing), f.prepare))
  {
    FirstIndex(d.memory.groups[name].servers, addr, k);
  }

  lemma PromoteUnknown(d: Dashboard, name: Name, addr: Addr, f: Faults)
    requires !f.readSentinel || !f.readGroups || name !in d.memory.groups || addr !in d.memory.groups[name].servers
    ensures PromoteServer(d, name, addr, f) == Outcome(d, false)
  {
  }

  lemma AddSentinelIs(d: Dashboard, addr: Addr, read: bool, flushed: bool, put: Write)
    ensures var servers := d.memory.sentinel.servers;
      AddSentinel(d, addr, read, flushed, put) ==
        if read && flushed && addr != "" && addr !in servers
        then Outcome(WithSentinel(d, servers + [addr], true, put), put == Ok) else Outcome(d, false)
  {
  }

  lemma DelSentinelIs(d: Dashboard, addr: Addr, force: bool, read: bool, flag: Write, removed: bool, put: Write, k: nat)
    requires read && addr != "" && k < |d.memory.sentinel.servers| && d.memory.sentinel.servers[k] == addr
    requires forall j | 0 <= j < k :: d.memory.sentinel.servers[j] != addr
    ensures var servers := d.memory.sentinel.servers;
      var flagged := WithSentinel(d, servers, true, flag);
      DelSentinel(d, addr, force, read, flag, removed, put) ==
        if flag != Ok || !(removed || force) then Outcome(flagged, false)
        else Outcome(WithSentinel(flagged, servers[..k] + servers[k + 1..], true, put), put == Ok)
  {
    FirstIndex(d.memory.sentinel.servers, addr, k);
  }

  lemma DelSentinelRefused(d: Dashboard, addr: Addr, force: bool, read: bool, flag: Write, removed: bool, put: Write)
    requires !read || addr == "" || addr !in d.memory.sentinel.servers
    ensures DelSentinel(d, addr, force, read, flag, removed, put) == Outcome(d, false)
  {
  }

  lemma ResyncSentinelsIs(d: Dashboard, read: bool, flag: Write, monitored: bool, put: Write)
    ensures var servers := d.memory.sentinel.servers;
      var flagged := WithSentinel(d, servers, true, flag);
      ResyncSentinels(d, read, flag, monitored, put) ==
        if !read then Outcome(d, false)
        else if flag != Ok || !monitored then Outcome(flagged, false)
        else Outcome(WithSentinel(flagged, servers, false, put), put == Ok)
  {
  }
}
