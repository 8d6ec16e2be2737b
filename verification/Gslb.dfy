/**
  The load-balancer configuration that the dashboard derives from its groups and the health of their
  servers: the HAProxy record from the groups, the LVS record from the stored HAProxy record.
 */
module Gslb {
  import opened TopomModel
  import opened TopomRuns
  import opened Options

  /** The last health check of one Redis server. */
  datatype Stat = Stat(failed: bool, timeout: bool, masterAddr: Addr, linkStatus: string)

  datatype Serve = Read | Write

  datatype Backend = Backend(port: int, servers: seq<Addr>)

  datatype Entry = Entry(name: Name, serverGroup: map<Serve, Backend>)

  datatype Record = Record(servers: seq<Addr>, monitors: seq<Addr>, backends: seq<Entry>)

  // ---------- one group ----------

  predicate Healthy(stats: map<Addr, Stat>, a: Addr) {
    a in stats && !stats[a].failed && !stats[a].timeout
  }

  /** A healthy slave that follows somebody else than the group's first server. */
  predicate Astray(g: Group, stats: map<Addr, Stat>, i: nat)
    requires i < |g.servers|
  {
    i != 0 && Healthy(stats, g.servers[i]) && stats[g.servers[i]].masterAddr != g.servers[0]
  }

  /** Server `i` may serve reads: healthy, and linked to its master if it is a slave. */
  predicate Linked(g: Group, stats: map<Addr, Stat>, i: nat)
    requires i < |g.servers|
  {
    Healthy(stats, g.servers[i]) && (i != 0 ==> stats[g.servers[i]].linkStatus == "up")
  }

  ghost predicate Emitted(g: Group, stats: map<Addr, Stat>) {
    g.servers != [] && forall i | 0 <= i < |g.servers| :: !Astray(g, stats, i)
  }

  /** The linked servers among the first `n`, in group order. */
  function Readers(g: Group, stats: map<Addr, Stat>, n: nat): (r: seq<Addr>)
    requires n <= |g.servers|
  {
    if n == 0 then []
    else if Linked(g, stats, n - 1) then Readers(g, stats, n - 1) + [g.servers[n - 1]] else Readers(g, stats, n - 1)
  }

  function EntryUpTo(g: Group, stats: map<Addr, Stat>, n: nat): Entry
    requires n <= |g.servers|
  {
    var read := Readers(g, stats, n);
    var forRead := if read == [] then map[] else map[Read := Backend(g.readPort, read)];
    var forWrite :=
      if n > 0 && Healthy(stats, g.servers[0]) then map[Write := Backend(g.writePort, [g.servers[0]])] else map[];
    Entry(g.name, forRead + forWrite)
  }

  function EntryOf(g: Group, stats: map<Addr, Stat>): Entry {
    EntryUpTo(g, stats, |g.servers|)
  }

  /** doFunc: appends the server to the backend of a serving state, creating it with its port. */
  function Append(sg: map<Serve, Backend>, state: Serve, port: int, a: Addr): map<Serve, Backend> {
    sg[state := if state in sg then sg[state].(servers := sg[state].servers + [a]) else Backend(port, [a])]
  }

  lemma EntryGrows(g: Group, stats: map<Addr, Stat>, i: nat)
    requires i < |g.servers|
    ensures var sg, a := EntryUpTo(g, stats, i).serverGroup, g.servers[i];
      EntryUpTo(g, stats, i + 1).serverGroup ==
        if !Linked(g, stats, i) then sg
        else if i == 0 then Append(Append(sg, Read, g.readPort, a), Write, g.writePort, a)
        else Append(sg, Read, g.readPort, a)
  {
    var was, now := EntryUpTo(g, stats, i).serverGroup, EntryUpTo(g, stats, i + 1).serverGroup;
    assert Readers(g, stats, i + 1) ==
      if Linked(g, stats, i) then Readers(g, stats, i) + [g.servers[i]] else Readers(g, stats, i);
    if Linked(g, stats, i) {
      assert now[Read] == Append(was, Read, g.readPort, g.servers[i])[Read];
    }
  }

  /** The loop body of haproxyBackends. */
  method DeriveEntry(g: Group, stats: map<Addr, Stat>) returns (r: Option<Entry>)
    requires g.servers != []
    ensures r == if Emitted(g, stats) then Some(EntryOf(g, stats)) else None
  {
    var sg: map<Serve, Backend> := map[];
    var i := 0;
    while i < |g.servers|
      invariant 0 <= i <= |g.servers| && forall k | 0 <= k < i :: !Astray(g, stats, k)
      invariant sg == EntryUpTo(g, stats, i).serverGroup
    {
      var a := g.servers[i];
      if Healthy(stats, a) {
        if i != 0 && stats[a].masterAddr != g.servers[0] {
          assert Astray(g, stats, i);
          return None;
        }
        if i == 0 || stats[a].linkStatus == "up" {
          sg := Append(sg, Read, g.readPort, a);
          if i == 0 {
            sg := Append(sg, Write, g.writePort, a);
          }
        }
      }
      EntryGrows(g, stats, i);
      i := i + 1;
    }
    r := Some(Entry(g.name, sg));
  }

  /** Read lists exactly the linked servers, in group order and without repeats; Write at most the
      first server. */
  lemma {:induction false} ReadersAreLinked(g: Group, stats: map<Addr, Stat>, n: nat)
    requires n <= |g.servers| && NoRepeats(g.servers)
    ensures forall i | 0 <= i < n :: g.servers[i] in Readers(g, stats, n) <==> Linked(g, stats, i)
    ensures forall a <- Readers(g, stats, n) :: a in g.servers[..n]
    ensures NoRepeats(Readers(g, stats, n))
  {
    if n > 0 {
      ReadersAreLinked(g, stats, n - 1);
      assert g.servers[..n] == g.servers[..n - 1] + [g.servers[n - 1]];
      assert g.servers[n - 1] !in g.servers[..n - 1];
    }
  }

  /** The server groups of an entry are as the state names say, on the group's own ports. */
  lemma EntryShape(g: Group, stats: map<Addr, Stat>)
    ensures var sg := EntryOf(g, stats).serverGroup;
      && (Read in sg ==> sg[Read] == Backend(g.readPort, Readers(g, stats, |g.servers|)) && sg[Read].servers != [])
      && (Write in sg <==> g.servers != [] && Healthy(stats, g.servers[0]))
      && (Write in sg ==> sg[Write] == Backend(g.writePort, [g.servers[0]]))
  {
  }

  /** Healthy, linked and astray, by the fields of the health checks. */
  lemma HealthIs(g: Group, stats: map<Addr, Stat>, i: nat)
    requires i < |g.servers|
    ensures var a := g.servers[i];
      var up := a in stats && !stats[a].failed && !stats[a].timeout;
      && (Healthy(stats, a) <==> up)
      && (Linked(g, stats, i) <==> up && (i == 0 || stats[a].linkStatus == "up"))
      && (Astray(g, stats, i) <==> up && i > 0 && stats[a].masterAddr != g.servers[0])
  {
  }

  lemma EmittedIs(g: Group, stats: map<Addr, Stat>)
    ensures Emitted(g, stats) <==> |g.servers| > 0 && forall i | 0 < i < |g.servers| ::
      var a := g.servers[i];
      a in stats && !stats[a].failed && !stats[a].timeout ==> stats[a].masterAddr == g.servers[0]
  {
    forall i | 0 <= i < |g.servers|
      ensures var a := g.servers[i];
        Astray(g, stats, i) <==> i > 0 && a in stats && !stats[a].failed && !stats[a].timeout &&
                                 stats[a].masterAddr != g.servers[0]
    {
      HealthIs(g, stats, i);
    }
  }

  /** Servers are listed in group order: the readers among fewer servers come first. */
  lemma {:induction false} ReadersInOrder(g: Group, stats: map<Addr, Stat>, k: nat, n: nat)
    requires k <= n <= |g.servers|
    ensures Readers(g, stats, k) <= Readers(g, stats, n)
    decreases n
  {
    if k < n {
      ReadersInOrder(g, stats, k, n - 1);
    }
  }

  // ---------- all groups ----------

  /** An order in which sort.Slice may leave the groups: newest first, ties in any order. */
  ghost predicate SortedNames(groups: map<Name, Group>, order: seq<Name>) {
    && (forall n :: n in order <==> n in groups)
    && (forall i, j | 0 <= i < j < |order| :: order[i] != order[j])
    && (forall i, j | 0 <= i < j < |order| :: !Before(groups[order[i]].createTime, groups[order[j]].createTime))
  }

  /** The byte order of strings. */
  predicate Before(a: string, b: string) {
    if b == "" then false
    else if a == "" then true
    else a[0] < b[0] || (a[0] == b[0] && Before(a[1..], b[1..]))
  }

  /** The order is lexicographic by character codes, a proper prefix coming first. */
  lemma {:induction false} BeforeIs(a: string, b: string)
    ensures Before(a, b) <==>
      exists k: nat :: k <= |a| && k < |b| && a[..k] == b[..k] && (k == |a| || a[k] < b[k])
  {
    if b != [] && a != [] {
      BeforeIs(a[1..], b[1..]);
      if a[0] == b[0] && Before(a[1..], b[1..]) {
        var k: nat :| k <= |a[1..]| && k < |b[1..]| && a[1..][..k] == b[1..][..k] &&
                      (k == |a[1..]| || a[1..][k] < b[1..][k]);
        assert a[..k + 1] == [a[0]] + a[1..][..k] && b[..k + 1] == [b[0]] + b[1..][..k];
      } else if a[0] < b[0] {
        assert a[..0] == b[..0];
      }
      if k: nat :| k <= |a| && k < |b| && a[..k] == b[..k] && (k == |a| || a[k] < b[k]) {
        if k > 0 {
          assert a[..k][0] == a[0] && b[..k][0] == b[0];
          assert a[1..][..k - 1] == a[..k][1..] && b[1..][..k - 1] == b[..k][1..];
        }
      }
    } else if b != [] {
      assert a[..0] == b[..0];
    }
  }

  ghost function HaproxyEntries(groups: map<Name, Group>, order: seq<Name>, stats: map<Addr, Stat>): seq<Entry>
    requires forall n <- order :: n in groups
  {
    if order == [] then []
    else
      var prior := HaproxyEntries(groups, order[..|order| - 1], stats);
      var g := groups[order[|order| - 1]];
      if Emitted(g, stats) then prior + [EntryOf(g, stats)] else prior
  }

  method HaproxyBackends(groups: map<Name, Group>, order: seq<Name>, stats: map<Addr, Stat>)
    returns (r: Option<seq<Entry>>)
    requires SortedNames(groups, order)
    ensures r == if stats == map[] then None else Some(HaproxyEntries(groups, order, stats))
  {
    if |stats| == 0 {
      return None;
    }
    var backends: seq<Entry> := [];
    for i := 0 to |order|
      invariant backends == HaproxyEntries(groups, order[..i], stats)
    {
      assert order[..i + 1][..i] == order[..i];
      var g := groups[order[i]];
      if |g.servers| != 0 {
        var e := DeriveEntry(g, stats);
        if e.Some? {
          backends := backends + [e.value];
        }
      }
    }
    assert order[..|order|] == order;
    r := Some(backends);
  }

  /** A group is listed exactly when it is emitted, and nothing else is listed. */
  lemma {:induction false} ListedIffEmitted(
      groups: map<Name, Group>, order: seq<Name>, stats: map<Addr, Stat>, e: Entry)
    requires forall n <- order :: n in groups
    ensures e in HaproxyEntries(groups, order, stats) <==>
      exists n <- order :: Emitted(groups[n], stats) && e == EntryOf(groups[n], stats)
  {
    if order != [] {
      var prior, n := order[..|order| - 1], order[|order| - 1];
      assert order == prior + [n];
      ListedIffEmitted(groups, prior, stats, e);
      if m :| m in order && Emitted(groups[m], stats) && e == EntryOf(groups[m], stats) {
        assert m in prior || m == n;
      }
      if m :| m in prior && Emitted(groups[m], stats) && e == EntryOf(groups[m], stats) {
        assert m in order;
      }
    }
  }

  /** The entries are in the order of the groups: those of fewer groups come first. */
  lemma {:induction false} EntriesInOrder(groups: map<Name, Group>, order: seq<Name>, stats: map<Addr, Stat>, k: nat)
    requires k <= |order| && forall n <- order :: n in groups
    ensures HaproxyEntries(groups, order[..k], stats) <= HaproxyEntries(groups, order, stats)
  {
    if k < |order| {
      EntriesInOrder(groups, order[..|order| - 1], stats, k);
      assert order[..|order| - 1][..k] == order[..k];
    } else {
      assert order[..k] == order;
    }
  }

  function PortsOf(e: Entry): set<int> {
    set s | s in e.serverGroup :: e.serverGroup[s].port
  }

  lemma EntryPorts(g: Group, stats: map<Addr, Stat>)
    ensures PortsOf(EntryOf(g, stats)) <= Ports(g)
  {
  }

  /** With unique groups, no two listed entries share a name or a port, and no entry uses one twice. */
  lemma ListedEntriesAreApart(groups: map<Name, Group>, order: seq<Name>, stats: map<Addr, Stat>, e: Entry, f: Entry)
    requires Unique(groups) && forall n <- order :: n in groups
    requires e in HaproxyEntries(groups, order, stats) && f in HaproxyEntries(groups, order, stats)
    ensures e != f ==> e.name != f.name && PortsOf(e) !! PortsOf(f)
    ensures Read in e.serverGroup && Write in e.serverGroup ==> e.serverGroup[Read].port != e.serverGroup[Write].port
  {
    ListedIffEmitted(groups, order, stats, e);
    ListedIffEmitted(groups, order, stats, f);
    var n :| n in order && Emitted(groups[n], stats) && e == EntryOf(groups[n], stats);
    var m :| m in order && Emitted(groups[m], stats) && f == EntryOf(groups[m], stats);
    GroupsAreApart(groups, n, m);
    EntryPorts(groups[n], stats);
    EntryPorts(groups[m], stats);
    EntryShape(groups[n], stats);
  }

  lemma GroupsAreApart(groups: map<Name, Group>, n: Name, m: Name)
    requires Unique(groups) && n in groups && m in groups
    ensures groups[n].name == n && groups[m].name == m && groups[n].readPort != groups[n].writePort
    ensures n != m ==> Ports(groups[n]) !! Ports(groups[m])
  {
  }

  // ---------- the LVS record ----------

  /** net.SplitHostPort and net.JoinHostPort. */
  datatype Net = Net(host: Addr -> Option<string>, join: (string, int) -> Addr)

  /** The HAProxy servers on another port; addresses that do not split are skipped. */
  function Forwarded(net: Net, servers: seq<Addr>, port: int): seq<Addr> {
    if servers == [] then []
    else
      var prior := Forwarded(net, servers[..|servers| - 1], port);
      match net.host(servers[|servers| - 1])
      case Some(ip) => prior + [net.join(ip, port)]
      case None => prior
  }

  function LvsEntry(net: Net, servers: seq<Addr>, e: Entry): Entry {
    Entry(e.name, map s | s in e.serverGroup ::
      Backend(e.serverGroup[s].port, Forwarded(net, servers, e.serverGroup[s].port)))
  }

  function LvsEntries(net: Net, servers: seq<Addr>, backends: seq<Entry>): seq<Entry> {
    if backends == [] then []
    else LvsEntries(net, servers, backends[..|backends| - 1]) + [LvsEntry(net, servers, backends[|backends| - 1])]
  }

  /** Forwarded are the hosts of the HAProxy servers that split, in order, each with the given port. */
  lemma {:induction false} ForwardedIs(net: Net, servers: seq<Addr>, port: int)
    ensures forall a :: a in Forwarded(net, servers, port) <==>
              exists s <- servers :: net.host(s).Some? && a == net.join(net.host(s).value, port)
    ensures (forall s <- servers :: net.host(s).Some?) ==>
      && |Forwarded(net, servers, port)| == |servers|
      && forall i | 0 <= i < |servers| :: Forwarded(net, servers, port)[i] == net.join(net.host(servers[i]).value, port)
  {
    if servers != [] {
      var prior, last := servers[..|servers| - 1], servers[|servers| - 1];
      ForwardedIs(net, prior, port);
      assert servers == prior + [last];
    }
  }

  /** An LVS entry keeps the name, the services and their ports, and sends each to all HAProxy servers at its port. */
  lemma LvsEntryIs(net: Net, servers: seq<Addr>, e: Entry)
    ensures var l := LvsEntry(net, servers, e);
      && l.name == e.name && l.serverGroup.Keys == e.serverGroup.Keys
      && forall k <- e.serverGroup :: l.serverGroup[k].port == e.serverGroup[k].port &&
           l.serverGroup[k].servers == Forwarded(net, servers, e.serverGroup[k].port)
  {
  }

  lemma {:induction false} LvsEntriesAre(net: Net, servers: seq<Addr>, backends: seq<Entry>, i: nat)
    requires i < |backends|
    ensures |LvsEntries(net, servers, backends)| == |backends|
    ensures LvsEntries(net, servers, backends)[i] == LvsEntry(net, servers, backends[i])
  {
    if |backends| > 1 {
      LvsEntriesAre(net, servers, backends[..|backends| - 1], if i < |backends| - 1 then i else 0);
    }
  }

  method ForwardServers(net: Net, servers: seq<Addr>, port: int) returns (r: seq<Addr>)
    ensures r == Forwarded(net, servers, port)
  {
    r := [];
    for i := 0 to |servers|
      invariant r == Forwarded(net, servers[..i], port)
    {
      assert servers[..i + 1][..i] == servers[..i];
      match net.host(servers[i]) {
        case Some(ip) => r := r + [net.join(ip, port)];
        case None =>
      }
    }
    assert servers[..|servers|] == servers;
  }

  method LvsBackends(net: Net, haproxy: Record) returns (r: seq<Entry>)
    ensures r == LvsEntries(net, haproxy.servers, haproxy.backends)
  {
    r := [];
    for i := 0 to |haproxy.backends|
      invariant r == LvsEntries(net, haproxy.servers, haproxy.backends[..i])
    {
      assert haproxy.backends[..i + 1][..i] == haproxy.backends[..i];
      var e := haproxy.backends[i];
      var sg: map<Serve, Backend> := map[];
      var todo := e.serverGroup.Keys;
      while todo != {}
        invariant todo <= e.serverGroup.Keys
        invariant sg == map s | s in e.serverGroup && s !in todo ::
          Backend(e.serverGroup[s].port, Forwarded(net, haproxy.servers, e.serverGroup[s].port))
      {
        var s :| s in todo;
        var servers := ForwardServers(net, haproxy.servers, e.serverGroup[s].port);
        sg := sg[s := Backend(e.serverGroup[s].port, servers)];
        todo := todo - {s};
      }
      assert Entry(e.name, sg) == LvsEntry(net, haproxy.servers, e);
      r := r + [Entry(e.name, sg)];
    }
    assert haproxy.backends[..|haproxy.backends|] == haproxy.backends;
  }

  // ---------- refreshing the stored records ----------

  /** The name of a record; only the first two can be derived. */
  datatype Kind = Haproxy | Lvs | Unsupported(text: string)

  type Records = map<Kind, Record>

  /** What a refresh reads, but for the records themselves. */
  datatype World = World(groups: map<Name, Group>, stats: map<Addr, Stat>, net: Net)

  /** getGSLBBackends: a record's monitors and backends, or an error. */
  ghost function Derive(w: World, order: seq<Name>, stored: Records, name: Kind): Option<(seq<Addr>, seq<Entry>)>
    requires forall n <- order :: n in w.groups
  {
    match name
    case Haproxy => if w.stats == map[] then None else Some(([], HaproxyEntries(w.groups, order, w.stats)))
    case Lvs =>
      if Haproxy !in stored then Some(([], []))
      else Some((stored[Haproxy].servers, LvsEntries(w.net, stored[Haproxy].servers, stored[Haproxy].backends)))
    case Unsupported(_) => None
  }

  /** The mapper's records in memory, which it hands out to be edited, and those on the coordinator. */
  datatype Shelf = Shelf(memory: Records, records: Records)

  /** gslbMapper.Update of a new record: one equal to what memory has is not written at all. */
  function Put(s: Shelf, name: Kind, r: Record, w: Write): Shelf {
    if name in s.memory && s.memory[name] == r then s
    else
      Shelf(if w.Ok? then s.memory[name := r] else s.memory,
            if w.FailedUnwritten? then s.records else s.records[name := r])
  }

  /** A write of a record: not made if memory has the very same one; memory changes only on success. */
  lemma PutIs(s: Shelf, name: Kind, r: Record, w: Write)
    ensures var t, same := Put(s, name, r, w), name in s.memory && s.memory[name] == r;
      && t.memory == (if w == Ok && !same then s.memory[name := r] else s.memory)
      && t.records == (if w != FailedUnwritten && !same then s.records[name := r] else s.records)
  {
  }

  datatype Refreshed = Refreshed(shelf: Shelf, ok: bool)

  /** refreshGSLBBackendInfo over the names in `visit`: the first error stops it, a failing write does not. */
  ghost function Refresh(w: World, order: seq<Name>, start: Shelf, visit: seq<Kind>, writes: Kind -> Write): Refreshed
    requires (forall n <- order :: n in w.groups) && forall n <- visit :: n in start.memory
  {
    if visit == [] then Refreshed(start, true)
    else
      var prior := Refresh(w, order, start, visit[..|visit| - 1], writes);
      var name := visit[|visit| - 1];
      if !prior.ok then prior
      else
        match Derive(w, order, prior.shelf.memory, name)
        case None => Refreshed(prior.shelf, false)
        case Some(d) =>
          Refreshed(Put(prior.shelf, name, Record(start.memory[name].servers, d.0, d.1), writes(name)), true)
  }

  class GslbService {
    var gslbs: Records
    var recorded: Records

    ghost function State(): Shelf
      reads this
    {
      Shelf(gslbs, recorded)
    }

    /** init: records without servers are not read. */
    constructor (r: Records)
      ensures State() == Shelf(map n | n in r && r[n].servers != [] :: r[n], r)
    {
      gslbs := map n | n in r && r[n].servers != [] :: r[n];
      recorded := r;
    }

    method GetBackends(w: World, order: seq<Name>, name: Kind) returns (r: Option<(seq<Addr>, seq<Entry>)>)
      requires SortedNames(w.groups, order)
      ensures r == Derive(w, order, gslbs, name)
    {
      if name == Haproxy {
        var b := HaproxyBackends(w.groups, order, w.stats);
        r := if b.Some? then Some(([], b.value)) else None;
      } else if name == Lvs {
        if Haproxy !in gslbs {
          return Some(([], []));
        }
        var b := LvsBackends(w.net, gslbs[Haproxy]);
        r := Some((gslbs[Haproxy].servers, b));
      } else {
        r := None;
      }
    }

    method UpdateGslb(name: Kind, r: Record, w: Write)
      modifies this
      ensures State() == Put(old(State()), name, r, w)
    {
      if name in gslbs && gslbs[name] == r {
        return;
      }
      if !w.FailedUnwritten? {
        recorded := recorded[name := r];
      }
      if w.Ok? {
        gslbs := gslbs[name := r];
      }
    }

    method RefreshBackendInfo(w: World, order: seq<Name>, visit: seq<Kind>, writes: Kind -> Write) returns (ok: bool)
      requires SortedNames(w.groups, order) && forall n <- visit :: n in gslbs
      modifies this
      ensures Refreshed(State(), ok) == Refresh(w, order, old(State()), visit, writes)
    {
      ghost var before := State();
      var start := gslbs;
      for i := 0 to |visit|
        invariant Refreshed(State(), true) == Refresh(w, order, before, visit[..i], writes)
      {
        assert visit[..i + 1][..i] == visit[..i];
        var d := GetBackends(w, order, visit[i]);
        if d.None? {
          StopsForGood(w, order, before, visit, writes, i + 1);
          return false;
        }
        UpdateGslb(visit[i], Record(start[visit[i]].servers, d.value.0, d.value.1), writes(visit[i]));
      }
      assert visit[..|visit|] == visit;
      ok := true;
    }

    /** The address goes into the record in memory; Update compares that record with itself and writes nothing, so
        that the refresh decides what is recorded. */
    method AddGSLB(name: Kind, addr: Addr, read: bool,
                   w: World, order: seq<Name>, visit: seq<Kind>, writes: Kind -> Write)
      returns (ok: bool)
      requires SortedNames(w.groups, order) && forall n <- visit :: n in gslbs || n == name
      modifies this
      ensures addr == "" || !read || addr in Servers(old(gslbs), name) ==> !ok && State() == old(State())
      ensures addr != "" && read && addr !in Servers(old(gslbs), name) ==>
                Refreshed(State(), ok) == Refresh(w, order, Added(old(State()), name, addr), visit, writes)
    {
      if |addr| == 0 || !read {
        return false;
      }
      var g := if name in gslbs then gslbs[name] else Record([], [], []);
      for i := 0 to |g.servers|
        invariant addr !in g.servers[..i]
      {
        if g.servers[i] == addr {
          return false;
        }
      }
      assert g.servers[..|g.servers|] == g.servers;
      gslbs := gslbs[name := g.(servers := g.servers + [addr])];
      ok := RefreshBackendInfo(w, order, visit, writes);
    }

    /** Likewise; a record whose last server goes is deleted in a second step, which may fail on its own. */
    method DelGSLB(name: Kind, addr: Addr, read: bool, delete: Write,
                   w: World, order: seq<Name>, visit: seq<Kind>, writes: Kind -> Write)
      returns (ok: bool)
      requires SortedNames(w.groups, order)
      requires forall n <- visit :: n in gslbs && (n == name ==> Servers(gslbs, name) != [addr])
      modifies this
      ensures addr == "" || !read || addr !in Servers(old(gslbs), name) ==> !ok && State() == old(State())
      ensures addr != "" && read && addr in Servers(old(gslbs), name) ==>
                var t := Deleted(old(State()), name, addr, delete);
                if Servers(old(gslbs), name) == [addr] && !delete.Ok? then !ok && State() == t
                else Refreshed(State(), ok) == Refresh(w, order, t, visit, writes)
    {
      if |addr| == 0 || !read || name !in gslbs {
        return false;
      }
      var g := gslbs[name];
      var index := IndexOf(g.servers, addr);
      if index < 0 {
        return false;
      }
      g := g.(servers := g.servers[..index] + g.servers[index + 1..]);
      ghost var was := gslbs;
      gslbs := gslbs[name := g];
      if |g.servers| == 0 {
        assert was[name].servers == [addr] && gslbs - {name} == was - {name};
        if !delete.FailedUnwritten? {
          recorded := recorded - {name};
        }
        if !delete.Ok? {
          return false;
        }
        gslbs := gslbs - {name};
      }
      ok := RefreshBackendInfo(w, order, visit, writes);
    }
  }

  function Added(s: Shelf, name: Kind, addr: Addr): Shelf {
    s.(memory := s.memory[name := Named(s.memory, name).(servers := Servers(s.memory, name) + [addr])])
  }

  function Deleted(s: Shelf, name: Kind, addr: Addr, delete: Write): Shelf
    requires addr in Servers(s.memory, name)
  {
    var left := Without(Servers(s.memory, name), IndexOf(Servers(s.memory, name), addr));
    if left != [] then s.(memory := s.memory[name := Named(s.memory, name).(servers := left)])
    else
      Shelf(if delete.Ok? then s.memory - {name} else s.memory[name := Named(s.memory, name).(servers := left)],
            if delete.FailedUnwritten? then s.records else s.records - {name})
  }

  lemma AddedIs(s: Shelf, name: Kind, addr: Addr)
    ensures var t := Added(s, name, addr);
      && t.records == s.records && name in t.memory && t.memory - {name} == s.memory - {name}
      && t.memory[name] == if name in s.memory then s.memory[name].(servers := s.memory[name].servers + [addr])
                           else Record([addr], [], [])
  {
  }

  /** `k` is where the address is first. */
  lemma DeletedIs(s: Shelf, name: Kind, addr: Addr, delete: Write, k: nat)
    requires name in s.memory && k < |s.memory[name].servers| && s.memory[name].servers[k] == addr
    requires forall j | 0 <= j < k :: s.memory[name].servers[j] != addr
    ensures var t, r := Deleted(s, name, addr, delete), s.memory[name];
      && t.memory - {name} == s.memory - {name}
      && (|r.servers| > 1 || delete != Ok ==>
            name in t.memory && t.memory[name] == r.(servers := r.servers[..k] + r.servers[k + 1..]))
      && (|r.servers| == 1 && delete == Ok ==> name !in t.memory)
      && t.records == if |r.servers| == 1 && delete != FailedUnwritten then s.records - {name} else s.records
  {
  }

  function Named(stored: Records, name: Kind): Record {
    if name in stored then stored[name] else Record([], [], [])
  }

  function Servers(stored: Records, name: Kind): seq<Addr> {
    Named(stored, name).servers
  }

  lemma {:induction false} StopsForGood(
      w: World, order: seq<Name>, start: Shelf, visit: seq<Kind>, writes: Kind -> Write, i: nat)
    requires (forall n <- order :: n in w.groups) && (forall n <- visit :: n in start.memory) && i <= |visit|
    requires !Refresh(w, order, start, visit[..i], writes).ok
    ensures Refresh(w, order, start, visit, writes) == Refresh(w, order, start, visit[..i], writes)
    decreases |visit| - i
  {
    if i == |visit| {
      assert visit[..i] == visit;
    } else {
      assert visit[..i + 1][..i] == visit[..i];
      StopsForGood(w, order, start, visit, writes, i + 1);
    }
  }

  predicate Derivable(w: World, n: Kind) {
    n == Lvs || (n == Haproxy && w.stats != map[])
  }

  lemma DerivesIff(w: World, order: seq<Name>, stored: Records, n: Kind)
    requires forall m <- order :: m in w.groups
    ensures Derive(w, order, stored, n).Some? <==> Derivable(w, n)
  {
  }

  /** A refresh succeeds exactly when every visited name is supported and, for HAProxy, there are
      health checks; a single record of any other name makes every refresh fail. */
  lemma {:induction false} RefreshSucceedsIff(
      w: World, order: seq<Name>, start: Shelf, visit: seq<Kind>, writes: Kind -> Write)
    requires (forall n <- order :: n in w.groups) && forall n <- visit :: n in start.memory
    ensures Refresh(w, order, start, visit, writes).ok <==> forall n <- visit :: Derivable(w, n)
  {
    if visit != [] {
      var prior, n := visit[..|visit| - 1], visit[|visit| - 1];
      RefreshSucceedsIff(w, order, start, prior, writes);
      assert visit == prior + [n];
      var before := Refresh(w, order, start, prior, writes);
      DerivesIff(w, order, before.shelf.memory, n);
    }
  }

  // ---------- the fixed point ----------

  ghost function ToSet(entries: seq<Entry>): set<Entry> { set e | e in entries }

  ghost function Listed(w: World): set<Entry> {
    set n | n in w.groups && Emitted(w.groups[n], w.stats) :: EntryOf(w.groups[n], w.stats)
  }

  ghost function Image(net: Net, servers: seq<Addr>, entries: set<Entry>): set<Entry> {
    set e | e in entries :: LvsEntry(net, servers, e)
  }

  lemma HaproxyIsListed(w: World, order: seq<Name>)
    requires SortedNames(w.groups, order)
    ensures ToSet(HaproxyEntries(w.groups, order, w.stats)) == Listed(w)
  {
    forall e
      ensures e in HaproxyEntries(w.groups, order, w.stats) <==> e in Listed(w)
    {
      ListedIffEmitted(w.groups, order, w.stats, e);
    }
  }

  lemma ToSetGrows(entries: seq<Entry>, e: Entry)
    ensures ToSet(entries + [e]) == ToSet(entries) + {e}
  {
  }

  lemma ImageGrows(net: Net, servers: seq<Addr>, entries: set<Entry>, e: Entry)
    ensures Image(net, servers, entries + {e}) == Image(net, servers, entries) + {LvsEntry(net, servers, e)}
  {
  }

  lemma {:induction false} LvsIsImage(net: Net, servers: seq<Addr>, backends: seq<Entry>)
    ensures ToSet(LvsEntries(net, servers, backends)) == Image(net, servers, ToSet(backends))
  {
    if backends != [] {
      var prior, e := backends[..|backends| - 1], backends[|backends| - 1];
      LvsIsImage(net, servers, prior);
      assert backends == prior + [e];
      ToSetGrows(prior, e);
      ToSetGrows(LvsEntries(net, servers, prior), LvsEntry(net, servers, e));
      ImageGrows(net, servers, ToSet(prior), e);
    }
  }

  /** The names of all records, in the order in which a map iteration may give them. */
  ghost predicate Visits(s: Records, visit: seq<Kind>) {
    (forall n :: n in visit <==> n in s) && forall i, j | 0 <= i < j < |visit| :: visit[i] != visit[j]
  }

  ghost predicate HaproxySettled(w: World, s: Records) {
    Haproxy in s ==> s[Haproxy].monitors == [] && ToSet(s[Haproxy].backends) == Listed(w)
  }

  ghost predicate LvsSettled(w: World, s: Records) {
    Lvs in s ==>
      if Haproxy in s
      then
        s[Lvs].monitors == s[Haproxy].servers && ToSet(s[Lvs].backends) == Image(w.net, s[Haproxy].servers, Listed(w))
      else s[Lvs].monitors == [] && s[Lvs].backends == []
  }

  ghost predicate SameServers(s: Records, t: Records) {
    s.Keys == t.Keys && forall n <- s :: s[n].servers == t[n].servers
  }

  /** Which records a partial refresh has rewritten, and to what. */
  ghost predicate Rewritten(w: World, start: Records, now: Records, visit: seq<Kind>) {
    && SameServers(start, now)
    && (Haproxy in visit && Haproxy in start ==> HaproxySettled(w, now))
    && (Haproxy !in visit && Haproxy in start ==> now[Haproxy] == start[Haproxy])
    && (Lvs in visit && HaproxySettled(w, start) ==> LvsSettled(w, now))
  }

  lemma VisitRewrites(w: World, order: seq<Name>, start: Records, s: Records,
                      prior: seq<Kind>, n: Kind, visit: seq<Kind>)
    requires SortedNames(w.groups, order) && Rewritten(w, start, s, prior)
    requires n in start && Derivable(w, n) && n !in prior
    requires forall m :: m in visit <==> m in prior || m == n
    ensures var d := Derive(w, order, s, n);
      d.Some? && Rewritten(w, start, s[n := Record(start[n].servers, d.value.0, d.value.1)], visit)
  {
    HaproxyIsListed(w, order);
    if n == Lvs && Haproxy in s {
      LvsIsImage(w.net, s[Haproxy].servers, s[Haproxy].backends);
    }
  }

  lemma {:induction false} RefreshRewrites(w: World, order: seq<Name>, start: Shelf, visit: seq<Kind>)
    requires SortedNames(w.groups, order) && forall n <- visit :: n in start.memory && Derivable(w, n)
    requires forall i, j | 0 <= i < j < |visit| :: visit[i] != visit[j]
    ensures var r := Refresh(w, order, start, visit, _ => Ok); r.ok && Rewritten(w, start.memory, r.shelf.memory, visit)
  {
    if visit != [] {
      var prior, n := visit[..|visit| - 1], visit[|visit| - 1];
      assert visit == prior + [n] && n !in prior;
      RefreshRewrites(w, order, start, prior);
      VisitRewrites(w, order, start.memory, Refresh(w, order, start, prior, _ => Ok).shelf.memory, prior, n, visit);
    }
  }

  /** One refresh of all records in memory: the HAProxy record is settled, and the LVS record as well if the
      HAProxy record was settled before. */
  lemma RefreshSettles(w: World, order: seq<Name>, start: Shelf, visit: seq<Kind>)
    requires SortedNames(w.groups, order) && Visits(start.memory, visit)
    requires start.memory.Keys <= {Haproxy, Lvs} && w.stats != map[]
    ensures var r := Refresh(w, order, start, visit, _ => Ok);
      && r.ok && SameServers(start.memory, r.shelf.memory) && HaproxySettled(w, r.shelf.memory)
      && (HaproxySettled(w, start.memory) ==> LvsSettled(w, r.shelf.memory))
  {
    assert forall n <- visit :: n in start.memory.Keys && Derivable(w, n);
    RefreshRewrites(w, order, start, visit);
  }

  /** Equal up to the order of the entries, which have pairwise different names. */
  ghost predicate SameByName(s: Records, t: Records) {
    && SameServers(s, t)
    && forall n <- s :: s[n].monitors == t[n].monitors && ToSet(s[n].backends) == ToSet(t[n].backends)
  }

  ghost function RefreshAll(w: World, order: seq<Name>, start: Shelf, visit: seq<Kind>): Shelf
    requires SortedNames(w.groups, order) && Visits(start.memory, visit)
  {
    Refresh(w, order, start, visit, _ => Ok).shelf
  }

  /** Two refreshes reach a fixed point, whatever orders the sorts and map iterations take: a third
      one changes no record in memory. */
  lemma TwoRefreshesSettle(w: World, start: Shelf,
                           order1: seq<Name>, visit1: seq<Kind>, order2: seq<Name>, visit2: seq<Kind>,
                           order3: seq<Name>, visit3: seq<Kind>)
    requires start.memory.Keys <= {Haproxy, Lvs} && w.stats != map[]
    requires SortedNames(w.groups, order1) && SortedNames(w.groups, order2) && SortedNames(w.groups, order3)
    requires Visits(start.memory, visit1) && Visits(start.memory, visit2) && Visits(start.memory, visit3)
    ensures var one := RefreshAll(w, order1, start, visit1);
      && Visits(one.memory, visit2)
      && var two := RefreshAll(w, order2, one, visit2);
      && Visits(two.memory, visit3) && HaproxySettled(w, two.memory) && LvsSettled(w, two.memory)
      && SameByName(two.memory, RefreshAll(w, order3, two, visit3).memory)
  {
    RefreshSettles(w, order1, start, visit1);
    var one := RefreshAll(w, order1, start, visit1);
    assert forall n :: n in one.memory <==> n in one.memory.Keys;
    RefreshSettles(w, order2, one, visit2);
    var two := RefreshAll(w, order2, one, visit2);
    assert forall n :: n in two.memory <==> n in two.memory.Keys;
    RefreshSettles(w, order3, two, visit3);
    SettledRecordsAgree(w, two.memory, RefreshAll(w, order3, two, visit3).memory);
  }

  lemma SettledRecordsAgree(w: World, s: Records, t: Records)
    requires SameServers(s, t) && s.Keys <= {Haproxy, Lvs}
    requires HaproxySettled(w, s) && LvsSettled(w, s) && HaproxySettled(w, t) && LvsSettled(w, t)
    ensures SameByName(s, t)
  {
  }

  // ---------- what a refresh records ----------

  predicate Recorded(s: Shelf, n: Kind) {
    n in s.memory && n in s.records && s.records[n] == s.memory[n]
  }

  /** What a refresh has done to a record so far: `start` is where it began. */
  ghost predicate RecordAfter(start: Shelf, s: Shelf, n: Kind, visited: bool)
    requires n in start.memory
  {
    && n in s.memory && (!visited ==> s.memory[n] == start.memory[n])
    && (Recorded(s, n) <==> Recorded(start, n) || s.memory[n] != start.memory[n])
  }

  lemma PutRecords(start: Shelf, s: Shelf, n: Kind, m: Kind, r: Record, visited: bool)
    requires n in start.memory && RecordAfter(start, s, n, visited) && (m == n ==> !visited)
    ensures RecordAfter(start, Put(s, m, r, Ok), n, visited || m == n)
  {
  }

  ghost predicate CleanVisit(w: World, order: seq<Name>, start: Shelf, visit: seq<Kind>) {
    && SortedNames(w.groups, order) && (forall n <- visit :: n in start.memory && Derivable(w, n))
    && (forall i, j | 0 <= i < j < |visit| :: visit[i] != visit[j])
  }

  /** One more record of a refresh without failures: it becomes what is derived from memory as it is then. */
  lemma NextRecord(w: World, order: seq<Name>, start: Shelf, visit: seq<Kind>, i: nat)
    requires CleanVisit(w, order, start, visit) && i < |visit|
    requires Refresh(w, order, start, visit[..i], _ => Ok).ok
    ensures var s, n := Refresh(w, order, start, visit[..i], _ => Ok).shelf, visit[i];
      var d := Derive(w, order, s.memory, n);
      d.Some? && Refresh(w, order, start, visit[..i + 1], _ => Ok) ==
                   Refreshed(Put(s, n, Record(start.memory[n].servers, d.value.0, d.value.1), Ok), true)
  {
    assert visit[..i + 1][..i] == visit[..i];
    DerivesIff(w, order, Refresh(w, order, start, visit[..i], _ => Ok).shelf.memory, visit[i]);
  }

  /** After a refresh without failures a record is on record exactly if it was so before or the refresh changed it. */
  lemma {:induction false} RecordedIffChanged(
      w: World, order: seq<Name>, start: Shelf, visit: seq<Kind>, i: nat, n: Kind)
    requires CleanVisit(w, order, start, visit) && i <= |visit| && n in start.memory
    ensures var r := Refresh(w, order, start, visit[..i], _ => Ok);
      r.ok && RecordAfter(start, r.shelf, n, n in visit[..i])
  {
    if i > 0 {
      RecordedIffChanged(w, order, start, visit, i - 1, n);
      NextRecord(w, order, start, visit, i - 1);
      var s := Refresh(w, order, start, visit[..i - 1], _ => Ok).shelf;
      var d := Derive(w, order, s.memory, visit[i - 1]).value;
      assert visit[..i] == visit[..i - 1] + [visit[i - 1]];
      PutRecords(start, s, n, visit[i - 1], Record(start.memory[visit[i - 1]].servers, d.0, d.1), n in visit[..i - 1]);
    }
  }

  /** A visited record keeps what was derived when it was visited. */
  lemma {:induction false} RecordIsDerived(w: World, order: seq<Name>, start: Shelf, visit: seq<Kind>, k: nat, i: nat)
    requires CleanVisit(w, order, start, visit) && k < i <= |visit|
    ensures var s, r := Refresh(w, order, start, visit[..k], _ => Ok), Refresh(w, order, start, visit[..i], _ => Ok);
      var n := visit[k];
      var d := Derive(w, order, s.shelf.memory, n);
      d.Some? && n in r.shelf.memory && r.shelf.memory[n] == Record(start.memory[n].servers, d.value.0, d.value.1)
  {
    RecordedIffChanged(w, order, start, visit, i - 1, visit[k]);
    NextRecord(w, order, start, visit, i - 1);
    if k < i - 1 {
      RecordIsDerived(w, order, start, visit, k, i - 1);
    }
  }

  ghost function DerivedHaproxy(w: World, order: seq<Name>, start: Shelf): Record
    requires Haproxy in start.memory && forall n <- order :: n in w.groups
  {
    Record(start.memory[Haproxy].servers, [], HaproxyEntries(w.groups, order, w.stats))
  }

  /** After a refresh without failures the HAProxy record in memory is the derived one, and it is on record exactly if
      it was so before or the derivation changed it. */
  lemma HaproxyIsRecordedIff(w: World, order: seq<Name>, start: Shelf, visit: seq<Kind>)
    requires CleanVisit(w, order, start, visit) && Haproxy in start.memory
    ensures var r := Refresh(w, order, start, visit, _ => Ok);
      var now := if Haproxy in visit then DerivedHaproxy(w, order, start) else start.memory[Haproxy];
      && r.ok && Haproxy in r.shelf.memory && r.shelf.memory[Haproxy] == now
      && (Recorded(r.shelf, Haproxy) <==> Recorded(start, Haproxy) || start.memory[Haproxy] != now)
  {
    RecordedIffChanged(w, order, start, visit, |visit|, Haproxy);
    assert visit[..|visit|] == visit;
    if k :| 0 <= k < |visit| && visit[k] == Haproxy {
      RecordIsDerived(w, order, start, visit, k, |visit|);
    }
  }

  /** What is derived for LVS when it is visited at place `k`: from the HAProxy record as it was before the refresh, if
      that is visited later. */
  ghost function DerivedLvs(w: World, order: seq<Name>, start: Shelf, visit: seq<Kind>, k: nat): Record
    requires Lvs in start.memory && k <= |visit| && forall n <- order :: n in w.groups
  {
    var servers := start.memory[Lvs].servers;
    if Haproxy !in start.memory then Record(servers, [], [])
    else
      var h := if Haproxy in visit[..k] then DerivedHaproxy(w, order, start) else start.memory[Haproxy];
      Record(servers, h.servers, LvsEntries(w.net, h.servers, h.backends))
  }

  /** The same for the LVS record. */
  lemma LvsIsRecordedIff(w: World, order: seq<Name>, start: Shelf, visit: seq<Kind>, k: nat)
    requires CleanVisit(w, order, start, visit) && k < |visit| && visit[k] == Lvs
    ensures var r := Refresh(w, order, start, visit, _ => Ok);
      var now := DerivedLvs(w, order, start, visit, k);
      && r.ok && Lvs in r.shelf.memory && r.shelf.memory[Lvs] == now
      && (Recorded(r.shelf, Lvs) <==> Recorded(start, Lvs) || start.memory[Lvs] != now)
  {
    RecordedIffChanged(w, order, start, visit, |visit|, Lvs);
    assert visit[..|visit|] == visit;
    RecordIsDerived(w, order, start, visit, k, |visit|);
    if Haproxy in start.memory {
      assert CleanVisit(w, order, start, visit[..k]);
      HaproxyIsRecordedIff(w, order, start, visit[..k]);
    } else {
      RefreshKeepsNames(w, order, start, visit, k);
    }
  }

  lemma {:induction false} RefreshKeepsNames(w: World, order: seq<Name>, start: Shelf, visit: seq<Kind>, i: nat)
    requires CleanVisit(w, order, start, visit) && i <= |visit|
    ensures var r := Refresh(w, order, start, visit[..i], _ => Ok); r.ok && r.shelf.memory.Keys == start.memory.Keys
  {
    if i > 0 {
      RefreshKeepsNames(w, order, start, visit, i - 1);
      NextRecord(w, order, start, visit, i - 1);
    }
  }

  /** A server that is not on record is added to a HAProxy record that is otherwise what the refresh derives: AddGSLB
      reports success and memory has the server, but it is still not on record, and a restart forgets it. */
  lemma AddedServerIsNotRecorded(w: World, order: seq<Name>, s: Shelf, addr: Addr, visit: seq<Kind>)
    requires Haproxy in s.records ==> addr !in s.records[Haproxy].servers
    requires var start := Added(s, Haproxy, addr);
      CleanVisit(w, order, start, visit) && start.memory[Haproxy] == DerivedHaproxy(w, order, start)
    ensures var r := Refresh(w, order, Added(s, Haproxy, addr), visit, _ => Ok);
      && r.ok && Haproxy in r.shelf.memory && addr in r.shelf.memory[Haproxy].servers
      && !Recorded(r.shelf, Haproxy)
  {
    HaproxyIsRecordedIff(w, order, Added(s, Haproxy, addr), visit);
  }

  /** Likewise a server added to such an LVS record, or to none while there is no HAProxy record. */
  lemma AddedLvsServerIsNotRecorded(w: World, order: seq<Name>, s: Shelf, addr: Addr, visit: seq<Kind>, k: nat)
    requires (Lvs in s.records ==> addr !in s.records[Lvs].servers) && k < |visit| && visit[k] == Lvs
    requires var start := Added(s, Lvs, addr);
      CleanVisit(w, order, start, visit) && start.memory[Lvs] == DerivedLvs(w, order, start, visit, k)
    ensures var r := Refresh(w, order, Added(s, Lvs, addr), visit, _ => Ok);
      && r.ok && Lvs in r.shelf.memory && addr in r.shelf.memory[Lvs].servers
      && !Recorded(r.shelf, Lvs)
  {
    LvsIsRecordedIff(w, order, Added(s, Lvs, addr), visit, k);
  }
}
