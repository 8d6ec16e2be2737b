/**
  Slot ownership in one Redis Cluster node: the slot table, each node's slot bitmap with its
  population count, the migrating and importing tables, and the failure reports.
 */
module ClusterSlots {
  import opened ClusterClaims
  import opened Options

  const CLUSTER_SLOTS: nat := 16384

  /** The bitmap of a node, as the set of its one bits (see ClusterBitmap), and its population. */
  datatype Served = Served(slots: set<nat>, numSlots: int)

  /** The rest of what is known about a node, but for the failure reports about it. */
  datatype Info = Info(configEpoch: nat, isMaster: bool, slaveOf: Option<NodeId>)

  /** The slots that the table gives to node `n`. */
  ghost function Owned(table: seq<Option<NodeId>>, n: NodeId): set<nat> {
    set j | 0 <= j < |table| && table[j] == Some(n)
  }

  /** The slot table and the bitmaps describe the same ownership, and the counts are right. */
  ghost predicate Agree(table: seq<Option<NodeId>>, served: map<NodeId, Served>) {
    && (forall j | 0 <= j < |table| :: table[j].Some? ==> table[j].value in served)
    && (forall n <- served :: served[n].slots == Owned(table, n) && served[n].numSlots == |served[n].slots|)
  }

  function Gained(served: map<NodeId, Served>, n: NodeId, slot: nat): map<NodeId, Served>
    requires n in served
  {
    served[n := Served(served[n].slots + {slot}, served[n].numSlots + 1)]
  }

  function Lost(served: map<NodeId, Served>, n: NodeId, slot: nat): map<NodeId, Served>
    requires n in served
  {
    served[n := Served(served[n].slots - {slot}, served[n].numSlots - 1)]
  }

  /** Setting or clearing one bit together with its table entry keeps the agreement. */
  lemma GainKeepsAgree(table: seq<Option<NodeId>>, served: map<NodeId, Served>, n: NodeId, slot: nat)
    requires Agree(table, served) && n in served && slot < |table| && table[slot].None?
    ensures slot !in served[n].slots && Agree(table[slot := Some(n)], Gained(served, n, slot))
  {
  }

  lemma LossKeepsAgree(table: seq<Option<NodeId>>, served: map<NodeId, Served>, n: NodeId, slot: nat)
    requires Agree(table, served) && slot < |table| && table[slot] == Some(n)
    ensures n in served && slot in served[n].slots && Agree(table[slot := None], Lost(served, n, slot))
  {
  }

  /** A node is counted empty exactly when the table names it nowhere. */
  lemma EmptyMeansUnnamed(table: seq<Option<NodeId>>, served: map<NodeId, Served>, n: NodeId)
    requires Agree(table, served) && n in served
    ensures served[n].numSlots == 0 <==> forall j | 0 <= j < |table| :: table[j] != Some(n)
  {
    if j :| 0 <= j < |table| && table[j] == Some(n) {
      assert j in Owned(table, n);
    } else {
      assert Owned(table, n) == {};
    }
  }

  ghost predicate AllKnown(names: seq<Option<NodeId>>, known: set<NodeId>) {
    forall j | 0 <= j < |names| :: names[j].Some? ==> names[j].value in known
  }

  ghost predicate OncePerSender(names: seq<NodeId>) {
    forall i, j | 0 <= i < j < |names| :: names[i] != names[j]
  }

  /** Failure reports come from known nodes, at most one from each. */
  ghost predicate ReportsKnown(reports: map<NodeId, seq<NodeId>>) {
    forall n <- reports :: OncePerSender(reports[n]) && forall r <- reports[n] :: r in reports
  }

  ghost predicate MastersKnown(info: map<NodeId, Info>) {
    forall n <- info :: info[n].slaveOf.Some? ==> info[n].slaveOf.value in info
  }

  /** Whether a slot passes to the claimant, by this node's records; slots being imported do not. */
  predicate Passes(owner: Option<NodeId>, importing: Option<NodeId>, info: map<NodeId, Info>, c: Claim, slot: nat) {
    && slot in c.slots && owner != Some(c.sender) && importing.None?
    && (owner.Some? && owner.value in info ==> info[owner.value].configEpoch < c.epoch)
  }

  /** A claim and the records it meets. */
  datatype Update = Update(
    before: seq<Option<NodeId>>, importing: seq<Option<NodeId>>, info: map<NodeId, Info>, c: Claim)
  {
    ghost predicate Fits() { |before| == |importing| }

    /** Slot `k` changes hands. */
    ghost predicate Moves(k: nat)
      requires Fits() && k < |before|
    {
      Passes(before[k], importing[k], info, c, k)
    }

    /** The table after the slots below `upTo` were handled. */
    ghost function Table(upTo: nat): seq<Option<NodeId>>
      requires Fits() && upTo <= |before|
      ensures |Table(upTo)| == |before|
    {
      if upTo == 0 then before
      else if Moves(upTo - 1) then Table(upTo - 1)[upTo - 1 := Some(c.sender)] else Table(upTo - 1)
    }

    /** Some slot below `upTo` was taken from node `n`. */
    ghost predicate TookFrom(n: NodeId, upTo: nat)
      requires Fits() && upTo <= |before|
    {
      upTo > 0 && (TookFrom(n, upTo - 1) || (before[upTo - 1] == Some(n) && Moves(upTo - 1)))
    }

    /** The slots in `among` taken from node `n`, in ascending order. */
    ghost function TakenFrom(n: NodeId, among: set<nat>, upTo: nat): seq<nat>
      requires Fits() && upTo <= |before|
    {
      if upTo == 0 then []
      else if before[upTo - 1] == Some(n) && Moves(upTo - 1) && upTo - 1 in among
      then TakenFrom(n, among, upTo - 1) + [upTo - 1] else TakenFrom(n, among, upTo - 1)
    }
  }

  /** What a handled claim did to each slot. */
  lemma {:induction false} TableAt(u: Update, upTo: nat, k: nat)
    requires u.Fits() && upTo <= |u.before| && k < |u.before|
    ensures u.Table(upTo)[k] == if k < upTo && u.Moves(k) then Some(u.c.sender) else u.before[k]
  {
    if upTo > 0 {
      TableAt(u, upTo - 1, k);
    }
  }

  /** A slot passes to the claimant exactly if it is claimed, is not being imported, and was free or owned under an
      older configuration. */
  ghost predicate Rebound(before: seq<Option<NodeId>>, importing: seq<Option<NodeId>>, info: map<NodeId, Info>,
                          c: Claim, after: seq<Option<NodeId>>)
  {
    && |before| == |importing| == |after| && AllKnown(before, info.Keys)
    && forall j | 0 <= j < |before| ::
         after[j] == if j in c.slots && importing[j].None? &&
                        (before[j].None? || info[before[j].value].configEpoch < c.epoch)
                     then Some(c.sender) else before[j]
  }

  lemma AllRebound(u: Update)
    requires u.Fits() && AllKnown(u.before, u.info.Keys)
    ensures Rebound(u.before, u.importing, u.info, u.c, u.Table(|u.before|))
  {
    forall j | 0 <= j < |u.before|
      ensures u.Table(|u.before|)[j] == if u.Moves(j) then Some(u.c.sender) else u.before[j]
    {
      TableAt(u, |u.before|, j);
    }
  }

  /** A slot counts as taken from a node exactly if it had it and has it no more. */
  lemma {:induction false} TookFromIff(u: Update, n: NodeId, upTo: nat)
    requires u.Fits() && upTo <= |u.before| && n != u.c.sender
    ensures u.TookFrom(n, upTo) <==> exists j :: 0 <= j < upTo && u.before[j] == Some(n) != u.Table(|u.before|)[j]
  {
    if upTo > 0 {
      TookFromIff(u, n, upTo - 1);
      TableAt(u, |u.before|, upTo - 1);
    }
  }

  /** The slots to purge are, in ascending order and once each, those with keys that this node lost. */
  lemma {:induction false} TakenFromIs(u: Update, n: NodeId, among: set<nat>, upTo: nat)
    requires u.Fits() && upTo <= |u.before| && n != u.c.sender
    ensures var t := u.TakenFrom(n, among, upTo);
      && (forall j: nat :: j in t <==> j < upTo && j in among && u.before[j] == Some(n) != u.Table(|u.before|)[j])
      && forall a, b | 0 <= a < b < |t| :: t[a] < t[b]
  {
    if upTo > 0 {
      TakenFromIs(u, n, among, upTo - 1);
      var prior := u.TakenFrom(n, among, upTo - 1);
      assert forall a | 0 <= a < |prior| :: prior[a] in prior;
      TableAt(u, |u.before|, upTo - 1);
    }
  }

  /** What handling a claim leaves: the table; whether this node, or the master it replicates, lost its last slot by it,
      so that it follows the claimant; and if not, which of its own slots with keys it lost. */
  ghost predicate Answer(u: Update, table: seq<Option<NodeId>>, me: NodeId, master: NodeId, withKeys: set<nat>,
                         demoted: bool, purge: seq<nat>)
    requires u.Fits()
  {
    && table == u.Table(|u.before|)
    && (demoted <==> u.TookFrom(master, |u.before|) && Unnamed(table, master))
    && purge == if demoted then [] else u.TakenFrom(me, withKeys, |u.before|)
  }

  lemma {:induction false} NothingTaken(u: Update, me: NodeId, master: NodeId, withKeys: set<nat>, upTo: nat)
    requires u.Fits() && upTo <= |u.before| && forall k | 0 <= k < |u.before| :: !u.Moves(k)
    ensures !u.TookFrom(master, upTo) && u.TakenFrom(me, withKeys, upTo) == []
  {
    if upTo > 0 {
      NothingTaken(u, me, master, withKeys, upTo - 1);
    }
  }

  // ---------- failure reports ----------

  function Remove(names: seq<NodeId>, gone: set<NodeId>): seq<NodeId> {
    if names == [] then []
    else Remove(names[..|names| - 1], gone) + if names[|names| - 1] in gone then [] else [names[|names| - 1]]
  }

  lemma {:induction false} RemoveMembers(names: seq<NodeId>, gone: set<NodeId>)
    ensures forall x :: x in Remove(names, gone) <==> x in names && x !in gone
    ensures OncePerSender(names) ==> OncePerSender(Remove(names, gone))
  {
    if names != [] {
      RemoveMembers(names[..|names| - 1], gone);
      assert names == names[..|names| - 1] + [names[|names| - 1]];
    }
  }

  /** clusterNodeDelFailureReport: the sender's report goes, and with it the expired ones; without
      such a report nothing is cleaned up. */
  function Unreported(reports: seq<NodeId>, sender: NodeId, expired: set<NodeId>): seq<NodeId> {
    if sender in reports then Remove(reports, {sender} + expired) else reports
  }

  lemma UnreportedNamesOthers(reports: seq<NodeId>, sender: NodeId, expired: set<NodeId>)
    requires OncePerSender(reports)
    ensures var r := Unreported(reports, sender, expired);
      OncePerSender(r) && sender !in r && forall x <- r :: x in reports
  {
    RemoveMembers(reports, {sender} + expired);
  }

  /** The search and removal of one report, as the linked list does it: only the first match goes. */
  method DelFailureReport(reports: seq<NodeId>, sender: NodeId, expired: set<NodeId>) returns (left: seq<NodeId>)
    requires OncePerSender(reports)
    ensures left == Unreported(reports, sender, expired)
  {
    var i := 0;
    while i < |reports| && reports[i] != sender
      invariant 0 <= i <= |reports| && sender !in reports[..i]
    {
      i := i + 1;
    }
    if i == |reports| {
      assert reports[..i] == reports;
      return reports;
    }
    RemoveOnce(reports, i, {sender}, expired);
    left := Remove(reports[..i] + reports[i + 1..], expired);
  }

  lemma RemoveNone(names: seq<NodeId>, gone: set<NodeId>, more: set<NodeId>)
    requires forall x <- names :: x !in more
    ensures Remove(names, more + gone) == Remove(names, gone)
  {
  }

  lemma {:induction false} RemoveOnce(names: seq<NodeId>, i: nat, one: set<NodeId>, gone: set<NodeId>)
    requires i < |names| && one == {names[i]} && OncePerSender(names)
    ensures Remove(names, one + gone) == Remove(names[..i] + names[i + 1..], gone)
  {
    var n := |names| - 1;
    if i == n {
      assert names[..i] + names[i + 1..] == names[..n];
      RemoveNone(names[..n], gone, one);
    } else {
      RemoveOnce(names[..n], i, one, gone);
      var rest := names[..i] + names[i + 1..];
      assert rest[..|rest| - 1] == names[..n][..i] + names[..n][i + 1..];
      assert rest[|rest| - 1] == names[n];
    }
  }

  class Cluster {
    const myself: NodeId
    var table: seq<Option<NodeId>>
    var migrating: seq<Option<NodeId>>
    var importing: seq<Option<NodeId>>
    var served: map<NodeId, Served>
    var info: map<NodeId, Info>
    var reports: map<NodeId, seq<NodeId>>

    ghost predicate Sized()
      reads this
    {
      && |table| == |migrating| == |importing| == CLUSTER_SLOTS
      && served.Keys == info.Keys == reports.Keys && myself in info
    }

    /** What holds between any two handlers. */
    ghost predicate Valid()
      reads this
    {
      && Sized() && Agree(table, served) && AllKnown(migrating, info.Keys) && AllKnown(importing, info.Keys)
      && ReportsKnown(reports) && MastersKnown(info)
      && (info[myself].isMaster || served[myself].numSlots == 0)
    }

    /** A node that just started knows itself only and serves nothing. */
    constructor (me: NodeId)
      ensures Valid() && myself == me && info.Keys == {me} && forall j | 0 <= j < |table| :: table[j].None?
    {
      myself := me;
      table := seq(CLUSTER_SLOTS, _ => None);
      migrating := seq(CLUSTER_SLOTS, _ => None);
      importing := seq(CLUSTER_SLOTS, _ => None);
      served := map[me := Served({}, 0)];
      info := map[me := Info(0, true, None)];
      reports := map[me := []];
    }

    method AddSlot(n: NodeId, slot: nat) returns (ok: bool)
      requires Agree(table, served) && n in served && slot < |table|
      modifies this`table, this`served
      ensures Agree(table, served)
      ensures ok <==> old(table[slot]).None?
      ensures table == if ok then old(table)[slot := Some(n)] else old(table)
      ensures served == if ok then Gained(old(served), n, slot) else old(served)
    {
      if table[slot].Some? {
        return false;
      }
      GainKeepsAgree(table, served, n, slot);
      var s := served[n];
      served := served[n := Served(s.slots + {slot}, if slot in s.slots then s.numSlots else s.numSlots + 1)];
      table := table[slot := Some(n)];
      ok := true;
    }

    /** The bit cleared here was always set: the assertion of clusterDelSlot cannot fail. */
    method DelSlot(slot: nat) returns (ok: bool)
      requires Agree(table, served) && slot < |table|
      modifies this`table, this`served
      ensures Agree(table, served) && served.Keys == old(served).Keys
      ensures ok <==> old(table[slot]).Some?
      ensures table == if ok then old(table)[slot := None] else old(table)
      ensures ok ==> old(table[slot]).value in old(served) && served == Lost(old(served), old(table[slot]).value, slot)
      ensures !ok ==> served == old(served)
    {
      if table[slot].None? {
        return false;
      }
      var n := table[slot].value;
      LossKeepsAgree(table, served, n, slot);
      var s := served[n];
      assert slot in s.slots;
      served := served[n := Served(s.slots - {slot}, s.numSlots - 1)];
      table := table[slot := None];
      ok := true;
    }

    /** The slot is freed if its bit is set in the node's bitmap. */
    method FreeIfOf(n: NodeId, slot: nat) returns (freed: nat)
      requires Agree(table, served) && slot < |table| && n in served
      modifies this`table, this`served
      ensures Agree(table, served) && served.Keys == old(served).Keys
      ensures table == if old(table[slot]) == Some(n) then old(table)[slot := None] else old(table)
      ensures freed + served[n].numSlots == old(served[n].numSlots)
    {
      freed := 0;
      if slot in served[n].slots {
        var _ := DelSlot(slot);
        freed := 1;
      }
    }

    method DelNodeSlots(n: NodeId) returns (deleted: nat)
      requires Agree(table, served) && |table| == CLUSTER_SLOTS && n in served
      modifies this`table, this`served
      ensures Agree(table, served) && served.Keys == old(served).Keys
      ensures table == Cleared(old(table), n, CLUSTER_SLOTS)
      ensures deleted == old(served[n].numSlots) && served[n].numSlots == 0
    {
      deleted := 0;
      var j := 0;
      ghost var was := table;
      while j < CLUSTER_SLOTS
        invariant 0 <= j <= CLUSTER_SLOTS && Agree(table, served) && served.Keys == old(served).Keys
        invariant table == Cleared(was, n, j)
        invariant deleted + served[n].numSlots == old(served[n].numSlots)
      {
        var freed := FreeIfOf(n, j);
        deleted := deleted + freed;
        j := j + 1;
      }
      ClearedUnnamed(was, n, {});
      EmptyMeansUnnamed(table, served, n);
    }

    /** The pair clusterDelSlot, clusterAddSlot by which a slot changes hands. */
    method Reassign(slot: nat, n: NodeId)
      requires Agree(table, served) && n in served && slot < |table|
      modifies this`table, this`served
      ensures Agree(table, served) && served.Keys == old(served).Keys
      ensures table == old(table)[slot := Some(n)]
    {
      var _ := DelSlot(slot);
      var ok := AddSlot(n, slot);
    }

    /** The loop of clusterUpdateSlotsConfigWith: rebinds every claimed slot that yields, and reports
        whether one was taken from `master` and which of this node's own slots with keys were lost. */
    method RebindSlots(c: Claim, master: NodeId, withKeys: set<nat>) returns (took: bool, dirty: seq<nat>)
      requires Agree(table, served) && |table| == |importing| == CLUSTER_SLOTS && c.sender in served
      modifies this`table, this`served
      ensures Agree(table, served) && served.Keys == old(served).Keys
      ensures var u := Update(old(table), importing, info, c);
        && table == u.Table(CLUSTER_SLOTS)
        && (took <==> u.TookFrom(master, CLUSTER_SLOTS))
        && dirty == u.TakenFrom(myself, withKeys, CLUSTER_SLOTS)
    {
      var j := 0;
      took, dirty := false, [];
      ghost var u := Update(table, importing, info, c);
      while j < CLUSTER_SLOTS
        invariant 0 <= j <= CLUSTER_SLOTS
        invariant Agree(table, served) && served.Keys == old(served).Keys
        invariant table == u.Table(j)
        invariant took <==> u.TookFrom(master, j)
        invariant dirty == u.TakenFrom(myself, withKeys, j)
      {
        TableAt(u, j, j);
        if Passes(table[j], importing[j], info, c, j) {
          if table[j] == Some(myself) && j in withKeys {
            dirty := dirty + [j];
          }
          if table[j] == Some(master) {
            took := true;
          }
          Reassign(j, c.sender);
        }
        j := j + 1;
      }
    }

    /** Where this node's writes go: itself, or the master it replicates. */
    function CurrentMaster(): NodeId
      requires myself in info && (info[myself].isMaster || info[myself].slaveOf.Some?)
      reads this
    {
      if info[myself].isMaster then myself else info[myself].slaveOf.value
    }

    method CloseAllSlots()
      requires Valid()
      modifies this`migrating, this`importing
      ensures Valid() && migrating == importing == seq(CLUSTER_SLOTS, _ => None)
    {
      migrating := seq(CLUSTER_SLOTS, _ => None);
      importing := migrating;
    }

    /** Both assertions of clusterSetMaster are preconditions here. */
    method SetMaster(n: NodeId)
      requires Valid() && n in info && n != myself && served[myself].numSlots == 0
      modifies this`info, this`migrating, this`importing
      ensures Valid() && info == Replica(old(info), myself, n)
      ensures if old(info)[myself].isMaster then migrating == importing == seq(CLUSTER_SLOTS, _ => None)
              else migrating == old(migrating) && importing == old(importing)
      ensures importing == old(importing) || NoneImporting(importing)
    {
      ReplicaKeepsInfo(info, myself, n);
      if info[myself].isMaster {
        CloseAllSlots();
      }
      SetInfo(info[myself := info[myself].(isMaster := false, slaveOf := Some(n))]);
    }

    /** The loop, in a valid state: this node itself gets nothing. */
    method Rebind(c: Claim, master: NodeId, withKeys: set<nat>) returns (took: bool, dirty: seq<nat>)
      requires Valid() && c.sender in info && c.sender != myself && master in info
      modifies this`table, this`served
      ensures Valid()
      ensures served[master].numSlots == 0 <==> Unnamed(table, master)
      ensures var u := Update(old(table), importing, info, c);
        && table == u.Table(CLUSTER_SLOTS)
        && (took <==> u.TookFrom(master, CLUSTER_SLOTS))
        && dirty == u.TakenFrom(myself, withKeys, CLUSTER_SLOTS)
    {
      ghost var u, was := Update(table, importing, info, c), served;
      took, dirty := RebindSlots(c, master, withKeys);
      EmptyMeansUnnamed(table, served, master);
      ClaimGivesNothingToOthers(u, was, served, myself);
    }

    /** A received configuration: rebinds slots, and turns this node into a replica of the sender when
        its master is left without slots.  Returns the slots whose keys must be deleted. */
    method UpdateSlotsConfigWith(c: Claim, withKeys: set<nat>) returns (demoted: bool, purge: seq<nat>)
      requires Valid() && c.sender in info && (info[myself].isMaster || info[myself].slaveOf.Some?)
      modifies this
      ensures Valid()
      ensures c.sender == myself ==> table == old(table) && info == old(info) && !demoted && purge == []
      ensures var u, master := old(Update(table, importing, info, c)), old(CurrentMaster());
        c.sender != myself ==>
          && Answer(u, table, myself, master, withKeys, demoted, purge)
          && info == (if demoted then Replica(old(info), myself, c.sender) else old(info))
      ensures importing == old(importing) || NoneImporting(importing)
      ensures c.sender != myself ==> Rebound(old(table), old(importing), old(info), c, table)
    {
      demoted, purge := false, [];
      if c.sender == myself {
        return;
      }
      var master := CurrentMaster();
      ghost var u := Update(table, importing, info, c);
      var took, dirty := Rebind(c, master, withKeys);
      AllRebound(u);
      if took && served[master].numSlots == 0 {
        demoted := true;
        SetMaster(c.sender);
      } else {
        purge := dirty;
      }
    }

    /** The loop of clusterFailoverReplaceYourMaster. */
    method HandSlots(from: NodeId, to: NodeId)
      requires Agree(table, served) && |table| == CLUSTER_SLOTS && from in served && to in served
      modifies this`table, this`served
      ensures Agree(table, served) && served.Keys == old(served).Keys
      ensures table == Handed(old(table), from, to, CLUSTER_SLOTS)
    {
      var j := 0;
      ghost var was := table;
      while j < CLUSTER_SLOTS
        invariant 0 <= j <= CLUSTER_SLOTS
        invariant Agree(table, served) && served.Keys == old(served).Keys
        invariant table == Handed(was, from, to, j)
      {
        HandedAt(was, from, to, j, j);
        if j in served[from].slots {
          Reassign(j, to);
        }
        j := j + 1;
      }
    }

    method Register(s: map<NodeId, Served>, i: map<NodeId, Info>, r: map<NodeId, seq<NodeId>>)
      requires |table| == |migrating| == |importing| == CLUSTER_SLOTS && s.Keys == i.Keys == r.Keys && myself in i
      requires Agree(table, s) && AllKnown(migrating, i.Keys) && AllKnown(importing, i.Keys)
      requires ReportsKnown(r) && MastersKnown(i) && (i[myself].isMaster || s[myself].numSlots == 0)
      modifies this`served, this`info, this`reports
      ensures Valid() && served == s && info == i && reports == r
    {
      served, info, reports := s, i, r;
    }

    /** A node enters the node table; a known name is refused. */
    method AddNode(n: NodeId) returns (ok: bool)
      requires Valid()
      modifies this`served, this`info, this`reports
      ensures Valid() && (ok <==> n !in old(info))
      ensures info == if ok then old(info)[n := Info(0, true, None)] else old(info)
    {
      if n in info {
        return false;
      }
      NewcomerAgrees(table, served, n);
      NewcomerFits(info, reports, n);
      MoreAreKnown(migrating, info.Keys, info.Keys + {n});
      MoreAreKnown(importing, info.Keys, info.Keys + {n});
      NewcomerKeeps(served, info, n, myself);
      Register(served[n := Served({}, 0)], info[n := Info(0, true, None)], reports[n := []]);
      ok := true;
    }

    /** The slot table and the epochs, as ClusterClaims sees them. */
    ghost function Seen(): View
      reads this
    {
      View(myself, table, Epochs(info))
    }

    /** The branch "master turned into a slave": the sender's slots become unassigned. */
    method ReleaseSlots(n: NodeId)
      requires Valid() && n in info && n != myself
      modifies this`table, this`served
      ensures Valid() && table == Cleared(old(table), n, CLUSTER_SLOTS)
    {
      EmptyMeansUnnamed(table, served, myself);
      ClearedKeepsUnnamed(table, n, myself);
      var _ := DelNodeSlots(n);
      EmptyMeansUnnamed(table, served, myself);
    }

    /** This node is a master, or a slave whose master is known. */
    ghost predicate Following()
      requires myself in info
      reads this
    {
      info[myself].isMaster || info[myself].slaveOf.Some?
    }

    /** Nodes change their epochs and roles only. */
    method SetInfo(i: map<NodeId, Info>)
      requires Valid() && i.Keys == info.Keys && MastersKnown(i) && (i[myself].isMaster || served[myself].numSlots == 0)
      modifies this`info
      ensures Valid() && info == i
    {
      info := i;
    }

    /** Header and role processing of a packet: the sender's epoch rises; a sender that names a master
        is a slave and loses its slots, one that names none is a master. */
    method HearFrom(c: Claim, slaveOf: Option<NodeId>)
      requires Valid() && c.sender in info && (c.sender == myself ==> slaveOf.None?)
      modifies this`table, this`served, this`info
      ensures Valid() && info.Keys == old(info).Keys && info == Heard(old(info), c, slaveOf)
      ensures c.sender != myself ==> info[myself] == old(info)[myself]
      ensures table == if slaveOf.Some? && old(info)[c.sender].isMaster
                       then Cleared(old(table), c.sender, CLUSTER_SLOTS) else old(table)
    {
      if slaveOf.Some? && info[c.sender].isMaster {
        ReleaseSlots(c.sender);
      }
      HeardKeepsInfo(info, c, slaveOf);
      HeardKeepsRole(info, c, slaveOf, myself);
      SetInfo(Heard(info, c, slaveOf));
    }

    /** The same for a packet that makes its sender a master, or leaves it one. */
    method HearFromMaster(c: Claim)
      requires Valid() && Following() && c.sender in info
      modifies this`table, this`served, this`info
      ensures Valid() && Following() && info.Keys == old(info).Keys
      ensures info == Heard(old(info), c, None) && table == old(table)
      ensures Seen() == old(Seen()).(epochs := Learn(old(Seen()).epochs, c))
    {
      HeardKeepsInfo(info, c, None);
      HeardKeepsRole(info, c, None, myself);
      HearFrom(c, None);
    }

    method BindClaims(c: Claim, withKeys: set<nat>) returns (demoted: bool, purge: seq<nat>)
      requires Valid() && c.sender in info && (info[myself].isMaster || info[myself].slaveOf.Some?)
      modifies this
      ensures Valid() && Following() && info.Keys == old(info).Keys
      ensures info == (if demoted then Replica(old(info), myself, c.sender) else old(info))
      ensures c.sender == myself ==> table == old(table) && !demoted && purge == []
      ensures c.sender != myself ==>
                Answer(old(Update(table, importing, info, c)), table, myself, old(CurrentMaster()), withKeys,
                       demoted, purge)
      ensures importing == old(importing) || NoneImporting(importing)
      ensures NoneImporting(old(importing)) ==> Seen() == Bind(old(Seen()), c)
    {
      ghost var u := Update(table, importing, info, c);
      demoted, purge := UpdateSlotsConfigWith(c, withKeys);
      if c.sender != myself {
        HandledIsBound(myself, u);
      }
      ReplicaKeepsEpochs(u.info, myself, c.sender);
      ReplicaFollows(u.info, myself, c.sender);
    }

    /** The claims of a sender known to be a master; skipped when they equal its recorded bitmap. */
    method ProcessClaims(c: Claim, withKeys: set<nat>) returns (demoted: bool, purge: seq<nat>)
      requires Valid() && c.sender in info && c.sender != myself
      requires info[myself].isMaster || info[myself].slaveOf.Some?
      modifies this
      ensures Valid() && Following() && info.Keys == old(info).Keys
      ensures info == (if demoted then Replica(old(info), myself, c.sender) else old(info))
      ensures Answer(old(Update(table, importing, info, c)), table, myself, old(CurrentMaster()), withKeys,
                     demoted, purge)
      ensures importing == old(importing) || NoneImporting(importing)
      ensures NoneImporting(old(importing)) ==> Seen() == Bind(old(Seen()), c)
    {
      demoted, purge := false, [];
      if served[c.sender].slots != c.slots {
        demoted, purge := BindClaims(c, withKeys);
      } else {
        RepeatedIsBound(myself, Update(table, importing, info, c), served);
        NothingTaken(Update(table, importing, info, c), myself, CurrentMaster(), withKeys, |table|);
      }
    }

    /** From a master. */
    method ProcessMasterPing(c: Claim, withKeys: set<nat>) returns (demoted: bool, purge: seq<nat>)
      requires Valid() && Following() && c.sender in info && c.sender != myself
      modifies this
      ensures Valid() && Following() && info.Keys == old(info).Keys
      ensures var heard := Heard(old(info), c, None);
        && info == (if demoted then Replica(heard, myself, c.sender) else heard)
        && Answer(Update(old(table), old(importing), heard, c), table, myself, old(CurrentMaster()), withKeys,
                  demoted, purge)
      ensures importing == old(importing) || NoneImporting(importing)
      ensures NoneImporting(old(importing)) ==> Seen() == Handle(old(Seen()), Ping(c))
    {
      ghost var v := Seen();
      HearFromMaster(c);
      ghost var w := Seen();
      demoted, purge := ProcessClaims(c, withKeys);
      ReceivedInSteps(v, w, Seen(), c);
    }

    /** PING, PONG and MEET from a known sender, as far as slots and roles go: a master's claims are handled slot by
        slot, slots being imported excepted; a slave's are not, but a master turned into a slave loses its slots. */
    method ProcessPing(c: Claim, slaveOf: Option<NodeId>, withKeys: set<nat>) returns (demoted: bool, purge: seq<nat>)
      requires Valid() && c.sender in info && c.sender != myself
      requires info[myself].isMaster || info[myself].slaveOf.Some?
      modifies this
      ensures Valid() && Following() && info.Keys == old(info).Keys
      ensures var heard := Heard(old(info), c, slaveOf);
        && info == (if demoted then Replica(heard, myself, c.sender) else heard)
        && (slaveOf.None? ==>
              Answer(Update(old(table), old(importing), heard, c), table, myself, old(CurrentMaster()), withKeys,
                     demoted, purge))
        && (slaveOf.Some? && !old(info)[c.sender].isMaster ==> !demoted && purge == [] && table == old(table))
        && (slaveOf.Some? && old(info)[c.sender].isMaster ==>
              !demoted && purge == [] && table == Cleared(old(table), c.sender, CLUSTER_SLOTS))
      ensures importing == old(importing) || NoneImporting(importing)
      ensures slaveOf.None? && NoneImporting(old(importing)) ==> Seen() == Handle(old(Seen()), Ping(c))
    {
      demoted, purge := false, [];
      if slaveOf.Some? {
        HearFrom(c, slaveOf);
      } else {
        demoted, purge := ProcessMasterPing(c, withKeys);
      }
    }

    /** UPDATE: nothing new is ignored, else the node is a master with those slots.  One about this very node makes it a
        master under the new epoch, and moves no slot. */
    method ProcessUpdate(c: Claim, withKeys: set<nat>) returns (demoted: bool, purge: seq<nat>)
      requires Valid() && c.sender in info && (info[myself].isMaster || info[myself].slaveOf.Some?)
      modifies this
      ensures Valid() && Following() && info.Keys == old(info).Keys
      ensures old(info)[c.sender].configEpoch >= c.epoch ==>
                table == old(table) && info == old(info) && !demoted && purge == []
      ensures var heard := Heard(old(info), c, None);
        old(info)[c.sender].configEpoch < c.epoch ==>
          && info == (if demoted then Replica(heard, myself, c.sender) else heard)
          && (c.sender == myself ==> table == old(table) && purge == [])
          && (c.sender != myself ==>
                Answer(Update(old(table), old(importing), heard, c), table, myself, old(CurrentMaster()), withKeys,
                       demoted, purge))
      ensures importing == old(importing) || NoneImporting(importing)
      ensures NoneImporting(old(importing)) ==> Seen() == Handle(old(Seen()), Report(c))
    {
      demoted, purge := false, [];
      ghost var v := Seen();
      if info[c.sender].configEpoch < c.epoch {
        HearFromMaster(c);
        ghost var w := Seen();
        demoted, purge := BindClaims(c, withKeys);
        ReceivedInSteps(v, w, Seen(), c);
      }
    }

    /** The header of any packet. */
    method ProcessHeader(c: Claim)
      requires Valid() && c.sender in info
      modifies this`info
      ensures Valid() && info.Keys == old(info).Keys && (old(Following()) ==> Following())
      ensures info == Raised(old(info), c)
      ensures Seen() == Handle(old(Seen()), Header(c))
    {
      RaisedKeepsInfo(info, c, myself);
      if info[c.sender].configEpoch < c.epoch {
        SetInfo(info[c.sender := info[c.sender].(configEpoch := c.epoch)]);
      }
    }

    /** One packet of a known master, or an UPDATE about a known node. */
    method Process(m: Message, withKeys: set<nat>)
      requires Valid() && Following() && m.claim.sender in info && (m.Ping? ==> m.claim.sender != myself)
      modifies this
      ensures Valid() && Following() && info.Keys == old(info).Keys
      ensures NoneImporting(old(importing)) ==> NoneImporting(importing) && Seen() == Handle(old(Seen()), m)
    {
      match m
      case Ping(c) => var _, _ := ProcessPing(c, None, withKeys);
      case Report(c) => var _, _ := ProcessUpdate(c, withKeys);
      case Header(c) => ProcessHeader(c);
    }

    /** Any sequence of such packets: while no slot is being imported, the table is the one that ClusterClaims speaks
        of, so that its order is immaterial exactly for the settled slots. */
    method ProcessAll(ms: seq<Message>, withKeys: nat -> set<nat>)
      requires Valid() && Following()
      requires forall m <- ms :: m.claim.sender in info && (m.Ping? ==> m.claim.sender != myself)
      modifies this
      ensures Valid() && Following() && info.Keys == old(info).Keys
      ensures NoneImporting(old(importing)) ==> NoneImporting(importing) && Seen() == HandleAll(old(Seen()), ms)
    {
      if ms != [] {
        var n := |ms| - 1;
        ProcessAll(ms[..n], withKeys);
        Process(ms[n], withKeys(n));
      }
    }

    // CLUSTER SETSLOT, for masters only.

    /** MIGRATING: a slot of this node is marked as leaving for node `n`. */
    method SetSlotMigrating(slot: nat, n: NodeId) returns (ok: bool)
      requires Valid() && slot < CLUSTER_SLOTS
      modifies this`migrating
      ensures Valid() && (ok <==> info[myself].isMaster && table[slot] == Some(myself) && n in info)
      ensures migrating == if ok then old(migrating)[slot := Some(n)] else old(migrating)
    {
      ok := false;
      if !info[myself].isMaster { return; }
      if table[slot] != Some(myself) { return; }
      if n !in info { return; }
      NamingKnown(migrating, slot, n, info.Keys);
      migrating := migrating[slot := Some(n)];
      ok := true;
    }

    /** IMPORTING: a slot that is not this node's is marked as coming from node `n`. */
    method SetSlotImporting(slot: nat, n: NodeId) returns (ok: bool)
      requires Valid() && slot < CLUSTER_SLOTS
      modifies this`importing
      ensures Valid() && (ok <==> info[myself].isMaster && table[slot] != Some(myself) && n in info)
      ensures importing == if ok then old(importing)[slot := Some(n)] else old(importing)
    {
      ok := false;
      if !info[myself].isMaster { return; }
      if table[slot] == Some(myself) { return; }
      if n !in info { return; }
      NamingKnown(importing, slot, n, info.Keys);
      importing := importing[slot := Some(n)];
      ok := true;
    }

    method SetSlotStable(slot: nat) returns (ok: bool)
      requires Valid() && slot < CLUSTER_SLOTS
      modifies this`migrating, this`importing
      ensures Valid() && (ok <==> info[myself].isMaster)
      ensures migrating == if ok then old(migrating)[slot := None] else old(migrating)
      ensures importing == if ok then old(importing)[slot := None] else old(importing)
    {
      ok := info[myself].isMaster;
      if ok {
        importing := importing[slot := None];
        migrating := migrating[slot := None];
      }
    }

    /** The end of an import, under a new epoch. */
    method CloseImport(slot: nat, bumped: nat)
      requires Valid() && slot < CLUSTER_SLOTS
      modifies this`importing, this`info
      ensures Valid() && importing == old(importing)[slot := None]
      ensures info == old(info)[myself := old(info)[myself].(configEpoch := bumped)]
    {
      BumpKeepsMasters(info, myself, bumped);
      SetInfo(info[myself := info[myself].(configEpoch := bumped)]);
      importing := importing[slot := None];
    }

    /** A slot changes hands in a valid state of a master. */
    method BindSlot(slot: nat, n: NodeId)
      requires Valid() && info[myself].isMaster && n in info && slot < CLUSTER_SLOTS
      modifies this`table, this`served
      ensures Valid() && table == old(table)[slot := Some(n)]
    {
      Reassign(slot, n);
    }

    /** NODE: the slot is bound to `n`.  With keys in it, it cannot leave this node and stays marked as migrating;
        taken by this node itself, it stops being imported, under the bumped epoch. */
    method SetSlotNode(slot: nat, n: NodeId, hasKeys: bool, bumped: nat) returns (ok: bool)
      requires Valid() && slot < CLUSTER_SLOTS
      modifies this`table, this`served, this`migrating, this`importing, this`info
      ensures Valid()
      ensures ok <==> old(info)[myself].isMaster && n in old(info) &&
                      (old(table[slot]) == Some(myself) && n != myself ==> !hasKeys)
      ensures var closed := ok && n == myself && old(importing[slot]).Some?;
        && table == (if ok then old(table)[slot := Some(n)] else old(table))
        && migrating == (if ok && !hasKeys then old(migrating)[slot := None] else old(migrating))
        && importing == (if closed then old(importing)[slot := None] else old(importing))
        && info == if closed then old(info)[myself := old(info)[myself].(configEpoch := bumped)] else old(info)
    {
      ok := false;
      if !info[myself].isMaster { return; }
      if n !in info { return; }
      if table[slot] == Some(myself) && n != myself && hasKeys { return; }
      if !hasKeys {
        migrating := migrating[slot := None];
      }
      if n == myself && importing[slot].Some? {
        CloseImport(slot, bumped);
      }
      BindSlot(slot, n);
      ok := true;
    }

    method HandToMyself(from: NodeId)
      requires Valid() && info[myself].isMaster && from in info
      modifies this`table, this`served
      ensures Valid() && table == Handed(old(table), from, myself, CLUSTER_SLOTS)
    {
      HandSlots(from, myself);
    }

    /** The winner of an election takes all slots of its master. */
    method FailoverReplaceYourMaster()
      requires Valid()
      modifies this`table, this`served, this`info
      ensures Valid()
      ensures var me := old(info)[myself];
        if me.isMaster || me.slaveOf.None? then table == old(table) && info == old(info)
        else info == old(info)[myself := me.(isMaster := true, slaveOf := None)]
             && table == Handed(old(table), me.slaveOf.value, myself, CLUSTER_SLOTS)
    {
      var me := info[myself];
      if me.isMaster || me.slaveOf.None? {
        return;
      }
      PromotionKeepsMasters(info, myself);
      SetInfo(info[myself := me.(isMaster := true, slaveOf := None)]);
      HandToMyself(me.slaveOf.value);
    }

    /** At most one report per sender is kept; returns whether it is new. */
    method AddFailureReport(failing: NodeId, sender: NodeId) returns (isNew: bool)
      requires Valid() && failing in info && sender in info
      modifies this`reports
      ensures Valid() && (isNew <==> sender !in old(reports)[failing])
      ensures reports == if isNew then old(reports)[failing := old(reports)[failing] + [sender]] else old(reports)
    {
      if sender in reports[failing] {
        return false;
      }
      reports := reports[failing := reports[failing] + [sender]];
      isNew := true;
    }

    /** Step 1 of clusterDelNode: no table names the node any more. */
    method ForgetSlots(del: NodeId)
      requires |table| == |migrating| == |importing| == CLUSTER_SLOTS && Agree(table, served)
      modifies this`table, this`served, this`migrating, this`importing
      ensures Agree(table, served) && served.Keys == old(served).Keys
      ensures table == Cleared(old(table), del, CLUSTER_SLOTS)
      ensures migrating == Cleared(old(migrating), del, CLUSTER_SLOTS)
      ensures importing == Cleared(old(importing), del, CLUSTER_SLOTS)
    {
      var j := 0;
      ghost var t, m, i := table, migrating, importing;
      while j < CLUSTER_SLOTS
        invariant 0 <= j <= CLUSTER_SLOTS && Agree(table, served) && served.Keys == old(served).Keys
        invariant table == Cleared(t, del, j) && migrating == Cleared(m, del, j) && importing == Cleared(i, del, j)
      {
        if importing[j] == Some(del) {
          importing := importing[j := None];
        }
        if migrating[j] == Some(del) {
          migrating := migrating[j := None];
        }
        if table[j] == Some(del) {
          var _ := DelSlot(j);
        }
        j := j + 1;
      }
    }

    /** Step 2: the node's failure reports about others go, together with reports that expired. */
    method ForgetReports(del: NodeId, expired: set<NodeId>)
      requires ReportsKnown(reports)
      modifies this`reports
      ensures Forgotten(old(reports), reports, del, expired, {del}) && ReportsKnown(reports - {del})
    {
      var todo := reports.Keys - {del};
      while todo != {}
        invariant todo <= old(reports).Keys - {del} && Forgotten(old(reports), reports, del, expired, todo + {del})
      {
        var n :| n in todo;
        var left := DelFailureReport(reports[n], del, expired);
        reports := reports[n := left];
        todo := todo - {n};
      }
      ForgottenKnown(old(reports), reports, del, expired);
    }

    /** What the deletion of the node needs of step 2. */
    method DropReports(del: NodeId, expired: set<NodeId>)
      requires ReportsKnown(reports)
      modifies this`reports
      ensures ReportsKnown(reports - {del}) && reports.Keys == old(reports).Keys
      ensures forall n | n in reports && n != del :: reports[n] == Unreported(old(reports)[n], del, expired)
    {
      ForgetReports(del, expired);
    }

    /** Step 1 leaves no table entry that names the node. */
    method ForgetTables(del: NodeId)
      requires |table| == |migrating| == |importing| == CLUSTER_SLOTS && Agree(table, served)
      requires AllKnown(migrating, info.Keys) && AllKnown(importing, info.Keys)
      requires del != myself && myself in served
      modifies this`table, this`served, this`migrating, this`importing
      ensures served.Keys == old(served).Keys && Agree(table, served - {del})
      ensures AllKnown(migrating, FreeNode(info, del).Keys) && AllKnown(importing, FreeNode(info, del).Keys)
      ensures old(served)[myself].numSlots == 0 ==> (served - {del})[myself].numSlots == 0
      ensures table == Cleared(old(table), del, CLUSTER_SLOTS)
      ensures migrating == Cleared(old(migrating), del, CLUSTER_SLOTS)
      ensures importing == Cleared(old(importing), del, CLUSTER_SLOTS)
    {
      ForgetSlots(del);
      TablesAfterDeletion(old(migrating), info, del);
      TablesAfterDeletion(old(importing), info, del);
      ServedAfterDeletion(old(table), old(served), served, myself, del);
    }

    /** The node can go without leaving a dangling name. */
    ghost predicate Removable(del: NodeId)
      reads this
    {
      var left := FreeNode(info, del);
      && Sized() && del in info && del != myself && left.Keys == info.Keys - {del} && MastersKnown(left)
      && Agree(table, served - {del}) && AllKnown(migrating, left.Keys) && AllKnown(importing, left.Keys)
      && ReportsKnown(reports - {del})
      && (left[myself].isMaster || (served - {del})[myself].numSlots == 0)
    }

    /** Step 3, freeClusterNode. */
    method Free(del: NodeId)
      requires Removable(del)
      modifies this`served, this`info, this`reports
      ensures Valid() && info == FreeNode(old(info), del) && reports == old(reports) - {del}
    {
      reports := reports - {del};
      served := served - {del};
      info := FreeNode(info, del);
    }

    /** Steps 1 and 2. */
    method Prepare(del: NodeId, expired: set<NodeId>)
      requires Valid() && del in info && del != myself
      modifies this`table, this`served, this`migrating, this`importing, this`reports
      ensures Removable(del)
      ensures forall n | n in reports && n != del :: reports[n] == Unreported(old(reports)[n], del, expired)
      ensures table == Cleared(old(table), del, CLUSTER_SLOTS)
      ensures migrating == Cleared(old(migrating), del, CLUSTER_SLOTS)
      ensures importing == Cleared(old(importing), del, CLUSTER_SLOTS)
    {
      ForgetTables(del);
      DropReports(del, expired);
      FreedMasters(info, del);
    }

    /** clusterDelNode: by `NothingNamesTheUnknown` no entry names the node afterwards, and no other
        assignment has changed. */
    method DelNode(del: NodeId, expired: set<NodeId>)
      requires Valid() && del in info && del != myself
      modifies this
      ensures Valid() && info == FreeNode(old(info), del)
      ensures forall n <- reports :: n in old(reports) && reports[n] == Unreported(old(reports)[n], del, expired)
      ensures table == Cleared(old(table), del, CLUSTER_SLOTS)
      ensures migrating == Cleared(old(migrating), del, CLUSTER_SLOTS)
      ensures importing == Cleared(old(importing), del, CLUSTER_SLOTS)
    {
      Prepare(del, expired);
      Free(del);
    }
  }

  lemma TablesAfterDeletion(names: seq<Option<NodeId>>, info: map<NodeId, Info>, del: NodeId)
    requires AllKnown(names, info.Keys)
    ensures AllKnown(Cleared(names, del, |names|), FreeNode(info, del).Keys)
  {
    ClearedUnnamed(names, del, info.Keys);
    assert FreeNode(info, del).Keys == info.Keys - {del};
  }

  lemma ServedAfterDeletion(table: seq<Option<NodeId>>, served: map<NodeId, Served>, after: map<NodeId, Served>,
                            me: NodeId, del: NodeId)
    requires Agree(table, served) && Agree(Cleared(table, del, |table|), after)
    requires after.Keys == served.Keys && me in served && me != del
    ensures Agree(Cleared(table, del, |table|), after - {del})
    ensures served[me].numSlots == 0 ==> (after - {del})[me].numSlots == 0
  {
    ClearedUnnamed(table, del, {});
    DroppedAgrees(Cleared(table, del, |table|), after, del);
    EmptyStaysEmpty(table, served, Cleared(table, del, |table|), after, me, del);
  }

  lemma DroppedAgrees(table: seq<Option<NodeId>>, served: map<NodeId, Served>, del: NodeId)
    requires Agree(table, served) && Unnamed(table, del)
    ensures Agree(table, served - {del})
  {
  }

  lemma FreedMasters(info: map<NodeId, Info>, del: NodeId)
    requires MastersKnown(info)
    ensures MastersKnown(FreeNode(info, del)) && FreeNode(info, del).Keys == info.Keys - {del}
  {
  }

  ghost predicate Unnamed(names: seq<Option<NodeId>>, n: NodeId) {
    forall j | 0 <= j < |names| :: names[j] != Some(n)
  }

  /** The reports of `del` are gone from all nodes but those in `except`. */
  ghost predicate Forgotten(before: map<NodeId, seq<NodeId>>, after: map<NodeId, seq<NodeId>>, del: NodeId,
                            expired: set<NodeId>, except: set<NodeId>)
  {
    before.Keys == after.Keys && forall n <- before ::
      after[n] == if n in except then before[n] else Unreported(before[n], del, expired)
  }

  /** freeClusterNode: the node leaves the table, and its slaves have no known master. */
  function FreeNode(info: map<NodeId, Info>, del: NodeId): map<NodeId, Info> {
    map n | n in info && n != del :: if info[n].slaveOf == Some(del) then info[n].(slaveOf := None) else info[n]
  }

  lemma ClearedUnnamed(names: seq<Option<NodeId>>, n: NodeId, known: set<NodeId>)
    ensures Unnamed(Cleared(names, n, |names|), n)
    ensures AllKnown(names, known) ==> AllKnown(Cleared(names, n, |names|), known - {n})
  {
    forall k | 0 <= k < |names|
      ensures Cleared(names, n, |names|)[k] == if names[k] == Some(n) then None else names[k]
    {
      ClearedAt(names, n, |names|, k);
    }
  }

  lemma ForgottenKnown(before: map<NodeId, seq<NodeId>>, after: map<NodeId, seq<NodeId>>, del: NodeId,
                       expired: set<NodeId>)
    requires ReportsKnown(before) && Forgotten(before, after, del, expired, {del})
    ensures ReportsKnown(after - {del})
  {
    forall n | n in after && n != del
      ensures OncePerSender(after[n]) && del !in after[n] && forall r <- after[n] :: r in before
    {
      UnreportedNamesOthers(before[n], del, expired);
    }
  }

  lemma EmptyStaysEmpty(before: seq<Option<NodeId>>, served: map<NodeId, Served>, after: seq<Option<NodeId>>,
                        served': map<NodeId, Served>, n: NodeId, del: NodeId)
    requires Agree(before, served) && Agree(after, served') && n in served && n in served'
    requires after == Cleared(before, del, |before|)
    ensures served[n].numSlots == 0 ==> served'[n].numSlots == 0
  {
    EmptyMeansUnnamed(before, served, n);
    EmptyMeansUnnamed(after, served', n);
    forall k | 0 <= k < |before|
      ensures after[k] == Some(n) ==> before[k] == Some(n)
    {
      ClearedAt(before, del, |before|, k);
    }
  }

  /** In every valid state, a node that is not in the node table is named by no slot, migrating or
      importing entry, by no failure report and as nobody's master. */
  lemma NothingNamesTheUnknown(c: Cluster, n: NodeId)
    requires c.Valid() && n !in c.info
    ensures Unnamed(c.table, n) && Unnamed(c.migrating, n) && Unnamed(c.importing, n)
    ensures forall m <- c.reports :: n !in c.reports[m]
    ensures forall m <- c.info :: c.info[m].slaveOf != Some(n)
  {
  }

  lemma CurrentMasterIs(c: Cluster)
    requires c.Valid() && c.Following()
    ensures c.info[c.myself].isMaster ==> c.CurrentMaster() == c.myself
    ensures !c.info[c.myself].isMaster ==> c.info[c.myself].slaveOf == Some(c.CurrentMaster())
  {
  }

  /** What the tables of a valid state say of node `n` and slot `j`. */
  lemma ValidMeans(c: Cluster, n: NodeId, j: nat)
    requires c.Valid() && n in c.info && j < CLUSTER_SLOTS
    ensures |c.table| == |c.migrating| == |c.importing| == 16384
    ensures n in c.served && n in c.reports && c.myself in c.info
    ensures c.table[j] == Some(n) <==> j in c.served[n].slots
    ensures c.served[n].numSlots == |c.served[n].slots|
    ensures !c.info[c.myself].isMaster ==> c.table[j] != Some(c.myself) && c.served[c.myself].numSlots == 0
    ensures forall a, b | 0 <= a < b < |c.reports[n]| :: c.reports[n][a] != c.reports[n][b]
  {
    EmptyMeansUnnamed(c.table, c.served, c.myself);
  }

  /** The table with node `n` replaced by nobody, below `upTo`. */
  ghost function Cleared(names: seq<Option<NodeId>>, n: NodeId, upTo: nat): seq<Option<NodeId>>
    requires upTo <= |names|
    ensures |Cleared(names, n, upTo)| == |names|
  {
    if upTo == 0 then names
    else
      var c := Cleared(names, n, upTo - 1);
      if c[upTo - 1] == Some(n) then c[upTo - 1 := None] else c
  }

  lemma {:induction false} ClearedAt(names: seq<Option<NodeId>>, n: NodeId, upTo: nat, k: nat)
    requires upTo <= |names| && k < |names|
    ensures Cleared(names, n, upTo)[k] == if k < upTo && names[k] == Some(n) then None else names[k]
  {
    if upTo > 0 {
      ClearedAt(names, n, upTo - 1, k);
    }
  }

  /** The table with node `from` replaced by node `to`, below `upTo`. */
  ghost function Handed(names: seq<Option<NodeId>>, from: NodeId, to: NodeId, upTo: nat): seq<Option<NodeId>>
    requires upTo <= |names|
    ensures |Handed(names, from, to, upTo)| == |names|
  {
    if upTo == 0 then names
    else if names[upTo - 1] == Some(from) then Handed(names, from, to, upTo - 1)[upTo - 1 := Some(to)]
    else Handed(names, from, to, upTo - 1)
  }

  lemma {:induction false} HandedAt(names: seq<Option<NodeId>>, from: NodeId, to: NodeId, upTo: nat, k: nat)
    requires upTo <= |names| && k < |names|
    ensures Handed(names, from, to, upTo)[k] == if k < upTo && names[k] == Some(from) then Some(to) else names[k]
  {
    if upTo > 0 {
      HandedAt(names, from, to, upTo - 1, k);
    }
  }

  function Replica(info: map<NodeId, Info>, me: NodeId, master: NodeId): map<NodeId, Info>
    requires me in info
  {
    info[me := info[me].(isMaster := false, slaveOf := Some(master))]
  }

  lemma ReplicaKeepsInfo(info: map<NodeId, Info>, me: NodeId, master: NodeId)
    requires MastersKnown(info) && me in info && master in info
    ensures MastersKnown(Replica(info, me, master)) && Replica(info, me, master).Keys == info.Keys
  {
  }

  lemma ClaimGivesNothingToOthers(u: Update, was: map<NodeId, Served>, served: map<NodeId, Served>, n: NodeId)
    requires u.Fits() && Agree(u.before, was) && Agree(u.Table(|u.before|), served)
    requires n in was && n in served && n != u.c.sender
    ensures was[n].numSlots == 0 ==> served[n].numSlots == 0
  {
    var after := u.Table(|u.before|);
    EmptyMeansUnnamed(u.before, was, n);
    EmptyMeansUnnamed(after, served, n);
    forall j | 0 <= j < |after|
      ensures after[j] == Some(n) ==> u.before[j] == Some(n)
    {
      TableAt(u, |u.before|, j);
    }
  }

  lemma NamingKnown(names: seq<Option<NodeId>>, slot: nat, n: NodeId, known: set<NodeId>)
    requires AllKnown(names, known) && slot < |names| && n in known
    ensures AllKnown(names[slot := Some(n)], known)
  {
  }

  lemma PromotionKeepsMasters(info: map<NodeId, Info>, n: NodeId)
    requires MastersKnown(info) && n in info
    ensures MastersKnown(info[n := info[n].(isMaster := true, slaveOf := None)])
  {
  }

  lemma BumpKeepsMasters(info: map<NodeId, Info>, n: NodeId, epoch: nat)
    requires MastersKnown(info) && n in info
    ensures MastersKnown(info[n := info[n].(configEpoch := epoch)])
  {
  }

  ghost predicate NoneImporting(importing: seq<Option<NodeId>>) {
    forall j | 0 <= j < |importing| :: importing[j].None?
  }

  /** The configEpoch recorded for each node. */
  ghost function Epochs(info: map<NodeId, Info>): map<NodeId, nat> {
    map n | n in info :: info[n].configEpoch
  }

  lemma NewcomerAgrees(table: seq<Option<NodeId>>, served: map<NodeId, Served>, n: NodeId)
    requires Agree(table, served) && n !in served
    ensures Agree(table, served[n := Served({}, 0)])
  {
  }

  lemma NewcomerKeeps(served: map<NodeId, Served>, info: map<NodeId, Info>, n: NodeId, me: NodeId)
    requires me in info && served.Keys == info.Keys && n !in info
    ensures info[n := Info(0, true, None)][me] == info[me] && served[n := Served({}, 0)][me] == served[me]
    ensures served[n := Served({}, 0)].Keys == served.Keys + {n}
  {
  }

  lemma MoreAreKnown(names: seq<Option<NodeId>>, known: set<NodeId>, more: set<NodeId>)
    requires AllKnown(names, known) && known <= more
    ensures AllKnown(names, more)
  {
  }

  lemma NewcomerFits(info: map<NodeId, Info>, reports: map<NodeId, seq<NodeId>>, n: NodeId)
    requires MastersKnown(info) && ReportsKnown(reports) && n !in reports
    ensures MastersKnown(info[n := Info(0, true, None)]) && ReportsKnown(reports[n := []])
    ensures info[n := Info(0, true, None)].Keys == info.Keys + {n} && reports[n := []].Keys == reports.Keys + {n}
  {
  }

  lemma ClearedKeepsUnnamed(names: seq<Option<NodeId>>, n: NodeId, m: NodeId)
    ensures Unnamed(names, m) ==> Unnamed(Cleared(names, n, |names|), m)
  {
    forall k | 0 <= k < |names|
      ensures Cleared(names, n, |names|)[k].None? || Cleared(names, n, |names|)[k] == names[k]
    {
      ClearedAt(names, n, |names|, k);
    }
  }

  /** What the node table says after a header: the sender's epoch and role. */
  function Heard(info: map<NodeId, Info>, c: Claim, slaveOf: Option<NodeId>): map<NodeId, Info>
    requires c.sender in info
  {
    var n := info[c.sender];
    var epoch := if n.configEpoch < c.epoch then c.epoch else n.configEpoch;
    var master :=
      if slaveOf.None? then (if n.isMaster then n.slaveOf else None)
      else if slaveOf.value in info then slaveOf else n.slaveOf;
    info[c.sender := Info(epoch, slaveOf.None?, master)]
  }

  lemma HeardIs(info: map<NodeId, Info>, c: Claim, slaveOf: Option<NodeId>)
    requires c.sender in info
    ensures var was, now := info[c.sender], Heard(info, c, slaveOf);
      && now - {c.sender} == info - {c.sender} && c.sender in now
      && now[c.sender].configEpoch == (if c.epoch > was.configEpoch then c.epoch else was.configEpoch)
      && (now[c.sender].isMaster <==> slaveOf.None?)
      && (slaveOf.Some? && slaveOf.value in info ==> now[c.sender].slaveOf == slaveOf)
      && (slaveOf.Some? && slaveOf.value !in info ==> now[c.sender].slaveOf == was.slaveOf)
      && (slaveOf.None? && !was.isMaster ==> now[c.sender].slaveOf.None?)
      && (slaveOf.None? && was.isMaster ==> now[c.sender].slaveOf == was.slaveOf)
  {
  }

  lemma FreedAt(info: map<NodeId, Info>, del: NodeId, n: NodeId)
    requires n in info && n != del
    ensures n in FreeNode(info, del)
    ensures FreeNode(info, del)[n] == if info[n].slaveOf == Some(del) then info[n].(slaveOf := None) else info[n]
  {
  }

  /** What the node table says after the header of a packet that has no other part here. */
  function Raised(info: map<NodeId, Info>, c: Claim): map<NodeId, Info>
    requires c.sender in info
  {
    if info[c.sender].configEpoch < c.epoch then info[c.sender := info[c.sender].(configEpoch := c.epoch)] else info
  }

  lemma RaisedKeepsInfo(info: map<NodeId, Info>, c: Claim, n: NodeId)
    requires MastersKnown(info) && c.sender in info && n in info
    ensures Raised(info, c)[n].isMaster == info[n].isMaster && Raised(info, c)[n].slaveOf == info[n].slaveOf
    ensures MastersKnown(Raised(info, c)) && Raised(info, c).Keys == info.Keys
    ensures Epochs(Raised(info, c)) == Learn(Epochs(info), c)
  {
  }

  lemma HeardKeepsInfo(info: map<NodeId, Info>, c: Claim, slaveOf: Option<NodeId>)
    requires MastersKnown(info) && c.sender in info
    ensures MastersKnown(Heard(info, c, slaveOf))
    ensures Epochs(Heard(info, c, slaveOf)) == Learn(Epochs(info), c)
  {
  }

  lemma HeardKeepsRole(info: map<NodeId, Info>, c: Claim, slaveOf: Option<NodeId>, n: NodeId)
    requires c.sender in info && n in info
    ensures Heard(info, c, slaveOf).Keys == info.Keys
    ensures var i := Heard(info, c, slaveOf)[n];
      if n == c.sender then i.isMaster == slaveOf.None? else i == info[n]
  {
  }

  lemma ReceivedInSteps(v: View, w: View, t: View, c: Claim)
    requires w == v.(epochs := Learn(v.epochs, c))
    ensures t == Bind(w, c) ==> t == Handle(v, Ping(c))
    ensures t == Bind(w, c) ==> (Known(v.epochs, c.sender) < c.epoch ==> t == Handle(v, Report(c)))
  {
  }

  lemma ReplicaFollows(info: map<NodeId, Info>, me: NodeId, master: NodeId)
    requires me in info
    ensures Replica(info, me, master).Keys == info.Keys
    ensures Replica(info, me, master)[me] == Info(info[me].configEpoch, false, Some(master))
  {
  }

  lemma ReplicaKeepsEpochs(info: map<NodeId, Info>, me: NodeId, master: NodeId)
    requires me in info
    ensures Epochs(Replica(info, me, master)) == Epochs(info)
  {
  }

  /** Handling a claim slot by slot is what ClusterClaims calls binding it. */
  lemma HandledIsBound(me: NodeId, u: Update)
    requires u.c.sender != me
    requires u.Fits() && forall k | 0 <= k < |u.before| :: u.before[k].Some? ==> u.before[k].value in u.info.Keys
    ensures NoneImporting(u.importing) ==>
      u.Table(|u.before|) == Bind(View(me, u.before, Epochs(u.info)), u.c).slots
  {
    forall k | 0 <= k < |u.before|
      ensures u.Table(|u.before|)[k] == if u.Moves(k) then Some(u.c.sender) else u.before[k]
    {
      TableAt(u, |u.before|, k);
    }
  }

  lemma {:induction false} NothingMoves(u: Update, upTo: nat)
    requires u.Fits() && upTo <= |u.before| && forall k | 0 <= k < |u.before| :: !u.Moves(k)
    ensures u.Table(upTo) == u.before
  {
    if upTo > 0 {
      NothingMoves(u, upTo - 1);
    }
  }

  /** A claim that equals the sender's recorded bitmap changes nothing, so skipping it is sound. */
  lemma RepeatedIsBound(me: NodeId, u: Update, served: map<NodeId, Served>)
    requires Agree(u.before, served) && u.c.sender in served && served[u.c.sender].slots == u.c.slots
    ensures var v := View(me, u.before, Epochs(u.info)); v == Bind(v, u.c)
    ensures u.Fits() ==> u.Table(|u.before|) == u.before && forall k | 0 <= k < |u.before| :: !u.Moves(k)
  {
    if u.Fits() {
      NothingMoves(u, |u.before|);
    }
  }
}
