/**
  Promotion is crash-safe: an attempt that stops at any failed or ambiguous write can be repeated, also after a
  restart that reads the records back, and the swap of masters happens exactly once.
 */
module TopomPromotion {
  import opened TopomModel

  /** Where a promotion of server `i` of group `g` stands, read off the group. */
  datatype Phase = Untouched | Announced | Committed | Moved | Complete | Elsewhere

  function Rank(p: Phase): nat {
    match p
    case Untouched => 0
    case Announced => 1
    case Committed => 2
    case Moved => 3
    case Complete => 4
    case Elsewhere => 5
  }

  /** What an uninterrupted promotion of server `i` leaves: that server first, nothing else moved, no
      promotion under way and no resync flag. */
  function Promoted(g: Group, i: nat): Group
    requires i < |g.servers|
  {
    g.(servers := Swapped(g.servers, i), promotingIndex := 0, promotingState := Nothing, outOfSync := false)
  }

  function PhaseOf(g: Group, i: nat, now: Group): Phase
    requires i < |g.servers|
  {
    if now == g then Untouched
    else if now == Announcement(g, i) then Announced
    else if now == g.(promotingIndex := i, promotingState := Prepared) then Committed
    else if now.(outOfSync := false) == Promoted(g, i).(promotingState := Finished) then Moved
    else if now == Promoted(g, i) then Complete
    else Elsewhere
  }

  predicate Promotable(g: Group, i: nat) {
    0 < i < |g.servers| && g.promotingState.Nothing? && i == IndexOf(g.servers, g.servers[i])
  }

  /** The group is somewhere on the way from `g` to the promotion of its server `i`. */
  ghost predicate Underway(s: Store, g: Group, i: nat) {
    Promotable(g, i) && g.name in s.groups && !PhaseOf(g, i, s.groups[g.name]).Elsewhere?
  }

  ghost function At(s: Store, g: Group, i: nat): Phase
    requires Underway(s, g, i)
  {
    PhaseOf(g, i, s.groups[g.name])
  }

  /** Memory is on the way, and so is the record if it was `kept` from the start; a promotion that is complete in
      memory is complete in the record. */
  ghost predicate Between(d: Dashboard, g: Group, i: nat, kept: bool) {
    && Underway(d.memory, g, i)
    && (kept ==> Underway(d.records, g, i))
    && (At(d.memory, g, i).Complete? ==> Underway(d.records, g, i) && At(d.records, g, i).Complete?)
  }

  /** At most one group differs. */
  ghost predicate OnlyGroupChanged(s: Store, t: Store, name: Name) {
    t.groups == s.groups || (name in t.groups && t.groups == s.groups[name := t.groups[name]])
  }

  ghost predicate OnlyOneChanged(d: Dashboard, t: Dashboard, name: Name) {
    OnlyGroupChanged(d.memory, t.memory, name) && OnlyGroupChanged(d.records, t.records, name)
  }

  lemma ChangedOn(d: Dashboard, t: Dashboard, u: Dashboard, name: Name)
    requires OnlyOneChanged(d, t, name) && OnlyOneChanged(t, u, name)
    ensures OnlyOneChanged(d, u, name)
  {
  }

  const NO_FAULTS := Faults(true, true, Ok, Ok, Ok, Ok, true, Ok, Ok)

  lemma SwappedIndex(g: Group, i: nat)
    requires i < |g.servers|
    ensures IndexOf(Swapped(g.servers, i), g.servers[i]) == 0
  {
  }

  /** A write of the group edited in place, on to a phase that is not the last. */
  lemma PutAdvances(d: Dashboard, g: Group, i: nat, kept: bool, now: Group, w: Write)
    requires Between(d, g, i, kept) && now.name == g.name
    requires !PhaseOf(g, i, now).Elsewhere? && !PhaseOf(g, i, now).Complete?
    ensures var t := PutGroup(d, now, w);
      Between(t, g, i, kept) && OnlyOneChanged(d, t, g.name) && At(t.memory, g, i) == PhaseOf(g, i, now)
  {
  }

  lemma PutNewCompletes(d: Dashboard, g: Group, i: nat, kept: bool, w: Write)
    requires Between(d, g, i, kept) && At(d.memory, g, i).Moved?
    ensures var t := PutNewGroup(d, Promoted(g, i), w);
      && Between(t, g, i, kept) && OnlyOneChanged(d, t, g.name)
      && At(t.memory, g, i) == if w.Ok? then Complete else Moved
  {
  }

  lemma FlagAdvances(d: Dashboard, g: Group, i: nat, kept: bool, w: Write)
    requires Between(d, g, i, kept)
    ensures var t := FlagSentinel(d, true, w).after;
      Between(t, g, i, kept) && OnlyOneChanged(d, t, g.name) && At(t.memory, g, i) == At(d.memory, g, i)
  {
  }

  /** What an attempt, or the rest of one, may do to the promotion: it stays on its way, goes back never, touches no
      other group, and reports success only when it is complete. */
  ghost predicate Advances(d: Dashboard, o: Outcome, g: Group, i: nat, kept: bool, clean: bool) {
    && Between(d, g, i, kept) && Between(o.after, g, i, kept) && OnlyOneChanged(d, o.after, g.name)
    && Rank(At(o.after.memory, g, i)) >= Rank(At(d.memory, g, i))
    && (o.ok ==> At(o.after.memory, g, i).Complete?) && (clean ==> At(o.after.memory, g, i).Complete?)
  }

  lemma AdvancesOn(d: Dashboard, t: Dashboard, o: Outcome, g: Group, i: nat, kept: bool, clean: bool)
    requires Between(d, g, i, kept) && OnlyOneChanged(d, t, g.name) && Advances(t, o, g, i, kept, clean)
    requires Rank(At(t.memory, g, i)) >= Rank(At(d.memory, g, i))
    ensures Advances(d, o, g, i, kept, clean)
  {
    ChangedOn(d, t, o.after, g.name);
  }

  lemma FinishAdvances(d: Dashboard, g: Group, i: nat, kept: bool, now: Group, f: Faults)
    requires Between(d, g, i, kept) && At(d.memory, g, i).Moved? && PhaseOf(g, i, now).Moved?
    ensures Advances(d, FromFinished(d, now, f), g, i, kept, f.finish.Ok?)
  {
    assert Rebuilt(now) == Promoted(g, i);
    PutNewCompletes(d, g, i, kept, f.finish);
  }

  lemma SwapAdvances(d: Dashboard, g: Group, i: nat, kept: bool, now: Group, f: Faults)
    requires Between(d, g, i, kept) && At(d.memory, g, i).Committed? && PhaseOf(g, i, now).Committed?
    ensures Advances(d, FromFlagged(d, now, i, f), g, i, kept, f.swap.Ok? && f.finish.Ok?)
  {
    var g' := SwappedGroup(now, i);
    var t := PutGroup(d, g', f.swap);
    PutAdvances(d, g, i, kept, g', f.swap);
    if f.swap.Ok? {
      var u := Resynced(t, g', f.synced, f.resync);
      PutAdvances(t, g, i, kept, g'.(outOfSync := true), f.resync);
      FinishAdvances(u, g, i, kept, g', f);
      AdvancesOn(t, u, FromFinished(u, g', f), g, i, kept, f.finish.Ok?);
      AdvancesOn(d, t, FromFinished(u, g', f), g, i, kept, f.finish.Ok?);
    }
  }

  lemma FlaggedAdvances(d: Dashboard, g: Group, i: nat, kept: bool, now: Group, f: Faults)
    requires Between(d, g, i, kept) && At(d.memory, g, i).Committed? && PhaseOf(g, i, now).Committed?
    ensures Advances(d, FromPrepared(d, now, i, f), g, i, kept, f == NO_FAULTS)
  {
    var flagged := FlagSentinel(d, true, f.flag);
    FlagAdvances(d, g, i, kept, f.flag);
    if flagged.ok {
      SwapAdvances(flagged.after, g, i, kept, now, f);
      AdvancesOn(d, flagged.after, FromFlagged(flagged.after, now, i, f), g, i, kept, f.swap.Ok? && f.finish.Ok?);
    }
  }

  lemma CommitAdvances(d: Dashboard, g: Group, i: nat, kept: bool, now: Group, f: Faults)
    requires Between(d, g, i, kept) && At(d.memory, g, i).Announced? && PhaseOf(g, i, now).Announced?
    ensures Advances(d, FromPreparing(d, now, i, f), g, i, kept, f == NO_FAULTS)
  {
    var g' := now.(promotingState := Prepared);
    var t := PutGroup(d, g', f.prepared);
    PutAdvances(d, g, i, kept, g', f.prepared);
    if f.prepared.Ok? {
      FlaggedAdvances(t, g, i, kept, g', f);
      AdvancesOn(d, t, FromPrepared(t, g', i, f), g, i, kept, f == NO_FAULTS);
    }
  }

  lemma AnnounceAdvances(d: Dashboard, g: Group, i: nat, kept: bool, f: Faults)
    requires Between(d, g, i, kept) && At(d.memory, g, i).Untouched?
    ensures Advances(d, FromNothing(d, g, i, f), g, i, kept, f == NO_FAULTS)
  {
    var g' := Announcement(g, i);
    var t := PutGroup(d, g', f.prepare);
    PutAdvances(d, g, i, kept, g', f.prepare);
    if f.prepare.Ok? {
      CommitAdvances(t, g, i, kept, g', f);
      AdvancesOn(d, t, FromPreparing(t, g', i, f), g, i, kept, f == NO_FAULTS);
    }
  }

  /** One attempt, whatever fails, never goes back, touches no other group, reports success only when
      the promotion is complete, and completes it when nothing fails. */
  lemma AttemptAdvances(d: Dashboard, g: Group, i: nat, kept: bool, f: Faults)
    requires Between(d, g, i, kept)
    ensures Advances(d, PromoteServer(d, g.name, g.servers[i], f), g, i, kept, f == NO_FAULTS)
  {
    SwappedIndex(g, i);
    if f.readSentinel && f.readGroups {
      var now := d.memory.groups[g.name];
      match At(d.memory, g, i)
      case Untouched => AnnounceAdvances(d, g, i, kept, f);
      case Announced => CommitAdvances(d, g, i, kept, now, f);
      case Committed => FlaggedAdvances(d, g, i, kept, now, f);
      case Moved => FinishAdvances(d, g, i, kept, now, f);
      case Complete =>
    }
  }

  // ---------- attempts and restarts ----------

  datatype Try = Attempt(faults: Faults) | Restart

  function Tried(d: Dashboard, name: Name, addr: Addr, t: Try): Dashboard {
    match t
    case Attempt(f) => PromoteServer(d, name, addr, f).after
    case Restart => Reloaded(d)
  }

  function AllTried(d: Dashboard, name: Name, addr: Addr, tries: seq<Try>): Dashboard {
    if tries == [] then d else Tried(AllTried(d, name, addr, tries[..|tries| - 1]), name, addr, tries[|tries| - 1])
  }

  lemma {:induction false} TriesStayBetween(d: Dashboard, g: Group, i: nat, kept: bool, tries: seq<Try>)
    requires Between(d, g, i, kept) && (Restart in tries ==> kept)
    ensures var t := AllTried(d, g.name, g.servers[i], tries);
      && Between(t, g, i, kept) && OnlyGroupChanged(d.records, t.records, g.name)
      && (Restart !in tries ==> OnlyGroupChanged(d.memory, t.memory, g.name))
  {
    if tries != [] {
      var prior, last := tries[..|tries| - 1], tries[|tries| - 1];
      assert last in tries && forall x <- prior :: x in tries;
      TriesStayBetween(d, g, i, kept, prior);
      TryStaysBetween(d, AllTried(d, g.name, g.servers[i], prior), g, i, kept, last);
    }
  }

  lemma TryStaysBetween(d: Dashboard, t: Dashboard, g: Group, i: nat, kept: bool, last: Try)
    requires Between(t, g, i, kept) && OnlyGroupChanged(d.records, t.records, g.name) && (last.Restart? ==> kept)
    ensures var u := Tried(t, g.name, g.servers[i], last);
      && Between(u, g, i, kept) && OnlyGroupChanged(d.records, u.records, g.name)
      && (last.Attempt? && OnlyGroupChanged(d.memory, t.memory, g.name) ==>
            OnlyGroupChanged(d.memory, u.memory, g.name))
  {
    if last.Attempt? {
      AttemptAdvances(t, g, i, kept, last.faults);
    }
  }

  /** Promoted in memory and on record. */
  ghost predicate BothPromoted(d: Dashboard, g: Group, i: nat)
    requires i < |g.servers|
  {
    && g.name in d.memory.groups && d.memory.groups[g.name] == Promoted(g, i)
    && g.name in d.records.groups && d.records.groups[g.name] == Promoted(g, i)
  }

  lemma CleanAttemptCompletes(d: Dashboard, t: Dashboard, g: Group, i: nat, kept: bool)
    requires Between(t, g, i, kept) && OnlyGroupChanged(d.records, t.records, g.name)
    ensures var u := PromoteServer(t, g.name, g.servers[i], NO_FAULTS).after;
      && BothPromoted(u, g, i) && u.records.groups == d.records.groups[g.name := Promoted(g, i)]
      && (OnlyGroupChanged(d.memory, t.memory, g.name) ==> u.memory.groups == d.memory.groups[g.name := Promoted(g, i)])
  {
    AttemptAdvances(t, g, i, kept, NO_FAULTS);
  }

  /**
    Main result: any number of attempts with any failures, and of restarts, then an attempt without failures, leave
    memory and record with exactly the group that one undisturbed promotion would have left.  If there are restarts,
    the group must have been on record before.
   */
  lemma PromotionIsCrashSafe(d: Dashboard, g: Group, i: nat, tries: seq<Try>)
    requires Promotable(g, i) && g.name in d.memory.groups && d.memory.groups[g.name] == g
    requires Restart in tries ==> g.name in d.records.groups && d.records.groups[g.name] == g
    ensures var t := AllTried(d, g.name, g.servers[i], tries + [Attempt(NO_FAULTS)]);
      && BothPromoted(t, g, i)
      && t.records.groups == PromoteServer(d, g.name, g.servers[i], NO_FAULTS).after.records.groups
      && (Restart !in tries ==>
            t.memory.groups == PromoteServer(d, g.name, g.servers[i], NO_FAULTS).after.memory.groups)
    ensures multiset(Promoted(g, i).servers) == multiset(g.servers) && Promoted(g, i).Master() == g.servers[i]
  {
    var kept := Restart in tries;
    TriesStayBetween(d, g, i, kept, tries);
    assert (tries + [Attempt(NO_FAULTS)])[..|tries|] == tries;
    CleanAttemptCompletes(d, AllTried(d, g.name, g.servers[i], tries), g, i, kept);
    CleanAttemptCompletes(d, d, g, i, kept);
    SwappedIsPermutation(g.servers, i);
  }

  // ---------- what any attempt is confined to ----------

  /** Servers `0` and `i` of the group may have changed places; its name, ports and birth are the same. */
  ghost predicate SwappedAtMost(g: Group, now: Group, i: nat)
    requires i < |g.servers|
  {
    && now.name == g.name && now.readPort == g.readPort && now.writePort == g.writePort
    && now.createTime == g.createTime
    && (now.servers == g.servers || now.servers == Swapped(g.servers, i))
  }

  ghost predicate ConfinedStore(s: Store, t: Store, g: Group, i: nat)
    requires i < |g.servers|
  {
    t.groups == s.groups
    || (g.name in t.groups && t.groups == s.groups[g.name := t.groups[g.name]] && SwappedAtMost(g, t.groups[g.name], i))
  }

  /** Of memory and of the records at most this group was written, with at most these two servers swapped. */
  ghost predicate Confined(d: Dashboard, t: Dashboard, g: Group, i: nat)
    requires i < |g.servers|
  {
    ConfinedStore(d.memory, t.memory, g, i) && ConfinedStore(d.records, t.records, g, i)
  }

  lemma PutIsConfined(d: Dashboard, r: Dashboard, g: Group, i: nat, now: Group, w: Write)
    requires i < |g.servers| && Confined(r, d, g, i) && SwappedAtMost(g, now, i)
    ensures Confined(r, PutGroup(d, now, w), g, i) && Confined(r, PutNewGroup(d, now, w), g, i)
  {
  }

  lemma SwapIsConfined(d: Dashboard, r: Dashboard, g: Group, i: nat, now: Group, f: Faults)
    requires i < |g.servers| && Confined(r, d, g, i) && SwappedAtMost(g, now, i) && now.servers == g.servers
    ensures Confined(r, FromPrepared(d, now, i, f).after, g, i)
  {
    var t, g' := FlagSentinel(d, true, f.flag).after, SwappedGroup(now, i);
    PutIsConfined(t, r, g, i, g', f.swap);
    PutIsConfined(PutGroup(t, g', f.swap), r, g, i, g'.(outOfSync := true), f.resync);
    PutIsConfined(Resynced(PutGroup(t, g', f.swap), g', f.synced, f.resync), r, g, i, Rebuilt(g'), f.finish);
  }

  lemma CommitIsConfined(d: Dashboard, r: Dashboard, g: Group, i: nat, now: Group, f: Faults)
    requires i < |g.servers| && Confined(r, d, g, i) && SwappedAtMost(g, now, i) && now.servers == g.servers
    ensures Confined(r, FromPreparing(d, now, i, f).after, g, i)
  {
    var g' := now.(promotingState := Prepared);
    PutIsConfined(d, r, g, i, g', f.prepared);
    SwapIsConfined(PutGroup(d, g', f.prepared), r, g, i, g', f);
  }

  /** In any state of the dashboard, whatever fails, a promotion touches one group only and there at most
      swaps the first server with the requested one. */
  lemma PromotesTheRequestedServer(d: Dashboard, name: Name, addr: Addr, f: Faults)
    requires name in d.memory.groups ==> d.memory.groups[name].name == name
    ensures var t := PromoteServer(d, name, addr, f).after;
      t == d || (name in d.memory.groups && addr in d.memory.groups[name].servers
                 && Confined(d, t, d.memory.groups[name], IndexOf(d.memory.groups[name].servers, addr)))
  {
    if f.readSentinel && f.readGroups && name in d.memory.groups && addr in d.memory.groups[name].servers {
      var g := d.memory.groups[name];
      var i := IndexOf(g.servers, addr);
      match g.promotingState
      case Nothing =>
        PutIsConfined(d, d, g, i, Announcement(g, i), f.prepare);
        CommitIsConfined(PutGroup(d, Announcement(g, i), f.prepare), d, g, i, Announcement(g, i), f);
      case Preparing => CommitIsConfined(d, d, g, i, g, f);
      case Prepared => SwapIsConfined(d, d, g, i, g, f);
      case Finished => PutIsConfined(d, d, g, i, Rebuilt(g), f.finish);
      case Other(_) =>
    }
  }
}
