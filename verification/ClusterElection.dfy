/**
  Failover elections of Redis Cluster.

  Slaves of a failed master ask all masters for their vote; a master grants at most one vote per
  epoch; a slave that counts size/2 + 1 acks takes over.  The set of voting masters is fixed and no
  node restarts.  Requests may arrive late, repeatedly and in any order; an ack arrives at most once.
 */
module ClusterElection {
  import opened Options
  import opened Collections

  // ---------- one voter ----------

  datatype Voter = Voter(currentEpoch: nat, lastVoteEpoch: nat)

  /** FAILOVER_AUTH_REQUEST: the header epochs, the claimed slots and the FORCEACK flag. */
  datatype Request = Request(candidate: nat, currentEpoch: nat, configEpoch: nat, claimed: seq<bool>, forceAck: bool)

  /** What the voter's own tables say when the request is handled. */
  datatype Tables = Tables(
    isSlave: bool, numSlots: nat,            // the voter itself
    senderIsMaster: bool,                    // the requesting node
    masterFailed: Option<bool>,              // FAIL flag of the requester's master, if it is known
    sinceVoted: int, nodeTimeout: nat,       // milliseconds
    ownerEpoch: seq<Option<nat>>)            // configEpoch of each slot's present owner

  /** Some claimed slot is served, as far as the voter knows, under a newer configuration. */
  ghost predicate Outdated(q: Request, t: Tables, upTo: nat) {
    exists j :: 0 <= j < upTo && j < |q.claimed| && j < |t.ownerEpoch| && q.claimed[j]
                && t.ownerEpoch[j].Some? && t.ownerEpoch[j].value > q.configEpoch
  }

  ghost predicate Eligible(q: Request, t: Tables) {
    && !t.isSlave && t.numSlots != 0
    && !t.senderIsMaster && t.masterFailed.Some? && (t.masterFailed.value || q.forceAck)
    && t.sinceVoted >= t.nodeTimeout * 2
    && !Outdated(q, t, |t.ownerEpoch|)
  }

  /** The vote is granted exactly when the request is current, no vote was cast in this epoch, and
      the requester is eligible. */
  ghost predicate Grants(v: Voter, q: Request, t: Tables) {
    q.currentEpoch >= v.currentEpoch && v.lastVoteEpoch != q.currentEpoch && Eligible(q, t)
  }

  ghost function AfterRequest(v: Voter, q: Request, t: Tables): Voter {
    var epoch := Max(v.currentEpoch, q.currentEpoch);
    Voter(epoch, if Grants(v, q, t) then epoch else v.lastVoteEpoch)
  }

  class Master {
    var currentEpoch: nat
    var lastVoteEpoch: nat

    ghost function State(): Voter
      reads this
    {
      Voter(currentEpoch, lastVoteEpoch)
    }

    /** Header processing followed by clusterSendFailoverAuthIfNeeded. */
    method HandleAuthRequest(q: Request, t: Tables) returns (granted: bool)
      requires |q.claimed| == |t.ownerEpoch|
      modifies this
      ensures granted <==> Grants(old(State()), q, t)
      ensures granted <==>
                && q.currentEpoch >= old(currentEpoch) && q.currentEpoch != old(lastVoteEpoch)
                && !t.isSlave && t.numSlots > 0
                && !t.senderIsMaster && t.masterFailed.Some? && (t.masterFailed.value || q.forceAck)
                && t.sinceVoted >= 2 * t.nodeTimeout
                && forall j | 0 <= j < |q.claimed| :: q.claimed[j] && t.ownerEpoch[j].Some? ==>
                     t.ownerEpoch[j].value <= q.configEpoch
      ensures currentEpoch == (if q.currentEpoch > old(currentEpoch) then q.currentEpoch else old(currentEpoch))
      ensures lastVoteEpoch == if granted then q.currentEpoch else old(lastVoteEpoch)
      ensures State() == AfterRequest(old(State()), q, t)
    {
      if q.currentEpoch > currentEpoch {
        currentEpoch := q.currentEpoch;
      }
      granted := false;
      if t.isSlave || t.numSlots == 0 { return; }
      if q.currentEpoch < currentEpoch { return; }
      if lastVoteEpoch == currentEpoch { return; }
      if t.senderIsMaster || t.masterFailed.None? || (!t.masterFailed.value && !q.forceAck) { return; }
      if t.sinceVoted < t.nodeTimeout * 2 { return; }
      var j := 0;
      while j < |q.claimed|
        invariant 0 <= j <= |q.claimed|
        invariant !Outdated(q, t, j)
      {
        if q.claimed[j] && !(t.ownerEpoch[j].None? || t.ownerEpoch[j].value <= q.configEpoch) {
          return;
        }
        j := j + 1;
      }
      lastVoteEpoch := currentEpoch;
      granted := true;
    }
  }

  // ---------- one candidate ----------

  datatype Candidate = Candidate(currentEpoch: nat, authEpoch: nat, authSent: bool, authCount: nat)

  /** FAILOVER_AUTH_ACK; `epoch` is the currentEpoch in its header. */
  datatype Ack = Ack(voter: nat, candidate: nat, epoch: nat)

  function Schedule(c: Candidate): Candidate { c.(authSent := false, authCount := 0) }

  function Ask(c: Candidate): Candidate {
    c.(currentEpoch := c.currentEpoch + 1, authEpoch := c.currentEpoch + 1, authSent := true)
  }

  /** An ack is counted when its sender is a master serving slots and its epoch is not older than the candidate's
      election. */
  function CountAck(c: Candidate, a: Ack, serving: bool): Candidate {
    c.(currentEpoch := Max(c.currentEpoch, a.epoch),
       authCount := if serving && a.epoch >= c.authEpoch then c.authCount + 1 else c.authCount)
  }

  /** What clusterHandleSlaveFailover reads when it is called; times in milliseconds. */
  datatype Call = Call(
    time: int, delay: int, rank: nat,                   // clock, 500 plus the random part, rank among the slaves
    isMaster: bool, masterFailed: Option<bool>, masterSlots: nat,
    manualEnd: bool, manualStart: bool,                 // mf_end != 0, mf_can_start
    dataAge: int, size: nat)

  datatype Config = Config(nodeTimeout: nat, validityFactor: nat, pingPeriod: nat)

  function AuthTimeout(g: Config): int { Max(g.nodeTimeout * 2, 2000) }

  /** Data no older than the validity factor allows, not counting the time it took to detect the failure. */
  predicate Fresh(k: Call, g: Config) {
    var age := if k.dataAge > g.nodeTimeout then k.dataAge - g.nodeTimeout else k.dataAge;
    g.validityFactor == 0 || age <= g.pingPeriod * 1000 + g.nodeTimeout * g.validityFactor
  }

  /** The exact threshold. */
  lemma FreshIff(k: Call, g: Config)
    ensures Fresh(k, g) <==>
      g.validityFactor == 0 || k.dataAge <= g.nodeTimeout * (g.validityFactor + 1) + g.pingPeriod * 1000
  {
    var n, f := g.nodeTimeout, g.validityFactor;
    assert n * (f + 1) == n * f + n;
    if f > 0 {
      assert n * f == n * (f - 1) + n;
    }
  }

  class Slave {
    var currentEpoch: nat
    var configEpoch: nat
    var authEpoch: nat
    var authSent: bool
    var authCount: nat
    var authTime: int
    var authRank: nat

    ghost function State(): Candidate
      reads this
    {
      Candidate(currentEpoch, authEpoch, authSent, authCount)
    }

    method HandleAck(a: Ack, serving: bool)
      modifies this`currentEpoch, this`authCount
      ensures State() == CountAck(old(State()), a, serving)
    {
      if a.epoch > currentEpoch {
        currentEpoch := a.epoch;
      }
      if serving && a.epoch >= authEpoch {
        authCount := authCount + 1;
      }
    }

    /** clusterHandleSlaveFailover.  Returns whether the votes suffice, in which case the caller takes over its
        master's slots. */
    method HandleFailover(k: Call, g: Config) returns (won: bool)
      modifies this
      ensures var age, was := k.time - old(authTime), old(State());
        var timeout := if g.nodeTimeout < 1000 then 2000 else g.nodeTimeout * 2;
        var manual := k.manualEnd && k.manualStart;
        var recent := g.validityFactor == 0 ||
                      k.dataAge <= g.nodeTimeout * (g.validityFactor + 1) + g.pingPeriod * 1000;
        var able := !k.isMaster && k.masterFailed.Some? && k.masterSlots > 0 &&
                    (manual || (k.masterFailed.value && recent));
        && (!able ==> unchanged(this) && !won)
        && (able && age > timeout * 2 ==>
              && State() == was.(authSent := false, authCount := 0) && !won
              && (if k.manualEnd then authTime == k.time && authRank == 0
                  else authTime == k.time + k.delay + k.rank * 1000 && authRank == k.rank))
        && (able && age <= timeout * 2 ==>
              if !was.authSent && !k.manualEnd
              then authRank == Max(old(authRank), k.rank) &&
                   authTime - old(authTime) == (authRank - old(authRank)) * 1000
              else unchanged(this`authTime, this`authRank))
        && (able && age <= timeout * 2 && (k.time < authTime || age > timeout) ==> State() == was && !won)
        && (able && authTime <= k.time && age <= timeout && !was.authSent ==>
              State() == Candidate(was.currentEpoch + 1, was.currentEpoch + 1, true, was.authCount) && !won)
        && (able && authTime <= k.time && age <= timeout && was.authSent ==>
              State() == was && (won <==> was.authCount >= k.size / 2 + 1))
      ensures configEpoch == if won && old(configEpoch) < authEpoch then authEpoch else old(configEpoch)
    {
      won := false;
      var manual := k.manualEnd && k.manualStart;
      FreshIff(k, g);
      if k.isMaster || k.masterFailed.None? || (!k.masterFailed.value && !manual) || k.masterSlots == 0 { return; }
      if !manual && !Fresh(k, g) { return; }
      var age := k.time - authTime;
      if age > AuthTimeout(g) * 2 {
        authTime := k.time + k.delay;
        authCount := 0;
        authSent := false;
        authRank := k.rank;
        authTime := authTime + authRank * 1000;
        if k.manualEnd {
          authTime := k.time;
          authRank := 0;
        }
        return;
      }
      if !authSent && !k.manualEnd && k.rank > authRank {
        authTime := authTime + (k.rank - authRank) * 1000;
        authRank := k.rank;
      }
      if k.time < authTime { return; }
      if age > AuthTimeout(g) { return; }
      if !authSent {
        currentEpoch := currentEpoch + 1;
        authEpoch := currentEpoch;
        authSent := true;
        return;
      }
      if authCount >= k.size / 2 + 1 {
        if configEpoch < authEpoch {
          configEpoch := authEpoch;
        }
        won := true;
      }
    }
  }

  // ---------- runs ----------

  datatype Win = Win(candidate: nat, epoch: nat)

  /** `grants` are all acks ever sent, `flying` those not yet delivered or lost. */
  datatype System = System(
    voters: seq<Voter>, candidates: seq<Candidate>,
    requests: set<Request>, grants: set<Ack>, flying: set<Ack>, won: set<Win>)

  datatype Event =
    | RaiseVoter(v: nat, epoch: nat)          // any other packet with a newer currentEpoch
    | RaiseCandidate(c: nat, epoch: nat)
    | DoSchedule(c: nat)
    | DoAsk(c: nat, request: Request)
    | DoVote(v: nat, request: Request, tables: Tables)
    | Arrive(ack: Ack, serving: bool)
    | Lose(ack: Ack)
    | TakeOver(c: nat)

  datatype Run = Start(system: System) | Then(prior: Run, event: Event)

  function Quorum(s: System): nat { |s.voters| / 2 + 1 }

  predicate Enabled(s: System, e: Event) {
    match e
    case RaiseVoter(v, _) => v < |s.voters|
    case RaiseCandidate(c, _) => c < |s.candidates|
    case DoSchedule(c) => c < |s.candidates|
    case DoAsk(c, q) => c < |s.candidates| && !s.candidates[c].authSent
                        && q.candidate == c && q.currentEpoch == s.candidates[c].currentEpoch + 1
    case DoVote(v, q, _) => v < |s.voters| && q in s.requests
    case Arrive(a, _) => a in s.flying && a.candidate < |s.candidates|
    case Lose(a) => a in s.flying
    case TakeOver(c) => c < |s.candidates| && s.candidates[c].authSent && s.candidates[c].authCount >= Quorum(s)
  }

  ghost function Apply(s: System, e: Event): System
    requires Enabled(s, e)
  {
    match e
    case RaiseVoter(v, n) =>
      s.(voters := s.voters[v := s.voters[v].(currentEpoch := Max(s.voters[v].currentEpoch, n))])
    case RaiseCandidate(c, n) =>
      s.(candidates := s.candidates[c := s.candidates[c].(currentEpoch := Max(s.candidates[c].currentEpoch, n))])
    case DoSchedule(c) => s.(candidates := s.candidates[c := Schedule(s.candidates[c])])
    case DoAsk(c, q) => s.(candidates := s.candidates[c := Ask(s.candidates[c])], requests := s.requests + {q})
    case DoVote(v, q, t) =>
      var after := AfterRequest(s.voters[v], q, t);
      var acks := if Grants(s.voters[v], q, t) then {Ack(v, q.candidate, after.currentEpoch)} else {};
      s.(voters := s.voters[v := after], grants := s.grants + acks, flying := s.flying + acks)
    case Arrive(a, serving) =>
      s.(candidates := s.candidates[a.candidate := CountAck(s.candidates[a.candidate], a, serving)],
         flying := s.flying - {a})
    case Lose(a) => s.(flying := s.flying - {a})
    case TakeOver(c) => s.(won := s.won + {Win(c, s.candidates[c].authEpoch)})
  }

  predicate Initial(s: System) {
    && (forall i | 0 <= i < |s.voters| :: s.voters[i].lastVoteEpoch <= s.voters[i].currentEpoch)
    && (forall i | 0 <= i < |s.candidates| ::
          var c := s.candidates[i]; c.authEpoch <= c.currentEpoch && !c.authSent && c.authCount == 0)
    && s.requests == {} && s.grants == {} && s.flying == {} && s.won == {}
  }

  ghost function Last(r: Run): System {
    match r
    case Start(s) => s
    case Then(prior, e) => if Enabled(Last(prior), e) then Apply(Last(prior), e) else Last(prior)
  }

  ghost predicate Legal(r: Run) {
    match r
    case Start(s) => Initial(s)
    case Then(prior, e) => Legal(prior) && Enabled(Last(prior), e)
  }

  // ---------- what every step keeps ----------

  ghost predicate VoterInv(s: System) {
    && (forall i | 0 <= i < |s.voters| :: s.voters[i].lastVoteEpoch <= s.voters[i].currentEpoch)
    && (forall a <- s.grants :: a.voter < |s.voters| && a.epoch <= s.voters[a.voter].lastVoteEpoch)
    && (forall a <- s.grants, b <- s.grants :: a.voter == b.voter && a.epoch == b.epoch ==> a == b)
  }

  ghost predicate CandidateInv(s: System) {
    && (forall i | 0 <= i < |s.candidates| :: s.candidates[i].authEpoch <= s.candidates[i].currentEpoch)
    && (forall q <- s.requests :: q.candidate < |s.candidates| && q.currentEpoch <= s.candidates[q.candidate].authEpoch)
    && (forall a <- s.grants :: a.candidate < |s.candidates| && a.epoch <= s.candidates[a.candidate].authEpoch)
    && s.flying <= s.grants
  }

  lemma StepKeepsVoterInv(s: System, e: Event)
    requires VoterInv(s) && Enabled(s, e)
    ensures VoterInv(Apply(s, e))
    ensures |Apply(s, e).voters| == |s.voters|
  {
  }

  lemma StepKeepsCandidateInv(s: System, e: Event)
    requires CandidateInv(s) && Enabled(s, e)
    ensures CandidateInv(Apply(s, e))
    ensures |Apply(s, e).candidates| == |s.candidates|
  {
  }

  lemma {:induction false} RunKeepsInv(r: Run)
    requires Legal(r)
    ensures VoterInv(Last(r)) && CandidateInv(Last(r))
  {
    if r.Then? {
      RunKeepsInv(r.prior);
      StepKeepsVoterInv(Last(r.prior), r.event);
      StepKeepsCandidateInv(Last(r.prior), r.event);
    }
  }

  /** Each voter's granted epochs strictly increase along every run. */
  lemma GrantedEpochsIncrease(r: Run, a: Ack, earlier: Ack)
    requires Legal(r) && r.Then? && a in Last(r).grants && a !in Last(r.prior).grants
    requires earlier in Last(r.prior).grants && earlier.voter == a.voter
    ensures earlier.epoch < a.epoch
  {
    RunKeepsInv(r.prior);
    RunKeepsInv(r);
    StepKeepsCandidateInv(Last(r.prior), r.event);
    assert earlier in Last(r).grants;
  }

  /** Every ack that is counted carries exactly the candidate's election epoch. */
  lemma CountedAckIsCurrent(r: Run, a: Ack, serving: bool)
    requires Legal(r) && a in Last(r).flying
    ensures a.candidate < |Last(r).candidates|
    ensures var c := Last(r).candidates[a.candidate];
      CountAck(c, a, serving).authCount != c.authCount <==> serving && a.epoch == c.authEpoch
  {
    RunKeepsInv(r);
    assert a in Last(r).grants;
  }

  // ---------- the count an election opens with ----------

  /** Acks counted since the last scheduling of candidate `c`, before it asked. */
  ghost function LateAcks(r: Run, c: nat): nat {
    match r
    case Start(_) => 0
    case Then(prior, e) =>
      if e == DoSchedule(c) then 0
      else if e.Arrive? && e.ack.candidate == c && c < |Last(prior).candidates| && e.serving
           && !Last(prior).candidates[c].authSent && e.ack.epoch >= Last(prior).candidates[c].authEpoch
      then LateAcks(prior, c) + 1 else LateAcks(prior, c)
  }

  /** The count that candidate `c` had when it asked for votes in `epoch`. */
  ghost function OpenedWith(r: Run, c: nat, epoch: nat): nat {
    match r
    case Start(_) => 0
    case Then(prior, e) =>
      var s := Last(prior);
      if e.DoAsk? && e.c == c && c < |s.candidates| && s.candidates[c].currentEpoch + 1 == epoch
      then s.candidates[c].authCount else OpenedWith(prior, c, epoch)
  }

  lemma {:induction false} UnsentCountIsLate(r: Run, c: nat)
    requires Legal(r) && c < |Last(r).candidates|
    ensures !Last(r).candidates[c].authSent ==> Last(r).candidates[c].authCount == LateAcks(r, c)
  {
    if r.Then? {
      RunKeepsInv(r.prior);
      StepKeepsCandidateInv(Last(r.prior), r.event);
      UnsentCountIsLate(r.prior, c);
    }
  }

  /** An election opens with the acks counted between scheduling and asking, though no vote was granted in its epoch
      yet: every one of them belongs to an older election. */
  lemma ElectionOpensWithLateAcks(r: Run, c: nat, q: Request)
    requires Legal(r) && Enabled(Last(r), DoAsk(c, q))
    ensures var asked := Then(r, DoAsk(c, q));
      var epoch := Last(asked).candidates[c].authEpoch;
      VotesFor(Last(asked), c, epoch) == {} && OpenedWith(asked, c, epoch) == LateAcks(r, c)
  {
    RunKeepsInv(r);
    UnsentCountIsLate(r, c);
  }

  // ---------- safety ----------

  /** The voters that granted `c` the epoch, and those whose ack is no longer on its way. */
  ghost function VotesFor(s: System, c: nat, epoch: nat): set<nat> {
    set v | 0 <= v < |s.voters| && Ack(v, c, epoch) in s.grants
  }

  ghost function Received(s: System, c: nat, epoch: nat): set<nat> {
    set v | 0 <= v < |s.voters| && Ack(v, c, epoch) in s.grants - s.flying
  }

  /** With `opening` the count that the present election opened with. */
  ghost predicate CountInv(s: System, i: nat, opening: nat)
    requires i < |s.candidates|
  {
    var c := s.candidates[i];
    c.authSent ==> c.authCount <= |Received(s, i, c.authEpoch)| + opening
  }

  ghost predicate WinInv(r: Run) {
    var s := Last(r);
    forall w <- s.won ::
      && w.candidate < |s.candidates| && w.epoch <= s.candidates[w.candidate].authEpoch
      && Quorum(s) <= |VotesFor(s, w.candidate, w.epoch)| + OpenedWith(r, w.candidate, w.epoch)
  }

  lemma AcksOnlyGrow(s: System, e: Event)
    requires Enabled(s, e) && VoterInv(s) && CandidateInv(s)
    ensures |Apply(s, e).voters| == |s.voters|
    ensures s.grants <= Apply(s, e).grants && s.grants - s.flying <= Apply(s, e).grants - Apply(s, e).flying
  {
  }

  lemma VotesOnlyGrow(s: System, t: System, c: nat, epoch: nat)
    requires |t.voters| == |s.voters| && s.grants <= t.grants && s.grants - s.flying <= t.grants - t.flying
    ensures |VotesFor(s, c, epoch)| <= |VotesFor(t, c, epoch)| && |Received(s, c, epoch)| <= |Received(t, c, epoch)|
    ensures |Received(s, c, epoch)| <= |VotesFor(s, c, epoch)|
  {
    SubsetSize(VotesFor(s, c, epoch), VotesFor(t, c, epoch));
    SubsetSize(Received(s, c, epoch), Received(t, c, epoch));
    SubsetSize(Received(s, c, epoch), VotesFor(s, c, epoch));
  }

  lemma ArrivalCounts(s: System, a: Ack, serving: bool, opening: nat)
    requires VoterInv(s) && CandidateInv(s) && a in s.flying
    ensures Enabled(s, Arrive(a, serving))
    ensures CountInv(s, a.candidate, opening) ==> CountInv(Apply(s, Arrive(a, serving)), a.candidate, opening)
  {
    var t := Apply(s, Arrive(a, serving));
    var epoch := s.candidates[a.candidate].authEpoch;
    if a.epoch == epoch {
      assert Received(t, a.candidate, epoch) == Received(s, a.candidate, epoch) + {a.voter};
      assert a.voter !in Received(s, a.candidate, epoch);
    } else {
      assert Received(t, a.candidate, epoch) == Received(s, a.candidate, epoch);
    }
  }

  lemma StepKeepsCount(s: System, e: Event, i: nat, opening: nat)
    requires VoterInv(s) && CandidateInv(s) && Enabled(s, e) && i < |s.candidates| && CountInv(s, i, opening)
    ensures |Apply(s, e).candidates| == |s.candidates|
    ensures CountInv(Apply(s, e), i, if e.DoAsk? && e.c == i then s.candidates[i].authCount else opening)
  {
    if e.Arrive? && e.ack.candidate == i {
      ArrivalCounts(s, e.ack, e.serving, opening);
    } else {
      AcksOnlyGrow(s, e);
      VotesOnlyGrow(s, Apply(s, e), i, s.candidates[i].authEpoch);
    }
  }

  /** Votes granted in the election's epoch, and the count it opened with, bound the count of every candidate. */
  lemma {:induction false} CountIsEarned(r: Run, i: nat)
    requires Legal(r) && i < |Last(r).candidates|
    ensures CountInv(Last(r), i, OpenedWith(r, i, Last(r).candidates[i].authEpoch))
  {
    if r.Then? {
      var s := Last(r.prior);
      RunKeepsInv(r.prior);
      StepKeepsCandidateInv(s, r.event);
      CountIsEarned(r.prior, i);
      StepKeepsCount(s, r.event, i, OpenedWith(r.prior, i, s.candidates[i].authEpoch));
    }
  }

  /** A winner of an epoch holds votes of a majority in that epoch, less the count its election opened with. */
  lemma {:induction false} WinnersHaveMajorities(r: Run)
    requires Legal(r)
    ensures WinInv(r)
  {
    if r.Then? {
      var s, t := Last(r.prior), Last(r);
      WinnersHaveMajorities(r.prior);
      RunKeepsInv(r.prior);
      AcksOnlyGrow(s, r.event);
      forall w <- t.won
        ensures w.candidate < |t.candidates| && w.epoch <= t.candidates[w.candidate].authEpoch
        ensures Quorum(t) <= |VotesFor(t, w.candidate, w.epoch)| + OpenedWith(r, w.candidate, w.epoch)
      {
        VotesOnlyGrow(s, t, w.candidate, w.epoch);
        if w !in s.won {
          CountIsEarned(r.prior, w.candidate);
        }
      }
    }
  }

  lemma {:induction false} RangeSize(n: nat, part: set<nat>)
    requires forall v <- part :: v < n
    ensures |part| <= n
  {
    if n > 0 {
      RangeSize(n - 1, part - {n - 1});
    }
  }

  lemma VotesAreApart(s: System, c: nat, d: nat, epoch: nat)
    requires VoterInv(s) && c != d
    ensures VotesFor(s, c, epoch) !! VotesFor(s, d, epoch)
  {
    forall v <- VotesFor(s, c, epoch)
      ensures Ack(v, d, epoch) !in s.grants
    {
      assert Ack(v, c, epoch) in s.grants;
    }
  }

  /** Two different slaves win one epoch only if the counts that their elections opened with make up for the overlap
      of two majorities. */
  lemma TwoWinnersNeedLateAcks(r: Run, a: Win, b: Win)
    requires Legal(r) && a in Last(r).won && b in Last(r).won && a.epoch == b.epoch && a != b
    ensures OpenedWith(r, a.candidate, a.epoch) + OpenedWith(r, b.candidate, b.epoch) >=
              2 * Quorum(Last(r)) - |Last(r).voters|
  {
    var s := Last(r);
    WinnersHaveMajorities(r);
    RunKeepsInv(r);
    var forA, forB := VotesFor(s, a.candidate, a.epoch), VotesFor(s, b.candidate, b.epoch);
    VotesAreApart(s, a.candidate, b.candidate, a.epoch);
    RangeSize(|s.voters|, forA + forB);
    assert |forA + forB| == |forA| + |forB|;
  }

  /** Every election of the run opened with a count of zero. */
  ghost predicate OpensEmpty(r: Run) {
    match r
    case Start(_) => true
    case Then(prior, e) =>
      OpensEmpty(prior) &&
      (e.DoAsk? && e.c < |Last(prior).candidates| ==> Last(prior).candidates[e.c].authCount == 0)
  }

  lemma {:induction false} EmptyOpening(r: Run, c: nat, epoch: nat)
    requires OpensEmpty(r)
    ensures OpenedWith(r, c, epoch) == 0
  {
    if r.Then? {
      EmptyOpening(r.prior, c, epoch);
    }
  }

  /** Election safety: when elections open with a count of zero, at most one slave wins any epoch. */
  lemma ElectionSafety(r: Run, a: Win, b: Win)
    requires Legal(r) && OpensEmpty(r) && a in Last(r).won && b in Last(r).won && a.epoch == b.epoch
    ensures a == b
  {
    if a != b {
      EmptyOpening(r, a.candidate, a.epoch);
      EmptyOpening(r, b.candidate, b.epoch);
      TwoWinnersNeedLateAcks(r, a, b);
    }
  }

  // ---------- the bound is met ----------

  /** What slaves 0 and 1 opened epoch 2 with. */
  ghost function Openings(r: Run): (nat, nat) { (OpenedWith(r, 0, 2), OpenedWith(r, 1, 2)) }

  lemma Extend(r: Run, s: System, e: Event) returns (longer: Run)
    requires Legal(r) && Last(r) == s && Enabled(s, e) && !e.DoAsk?
    ensures Legal(longer) && Last(longer) == Apply(s, e) && Openings(longer) == Openings(r)
  {
    longer := Then(r, e);
  }

  lemma ExtendAsk(r: Run, s: System, c: nat) returns (longer: Run)
    requires Legal(r) && Last(r) == s && c < |s.candidates| && !s.candidates[c].authSent
    ensures var d := s.candidates[c];
      && Legal(longer) && Last(longer) == Apply(s, DoAsk(c, Asking(c, d.currentEpoch + 1)))
      && Openings(longer) == (if c == 0 && d.currentEpoch == 1 then d.authCount else OpenedWith(r, 0, 2),
                              if c == 1 && d.currentEpoch == 1 then d.authCount else OpenedWith(r, 1, 2))
  {
    longer := Then(r, DoAsk(c, Asking(c, s.candidates[c].currentEpoch + 1)));
  }

  function Asking(c: nat, epoch: nat): Request { Request(c, epoch, 0, [], false) }

  /** A voter that may grant a vote in `epoch`. */
  predicate Free(v: Voter, epoch: nat) { v.currentEpoch <= epoch && v.lastVoteEpoch < epoch }

  /** One voter grants its vote and the ack is counted. */
  lemma CollectOne(before: Run, s: System, c: nat, v: nat) returns (r: Run)
    requires Legal(before) && Last(before) == s && c < |s.candidates| && v < |s.voters|
    requires var d := s.candidates[c];
      d.authEpoch == d.currentEpoch && Asking(c, d.authEpoch) in s.requests && Free(s.voters[v], d.authEpoch)
    ensures Legal(r) && Openings(r) == Openings(before)
    ensures var d, t := s.candidates[c], Last(r);
      && t.candidates == s.candidates[c := d.(authCount := d.authCount + 1)]
      && t.voters == s.voters[v := Voter(d.authEpoch, d.authEpoch)]
      && t.requests == s.requests && t.won == s.won
  {
    var d, t := s.candidates[c], Tables(false, 1, false, Some(true), 0, 0, []);
    var q, a := Asking(c, d.authEpoch), Ack(v, c, d.authEpoch);
    assert Eligible(q, t) && Grants(s.voters[v], q, t);
    r := Extend(before, s, DoVote(v, q, t));
    r := Extend(r, Last(r), Arrive(a, true));
  }

  /** Exactly the voters from `lo` to `hi` have voted in `epoch`. */
  ghost predicate Voted(was: seq<Voter>, now: seq<Voter>, lo: nat, hi: nat, epoch: nat) {
    |now| == |was| && forall v | 0 <= v < |was| :: now[v] == if lo <= v < hi then Voter(epoch, epoch) else was[v]
  }

  lemma VotedNext(was: seq<Voter>, mid: seq<Voter>, now: seq<Voter>, lo: nat, hi: nat, epoch: nat)
    requires lo < hi <= |was| && Voted(was, mid, lo, hi - 1, epoch) && now == mid[hi - 1 := Voter(epoch, epoch)]
    ensures Voted(was, now, lo, hi, epoch)
  {
  }

  /** The voters from `lo` to `hi` do so one after the other. */
  lemma {:induction false} Collect(before: Run, s: System, c: nat, lo: nat, hi: nat) returns (r: Run)
    requires Legal(before) && Last(before) == s && c < |s.candidates| && lo <= hi <= |s.voters|
    requires var d := s.candidates[c]; d.authEpoch == d.currentEpoch && Asking(c, d.authEpoch) in s.requests
    requires forall v | lo <= v < hi :: Free(s.voters[v], s.candidates[c].authEpoch)
    ensures Legal(r) && Openings(r) == Openings(before)
    ensures var d, t := s.candidates[c], Last(r);
      && t.candidates == s.candidates[c := d.(authCount := d.authCount + hi - lo)]
      && t.requests == s.requests && t.won == s.won && Voted(s.voters, t.voters, lo, hi, d.authEpoch)
    decreases hi - lo
  {
    if lo == hi {
      r := before;
    } else {
      r := Collect(before, s, c, lo, hi - 1);
      var mid, epoch := Last(r), s.candidates[c].authEpoch;
      r := CollectOne(r, mid, c, hi - 1);
      VotedNext(s.voters, mid.voters, Last(r).voters, lo, hi, epoch);
    }
  }

  /** Slave 0 asks in epoch 1, schedules a new election, and only then gets the acks of `late` voters. */
  lemma GatherLate(n: nat, late: nat) returns (r: Run)
    requires late <= n
    ensures Legal(r) && OpenedWith(r, 1, 2) == 0
    ensures var s, other := Last(r), Candidate(0, 0, false, 0);
      && |s.voters| == n && s.candidates == [Candidate(1, 1, false, late), other]
      && forall v | 0 <= v < n :: Free(s.voters[v], 2)
  {
    var other := Candidate(0, 0, false, 0);
    var s := System(seq(n, _ => Voter(0, 0)), [other, other], {}, {}, {}, {});
    r := ExtendAsk(Start(s), s, 0);
    r := Extend(r, Last(r), DoSchedule(0));
    r := Collect(r, Last(r), 0, 0, late);
  }

  /** Slave 0 opens epoch 2 holding `late` acks of epoch 1, gets `due` votes in it, and wins. */
  lemma StaleWin(n: nat, late: nat, due: nat) returns (r: Run)
    requires late <= n && due <= n && late + due == n / 2 + 1
    ensures Legal(r) && OpenedWith(r, 0, 2) == late && OpenedWith(r, 1, 2) == 0
    ensures var s := Last(r);
      && |s.voters| == n && |s.candidates| == 2 && s.candidates[1] == Candidate(0, 0, false, 0) && Win(0, 2) in s.won
      && forall v | due <= v < n :: Free(s.voters[v], 2)
  {
    r := GatherLate(n, late);
    r := ExtendAsk(r, Last(r), 0);
    r := Collect(r, Last(r), 0, 0, due);
    r := Extend(r, Last(r), TakeOver(0));
  }

  /** Slave 1 asks in epoch 2, gets the votes of the voters from `lo` on, and wins too. */
  lemma HonestWin(before: Run, s: System, lo: nat) returns (r: Run)
    requires Legal(before) && Last(before) == s && |s.candidates| == 2 && s.candidates[1] == Candidate(0, 0, false, 0)
    requires lo + |s.voters| / 2 + 1 == |s.voters| && forall v | lo <= v < |s.voters| :: Free(s.voters[v], 2)
    ensures Legal(r) && |Last(r).voters| == |s.voters| && Last(r).won == s.won + {Win(1, 2)}
    ensures OpenedWith(r, 0, 2) == OpenedWith(before, 0, 2) && OpenedWith(r, 1, 2) == 0
  {
    r := Extend(before, s, RaiseCandidate(1, 1));
    r := ExtendAsk(r, Last(r), 1);
    r := Collect(r, Last(r), 1, lo, |s.voters|);
    r := Extend(r, Last(r), TakeOver(1));
  }

  /** For any number of voters, two slaves win one epoch when the counts that their elections opened with just reach
      the bound: one late ack if the voters are odd in number, two if they are even. */
  lemma LateAcksLetTwoWin(n: nat) returns (r: Run)
    requires n > 0
    ensures Legal(r) && |Last(r).voters| == n && Win(0, 2) in Last(r).won && Win(1, 2) in Last(r).won
    ensures OpenedWith(r, 0, 2) + OpenedWith(r, 1, 2) == 2 * Quorum(Last(r)) - n
  {
    var quorum := n / 2 + 1;
    r := StaleWin(n, 2 * quorum - n, n - quorum);
    r := HonestWin(r, Last(r), n - quorum);
  }
}
