/**
  Config-epoch collision resolution of Redis Cluster.

  Masters publish (currentEpoch, configEpoch) in every packet header.  A master that sees another
  master with its own configEpoch and a greater name takes currentEpoch + 1.  Packets may be late,
  repeated and reordered without limit: the network is the set of all packets ever sent.
 */
module ClusterEpoch {
  import opened Collections
  import opened Words

  /** One node's knowledge: its currentEpoch and the configEpoch of every node it has in its table.
      Nodes are numbered in the memcmp order of their 40-byte names. */
  datatype Node = Node(currentEpoch: nat, configEpoch: seq<nat>)

  datatype Packet =
    | Ping(sender: nat, currentEpoch: nat, configEpoch: nat)
    | Update(sender: nat, currentEpoch: nat, configEpoch: nat, about: nat, aboutEpoch: nat)
    | Other(sender: nat, currentEpoch: nat, configEpoch: nat)

  /** Header processing: both epochs only ever rise. */
  function Header(n: Node, p: Packet): Node
    requires p.sender < |n.configEpoch|
  {
    Node(Max(n.currentEpoch, p.currentEpoch),
         n.configEpoch[p.sender := Max(n.configEpoch[p.sender], p.configEpoch)])
  }

  function Collide(me: nat, n: Node, sender: nat): Node
    requires me < |n.configEpoch| && sender < |n.configEpoch|
  {
    if n.configEpoch[sender] != n.configEpoch[me] || sender <= me then n
    else Node(n.currentEpoch + 1, n.configEpoch[me := n.currentEpoch + 1])
  }

  /** The effect of one packet on the epochs of node `me`, all nodes being masters. */
  function Receive(me: nat, n: Node, p: Packet): Node
    requires me < |n.configEpoch|
  {
    if p.sender >= |n.configEpoch| then n
    else
      var h := Header(n, p);
      match p
      case Ping(sender, _, epoch) => if epoch == h.configEpoch[me] then Collide(me, h, sender) else h
      case Update(_, _, _, about, epoch) =>
        if about < |h.configEpoch| && h.configEpoch[about] < epoch
        then h.(configEpoch := h.configEpoch[about := epoch]) else h
      case Other(_, _, _) => h
  }

  /** Whatever the packet, its header raises the receiver's currentEpoch and the sender's epoch to what it says, if they
      are below; an UPDATE does the same for the node it is about; and a ping that leaves sender and receiver with one
      epoch, the receiver having the smaller name, moves the receiver to the next currentEpoch. */
  lemma ReceivedKnowledge(me: nat, n: Node, p: Packet, j: nat)
    requires me < |n.configEpoch| && j < |n.configEpoch|
    ensures p.sender >= |n.configEpoch| ==> Receive(me, n, p) == n
    ensures p.sender < |n.configEpoch| ==>
      var r, was := Receive(me, n, p), n.configEpoch[j];
      var heard := if j == p.sender && p.configEpoch > was then p.configEpoch else was;
      var mine := if me == p.sender && p.configEpoch > n.configEpoch[me] then p.configEpoch else n.configEpoch[me];
      var current := if p.currentEpoch > n.currentEpoch then p.currentEpoch else n.currentEpoch;
      var theirs := if p.configEpoch > n.configEpoch[p.sender] then p.configEpoch else n.configEpoch[p.sender];
      var collides := p.Ping? && p.sender > me && p.configEpoch == mine && theirs == mine;
      && |r.configEpoch| == |n.configEpoch|
      && r.currentEpoch == (if collides then current + 1 else current)
      && r.configEpoch[j] ==
           if collides && j == me then current + 1
           else if p.Update? && j == p.about && p.aboutEpoch > heard then p.aboutEpoch else heard
  {
  }

  /** The epochs of one running server, updated in place by its packet handler. */
  class Server {
    const myself: nat
    var currentEpoch: nat
    var configEpoch: seq<nat>

    ghost predicate Valid()
      reads this
    {
      myself < |configEpoch|
    }

    ghost function View(): Node
      reads this
    {
      Node(currentEpoch, configEpoch)
    }

    constructor (me: nat, known: seq<nat>, epoch: nat)
      requires me < |known|
      ensures Valid() && myself == me && View() == Node(epoch, known)
    {
      myself, currentEpoch, configEpoch := me, epoch, known;
    }

    method HandleConfigEpochCollision(sender: nat)
      requires Valid() && sender < |configEpoch|
      modifies this
      ensures Valid() && View() == Collide(myself, old(View()), sender)
    {
      if configEpoch[sender] != configEpoch[myself] {
        return;
      }
      if sender <= myself {
        return;
      }
      currentEpoch := currentEpoch + 1;
      configEpoch := configEpoch[myself := currentEpoch];
    }

    method ProcessPacket(p: Packet)
      requires Valid()
      modifies this
      ensures Valid() && View() == Receive(myself, old(View()), p)
    {
      if p.sender >= |configEpoch| {
        return;
      }
      if p.currentEpoch > currentEpoch {
        currentEpoch := p.currentEpoch;
      }
      if p.configEpoch > configEpoch[p.sender] {
        configEpoch := configEpoch[p.sender := p.configEpoch];
      }
      assert View() == Header(old(View()), p);
      if p.Ping? && p.configEpoch == configEpoch[myself] {
        HandleConfigEpochCollision(p.sender);
      } else if p.Update? && p.about < |configEpoch| && configEpoch[p.about] < p.aboutEpoch {
        configEpoch := configEpoch[p.about := p.aboutEpoch];
      }
    }
  }

  // ---------- runs of the whole cluster ----------

  /** Every node's knowledge, and every packet ever sent. */
  datatype System = System(nodes: seq<Node>, sent: set<Packet>)

  datatype Event = Send(packet: Packet) | Deliver(to: nat, packet: Packet)

  /** A run is a start followed by events, each taken in the state that the earlier ones led to. */
  datatype Run = Start(system: System) | Then(prior: Run, event: Event)

  predicate Full(s: System) {
    forall i | 0 <= i < |s.nodes| :: |s.nodes[i].configEpoch| == |s.nodes|
  }

  /** What node `i` believes to be the configEpoch of node `j`. */
  function Epoch(s: System, i: nat, j: nat): nat
    requires Full(s) && i < |s.nodes| && j < |s.nodes|
  {
    s.nodes[i].configEpoch[j]
  }

  /** What clusterBuildMessageHdr and clusterSendUpdate put in a packet. */
  predicate CanSend(s: System, p: Packet)
    requires Full(s)
  {
    && p.sender < |s.nodes|
    && p.currentEpoch == s.nodes[p.sender].currentEpoch
    && p.configEpoch == Epoch(s, p.sender, p.sender)
    && (p.Update? ==> p.about < |s.nodes| && p.aboutEpoch == Epoch(s, p.sender, p.about))
  }

  predicate Enabled(s: System, e: Event)
    requires Full(s)
  {
    match e
    case Send(p) => CanSend(s, p)
    case Deliver(to, p) => to < |s.nodes| && p in s.sent
  }

  function Apply(s: System, e: Event): (t: System)
    requires Full(s) && Enabled(s, e)
    ensures Full(t) && |t.nodes| == |s.nodes|
  {
    match e
    case Send(p) => s.(sent := s.sent + {p})
    case Deliver(to, p) => s.(nodes := s.nodes[to := Receive(to, s.nodes[to], p)])
  }

  /** Nobody knows more about a node than the node, and nobody's currentEpoch is behind. */
  ghost predicate EpochInv(s: System) {
    && Full(s)
    && (forall i, j | 0 <= i < |s.nodes| && 0 <= j < |s.nodes| ::
          Epoch(s, i, j) <= s.nodes[i].currentEpoch && Epoch(s, i, j) <= Epoch(s, j, j))
    && (forall p <- s.sent :: PacketInv(s, p))
  }

  ghost predicate PacketInv(s: System, p: Packet)
    requires Full(s)
  {
    && p.sender < |s.nodes| && p.configEpoch <= p.currentEpoch && p.configEpoch <= Epoch(s, p.sender, p.sender)
    && (p.Update? ==>
          && p.about < |s.nodes|
          && p.aboutEpoch <= p.currentEpoch && p.aboutEpoch <= Epoch(s, p.about, p.about))
  }

  /** The state after the last event of a run whose every event was possible. */
  ghost predicate Legal(r: Run) {
    match r
    case Start(s) => EpochInv(s) && s.sent == {}
    case Then(prior, e) => Legal(prior) && Full(Last(prior)) && Enabled(Last(prior), e)
  }

  function Last(r: Run): System {
    match r
    case Start(s) => s
    case Then(prior, e) =>
      var s := Last(prior);
      if Full(s) && Enabled(s, e) then Apply(s, e) else s
  }

  /** The number of nodes. */
  function Size(r: Run): nat { |Last(r).nodes| }

  /** Receiving raises epochs only, and a node's own only on a ping that shows a collision. */
  lemma ReceiveEffect(s: System, to: nat, p: Packet, j: nat)
    requires EpochInv(s) && to < |s.nodes| && j < |s.nodes| && PacketInv(s, p)
    ensures var n, r := s.nodes[to], Receive(to, s.nodes[to], p);
      && |r.configEpoch| == |n.configEpoch| == |s.nodes|
      && n.currentEpoch <= r.currentEpoch
      && n.configEpoch[j] <= r.configEpoch[j] <= r.currentEpoch
      && (j != to ==> r.configEpoch[j] <= Epoch(s, j, j))
      && (r.configEpoch[to] == n.configEpoch[to]
          || (p.Ping? && to < p.sender && p.configEpoch == n.configEpoch[to] && n.configEpoch[to] < r.configEpoch[to]))
  {
    assert Epoch(s, to, to) <= s.nodes[to].currentEpoch;
    assert Epoch(s, to, j) <= s.nodes[to].currentEpoch;
    assert Epoch(s, to, p.sender) <= s.nodes[to].currentEpoch;
  }

  lemma StepKeepsEpochInv(s: System, e: Event)
    requires EpochInv(s) && Enabled(s, e)
    ensures EpochInv(Apply(s, e))
  {
    var t := Apply(s, e);
    if e.Deliver? {
      forall j | 0 <= j < |s.nodes|
        ensures Epoch(s, j, j) <= Epoch(t, j, j) && Epoch(t, e.to, j) <= t.nodes[e.to].currentEpoch
        ensures j != e.to ==> Epoch(t, e.to, j) <= Epoch(s, j, j)
      {
        ReceiveEffect(s, e.to, e.packet, j);
      }
    }
    forall i, j | 0 <= i < |t.nodes| && 0 <= j < |t.nodes|
      ensures Epoch(t, i, j) <= t.nodes[i].currentEpoch && Epoch(t, i, j) <= Epoch(t, j, j)
    {
      if e.Send? || i != e.to {
        assert Epoch(t, i, j) == Epoch(s, i, j) <= Epoch(s, j, j) <= Epoch(t, j, j);
      }
    }
  }

  lemma {:induction false} RunKeepsEpochInv(r: Run)
    requires Legal(r)
    ensures EpochInv(Last(r))
  {
    if r.Then? {
      RunKeepsEpochInv(r.prior);
      StepKeepsEpochInv(Last(r.prior), r.event);
    }
  }

  // ---------- counting the moves ----------

  /** The configEpoch node `p` assigned to itself. */
  function Own(r: Run, p: nat): nat
    requires Full(Last(r)) && p < Size(r)
  {
    Epoch(Last(r), p, p)
  }

  /** How often node `p` gave itself a new configEpoch. */
  ghost function Moves(r: Run, p: nat): nat
    requires Legal(r) && p < Size(r)
  {
    if r.Start? then 0
    else
      RunKeepsEpochInv(r);
      Moves(r.prior, p) + if Own(r.prior, p) != Own(r, p) then 1 else 0
  }

  /** Every configEpoch node `p` ever had. */
  ghost function Held(r: Run, p: nat): set<nat>
    requires Legal(r) && p < Size(r)
  {
    RunKeepsEpochInv(r);
    if r.Start? then {Own(r, p)} else Held(r.prior, p) + {Own(r, p)}
  }

  /** Every configEpoch that some node numbered `p` or more ever had. */
  ghost function HeldFrom(r: Run, p: nat): set<nat>
    requires Legal(r) && p <= Size(r)
    decreases Size(r) - p
  {
    if p == Size(r) then {} else Held(r, p) + HeldFrom(r, p + 1)
  }

  lemma HeldFromGrows(r: Run, p: nat)
    requires Legal(r) && r.Then? && p <= Size(r)
    ensures HeldFrom(r.prior, p) <= HeldFrom(r, p)
    decreases Size(r) - p
  {
  }

  lemma HeldFromHas(r: Run, p: nat, q: nat)
    requires Legal(r) && p <= q < Size(r)
    ensures Held(r, q) <= HeldFrom(r, p)
    decreases q - p
  {
  }

  lemma {:induction false} OwnIsGreatest(r: Run, p: nat)
    requires Legal(r) && p < Size(r)
    ensures EpochInv(Last(r)) && Own(r, p) in Held(r, p)
    ensures forall e <- Held(r, p) :: e <= Own(r, p)
    ensures |Held(r, p)| == Moves(r, p) + 1
    ensures r.Then? ==> EpochInv(Last(r.prior)) && Own(r.prior, p) <= Own(r, p)
  {
    RunKeepsEpochInv(r);
    if r.Then? {
      OwnIsGreatest(r.prior, p);
      if r.event.Deliver? {
        ReceiveEffect(Last(r.prior), r.event.to, r.event.packet, p);
      }
    }
  }

  lemma {:induction false} SentEpochWasHeld(r: Run, m: Packet)
    requires Legal(r) && m in Last(r).sent
    ensures m.sender < Size(r) && m.configEpoch in Held(r, m.sender)
  {
    RunKeepsEpochInv(r);
    if r.Then? {
      if m in Last(r.prior).sent {
        SentEpochWasHeld(r.prior, m);
      } else {
        OwnIsGreatest(r, m.sender);
      }
    }
  }

  /** A past epoch of a node was also held by a node of greater name: that is what made it move. */
  lemma {:induction false} PastEpochsWereDisplaced(r: Run, p: nat)
    requires Legal(r) && p < Size(r)
    ensures EpochInv(Last(r)) && Held(r, p) <= {Own(r, p)} + HeldFrom(r, p + 1)
  {
    RunKeepsEpochInv(r);
    if r.Then? {
      PastEpochsWereDisplaced(r.prior, p);
      HeldFromGrows(r, p + 1);
      if Own(r, p) != Own(r.prior, p) {
        var m := r.event.packet;
        ReceiveEffect(Last(r.prior), p, m, p);
        SentEpochWasHeld(r.prior, m);
        HeldFromHas(r, p + 1, m.sender);
        assert Own(r.prior, p) in HeldFrom(r, p + 1);
      }
    }
  }

  // ---------- the bound ----------

  lemma HeldBeyondPresent(r: Run, p: nat)
    requires Legal(r) && p < Size(r)
    ensures |Held(r, p)| <= |HeldFrom(r, p + 1)| + 1
    ensures |HeldFrom(r, p)| <= 2 * |HeldFrom(r, p + 1)| + 1
  {
    PastEpochsWereDisplaced(r, p);
    SubsetSize(Held(r, p), {Own(r, p)} + HeldFrom(r, p + 1));
    UnionSize({Own(r, p)}, HeldFrom(r, p + 1));
    UnionSize(Held(r, p), HeldFrom(r, p + 1));
  }

  /** The nodes from `p` upwards together held fewer than 2^(their number) epochs. */
  lemma {:induction false} UpperNodesHeldFew(r: Run, p: nat)
    requires Legal(r) && p <= Size(r)
    ensures |HeldFrom(r, p)| <= Pow2(Size(r) - p) - 1
    decreases Size(r) - p
  {
    if p < Size(r) {
      UpperNodesHeldFew(r, p + 1);
      HeldBeyondPresent(r, p);
    }
  }

  /** Main bound: the k-th greatest of n names is number n - k, and moves at most 2^(k-1) - 1 times,
      whatever the network loses, repeats, delays or reorders. */
  lemma MoveBound(r: Run, k: nat)
    requires Legal(r) && 1 <= k <= Size(r)
    ensures Moves(r, Size(r) - k) <= Pow2(k - 1) - 1
  {
    OwnIsGreatest(r, Size(r) - k);
    HeldBeyondPresent(r, Size(r) - k);
    UpperNodesHeldFew(r, Size(r) - k + 1);
  }

  ghost function AllMoves(r: Run, k: nat): nat
    requires Legal(r) && k <= Size(r)
  {
    if k == 0 then 0 else Moves(r, Size(r) - k) + AllMoves(r, k - 1)
  }

  /** So no run, however long, has more than 2^n - 1 - n moves: resolution always stops. */
  lemma {:induction false} ResolutionStops(r: Run, k: nat)
    requires Legal(r) && k <= Size(r)
    ensures AllMoves(r, k) <= Pow2(k) - 1 - k
  {
    if k > 0 {
      ResolutionStops(r, k - 1);
      MoveBound(r, k);
    }
  }

  // ---------- where it stops ----------

  ghost predicate Distinct(s: System)
    requires Full(s)
  {
    forall p, q | 0 <= p < q < |s.nodes| :: Epoch(s, p, p) != Epoch(s, q, q)
  }

  /** Node `p` would give itself a new epoch on a ping built from the present state of node `q`. */
  predicate WouldMove(s: System, p: nat, q: nat)
    requires Full(s) && p < |s.nodes| && q < |s.nodes|
  {
    Receive(p, s.nodes[p], Ping(q, s.nodes[q].currentEpoch, Epoch(s, q, q))).configEpoch[p] != Epoch(s, p, p)
  }

  ghost predicate Quiescent(s: System)
    requires Full(s)
  {
    forall p, q | 0 <= p < |s.nodes| && 0 <= q < |s.nodes| :: !WouldMove(s, p, q)
  }

  lemma WouldMoveIffCollision(s: System, p: nat, q: nat)
    requires EpochInv(s) && p < |s.nodes| && q < |s.nodes|
    ensures WouldMove(s, p, q) <==> p < q && Epoch(s, p, p) == Epoch(s, q, q)
  {
  }

  /** In every reachable state, resolution rests exactly when all config epochs differ. */
  lemma QuiescentIffDistinct(r: Run)
    requires Legal(r)
    ensures EpochInv(Last(r)) && (Quiescent(Last(r)) <==> Distinct(Last(r)))
  {
    RunKeepsEpochInv(r);
    var s := Last(r);
    forall p, q | 0 <= p < |s.nodes| && 0 <= q < |s.nodes|
      ensures WouldMove(s, p, q) <==> p < q && Epoch(s, p, p) == Epoch(s, q, q)
    {
      WouldMoveIffCollision(s, p, q);
    }
  }
}
