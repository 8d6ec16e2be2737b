/**
  Slot claims of Redis Cluster: what a receiver's slot table becomes when masters publish their
  slots and config epochs, in any order and with repeats.
 */
module ClusterClaims {
  import opened Options

  type NodeId = nat

  /** A node, the config epoch it is said to have, and the slots it is said to serve. */
  datatype Claim = Claim(sender: NodeId, epoch: nat, slots: set<nat>)

  /** PING, PONG and MEET of a master; UPDATE about one, its `sender` here; any other packet, of which only the epoch in
      the header counts. */
  datatype Message = Ping(claim: Claim) | Report(claim: Claim) | Header(claim: Claim)

  /** The receiver, its slot table and the configEpoch it knows for each node. */
  datatype View = View(me: NodeId, slots: seq<Option<NodeId>>, epochs: map<NodeId, nat>)

  /** A node that was just created has configEpoch 0. */
  function Known(epochs: map<NodeId, nat>, n: NodeId): nat {
    if n in epochs then epochs[n] else 0
  }

  lemma UnknownIsZero(epochs: map<NodeId, nat>, n: NodeId)
    requires n !in epochs
    ensures Known(epochs, n) == 0
  {
  }

  /** Whether a slot passes to the claimant: it was free, or is claimed under a newer configuration. */
  predicate Yields(owner: Option<NodeId>, epochs: map<NodeId, nat>, c: Claim, slot: nat) {
    slot in c.slots && owner != Some(c.sender) && (owner.None? || Known(epochs, owner.value) < c.epoch)
  }

  function Rebind(owner: Option<NodeId>, epochs: map<NodeId, nat>, c: Claim, slot: nat): Option<NodeId> {
    if Yields(owner, epochs, c, slot) then Some(c.sender) else owner
  }

  /** Header processing: the sender's epoch only rises. */
  function Learn(epochs: map<NodeId, nat>, c: Claim): map<NodeId, nat> {
    epochs[c.sender := if Known(epochs, c.sender) < c.epoch then c.epoch else Known(epochs, c.sender)]
  }

  /** clusterUpdateSlotsConfigWith on a table in which nothing is being imported; what is said of the receiver itself
      moves no slot. */
  function Bind(v: View, c: Claim): View {
    if c.sender == v.me then v
    else v.(slots := seq(|v.slots|, j requires 0 <= j < |v.slots| => Rebind(v.slots[j], v.epochs, c, j)))
  }

  function Receive(v: View, c: Claim): View {
    Bind(v.(epochs := Learn(v.epochs, c)), c)
  }

  /** An UPDATE under an epoch that is known already is dropped. */
  function Handle(v: View, m: Message): View {
    match m
    case Ping(c) => Receive(v, c)
    case Report(c) => if Known(v.epochs, c.sender) >= c.epoch then v else Receive(v, c)
    case Header(c) => v.(epochs := Learn(v.epochs, c))
  }

  function HandleAll(v: View, ms: seq<Message>): View {
    if ms == [] then v else Handle(HandleAll(v, ms[..|ms| - 1]), ms[|ms| - 1])
  }

  // ---------- one delivery ----------

  /** Each change from owner to owner strictly raises the owner's epoch. */
  lemma OwnerChangeRaisesEpoch(v: View, m: Message, j: nat)
    requires j < |v.slots| && v.slots[j].Some?
    ensures var t := Handle(v, m);
      |t.slots| == |v.slots| && t.slots[j].Some? && (t.slots[j] != v.slots[j] ==>
        t.slots[j] == Some(m.claim.sender) && Known(t.epochs, v.slots[j].value) < Known(t.epochs, t.slots[j].value))
  {
  }

  /** The message says of a node other than the receiver that it serves slot `j`. */
  predicate Says(me: NodeId, m: Message, j: nat) {
    !m.Header? && m.claim.sender != me && j in m.claim.slots
  }

  /** Its claims are looked at: it is no UPDATE that is dropped. */
  predicate Heeded(epochs: map<NodeId, nat>, m: Message) {
    m.Report? ==> Known(epochs, m.claim.sender) < m.claim.epoch
  }

  lemma HandledSlot(v: View, m: Message, j: nat)
    requires j < |v.slots|
    ensures var t := Handle(v, m);
      && t.me == v.me && |t.slots| == |v.slots|
      && t.slots[j] == if Says(v.me, m, j) && Heeded(v.epochs, m)
                       then Rebind(v.slots[j], Learn(v.epochs, m.claim), m.claim, j) else v.slots[j]
  {
  }

  lemma HandledEpoch(v: View, m: Message, n: NodeId)
    ensures var k := Known(v.epochs, n);
      Known(Handle(v, m).epochs, n) == if n == m.claim.sender && k < m.claim.epoch then m.claim.epoch else k
  {
  }

  // ---------- many deliveries ----------

  ghost function Delivered(ms: seq<Message>): set<Message> { set m | m in ms }

  /** Each node is published under one epoch, which no other node has, and the receiver never knew a newer one.  If the
      receiver serves slots, no PING collides with its own epoch, which it would change then (see ClusterEpoch). */
  ghost predicate Consistent(v: View, all: set<Message>) {
    && (forall c <- all, d <- all :: c.claim.sender == d.claim.sender <==> c.claim.epoch == d.claim.epoch)
    && (forall c <- all :: Known(v.epochs, c.claim.sender) <= c.claim.epoch)
    && (Some(v.me) in v.slots ==>
          forall c <- all :: c.Ping? && c.claim.sender != v.me ==> c.claim.epoch != Known(v.epochs, v.me))
  }

  lemma DeliveredLast(ms: seq<Message>)
    requires ms != []
    ensures Delivered(ms) == Delivered(ms[..|ms| - 1]) + {ms[|ms| - 1]}
  {
    assert ms == ms[..|ms| - 1] + [ms[|ms| - 1]];
  }

  lemma {:induction false} SameSize(v: View, ms: seq<Message>)
    ensures HandleAll(v, ms).me == v.me && |HandleAll(v, ms).slots| == |v.slots|
  {
    if ms != [] {
      SameSize(v, ms[..|ms| - 1]);
    }
  }

  /** The receiver ends up knowing exactly the published epochs. */
  lemma {:induction false} ReceivedEpochs(v: View, ms: seq<Message>, n: NodeId)
    requires Consistent(v, Delivered(ms))
    ensures var known := Known(HandleAll(v, ms).epochs, n);
      && Known(v.epochs, n) <= known
      && (forall c <- Delivered(ms) :: c.claim.sender == n ==> known == c.claim.epoch)
      && ((forall c <- Delivered(ms) :: c.claim.sender != n) ==> known == Known(v.epochs, n))
  {
    if ms != [] {
      DeliveredLast(ms);
      ReceivedEpochs(v, ms[..|ms| - 1], n);
      HandledEpoch(HandleAll(v, ms[..|ms| - 1]), ms[|ms| - 1], n);
    }
  }

  /** The messages whose claims were looked at. */
  ghost function Effective(v: View, ms: seq<Message>): set<Message> {
    if ms == [] then {}
    else
      var prior, m := ms[..|ms| - 1], ms[|ms| - 1];
      if Heeded(HandleAll(v, prior).epochs, m) then Effective(v, prior) + {m} else Effective(v, prior)
  }

  /** Who owns slot `j` after some deliveries: the initial owner or one whose claim was looked at; its known epoch is
      at least that of every such claim, and above the initial owner's unless it is the initial owner. */
  ghost predicate Best(v: View, claims: set<Message>, j: nat, now: View)
    requires j < |v.slots| == |now.slots|
  {
    match now.slots[j]
    case None => v.slots[j].None? && forall c <- claims :: !Says(v.me, c, j)
    case Some(x) =>
      && (v.slots[j] == Some(x) || exists c <- claims :: Says(v.me, c, j) && c.claim.sender == x)
      && (forall c <- claims :: Says(v.me, c, j) ==> c.claim.epoch <= Known(now.epochs, x))
      && (v.slots[j].Some? && v.slots[j] != Some(x) ==> Known(v.epochs, v.slots[j].value) < Known(now.epochs, x))
  }

  lemma DeliveryKeepsBest(v: View, prior: set<Message>, was: View, m: Message, j: nat)
    requires j < |v.slots| == |was.slots| && was.me == v.me && Best(v, prior, j, was)
    requires Known(was.epochs, m.claim.sender) <= m.claim.epoch
    requires v.slots[j].Some? ==> Known(v.epochs, v.slots[j].value) <= Known(was.epochs, v.slots[j].value)
    ensures |Handle(was, m).slots| == |v.slots|
    ensures Best(v, if Heeded(was.epochs, m) then prior + {m} else prior, j, Handle(was, m))
  {
    HandledSlot(was, m, j);
    if was.slots[j].Some? {
      HandledEpoch(was, m, was.slots[j].value);
    }
    HandledEpoch(was, m, m.claim.sender);
  }

  lemma {:induction false} OwnerIsBest(v: View, ms: seq<Message>, j: nat)
    requires Consistent(v, Delivered(ms)) && j < |v.slots|
    ensures |HandleAll(v, ms).slots| == |v.slots| && Best(v, Effective(v, ms), j, HandleAll(v, ms))
  {
    SameSize(v, ms);
    if ms != [] {
      var prior, m := ms[..|ms| - 1], ms[|ms| - 1];
      DeliveredLast(ms);
      OwnerIsBest(v, prior, j);
      ReceivedEpochs(v, prior, m.claim.sender);
      if v.slots[j].Some? {
        ReceivedEpochs(v, prior, v.slots[j].value);
      }
      SameSize(v, prior);
      DeliveryKeepsBest(v, Effective(v, prior), HandleAll(v, prior), m, j);
    }
  }

  // ---------- which claims take effect ----------

  /** Node `n` claims slot `j` by a PING, or by an UPDATE under an epoch that the receiver does not know at first. */
  ghost predicate Possible(v: View, all: set<Message>, j: nat, n: NodeId) {
    exists m <- all :: m.claim.sender == n && Says(v.me, m, j) && Heeded(v.epochs, m)
  }

  /** Its claim takes effect in any order: there is a PING with it, or else everything that is heard of `n` is such an
      UPDATE, so that the first one to arrive is not dropped. */
  ghost predicate Sure(v: View, all: set<Message>, j: nat, n: NodeId) {
    && Possible(v, all, j, n)
    && ((exists m <- all :: m.Ping? && m.claim.sender == n && Says(v.me, m, j))
        || forall m <- all :: m.claim.sender == n ==> Says(v.me, m, j))
  }

  lemma {:induction false} EffectiveIsPossible(v: View, ms: seq<Message>, j: nat, m: Message)
    requires Consistent(v, Delivered(ms)) && m in Effective(v, ms) && Says(v.me, m, j)
    ensures m in Delivered(ms) && Possible(v, Delivered(ms), j, m.claim.sender)
  {
    var prior := ms[..|ms| - 1];
    DeliveredLast(ms);
    if m in Effective(v, prior) {
      EffectiveIsPossible(v, prior, j, m);
    } else {
      ReceivedEpochs(v, prior, m.claim.sender);
      assert Heeded(v.epochs, m);
    }
  }

  lemma {:induction false} PingTakesEffect(v: View, ms: seq<Message>, m: Message)
    requires m in Delivered(ms) && m.Ping?
    ensures m in Effective(v, ms)
  {
    DeliveredLast(ms);
    if m != ms[|ms| - 1] {
      PingTakesEffect(v, ms[..|ms| - 1], m);
    }
  }

  /** The first message about a node under an epoch not known before is looked at, if it is no mere header. */
  lemma {:induction false} FirstTakesEffect(v: View, ms: seq<Message>, j: nat, n: NodeId) returns (m: Message)
    requires Consistent(v, Delivered(ms)) && (forall d <- Delivered(ms) :: d.claim.sender == n ==> Says(v.me, d, j))
    requires exists d <- Delivered(ms) :: d.claim.sender == n && Heeded(v.epochs, d)
    ensures m in Effective(v, ms) && m.claim.sender == n && Says(v.me, m, j)
  {
    var prior, last := ms[..|ms| - 1], ms[|ms| - 1];
    DeliveredLast(ms);
    if d :| d in Delivered(prior) && d.claim.sender == n && Heeded(v.epochs, d) {
      m := FirstTakesEffect(v, prior, j, n);
    } else {
      m := last;
      ReceivedEpochs(v, prior, n);
    }
  }

  lemma SureTakesEffect(v: View, ms: seq<Message>, j: nat, n: NodeId) returns (m: Message)
    requires Consistent(v, Delivered(ms)) && Sure(v, Delivered(ms), j, n)
    ensures m in Effective(v, ms) && m.claim.sender == n && Says(v.me, m, j)
  {
    if p :| p in Delivered(ms) && p.Ping? && p.claim.sender == n && Says(v.me, p, j) {
      m := p;
      PingTakesEffect(v, ms, p);
    } else {
      m := FirstTakesEffect(v, ms, j, n);
    }
  }

  // ---------- confluence, and exactly when it fails ----------

  /** Every sure claim on slot `j` is older than `epoch`. */
  ghost predicate AboveSure(v: View, all: set<Message>, j: nat, epoch: nat) {
    forall c <- all :: Sure(v, all, j, c.claim.sender) ==> c.claim.epoch < epoch
  }

  /** The initial owner of slot `j` is published too, but not surely with `j`; its epoch, as first known, is below that
      of some sure claim on `j`, while its published epoch is above them all. */
  ghost predicate Torn(v: View, all: set<Message>, j: nat)
    requires j < |v.slots|
  {
    v.slots[j].Some? && !Sure(v, all, j, v.slots[j].value) && exists m <- all ::
      && m.claim.sender == v.slots[j].value && AboveSure(v, all, j, m.claim.epoch)
      && exists c <- all :: Sure(v, all, j, c.claim.sender) && Known(v.epochs, m.claim.sender) < c.claim.epoch
  }

  /** Some other node claims slot `j` possibly but not surely, under an epoch above every sure claim and above what is
      known of the initial owner at first. */
  ghost predicate Wavering(v: View, all: set<Message>, j: nat)
    requires j < |v.slots|
  {
    exists m <- all ::
      && Possible(v, all, j, m.claim.sender) && !Sure(v, all, j, m.claim.sender)
      && v.slots[j] != Some(m.claim.sender) && AboveSure(v, all, j, m.claim.epoch)
      && (v.slots[j].Some? ==> Known(v.epochs, v.slots[j].value) < m.claim.epoch)
  }

  ghost predicate Settled(v: View, all: set<Message>, j: nat)
    requires j < |v.slots|
  {
    !Torn(v, all, j) && !Wavering(v, all, j)
  }

  /** What the owner of slot `j` must satisfy in every order of the messages. */
  ghost predicate Fair(v: View, all: set<Message>, j: nat, now: View)
    requires j < |v.slots| == |now.slots|
  {
    match now.slots[j]
    case None => v.slots[j].None? && forall c <- all :: !Sure(v, all, j, c.claim.sender)
    case Some(x) =>
      && (v.slots[j] == Some(x) || Possible(v, all, j, x))
      && (forall c <- all :: Sure(v, all, j, c.claim.sender) ==> c.claim.epoch <= Known(now.epochs, x))
      && (v.slots[j].Some? && v.slots[j] != Some(x) ==> Known(v.epochs, v.slots[j].value) < Known(now.epochs, x))
  }

  lemma OwnerIsFair(v: View, ms: seq<Message>, j: nat)
    requires Consistent(v, Delivered(ms)) && j < |v.slots|
    ensures |HandleAll(v, ms).slots| == |v.slots| && Fair(v, Delivered(ms), j, HandleAll(v, ms))
  {
    var all, now := Delivered(ms), HandleAll(v, ms);
    OwnerIsBest(v, ms, j);
    forall c | c in all && Sure(v, all, j, c.claim.sender)
      ensures now.slots[j].Some? && c.claim.epoch <= Known(now.epochs, now.slots[j].value)
    {
      var m := SureTakesEffect(v, ms, j, c.claim.sender);
      EffectiveIsPossible(v, ms, j, m);
    }
    if now.slots[j].Some? && v.slots[j] != now.slots[j] {
      var m :| m in Effective(v, ms) && Says(v.me, m, j) && m.claim.sender == now.slots[j].value;
      EffectiveIsPossible(v, ms, j, m);
    }
  }

  /** All that is published of the nodes is known. */
  ghost predicate Informed(v: View, all: set<Message>, now: View) {
    forall n ::
      && Known(v.epochs, n) <= Known(now.epochs, n)
      && (forall c <- all :: c.claim.sender == n ==> Known(now.epochs, n) == c.claim.epoch)
      && ((forall c <- all :: c.claim.sender != n) ==> Known(now.epochs, n) == Known(v.epochs, n))
  }

  /** An owner that is neither the initial one nor a sure claimant makes the slot wavering. */
  lemma UnsureOwnerWavers(v: View, all: set<Message>, j: nat, now: View)
    requires Consistent(v, all) && j < |v.slots| == |now.slots| && Informed(v, all, now) && Fair(v, all, j, now)
    requires now.slots[j].Some? && now.slots[j] != v.slots[j] && !Sure(v, all, j, now.slots[j].value)
    ensures Wavering(v, all, j)
  {
    var m :| m in all && m.claim.sender == now.slots[j].value && Says(v.me, m, j) && Heeded(v.epochs, m);
    assert AboveSure(v, all, j, m.claim.epoch);
  }

  lemma FreeInAllOrders(v: View, all: set<Message>, j: nat, free: View, other: View)
    requires Consistent(v, all) && j < |v.slots| == |free.slots| == |other.slots| && Settled(v, all, j)
    requires Fair(v, all, j, free) && Fair(v, all, j, other) && Informed(v, all, other) && free.slots[j].None?
    ensures other.slots[j].None?
  {
    if other.slots[j].Some? {
      var x := other.slots[j].value;
      assert Sure(v, all, j, x) ==> exists c <- all :: c.claim.sender == x;
      UnsureOwnerWavers(v, all, j, other);
    }
  }

  /** A sure claimant and an initial owner that is not one cannot both end up with a slot that is not torn. */
  lemma KeptOrTorn(v: View, all: set<Message>, j: nat, kept: View, lost: View)
    requires Consistent(v, all) && j < |v.slots| == |kept.slots| == |lost.slots| && v.slots[j].Some?
    requires Informed(v, all, kept) && Informed(v, all, lost) && Fair(v, all, j, kept) && Fair(v, all, j, lost)
    requires kept.slots[j] == v.slots[j] && !Sure(v, all, j, v.slots[j].value)
    requires lost.slots[j].Some? && Sure(v, all, j, lost.slots[j].value)
    ensures Torn(v, all, j)
  {
    var o, y := v.slots[j].value, lost.slots[j].value;
    var c :| c in all && c.claim.sender == y && Says(v.me, c, j) && Heeded(v.epochs, c);
    assert Known(v.epochs, o) < c.claim.epoch <= Known(kept.epochs, o);
    var m :| m in all && m.claim.sender == o;
    assert AboveSure(v, all, j, m.claim.epoch);
  }

  lemma TwoSureOwners(v: View, all: set<Message>, j: nat, a: View, b: View)
    requires Consistent(v, all) && j < |v.slots| == |a.slots| == |b.slots|
    requires Informed(v, all, a) && Informed(v, all, b) && Fair(v, all, j, a) && Fair(v, all, j, b)
    requires a.slots[j].Some? && Sure(v, all, j, a.slots[j].value)
    requires b.slots[j].Some? && Sure(v, all, j, b.slots[j].value)
    ensures a.slots[j] == b.slots[j]
  {
    var c :| c in all && c.claim.sender == a.slots[j].value && Says(v.me, c, j) && Heeded(v.epochs, c);
    var d :| d in all && d.claim.sender == b.slots[j].value && Says(v.me, d, j) && Heeded(v.epochs, d);
  }

  lemma FairOwnersAgree(v: View, all: set<Message>, j: nat, a: View, b: View)
    requires Consistent(v, all) && j < |v.slots| == |a.slots| == |b.slots| && Settled(v, all, j)
    requires Informed(v, all, a) && Informed(v, all, b) && Fair(v, all, j, a) && Fair(v, all, j, b)
    ensures a.slots[j] == b.slots[j]
  {
    if a.slots[j].None? {
      FreeInAllOrders(v, all, j, a, b);
    } else if b.slots[j].None? {
      FreeInAllOrders(v, all, j, b, a);
    } else if a.slots[j] != b.slots[j] {
      var sureA, sureB := Sure(v, all, j, a.slots[j].value), Sure(v, all, j, b.slots[j].value);
      if sureA && sureB {
        TwoSureOwners(v, all, j, a, b);
      } else if a.slots[j] != v.slots[j] && !sureA {
        UnsureOwnerWavers(v, all, j, a);
      } else if b.slots[j] != v.slots[j] && !sureB {
        UnsureOwnerWavers(v, all, j, b);
      } else if sureB {
        KeptOrTorn(v, all, j, a, b);
      } else {
        KeptOrTorn(v, all, j, b, a);
      }
    }
  }

  lemma AllInformed(v: View, ms: seq<Message>)
    requires Consistent(v, Delivered(ms))
    ensures Informed(v, Delivered(ms), HandleAll(v, ms))
  {
    forall n
      ensures Known(v.epochs, n) <= Known(HandleAll(v, ms).epochs, n)
      ensures forall c <- Delivered(ms) :: c.claim.sender == n ==> Known(HandleAll(v, ms).epochs, n) == c.claim.epoch
      ensures (forall c <- Delivered(ms) :: c.claim.sender != n) ==>
                Known(HandleAll(v, ms).epochs, n) == Known(v.epochs, n)
    {
      ReceivedEpochs(v, ms, n);
    }
  }

  lemma SameMessagesSameOwner(v: View, a: seq<Message>, b: seq<Message>, j: nat)
    requires Consistent(v, Delivered(a)) && Delivered(a) == Delivered(b) && j < |v.slots| && Settled(v, Delivered(a), j)
    ensures |HandleAll(v, a).slots| == |HandleAll(v, b).slots| == |v.slots|
    ensures HandleAll(v, a).slots[j] == HandleAll(v, b).slots[j]
  {
    OwnerIsFair(v, a, j);
    OwnerIsFair(v, b, j);
    AllInformed(v, a);
    AllInformed(v, b);
    FairOwnersAgree(v, Delivered(a), j, HandleAll(v, a), HandleAll(v, b));
  }

  /** Confluence: the same messages, in any two orders and with any repeats, give the same table. */
  lemma SameMessagesSameTable(v: View, a: seq<Message>, b: seq<Message>)
    requires Consistent(v, Delivered(a)) && Delivered(a) == Delivered(b)
    requires forall j | 0 <= j < |v.slots| :: Settled(v, Delivered(a), j)
    ensures HandleAll(v, a).slots == HandleAll(v, b).slots
  {
    SameSize(v, a);
    SameSize(v, b);
    forall j | 0 <= j < |v.slots|
      ensures HandleAll(v, a).slots[j] == HandleAll(v, b).slots[j]
    {
      SameMessagesSameOwner(v, a, b, j);
    }
  }

  // ---------- an unsettled slot depends on the order ----------

  ghost function Quiet(me: NodeId, ms: seq<Message>, j: nat): seq<Message> {
    if ms == [] then []
    else Quiet(me, ms[..|ms| - 1], j) + if Says(me, ms[|ms| - 1], j) then [] else [ms[|ms| - 1]]
  }

  ghost function Besides(n: NodeId, ms: seq<Message>): seq<Message> {
    if ms == [] then []
    else Besides(n, ms[..|ms| - 1]) + if ms[|ms| - 1].claim.sender == n then [] else [ms[|ms| - 1]]
  }

  lemma {:induction false} QuietMembers(me: NodeId, ms: seq<Message>, j: nat)
    ensures forall m :: m in Delivered(Quiet(me, ms, j)) <==> m in Delivered(ms) && !Says(me, m, j)
  {
    if ms != [] {
      DeliveredLast(ms);
      QuietMembers(me, ms[..|ms| - 1], j);
    }
  }

  lemma {:induction false} BesidesMembers(n: NodeId, ms: seq<Message>)
    ensures forall m :: m in Delivered(Besides(n, ms)) <==> m in Delivered(ms) && m.claim.sender != n
  {
    if ms != [] {
      DeliveredLast(ms);
      BesidesMembers(n, ms[..|ms| - 1]);
    }
  }

  lemma {:induction false} HandleConcat(v: View, a: seq<Message>, b: seq<Message>)
    ensures HandleAll(v, a + b) == HandleAll(HandleAll(v, a), b)
  {
    if b == [] {
      assert a + b == a;
    } else {
      assert (a + b)[..|a + b| - 1] == a + b[..|b| - 1];
      HandleConcat(v, a, b[..|b| - 1]);
    }
  }

  /** Known epochs are between the first ones and the published ones. */
  ghost predicate Underway(v: View, all: set<Message>, now: View) {
    && now.me == v.me && |now.slots| == |v.slots|
    && (forall n :: Known(v.epochs, n) <= Known(now.epochs, n))
    && (forall c <- all :: Known(now.epochs, c.claim.sender) <= c.claim.epoch)
  }

  lemma {:induction false} StaysUnderway(v: View, all: set<Message>, s: View, ms: seq<Message>)
    requires Consistent(v, all) && Underway(v, all, s) && Delivered(ms) <= all
    ensures Underway(v, all, HandleAll(s, ms)) && Underway(s, all, HandleAll(s, ms))
    ensures forall m <- Delivered(ms) :: Known(HandleAll(s, ms).epochs, m.claim.sender) == m.claim.epoch
  {
    SameSize(s, ms);
    if ms != [] {
      var m := ms[|ms| - 1];
      DeliveredLast(ms);
      StaysUnderway(v, all, s, ms[..|ms| - 1]);
      forall n
        ensures var k := Known(HandleAll(s, ms[..|ms| - 1]).epochs, n);
          Known(HandleAll(s, ms).epochs, n) == if n == m.claim.sender && k < m.claim.epoch then m.claim.epoch else k
      {
        HandledEpoch(HandleAll(s, ms[..|ms| - 1]), m, n);
      }
    }
  }

  /** Quiet messages do not touch the slot. */
  lemma {:induction false} QuietKeeps(s: View, ms: seq<Message>, j: nat)
    requires j < |s.slots| && forall m <- Delivered(ms) :: !Says(s.me, m, j)
    ensures HandleAll(s, ms).me == s.me && |HandleAll(s, ms).slots| == |s.slots|
    ensures HandleAll(s, ms).slots[j] == s.slots[j]
  {
    SameSize(s, ms);
    if ms != [] {
      DeliveredLast(ms);
      QuietKeeps(s, ms[..|ms| - 1], j);
      SameSize(s, ms[..|ms| - 1]);
      HandledSlot(HandleAll(s, ms[..|ms| - 1]), ms[|ms| - 1], j);
    }
  }

  /** Every quiet message was heard. */
  ghost predicate Quieted(v: View, all: set<Message>, j: nat, s: View) {
    forall m <- all :: !Says(v.me, m, j) ==> Known(s.epochs, m.claim.sender) == m.claim.epoch
  }

  /** After that only sure claims on the slot are looked at. */
  lemma OnlySureAreHeeded(v: View, all: set<Message>, j: nat, s: View, m: Message)
    requires Consistent(v, all) && Underway(v, all, s) && Quieted(v, all, j, s)
    requires m in all && Says(v.me, m, j) && Heeded(s.epochs, m)
    ensures Sure(v, all, j, m.claim.sender)
  {
    assert Known(v.epochs, m.claim.sender) <= Known(s.epochs, m.claim.sender);
    assert Heeded(v.epochs, m);
    if !m.Ping? {
      forall d | d in all && d.claim.sender == m.claim.sender
        ensures Says(v.me, d, j)
      {
        assert d.claim.epoch == m.claim.epoch;
      }
    }
  }

  /** An owner above all sure claims keeps the slot. */
  lemma {:induction false} HighOwnerStays(v: View, all: set<Message>, j: nat, s: View, ms: seq<Message>)
    requires Consistent(v, all) && Underway(v, all, s) && Quieted(v, all, j, s) && Delivered(ms) <= all
    requires j < |v.slots| && s.slots[j].Some? && AboveSure(v, all, j, Known(s.epochs, s.slots[j].value))
    ensures |HandleAll(s, ms).slots| == |v.slots| && HandleAll(s, ms).slots[j] == s.slots[j]
  {
    SameSize(s, ms);
    if ms != [] {
      var prior, m := ms[..|ms| - 1], ms[|ms| - 1];
      var t := HandleAll(s, prior);
      DeliveredLast(ms);
      HighOwnerStays(v, all, j, s, prior);
      StaysUnderway(v, all, s, prior);
      HandledSlot(t, m, j);
      if Says(v.me, m, j) && Heeded(t.epochs, m) {
        StillQuieted(v, all, j, s, t);
        OnlySureAreHeeded(v, all, j, t, m);
        HandledEpoch(t, m, s.slots[j].value);
        assert Known(s.epochs, s.slots[j].value) <= Known(t.epochs, s.slots[j].value);
      }
    }
  }

  lemma StillQuieted(v: View, all: set<Message>, j: nat, s: View, t: View)
    requires Quieted(v, all, j, s) && Underway(s, all, t)
    ensures Quieted(v, all, j, t)
  {
    forall m | m in all && !Says(v.me, m, j)
      ensures Known(t.epochs, m.claim.sender) == m.claim.epoch
    {
      assert Known(s.epochs, m.claim.sender) <= Known(t.epochs, m.claim.sender);
    }
  }

  /** A node that is not a sure claimant does not get the slot any more. */
  lemma {:induction false} UnsureGetsNothing(v: View, all: set<Message>, j: nat, s: View, ms: seq<Message>, n: NodeId)
    requires Consistent(v, all) && Underway(v, all, s) && Quieted(v, all, j, s) && Delivered(ms) <= all
    requires j < |v.slots| && s.slots[j] != Some(n) && !Sure(v, all, j, n)
    ensures |HandleAll(s, ms).slots| == |v.slots| && HandleAll(s, ms).slots[j] != Some(n)
  {
    SameSize(s, ms);
    if ms != [] {
      var prior, m := ms[..|ms| - 1], ms[|ms| - 1];
      var t := HandleAll(s, prior);
      DeliveredLast(ms);
      UnsureGetsNothing(v, all, j, s, prior, n);
      StaysUnderway(v, all, s, prior);
      HandledSlot(t, m, j);
      if Says(v.me, m, j) && Heeded(t.epochs, m) {
        StillQuieted(v, all, j, s, t);
        OnlySureAreHeeded(v, all, j, t, m);
      }
    }
  }

  /** First everything quiet, then everything: the state in between. */
  lemma QuietFirst(v: View, s: View, ms: seq<Message>, j: nat) returns (t: View)
    requires Consistent(v, Delivered(ms)) && Underway(v, Delivered(ms), s) && j < |v.slots|
    ensures Underway(v, Delivered(ms), t) && Underway(s, Delivered(ms), t) && Quieted(v, Delivered(ms), j, t)
    ensures t.slots[j] == s.slots[j] && HandleAll(s, Quiet(v.me, ms, j) + ms) == HandleAll(t, ms)
  {
    var quiet := Quiet(v.me, ms, j);
    QuietMembers(v.me, ms, j);
    t := HandleAll(s, quiet);
    StaysUnderway(v, Delivered(ms), s, quiet);
    QuietKeeps(s, quiet, j);
    HandleConcat(s, quiet, ms);
  }

  lemma DeliveredConcat(a: seq<Message>, b: seq<Message>)
    ensures Delivered(a + b) == Delivered(a) + Delivered(b)
  {
  }

  /** Torn: with all quiet messages first the initial owner keeps the slot. */
  lemma TornKept(v: View, ms: seq<Message>, j: nat)
    requires Consistent(v, Delivered(ms)) && j < |v.slots| && Torn(v, Delivered(ms), j)
    ensures var now := HandleAll(v, Quiet(v.me, ms, j) + ms);
      |now.slots| == |v.slots| && now.slots[j] == v.slots[j]
  {
    var all, o := Delivered(ms), v.slots[j].value;
    var t := QuietFirst(v, v, ms, j);
    var m :| m in all && m.claim.sender == o && AboveSure(v, all, j, m.claim.epoch)
          && exists c <- all :: Sure(v, all, j, c.claim.sender) && Known(v.epochs, o) < c.claim.epoch;
    OwnerIsQuiet(v, all, j, m);
    HighOwnerStays(v, all, j, t, ms);
  }

  lemma OwnerIsQuiet(v: View, all: set<Message>, j: nat, m: Message)
    requires Consistent(v, all) && m in all && !Sure(v, all, j, m.claim.sender)
    requires Known(v.epochs, m.claim.sender) < m.claim.epoch
    ensures exists d <- all :: d.claim.sender == m.claim.sender && !Says(v.me, d, j)
  {
    if Says(v.me, m, j) {
      assert Heeded(v.epochs, m) && Possible(v, all, j, m.claim.sender);
    }
  }

  /** Torn: with the other nodes first the initial owner loses the slot for good. */
  lemma TornLost(v: View, ms: seq<Message>, j: nat)
    requires Consistent(v, Delivered(ms)) && j < |v.slots| && Torn(v, Delivered(ms), j)
    ensures var now := HandleAll(v, Besides(v.slots[j].value, ms) + (Quiet(v.me, ms, j) + ms));
      |now.slots| == |v.slots| && now.slots[j] != v.slots[j]
  {
    var all, o := Delivered(ms), v.slots[j].value;
    var rest := Besides(o, ms);
    var c :| c in all && Sure(v, all, j, c.claim.sender) && Known(v.epochs, o) < c.claim.epoch;
    BesidesMembers(o, ms);
    LosesToSure(v, all, rest, j, c);
    StaysUnderway(v, all, v, rest);
    var s := HandleAll(v, rest);
    var t := QuietFirst(v, s, ms, j);
    UnsureGetsNothing(v, all, j, t, ms, o);
    HandleConcat(v, rest, Quiet(v.me, ms, j) + ms);
  }

  lemma LosesToSure(v: View, all: set<Message>, rest: seq<Message>, j: nat, c: Message)
    requires Consistent(v, all) && j < |v.slots| && v.slots[j].Some? && !Sure(v, all, j, v.slots[j].value)
    requires forall m :: m in Delivered(rest) <==> m in all && m.claim.sender != v.slots[j].value
    requires c in all && Sure(v, all, j, c.claim.sender) && Known(v.epochs, v.slots[j].value) < c.claim.epoch
    ensures |HandleAll(v, rest).slots| == |v.slots| && HandleAll(v, rest).slots[j] != v.slots[j]
  {
    assert c.claim.sender != v.slots[j].value;
    assert Sure(v, Delivered(rest), j, c.claim.sender);
    OwnerIsFair(v, rest, j);
    ReceivedEpochs(v, rest, v.slots[j].value);
  }

  /** Wavering: with its UPDATE first the node has the slot, with all quiet messages first it has not. */
  lemma WaveringWins(v: View, ms: seq<Message>, j: nat, u: Message)
    requires Consistent(v, Delivered(ms)) && j < |v.slots| && u in ms && Says(v.me, u, j) && Heeded(v.epochs, u)
    requires v.slots[j] != Some(u.claim.sender) && AboveSure(v, Delivered(ms), j, u.claim.epoch)
    requires v.slots[j].Some? ==> Known(v.epochs, v.slots[j].value) < u.claim.epoch
    ensures var now := HandleAll(v, [u] + (Quiet(v.me, ms, j) + ms));
      |now.slots| == |v.slots| && now.slots[j] == Some(u.claim.sender)
  {
    var all := Delivered(ms);
    var s := Handle(v, u);
    assert [u][..0] == [] && HandleAll(v, [u]) == s;
    StaysUnderway(v, all, v, [u]);
    HandledSlot(v, u, j);
    var t := QuietFirst(v, s, ms, j);
    assert Known(s.epochs, u.claim.sender) <= Known(t.epochs, u.claim.sender);
    HighOwnerStays(v, all, j, t, ms);
    HandleConcat(v, [u], Quiet(v.me, ms, j) + ms);
  }

  lemma WaveringFails(v: View, ms: seq<Message>, j: nat, n: NodeId)
    requires Consistent(v, Delivered(ms)) && j < |v.slots| && v.slots[j] != Some(n) && !Sure(v, Delivered(ms), j, n)
    ensures var now := HandleAll(v, Quiet(v.me, ms, j) + ms);
      |now.slots| == |v.slots| && now.slots[j] != Some(n)
  {
    var t := QuietFirst(v, v, ms, j);
    UnsureGetsNothing(v, Delivered(ms), j, t, ms, n);
  }

  lemma QuietFirstSame(me: NodeId, ms: seq<Message>, j: nat)
    ensures Delivered(Quiet(me, ms, j) + ms) == Delivered(ms)
  {
    QuietMembers(me, ms, j);
    DeliveredConcat(Quiet(me, ms, j), ms);
  }

  lemma BesidesFirstSame(n: NodeId, ms: seq<Message>, rest: seq<Message>)
    requires Delivered(rest) == Delivered(ms)
    ensures Delivered(Besides(n, ms) + rest) == Delivered(ms)
  {
    BesidesMembers(n, ms);
    DeliveredConcat(Besides(n, ms), rest);
  }

  lemma TornDependsOnOrder(v: View, ms: seq<Message>, j: nat) returns (a: seq<Message>, b: seq<Message>)
    requires Consistent(v, Delivered(ms)) && j < |v.slots| && Torn(v, Delivered(ms), j)
    ensures Delivered(a) == Delivered(b) == Delivered(ms)
    ensures |HandleAll(v, a).slots| == |HandleAll(v, b).slots| == |v.slots|
    ensures HandleAll(v, a).slots[j] != HandleAll(v, b).slots[j]
  {
    a := Quiet(v.me, ms, j) + ms;
    b := Besides(v.slots[j].value, ms) + a;
    QuietFirstSame(v.me, ms, j);
    BesidesFirstSame(v.slots[j].value, ms, a);
    SameSize(v, a);
    SameSize(v, b);
    TornKept(v, ms, j);
    TornLost(v, ms, j);
  }

  lemma WaveringDependsOnOrder(v: View, ms: seq<Message>, j: nat) returns (a: seq<Message>, b: seq<Message>)
    requires Consistent(v, Delivered(ms)) && j < |v.slots| && Wavering(v, Delivered(ms), j)
    ensures Delivered(a) == Delivered(b) == Delivered(ms)
    ensures |HandleAll(v, a).slots| == |HandleAll(v, b).slots| == |v.slots|
    ensures HandleAll(v, a).slots[j] != HandleAll(v, b).slots[j]
  {
    var all := Delivered(ms);
    var m :| m in all && Possible(v, all, j, m.claim.sender) && !Sure(v, all, j, m.claim.sender)
          && v.slots[j] != Some(m.claim.sender) && AboveSure(v, all, j, m.claim.epoch)
          && (v.slots[j].Some? ==> Known(v.epochs, v.slots[j].value) < m.claim.epoch);
    var u :| u in all && u.claim.sender == m.claim.sender && Says(v.me, u, j) && Heeded(v.epochs, u);
    a := Quiet(v.me, ms, j) + ms;
    b := [u] + a;
    QuietFirstSame(v.me, ms, j);
    DeliveredConcat([u], a);
    WaveringFails(v, ms, j, m.claim.sender);
    WaveringWins(v, ms, j, u);
  }

  /** Conversely, on a slot that is not settled the order decides: the condition of confluence is exact. */
  lemma UnsettledSlotDependsOnOrder(v: View, ms: seq<Message>, j: nat) returns (a: seq<Message>, b: seq<Message>)
    requires Consistent(v, Delivered(ms)) && j < |v.slots| && !Settled(v, Delivered(ms), j)
    ensures Delivered(a) == Delivered(b) == Delivered(ms)
    ensures |HandleAll(v, a).slots| == |HandleAll(v, b).slots| == |v.slots|
    ensures HandleAll(v, a).slots[j] != HandleAll(v, b).slots[j]
  {
    if Torn(v, Delivered(ms), j) {
      a, b := TornDependsOnOrder(v, ms, j);
    } else {
      a, b := WaveringDependsOnOrder(v, ms, j);
    }
  }

  ghost function OwnerAfter(v: View, ms: seq<Message>, j: nat): Option<NodeId>
    requires j < |v.slots|
  {
    SameSize(v, ms);
    HandleAll(v, ms).slots[j]
  }

  /** The owner of slot `j` after the messages is the same in every order, whatever is repeated. */
  ghost predicate OrderFree(v: View, ms: seq<Message>, j: nat)
    requires j < |v.slots|
  {
    forall a :: Delivered(a) == Delivered(ms) ==> OwnerAfter(v, a, j) == OwnerAfter(v, ms, j)
  }

  /** Confluence of one slot, and its exact condition. */
  lemma OrderFreeIffSettled(v: View, ms: seq<Message>, j: nat)
    requires Consistent(v, Delivered(ms)) && j < |v.slots|
    ensures OrderFree(v, ms, j) <==> Settled(v, Delivered(ms), j)
  {
    if Settled(v, Delivered(ms), j) {
      forall a | Delivered(a) == Delivered(ms)
        ensures OwnerAfter(v, a, j) == OwnerAfter(v, ms, j)
      {
        SameMessagesSameOwner(v, a, ms, j);
      }
    } else {
      var a, b := UnsettledSlotDependsOnOrder(v, ms, j);
      assert OwnerAfter(v, a, j) != OwnerAfter(v, b, j);
    }
  }

  // ---------- two unsettled slots ----------

  lemma TwoDeliveries(v: View, m: Message, d: Message)
    ensures HandleAll(v, [m, d]) == Handle(Handle(v, m), d) && Delivered([m, d]) == {m, d}
  {
    assert [m, d][..1] == [m] && [m][..0] == [];
    assert HandleAll(v, [m]) == Handle(HandleAll(v, []), m);
  }

  lemma TornOutcomes(v: View, claim: Message, silent: Message)
    requires v == View(0, [Some(1)], map[1 := 1])
    requires claim == Ping(Claim(2, 2, {0})) && silent == Ping(Claim(1, 3, {}))
    ensures HandleAll(v, [claim, silent]).slots == [Some(2)] && HandleAll(v, [silent, claim]).slots == [Some(1)]
  {
    TwoDeliveries(v, claim, silent);
    TwoDeliveries(v, silent, claim);
  }

  lemma WaveringOutcomes(v: View, report: Message, header: Message)
    requires v == View(0, [None], map[])
    requires report == Report(Claim(1, 5, {0})) && header == Header(Claim(1, 5, {}))
    ensures HandleAll(v, [report, header]).slots == [Some(1)] && HandleAll(v, [header, report]).slots == [None]
  {
    TwoDeliveries(v, report, header);
    TwoDeliveries(v, header, report);
  }

  /** Torn: node 1 owns slot 0 and is known with epoch 1; node 2 claims it under epoch 2, while node 1, which serves
      nothing any more, publishes epoch 3.  Heard in this order the slot goes to node 2; heard in the other it stays
      with node 1, though no claim says so. */
  lemma TornSlot() returns (v: View, claim: Message, silent: Message)
    ensures v == View(0, [Some(1)], map[1 := 1])
    ensures claim == Ping(Claim(2, 2, {0})) && silent == Ping(Claim(1, 3, {}))
    ensures Consistent(v, {claim, silent}) && Torn(v, {claim, silent}, 0)
    ensures HandleAll(v, [claim, silent]).slots == [Some(2)] && HandleAll(v, [silent, claim]).slots == [Some(1)]
  {
    v, claim, silent := View(0, [Some(1)], map[1 := 1]), Ping(Claim(2, 2, {0})), Ping(Claim(1, 3, {}));
    TornOutcomes(v, claim, silent);
    PingIsSure(v, {claim, silent}, 0, claim);
    SilentIsUnsure(v, {claim, silent}, 0, silent);
    assert AboveSure(v, {claim, silent}, 0, silent.claim.epoch);
  }

  lemma PingIsSure(v: View, all: set<Message>, j: nat, m: Message)
    requires m in all && m.Ping? && Says(v.me, m, j)
    ensures Sure(v, all, j, m.claim.sender)
  {
    assert Heeded(v.epochs, m);
  }

  lemma SilentIsUnsure(v: View, all: set<Message>, j: nat, m: Message)
    requires m in all && !Says(v.me, m, j)
    requires forall d <- all :: d.Ping? && d.claim.sender == m.claim.sender ==> !Says(v.me, d, j)
    ensures !Sure(v, all, j, m.claim.sender)
  {
  }

  /** Wavering: slot 0 is free and an UPDATE gives it to node 1 under epoch 5, unless a packet of node 1 has made that
      epoch known before. */
  lemma WaveringSlot() returns (v: View, report: Message, header: Message)
    ensures v == View(0, [None], map[])
    ensures report == Report(Claim(1, 5, {0})) && header == Header(Claim(1, 5, {}))
    ensures Consistent(v, {report, header}) && Wavering(v, {report, header}, 0)
    ensures HandleAll(v, [report, header]).slots == [Some(1)] && HandleAll(v, [header, report]).slots == [None]
  {
    v, report, header := View(0, [None], map[]), Report(Claim(1, 5, {0})), Header(Claim(1, 5, {}));
    WaveringOutcomes(v, report, header);
    SilentIsUnsure(v, {report, header}, 0, header);
    assert Says(v.me, report, 0) && Heeded(v.epochs, report);
    assert Possible(v, {report, header}, 0, report.claim.sender);
    assert AboveSure(v, {report, header}, 0, 5);
  }
}
