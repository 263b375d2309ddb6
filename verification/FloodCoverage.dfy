/** What flooding achieves: on a connected mesh every node processes a broadcast, exactly once, in any order of arrivals
    and whatever else goes on (src/bitchat/mesh/router.py, src/bitchat/app/session_coordinator.py). */
module FloodCoverage {
  import opened Wrappers
  import opened ByteStrings
  import opened Lists
  import opened OrderedDicts
  import opened Packets
  import opened Hex
  import opened Dedup
  import DedupProperties
  import opened RateLimiter
  import opened MeshRouting
  import opened Flood

  // ---- coverage ----

  /** The broadcast being followed. */
  datatype Broadcast = Broadcast(origin: Node, packet: BitchatPacket, start: real) {
    ghost predicate Valid(world: World) {
      && origin in world.nodes && packet.Valid() && packet.ttl >= 1
      && packet.senderId == origin && IsBroadcast(packet)
    }
  }

  /** The nodes that have the packet: the origin and those that processed it. */
  function Reached(b: Broadcast, processed: seq<Node>): set<Node> {
    {b.origin} + ToSet(processed)
  }

  /** A copy under way still has a hop for every node not reached, if hops were enough at the start. */
  ghost predicate CopyGood(world: World, b: Broadcast, reached: set<Node>, c: Copy)
    requires b.packet.Valid()
  {
    && CopyOf(b.packet, c.packet) && c.from in reached
    && world.Hops(c.packet.ttl) + |reached| >= world.Hops(b.packet.ttl) + 1
  }

  ghost predicate CopiesGood(world: World, b: Broadcast, reached: set<Node>, copies: seq<Copy>)
    requires b.packet.Valid()
  {
    forall j :: 0 <= j < |copies| ==> CopyGood(world, b, reached, copies[j])
  }

  /** Every neighbour of a reached node is reached or has a copy coming, unless all nodes are reached. */
  ghost predicate Pending(world: World, reached: set<Node>, copies: seq<Copy>)
    requires reached <= world.links.Keys
  {
    reached == world.nodes ||
    forall u, w :: u in reached && w in world.links[u] ==> w in reached || CopyTo(copies, w)
  }

  /** How far the flood has got. */
  ghost predicate Progress(world: World, b: Broadcast, net: Net)
    requires b.packet.Valid()
  {
    && Distinct(net.processed) && b.origin !in net.processed
    && Reached(b, net.processed) <= world.nodes && world.nodes == world.links.Keys
    && CopiesGood(world, b, Reached(b, net.processed), net.inflight)
    && Pending(world, Reached(b, net.processed), net.inflight)
  }

  ghost predicate CoverageInv(world: World, b: Broadcast, net: Net) {
    NetOk(world, net) && b.Valid(world) && Progress(world, b, net)
  }

  /** Hops enough to visit the nodes one after the other. */
  ghost predicate EnoughHops(world: World, b: Broadcast) {
    |world.nodes| <= world.Hops(b.packet.ttl) + 1
  }

  lemma SubsetFull(a: set<Node>, b: set<Node>)
    requires a <= b && |a| >= |b|
    ensures a == b
  {
    assert b == a + (b - a);
  }

  // ---- a copy that changes nothing: at the origin, or at a node already reached ----

  lemma CopiesGoodDrop(world: World, b: Broadcast, reached: set<Node>, copies: seq<Copy>, i: nat)
    requires b.packet.Valid() && i < |copies| && CopiesGood(world, b, reached, copies)
    ensures CopiesGood(world, b, reached, Drop(copies, i))
  {
    var rest := Drop(copies, i);
    assert forall j :: 0 <= j < |rest| ==> rest[j] == copies[if j < i then j else j + 1];
  }

  lemma PendingDrop(world: World, reached: set<Node>, copies: seq<Copy>, i: nat)
    requires reached <= world.links.Keys && i < |copies| && copies[i].to in reached && Pending(world, reached, copies)
    ensures Pending(world, reached, Drop(copies, i))
  {
    forall u, w | u in reached && w in world.links[u] && reached != world.nodes && w !in reached
      ensures CopyTo(Drop(copies, i), w)
    {
      CopyToDrop(copies, i, w);
    }
  }

  /** The node that a copy arrives at takes it for new. */
  ghost predicate TakenForNew(world: World, b: Broadcast, net: Net, i: nat, now: real)
    requires NetOk(world, net) && b.packet.Valid() && i < |net.inflight|
  {
    var v := net.inflight[i].to;
    v != b.origin && Unaware(world, net.routers[v], b.packet, now)
  }

  /** A delivery of a copy that is not taken for new changes nothing but that node's rate limiter, and takes the copy
      away. */
  lemma QuietDelivery(world: World, b: Broadcast, net: Net, i: nat, now: real, sentAt: real)
    requires NetOk(world, net) && b.Valid(world) && i < |net.inflight| && CopyOf(b.packet, net.inflight[i].packet)
    requires !TakenForNew(world, b, net, i, now)
    ensures var c := net.inflight[i];
            var st := Handle(world, net.routers[c.to], c, now, sentAt).0;
            && Deliver(world, net, i, now, sentAt) == Net(net.routers[c.to := st], Drop(net.inflight, i), net.processed)
            && st == net.routers[c.to].(stamps := st.stamps)
  {
    var c := net.inflight[i];
    if c.to == b.origin {
      BackAtSender(world, net.routers[c.to], b.packet, c, now, sentAt);
    } else {
      LaterArrival(world, net.routers[c.to], b.packet, c, now, sentAt);
    }
    assert Drop(net.inflight, i) + [] == Drop(net.inflight, i);
    assert net.processed + [] == net.processed;
  }

  /** A copy that comes to a node already reached. */
  lemma QuietArrival(world: World, b: Broadcast, net: Net, i: nat, now: real, sentAt: real)
    requires CoverageInv(world, b, net) && i < |net.inflight|
    requires net.inflight[i].to in Reached(b, net.processed) && !TakenForNew(world, b, net, i, now)
    ensures CoverageInv(world, b, Deliver(world, net, i, now, sentAt))
  {
    assert CopyGood(world, b, Reached(b, net.processed), net.inflight[i]);
    DeliverOk(world, net, i, now, sentAt);
    QuietDelivery(world, b, net, i, now, sentAt);
    CopiesGoodDrop(world, b, Reached(b, net.processed), net.inflight, i);
    PendingDrop(world, Reached(b, net.processed), net.inflight, i);
  }

  // ---- a copy that reaches a new node ----

  lemma CopiesGoodGrow(world: World, b: Broadcast, reached: set<Node>, v: Node, copies: seq<Copy>)
    requires b.packet.Valid() && v !in reached && CopiesGood(world, b, reached, copies)
    ensures CopiesGood(world, b, reached + {v}, copies)
  {
    forall j | 0 <= j < |copies| ensures CopyGood(world, b, reached + {v}, copies[j]) {
      assert CopyGood(world, b, reached, copies[j]);
    }
  }

  /** The copies a new node sends on are good: one hop less, one node more. */
  lemma RelayedGood(world: World, b: Broadcast, reached: set<Node>, v: Node, c: Copy, q: BitchatPacket)
    requires world.Valid() && b.Valid(world) && v in world.nodes && v !in reached && c.to == v
    requires CopyGood(world, b, reached, c)
    requires world.Reach(c.packet.ttl) > 1 && q == b.packet.(ttl := world.Reach(c.packet.ttl) - 1)
    ensures CopiesGood(world, b, reached + {v}, Copies(v, world.links[v], Some(c.from), q))
  {
    CopiesSent(v, world.links[v], Some(c.from), q);
    var copies := Copies(v, world.links[v], Some(c.from), q);
    forall j | 0 <= j < |copies| ensures CopyGood(world, b, reached + {v}, copies[j]) {
      assert copies[j].packet == q && copies[j].from == v;
    }
  }

  /** After a new node relays, its neighbours too are reached or have a copy coming. */
  lemma PendingGrow(world: World, reached: set<Node>, copies: seq<Copy>, i: nat, q: BitchatPacket)
    requires world.Valid() && reached <= world.nodes && i < |copies| && Pending(world, reached, copies)
    requires copies[i].to in world.nodes && copies[i].from in reached
    ensures var v := copies[i].to;
            Pending(world, reached + {v}, Drop(copies, i) + Copies(v, world.links[v], Some(copies[i].from), q))
  {
    var c := copies[i];
    var v := c.to;
    var sent := Copies(v, world.links[v], Some(c.from), q);
    var after := Drop(copies, i) + sent;
    if reached + {v} != world.nodes && reached != world.nodes {
      forall u, w | u in reached + {v} && w in world.links[u] && w !in reached + {v}
        ensures CopyTo(after, w)
      {
        CopyToAppend(Drop(copies, i), sent, w);
        if u in reached {
          CopyToDrop(copies, i, w);
        } else {
          CopyToEveryNeighbour(v, world.links[v], Some(c.from), q, w);
        }
      }
    }
  }

  /** When hops run out, all nodes are reached. */
  lemma LastHop(world: World, b: Broadcast, reached: set<Node>, v: Node, c: Copy)
    requires b.packet.Valid() && v !in reached && reached + {v} <= world.nodes && CopyGood(world, b, reached, c)
    requires EnoughHops(world, b) && world.Hops(c.packet.ttl) <= 1
    ensures reached + {v} == world.nodes
  {
    SubsetFull(reached + {v}, world.nodes);
  }

  /** What a node that is reached for the first time sends on. */
  function Onward(world: World, b: Broadcast, c: Copy): seq<Copy>
    requires c.to in world.links
  {
    if world.Reach(c.packet.ttl) > 1
    then Copies(c.to, world.links[c.to], Some(c.from), b.packet.(ttl := world.Reach(c.packet.ttl) - 1))
    else []
  }

  /** A copy that is taken for new is processed, put on record and sent on. */
  lemma NewDelivery(world: World, b: Broadcast, net: Net, i: nat, now: real, sentAt: real)
    requires NetOk(world, net) && b.Valid(world) && i < |net.inflight| && CopyOf(b.packet, net.inflight[i].packet)
    requires TakenForNew(world, b, net, i, now)
    ensures var c := net.inflight[i];
            var st := Handle(world, net.routers[c.to], c, now, sentAt).0;
            && Deliver(world, net, i, now, sentAt)
               == Net(net.routers[c.to := st], Drop(net.inflight, i) + Onward(world, b, c), net.processed + [c.to])
            && (OnRecord(world, st, b.packet, now) || OnRecord(world, st, b.packet, sentAt))
  {
    FirstArrival(world, net.routers[net.inflight[i].to], b.packet, net.inflight[i], now, sentAt);
  }

  lemma ReachedGrow(b: Broadcast, processed: seq<Node>, v: Node)
    ensures Reached(b, processed + [v]) == Reached(b, processed) + {v}
  {}

  lemma NewProgress(world: World, b: Broadcast, net: Net, i: nat, st: RouterState)
    requires world.Valid() && b.Valid(world) && Progress(world, b, net) && EnoughHops(world, b) && i < |net.inflight|
    requires net.inflight[i].to in world.nodes && net.inflight[i].to !in Reached(b, net.processed)
    ensures var c := net.inflight[i];
            var inflight := Drop(net.inflight, i) + Onward(world, b, c);
            Progress(world, b, Net(net.routers[c.to := st], inflight, net.processed + [c.to]))
  {
    var c := net.inflight[i];
    var v, reached := c.to, Reached(b, net.processed);
    assert CopyGood(world, b, reached, c);
    ReachedGrow(b, net.processed, v);
    DistinctAppend(net.processed, v);
    OnwardGood(world, b, reached, net.inflight, i);
    OnwardPending(world, b, reached, net.inflight, i);
  }

  lemma OnwardGood(world: World, b: Broadcast, reached: set<Node>, copies: seq<Copy>, i: nat)
    requires world.Valid() && b.Valid(world) && i < |copies| && CopiesGood(world, b, reached, copies)
    requires copies[i].to in world.nodes && copies[i].to !in reached
    ensures CopiesGood(world, b, reached + {copies[i].to}, Drop(copies, i) + Onward(world, b, copies[i]))
  {
    var c := copies[i];
    assert CopyGood(world, b, reached, c);
    CopiesGoodGrow(world, b, reached, c.to, copies);
    CopiesGoodDrop(world, b, reached + {c.to}, copies, i);
    if world.Reach(c.packet.ttl) > 1 {
      RelayedGood(world, b, reached, c.to, c, b.packet.(ttl := world.Reach(c.packet.ttl) - 1));
    }
  }

  lemma OnwardPending(world: World, b: Broadcast, reached: set<Node>, copies: seq<Copy>, i: nat)
    requires world.Valid() && b.Valid(world) && EnoughHops(world, b) && i < |copies|
    requires reached <= world.nodes && Pending(world, reached, copies)
    requires copies[i].to in world.nodes && copies[i].to !in reached && CopyGood(world, b, reached, copies[i])
    ensures Pending(world, reached + {copies[i].to}, Drop(copies, i) + Onward(world, b, copies[i]))
  {
    var c := copies[i];
    if world.Reach(c.packet.ttl) > 1 {
      PendingGrow(world, reached, copies, i, b.packet.(ttl := world.Reach(c.packet.ttl) - 1));
    } else {
      LastHop(world, b, reached, c.to, c);
    }
  }

  lemma NewNodeArrival(world: World, b: Broadcast, net: Net, i: nat, now: real, sentAt: real)
    requires CoverageInv(world, b, net) && EnoughHops(world, b) && i < |net.inflight|
    requires net.inflight[i].to !in Reached(b, net.processed) && TakenForNew(world, b, net, i, now)
    ensures CoverageInv(world, b, Deliver(world, net, i, now, sentAt))
  {
    var c := net.inflight[i];
    assert CopyGood(world, b, Reached(b, net.processed), c);
    DeliverOk(world, net, i, now, sentAt);
    NewDelivery(world, b, net, i, now, sentAt);
    NewProgress(world, b, net, i, Handle(world, net.routers[c.to], c, now, sentAt).0);
  }

  /** The event is not the arrival of a copy at a node not reached that refuses it. */
  ghost predicate KeepsFirst(world: World, b: Broadcast, net: Net, e: Event)
    requires NetOk(world, net) && b.packet.Valid() && Possible(world, net, e)
  {
    e.Arrives? && net.inflight[e.index].to !in Reached(b, net.processed) ==> TakenForNew(world, b, net, e.index, e.now)
  }

  /** The event is not the arrival of a copy at a node reached that takes it for new all the same. */
  ghost predicate DropsLater(world: World, b: Broadcast, net: Net, e: Event)
    requires NetOk(world, net) && b.packet.Valid() && Possible(world, net, e)
  {
    e.Arrives? && net.inflight[e.index].to in Reached(b, net.processed) ==> !TakenForNew(world, b, net, e.index, e.now)
  }

  /** Every such event keeps the invariant, and so does anything else that happens at the nodes. */
  lemma NextKeepsCoverage(world: World, b: Broadcast, net: Net, e: Event)
    requires CoverageInv(world, b, net) && EnoughHops(world, b) && Possible(world, net, e)
    requires KeepsFirst(world, b, net, e) && DropsLater(world, b, net, e)
    ensures CoverageInv(world, b, Next(world, net, e))
  {
    NextOk(world, net, e);
    match e
    case Arrives(i, now, sentAt) =>
      if net.inflight[i].to in Reached(b, net.processed) {
        QuietArrival(world, b, net, i, now, sentAt);
      } else {
        NewNodeArrival(world, b, net, i, now, sentAt);
      }
    case Meanwhile(_, _) =>
  }

  /** No node refuses the first copy that reaches it: neither has it the packet on record from elsewhere, nor does its
      rate limiter refuse the sender. */
  ghost predicate AllKeepFirst(world: World, b: Broadcast, net: Net, events: seq<Event>)
    requires NetOk(world, net) && b.packet.Valid() && Runs(world, net, events)
    decreases events
  {
    events == [] ||
    (&& KeepsFirst(world, b, net, events[0])
     && (NextOk(world, net, events[0]); AllKeepFirst(world, b, Next(world, net, events[0]), events[1..])))
  }

  /** No node takes a copy for new after it has processed one. */
  ghost predicate AllDropLater(world: World, b: Broadcast, net: Net, events: seq<Event>)
    requires NetOk(world, net) && b.packet.Valid() && Runs(world, net, events)
    decreases events
  {
    events == [] ||
    (&& DropsLater(world, b, net, events[0])
     && (NextOk(world, net, events[0]); AllDropLater(world, b, Next(world, net, events[0]), events[1..])))
  }

  lemma {:induction false} RunKeepsCoverage(world: World, b: Broadcast, net: Net, events: seq<Event>)
    requires CoverageInv(world, b, net) && EnoughHops(world, b) && Runs(world, net, events)
    requires AllKeepFirst(world, b, net, events) && AllDropLater(world, b, net, events)
    ensures CoverageInv(world, b, Final(world, net, events))
    decreases events
  {
    if events != [] {
      NextKeepsCoverage(world, b, net, events[0]);
      RunKeepsCoverage(world, b, Next(world, net, events[0]), events[1..]);
    }
  }

  // ---- a node that processes the packet twice ----

  /** Every copy under way is of the packet. */
  ghost predicate AllCopiesOf(p: BitchatPacket, copies: seq<Copy>) {
    forall j :: 0 <= j < |copies| ==> CopyOf(p, copies[j].packet)
  }

  lemma OnwardCopies(world: World, b: Broadcast, copies: seq<Copy>, i: nat)
    requires world.Valid() && b.Valid(world) && i < |copies| && copies[i].to in world.nodes
    requires AllCopiesOf(b.packet, copies)
    ensures AllCopiesOf(b.packet, Drop(copies, i))
    ensures AllCopiesOf(b.packet, Drop(copies, i) + Onward(world, b, copies[i]))
  {
    var rest := Drop(copies, i);
    assert forall j :: 0 <= j < |rest| ==> rest[j] == copies[if j < i then j else j + 1];
    CopiesSent(copies[i].to, world.links[copies[i].to], Some(copies[i].from),
               b.packet.(ttl := world.Reach(copies[i].packet.ttl) - 1));
  }

  /** An event puts a node at the end of the list of those that processed the packet exactly if it takes a copy for
      new. */
  lemma NextProcesses(world: World, b: Broadcast, net: Net, e: Event)
    requires NetOk(world, net) && b.Valid(world) && AllCopiesOf(b.packet, net.inflight) && Possible(world, net, e)
    ensures AllCopiesOf(b.packet, Next(world, net, e).inflight)
    ensures Next(world, net, e).processed
            == if e.Arrives? && TakenForNew(world, b, net, e.index, e.now)
               then net.processed + [net.inflight[e.index].to] else net.processed
  {
    if e.Arrives? {
      OnwardCopies(world, b, net.inflight, e.index);
      if TakenForNew(world, b, net, e.index, e.now) {
        NewDelivery(world, b, net, e.index, e.now, e.sentAt);
      } else {
        QuietDelivery(world, b, net, e.index, e.now, e.sentAt);
      }
    }
  }

  lemma NextGrows(world: World, b: Broadcast, net: Net, e: Event)
    requires NetOk(world, net) && b.Valid(world) && AllCopiesOf(b.packet, net.inflight) && Possible(world, net, e)
    ensures NetOk(world, Next(world, net, e)) && AllCopiesOf(b.packet, Next(world, net, e).inflight)
    ensures net.processed <= Next(world, net, e).processed
  {
    NextOk(world, net, e);
    NextProcesses(world, b, net, e);
  }

  /** The list of those that processed the packet only grows. */
  lemma {:induction false} ProcessedGrows(world: World, b: Broadcast, net: Net, events: seq<Event>)
    requires NetOk(world, net) && b.Valid(world) && AllCopiesOf(b.packet, net.inflight) && Runs(world, net, events)
    ensures net.processed <= Final(world, net, events).processed
    decreases events
  {
    if events != [] {
      NextGrows(world, b, net, events[0]);
      ProcessedGrows(world, b, Next(world, net, events[0]), events[1..]);
    }
  }

  lemma {:induction false} PrefixDistinct(a: seq<Node>, b: seq<Node>)
    requires a <= b && Distinct(b)
    ensures Distinct(a)
  {
    if a != [] {
      PrefixDistinct(a[1..], b[1..]);
    }
  }

  lemma OnceMore(world: World, b: Broadcast, net: Net, e: Event)
    requires NetOk(world, net) && b.Valid(world) && AllCopiesOf(b.packet, net.inflight) && Possible(world, net, e)
    requires Distinct(net.processed) && b.origin !in net.processed && DropsLater(world, b, net, e)
    ensures var t := Next(world, net, e);
            AllCopiesOf(b.packet, t.inflight) && Distinct(t.processed) && b.origin !in t.processed
  {
    NextProcesses(world, b, net, e);
    if e.Arrives? && TakenForNew(world, b, net, e.index, e.now) {
      DistinctAppend(net.processed, net.inflight[e.index].to);
    }
  }

  lemma {:induction false} NotDistinct(processed: seq<Node>, v: Node)
    requires v in processed
    ensures !Distinct(processed + [v])
  {
    var longer := processed + [v];
    assert longer[1..] == processed[1..] + [v];
    if processed[0] != v {
      NotDistinct(processed[1..], v);
    }
  }

  /** The node that takes a later copy for new is in the list already. */
  lemma ReachedAgain(world: World, b: Broadcast, net: Net, e: Event)
    requires NetOk(world, net) && b.packet.Valid() && Possible(world, net, e) && !DropsLater(world, b, net, e)
    ensures e.Arrives? && TakenForNew(world, b, net, e.index, e.now)
    ensures !Distinct(net.processed + [net.inflight[e.index].to])
  {
    assert net.inflight[e.index].to in net.processed;
    NotDistinct(net.processed, net.inflight[e.index].to);
  }

  lemma TwiceStays(world: World, b: Broadcast, net: Net, events: seq<Event>)
    requires NetOk(world, net) && b.Valid(world) && AllCopiesOf(b.packet, net.inflight) && Runs(world, net, events)
    requires !Distinct(net.processed)
    ensures !Distinct(Final(world, net, events).processed)
  {
    ProcessedGrows(world, b, net, events);
    if Distinct(Final(world, net, events).processed) {
      PrefixDistinct(net.processed, Final(world, net, events).processed);
    }
  }

  /** Whatever else happens, no node processes the packet twice exactly if none takes a later copy for new. */
  lemma {:induction false} TwiceExactly(world: World, b: Broadcast, net: Net, events: seq<Event>)
    requires NetOk(world, net) && b.Valid(world) && AllCopiesOf(b.packet, net.inflight) && Runs(world, net, events)
    requires Distinct(net.processed) && b.origin !in net.processed
    ensures Distinct(Final(world, net, events).processed) <==> AllDropLater(world, b, net, events)
    decreases events
  {
    if events != [] {
      var e := events[0];
      NextOk(world, net, e);
      if DropsLater(world, b, net, e) {
        OnceMore(world, b, net, e);
        TwiceExactly(world, b, Next(world, net, e), events[1..]);
      } else {
        NextProcesses(world, b, net, e);
        ReachedAgain(world, b, net, e);
        TwiceStays(world, b, Next(world, net, e), events[1..]);
      }
    }
  }

  // ---- the launch ----

  /** The routers of a mesh to which the packet is new and where the sender may send. */
  ghost predicate Quiet(world: World, b: Broadcast, routers: map<Node, RouterState>)
    requires b.packet.Valid()
  {
    forall v :: v in routers && v != b.origin ==> Unaware(world, routers[v], b.packet, b.start)
  }

  lemma LaunchOk(world: World, b: Broadcast, routers: map<Node, RouterState>)
    requires world.Valid() && b.Valid(world) && routers.Keys == world.nodes
    requires forall v :: v in world.nodes ==> RouterOk(world, routers[v])
    ensures NetOk(world, Launch(world, routers, b.origin, b.packet, b.start))
  {
    DedupProperties.RecordKeepsInvariant(routers[b.origin].cache, world.dedup, PacketId(world.hash, b.packet), b.start);
    CopiesSent(b.origin, world.links[b.origin], None, b.packet);
  }

  lemma LaunchCopiesGood(world: World, b: Broadcast)
    requires world.Valid() && b.Valid(world)
    ensures CopiesGood(world, b, {b.origin}, Copies(b.origin, world.links[b.origin], None, b.packet))
  {
    CopiesSent(b.origin, world.links[b.origin], None, b.packet);
    assert b.packet == b.packet.(ttl := b.packet.ttl);
  }

  lemma LaunchPending(world: World, b: Broadcast)
    requires world.Valid() && b.Valid(world)
    ensures Pending(world, {b.origin}, Copies(b.origin, world.links[b.origin], None, b.packet))
  {
    forall u, w | u in {b.origin} && w in world.links[u]
      ensures CopyTo(Copies(b.origin, world.links[b.origin], None, b.packet), w)
    {
      CopyToEveryNeighbour(b.origin, world.links[b.origin], None, b.packet, w);
    }
  }

  lemma LaunchProgress(world: World, b: Broadcast, routers: map<Node, RouterState>)
    requires world.Valid() && b.Valid(world) && b.origin in routers
    ensures Progress(world, b, Launch(world, routers, b.origin, b.packet, b.start))
  {
    var net := Launch(world, routers, b.origin, b.packet, b.start);
    assert Reached(b, net.processed) == {b.origin};
    LaunchCopiesGood(world, b);
    LaunchPending(world, b);
  }

  /** A walk along links. */
  ghost predicate IsWalk(world: World, walk: seq<Node>)
    decreases walk
  {
    && walk != [] && walk[0] in world.links
    && (|walk| == 1 || (walk[1] in world.links[walk[0]] && IsWalk(world, walk[1..])))
  }

  ghost predicate Linked(world: World, a: Node, z: Node) {
    exists walk :: IsWalk(world, walk) && walk[0] == a && walk[|walk| - 1] == z
  }

  /** Every node can be walked to from the origin. */
  ghost predicate ConnectedFrom(world: World, origin: Node) {
    forall v :: v in world.nodes ==> Linked(world, origin, v)
  }

  /** No link leads out of the set. */
  ghost predicate ClosedUnderLinks(world: World, reached: set<Node>)
    requires reached <= world.links.Keys
  {
    forall u, w :: u in reached && w in world.links[u] ==> w in reached
  }

  lemma {:induction false} WalkStaysReached(world: World, reached: set<Node>, walk: seq<Node>)
    requires IsWalk(world, walk) && reached <= world.links.Keys && walk[0] in reached
    requires ClosedUnderLinks(world, reached)
    ensures walk[|walk| - 1] in reached
    decreases walk
  {
    if |walk| > 1 {
      WalkStaysReached(world, reached, walk[1..]);
    }
  }

  lemma NothingPending(world: World, reached: set<Node>)
    requires reached <= world.links.Keys && Pending(world, reached, []) && reached != world.nodes
    ensures ClosedUnderLinks(world, reached)
  {}

  /** With nothing under way any more, all nodes of a connected mesh are reached. */
  lemma AllReachedAtTheEnd(world: World, b: Broadcast, net: Net)
    requires b.packet.Valid() && Progress(world, b, net) && net.inflight == [] && ConnectedFrom(world, b.origin)
    ensures Reached(b, net.processed) == world.nodes
  {
    var reached := Reached(b, net.processed);
    if reached != world.nodes {
      NothingPending(world, reached);
      forall v | v in world.nodes ensures v in reached {
        WalkReaches(world, b.origin, reached, v);
      }
    }
  }

  lemma WalkReaches(world: World, origin: Node, reached: set<Node>, v: Node)
    requires reached <= world.links.Keys && ClosedUnderLinks(world, reached) && origin in reached
    requires Linked(world, origin, v)
    ensures v in reached
  {
    var walk :| IsWalk(world, walk) && walk[0] == origin && walk[|walk| - 1] == v;
    WalkStaysReached(world, reached, walk);
  }

  /** A run from the launch of the broadcast, in any order of arrivals and with anything in between. */
  ghost predicate RunFromLaunch(world: World, b: Broadcast, routers: map<Node, RouterState>, events: seq<Event>) {
    && world.Valid() && b.Valid(world) && routers.Keys == world.nodes
    && (forall v :: v in world.nodes ==> RouterOk(world, routers[v]))
    && (LaunchOk(world, b, routers); Runs(world, Launched(world, b, routers), events))
  }

  function Launched(world: World, b: Broadcast, routers: map<Node, RouterState>): Net
    requires world.Valid() && b.origin in world.nodes && b.origin in routers && b.packet.Valid()
  {
    Launch(world, routers, b.origin, b.packet, b.start)
  }

  /** The net after such a run. */
  ghost function Outcome(world: World, b: Broadcast, routers: map<Node, RouterState>, events: seq<Event>): Net
    requires RunFromLaunch(world, b, routers, events)
  {
    LaunchOk(world, b, routers);
    Final(world, Launched(world, b, routers), events)
  }

  /** No node refuses the first copy, over such a run. */
  ghost predicate NoneRefused(world: World, b: Broadcast, routers: map<Node, RouterState>, events: seq<Event>)
    requires RunFromLaunch(world, b, routers, events)
  {
    LaunchOk(world, b, routers);
    AllKeepFirst(world, b, Launched(world, b, routers), events)
  }

  /** No node takes a later copy for new, over such a run. */
  ghost predicate NoneRepeated(world: World, b: Broadcast, routers: map<Node, RouterState>, events: seq<Event>)
    requires RunFromLaunch(world, b, routers, events)
  {
    LaunchOk(world, b, routers);
    AllDropLater(world, b, Launched(world, b, routers), events)
  }

  /** Every node but the origin is in the list of those that processed the packet, and none twice. */
  ghost predicate Covered(world: World, b: Broadcast, processed: seq<Node>) {
    && Distinct(processed) && b.origin !in processed
    && forall v :: v in world.nodes && v != b.origin ==> v in processed
  }

  /** Flood coverage, whatever else goes on in the mesh. On a static connected mesh of n nodes, let a broadcast set out
      with n <= ttl + 1 (and the relay ceiling likewise), and no node refuse the first copy that reaches it. Then in
      every asynchronous run that delivers all copies every node but the origin processes the broadcast exactly once, if
      and only if no node takes a later copy for new. */
  lemma CoversExactly(world: World, b: Broadcast, routers: map<Node, RouterState>, events: seq<Event>)
    requires RunFromLaunch(world, b, routers, events) && NoneRefused(world, b, routers, events)
    requires EnoughHops(world, b) && ConnectedFrom(world, b.origin)
    requires Outcome(world, b, routers, events).inflight == []
    ensures Covered(world, b, Outcome(world, b, routers, events).processed) <==> NoneRepeated(world, b, routers, events)
  {
    var net := Launched(world, b, routers);
    LaunchOk(world, b, routers);
    LaunchProgress(world, b, routers);
    LaunchCopies(world, b);
    TwiceExactly(world, b, net, events);
    if NoneRepeated(world, b, routers, events) {
      RunKeepsCoverage(world, b, net, events);
      CoveredAtTheEnd(world, b, Final(world, net, events));
    }
  }

  lemma LaunchCopies(world: World, b: Broadcast)
    requires world.Valid() && b.Valid(world)
    ensures AllCopiesOf(b.packet, Copies(b.origin, world.links[b.origin], None, b.packet))
  {
    CopiesSent(b.origin, world.links[b.origin], None, b.packet);
    assert b.packet == b.packet.(ttl := b.packet.ttl);
  }

  lemma CoveredAtTheEnd(world: World, b: Broadcast, net: Net)
    requires b.packet.Valid() && Progress(world, b, net) && net.inflight == [] && ConnectedFrom(world, b.origin)
    ensures Covered(world, b, net.processed)
  {
    AllReachedAtTheEnd(world, b, net);
    forall v | v in world.nodes && v != b.origin ensures v in net.processed {
      assert v in Reached(b, net.processed);
    }
  }

  // ---- when nothing is refused or repeated ----

  ghost predicate InWindow(world: World, b: Broadcast, time: real) {
    b.start <= time <= b.start + world.dedup.entryTtl
  }

  /** The node has the packet on record, from the time since the start. */
  ghost predicate Aware(world: World, b: Broadcast, st: RouterState)
    requires b.packet.Valid()
  {
    var id := PacketId(world.hash, b.packet);
    id in st.cache.vals && InWindow(world, b, st.cache.vals[id])
  }

  /** The node with this state knows of the packet exactly if it has been reached (the origin apart). */
  ghost predicate Agrees(world: World, b: Broadcast, v: Node, st: RouterState, processed: seq<Node>)
    requires b.packet.Valid()
  {
    v != b.origin ==> if v in processed then Aware(world, b, st) else Unaware(world, st, b.packet, b.start)
  }

  ghost predicate RoutersAgree(world: World, b: Broadcast, routers: map<Node, RouterState>, processed: seq<Node>)
    requires b.packet.Valid()
  {
    forall v :: v in routers ==> Agrees(world, b, v, routers[v], processed)
  }

  /** The event comes within the life of a duplicate entry. Anything else that happens at a node leaves the packet on
      record if it was, and keeps it new otherwise, with the sender allowed to send. */
  ghost predicate LeavesAlone(world: World, b: Broadcast, net: Net, e: Event)
    requires NetOk(world, net) && b.packet.Valid() && Possible(world, net, e)
  {
    match e
    case Arrives(_, now, sentAt) => InWindow(world, b, now) && InWindow(world, b, sentAt)
    case Meanwhile(v, st) =>
      Agrees(world, b, v, net.routers[v], net.processed) ==> Agrees(world, b, v, st, net.processed)
  }

  /** A packet of another sender, and with another id, does so unless it pushes this one out of a full cache. */
  lemma OtherPacketsLeaveAlone(
      world: World, b: Broadcast, net: Net, v: Node, q: BitchatPacket, ingress: Option<string>, now: real)
    requires NetOk(world, net) && b.Valid(world) && v in world.nodes && q.Valid()
    requires q.senderId != b.origin && PacketId(world.hash, q) != PacketId(world.hash, b.packet)
    requires var c := net.routers[v].cache;
             |c.keys| < world.dedup.maxEntries || c.keys[0] != PacketId(world.hash, b.packet)
    ensures var e := Meanwhile(v, Evaluate(world.hash, world.ConfigOf(v), net.routers[v], q, ingress, now).0);
            Possible(world, net, e) && LeavesAlone(world, b, net, e)
  {
    EvaluateOk(world, v, net.routers[v], q, ingress, now);
    OtherPacketsInCache(world, b, v, net.routers[v], q, ingress, now);
    OtherPacketsInLimiter(world, b, v, net.routers[v], q, ingress, now);
    var st := Evaluate(world.hash, world.ConfigOf(v), net.routers[v], q, ingress, now).0;
    if Agrees(world, b, v, net.routers[v], net.processed) {
      SameAgrees(world, b, v, net.routers[v], st, net.processed);
    }
  }

  lemma OtherPacketsInCache(
      world: World, b: Broadcast, v: Node, st: RouterState, q: BitchatPacket, ingress: Option<string>, now: real)
    requires world.Valid() && RouterOk(world, st) && b.packet.Valid() && q.Valid()
    requires var id := PacketId(world.hash, b.packet);
             PacketId(world.hash, q) != id && (|st.cache.keys| < world.dedup.maxEntries || st.cache.keys[0] != id)
    ensures SameEntry(st.cache, Evaluate(world.hash, world.ConfigOf(v), st, q, ingress, now).0.cache,
                      PacketId(world.hash, b.packet))
  {
    EvaluateShape(world.hash, world.ConfigOf(v), st, q, ingress, now);
    OtherIdsStay(st.cache, world.dedup, PacketId(world.hash, q), PacketId(world.hash, b.packet), now);
  }

  lemma OtherPacketsInLimiter(
      world: World, b: Broadcast, v: Node, st: RouterState, q: BitchatPacket, ingress: Option<string>, now: real)
    requires st.routes.Valid() && q.Valid() && q.senderId != b.packet.senderId
    ensures LetsThrough(world, st, b.packet, b.start) ==>
              LetsThrough(world, Evaluate(world.hash, world.ConfigOf(v), st, q, ingress, now).0, b.packet, b.start)
  {
    OtherSendersStay(world, st, q, b, now);
  }

  lemma SameAgrees(world: World, b: Broadcast, v: Node, st: RouterState, st': RouterState, processed: seq<Node>)
    requires b.packet.Valid() && Agrees(world, b, v, st, processed)
    requires SameEntry(st.cache, st'.cache, PacketId(world.hash, b.packet))
    requires LetsThrough(world, st, b.packet, b.start) ==> LetsThrough(world, st', b.packet, b.start)
    ensures Agrees(world, b, v, st', processed)
  {}

  lemma OtherIdsStay(c: Cache, bounds: Bounds, id: Bytes, other: Bytes, now: real)
    requires bounds.Valid() && DedupProperties.CacheInv(c, bounds) && id != other
    requires |c.keys| < bounds.maxEntries || c.keys[0] != other
    ensures var once := CheckAndRecord(c, bounds, id, now).0;
            && SameEntry(c, once, other) && SameEntry(c, Record(once, bounds, id, now), other)
  {
    var checked := CheckId(c, bounds, id, now).0;
    c.DeleteValid(id);
    DedupProperties.RecordKeepsInvariant(checked, bounds, id, now);
  }

  ghost predicate SameEntry(c: Cache, d: Cache, id: Bytes) {
    (id in c.vals <==> id in d.vals) && (id in c.vals ==> c.vals[id] == d.vals[id])
  }

  lemma OtherSendersStay(world: World, st: RouterState, q: BitchatPacket, b: Broadcast, now: real)
    requires q.senderId != b.packet.senderId
    ensures var l := Limit(world.rateLimit, ROUTER_PRUNE_ABOVE);
            var stamps := Ask(st.stamps, l, ToHex(q.senderId), now).0;
            LetsIn(st.stamps, l, ToHex(b.packet.senderId), b.start) ==>
              LetsIn(stamps, l, ToHex(b.packet.senderId), b.start)
  {
    HexRoundTrip(q.senderId);
    HexRoundTrip(b.packet.senderId);
  }

  ghost predicate Undisturbed(world: World, b: Broadcast, net: Net, events: seq<Event>)
    requires NetOk(world, net) && b.packet.Valid() && Runs(world, net, events)
    decreases events
  {
    events == [] ||
    (&& LeavesAlone(world, b, net, events[0])
     && (NextOk(world, net, events[0]); Undisturbed(world, b, Next(world, net, events[0]), events[1..])))
  }

  /** As time goes by, a packet that is new stays so. */
  lemma UnawareLater(world: World, st: RouterState, p: BitchatPacket, start: real, now: real)
    requires p.Valid() && Unaware(world, st, p, start) && start <= now
    ensures Unaware(world, st, p, now)
  {
    RecentShrinks(TimesOf(st.stamps, ToHex(p.senderId)), start, now);
  }

  /** Routers that agree refuse no first copy and take no later one for new. */
  lemma AgreeingDecide(world: World, b: Broadcast, net: Net, e: Event)
    requires NetOk(world, net) && b.Valid(world) && Possible(world, net, e)
    requires RoutersAgree(world, b, net.routers, net.processed) && LeavesAlone(world, b, net, e)
    ensures KeepsFirst(world, b, net, e) && DropsLater(world, b, net, e)
  {
    if e.Arrives? {
      var v := net.inflight[e.index].to;
      assert Agrees(world, b, v, net.routers[v], net.processed);
      if v !in Reached(b, net.processed) {
        UnawareLater(world, net.routers[v], b.packet, b.start, e.now);
      }
    }
  }

  /** And they go on agreeing. */
  lemma AgreeingGoOn(world: World, b: Broadcast, net: Net, e: Event)
    requires NetOk(world, net) && b.Valid(world) && Possible(world, net, e)
    requires e.Arrives? ==> CopyOf(b.packet, net.inflight[e.index].packet)
    requires RoutersAgree(world, b, net.routers, net.processed) && LeavesAlone(world, b, net, e)
    ensures RoutersAgree(world, b, Next(world, net, e).routers, Next(world, net, e).processed)
  {
    if e.Arrives? {
      AgreeingDecide(world, b, net, e);
      if TakenForNew(world, b, net, e.index, e.now) {
        NewDelivery(world, b, net, e.index, e.now, e.sentAt);
        RoutersAgreeGrow(world, b, net, e);
      } else {
        QuietDelivery(world, b, net, e.index, e.now, e.sentAt);
        QuietAgrees(world, b, net, e);
      }
    }
  }

  /** The node that takes the copy for new has it on record now. */
  lemma RoutersAgreeGrow(world: World, b: Broadcast, net: Net, e: Event)
    requires NetOk(world, net) && b.Valid(world) && Possible(world, net, e) && e.Arrives?
    requires RoutersAgree(world, b, net.routers, net.processed) && LeavesAlone(world, b, net, e)
    ensures var v := net.inflight[e.index].to;
            forall st :: OnRecord(world, st, b.packet, e.now) || OnRecord(world, st, b.packet, e.sentAt) ==>
              RoutersAgree(world, b, net.routers[v := st], net.processed + [v])
  {}

  /** A copy that is not taken for new comes to a node already reached. */
  lemma QuietAgrees(world: World, b: Broadcast, net: Net, e: Event)
    requires NetOk(world, net) && b.Valid(world) && Possible(world, net, e) && e.Arrives?
    requires RoutersAgree(world, b, net.routers, net.processed) && KeepsFirst(world, b, net, e)
    requires !TakenForNew(world, b, net, e.index, e.now)
    ensures var v := net.inflight[e.index].to;
            forall stamps :: Agrees(world, b, v, net.routers[v].(stamps := stamps), net.processed)
  {
    var v := net.inflight[e.index].to;
    assert Agrees(world, b, v, net.routers[v], net.processed);
  }

  lemma {:induction false} RunAgrees(world: World, b: Broadcast, net: Net, events: seq<Event>)
    requires NetOk(world, net) && b.Valid(world) && AllCopiesOf(b.packet, net.inflight) && Runs(world, net, events)
    requires RoutersAgree(world, b, net.routers, net.processed) && Undisturbed(world, b, net, events)
    ensures AllKeepFirst(world, b, net, events) && AllDropLater(world, b, net, events)
    decreases events
  {
    if events != [] {
      NextOk(world, net, events[0]);
      NextProcesses(world, b, net, events[0]);
      AgreeingDecide(world, b, net, events[0]);
      AgreeingGoOn(world, b, net, events[0]);
      RunAgrees(world, b, Next(world, net, events[0]), events[1..]);
    }
  }

  ghost predicate UndisturbedFromLaunch(world: World, b: Broadcast, routers: map<Node, RouterState>, events: seq<Event>)
    requires RunFromLaunch(world, b, routers, events)
  {
    LaunchOk(world, b, routers);
    Undisturbed(world, b, Launched(world, b, routers), events)
  }

  lemma LaunchAgrees(world: World, b: Broadcast, routers: map<Node, RouterState>)
    requires world.Valid() && b.Valid(world) && b.origin in routers && Quiet(world, b, routers)
    ensures RoutersAgree(world, b, Launched(world, b, routers).routers, [])
  {}

  lemma NothingAmiss(world: World, b: Broadcast, routers: map<Node, RouterState>, events: seq<Event>)
    requires RunFromLaunch(world, b, routers, events) && Quiet(world, b, routers)
    requires UndisturbedFromLaunch(world, b, routers, events)
    ensures NoneRefused(world, b, routers, events) && NoneRepeated(world, b, routers, events)
  {
    LaunchOk(world, b, routers);
    LaunchCopies(world, b);
    LaunchAgrees(world, b, routers);
    RunAgrees(world, b, Launched(world, b, routers), events);
  }

  /** So a broadcast that is new to the mesh, whose sender no rate limiter would refuse when it sets out, reaches every
      node exactly once in every asynchronous run that delivers all copies within the life of a duplicate entry, as long
      as other traffic pushes it out of no cache and uses up no rate limit of its sender. */
  lemma FloodReachesAll(world: World, b: Broadcast, routers: map<Node, RouterState>, events: seq<Event>)
    requires RunFromLaunch(world, b, routers, events) && Quiet(world, b, routers)
    requires UndisturbedFromLaunch(world, b, routers, events)
    requires EnoughHops(world, b) && ConnectedFrom(world, b.origin)
    requires Outcome(world, b, routers, events).inflight == []
    ensures Covered(world, b, Outcome(world, b, routers, events).processed)
  {
    NothingAmiss(world, b, routers, events);
    CoversExactly(world, b, routers, events);
  }
}
