/** No copy of a broadcast travels farther than its ttl allows, and what routers learn from it fits the distances in the
    mesh (src/bitchat/mesh/router.py). */
module FloodRange {
  import opened Wrappers
  import opened ByteStrings
  import opened OrderedDicts
  import opened Packets
  import opened Hex
  import opened MeshRouting
  import opened Flood
  import opened FloodCoverage

  /** `v` is at most `h` links away from `origin`. */
  ghost predicate Within(world: World, origin: Node, v: Node, h: nat)
    decreases h
  {
    v == origin || (h > 0 && exists u :: u in world.links && v in world.links[u] && Within(world, origin, u, h - 1))
  }

  lemma {:induction false} WithinMore(world: World, origin: Node, v: Node, h: nat, k: nat)
    requires Within(world, origin, v, h) && h <= k
    ensures Within(world, origin, v, k)
    decreases h
  {
    if v != origin {
      var u :| u in world.links && v in world.links[u] && Within(world, origin, u, h - 1);
      WithinMore(world, origin, u, h - 1, k - 1);
    }
  }

  /** The links a copy has travelled when it arrives, judging by its ttl. */
  function Travelled(world: World, b: Broadcast, c: Copy): int {
    world.Reach(b.packet.ttl) - world.Reach(c.packet.ttl) + 1
  }

  /** A copy's ttl tells how far from the origin it can have got. */
  ghost predicate CopyInRange(world: World, b: Broadcast, c: Copy)
    requires b.packet.Valid()
  {
    && CopyOf(b.packet, c.packet)
    && 1 <= Travelled(world, b, c) <= world.Hops(b.packet.ttl)
    && Within(world, b.origin, c.to, Travelled(world, b, c))
  }

  ghost predicate CopiesInRange(world: World, b: Broadcast, copies: seq<Copy>)
    requires b.packet.Valid()
  {
    forall j :: 0 <= j < |copies| ==> CopyInRange(world, b, copies[j])
  }

  /** A route to `origin` is not shorter than the true distance from `v`. */
  ghost predicate RouteInRange(world: World, origin: Node, v: Node, st: RouterState) {
    ToHex(origin) in st.routes.vals ==>
      var hops := st.routes.vals[ToHex(origin)].hopCount;
      hops >= 1 && Within(world, origin, v, hops)
  }

  ghost predicate AllInRange(world: World, v: Node, st: RouterState) {
    forall origin :: origin in world.nodes ==> RouteInRange(world, origin, v, st)
  }

  ghost predicate RoutesInRange(world: World, routers: map<Node, RouterState>) {
    forall v :: v in routers ==> AllInRange(world, v, routers[v])
  }

  ghost predicate ProcessedInRange(world: World, b: Broadcast, processed: seq<Node>)
    requires b.packet.Valid()
  {
    forall v :: v in processed ==> Within(world, b.origin, v, world.Hops(b.packet.ttl))
  }

  ghost predicate RangeInv(world: World, b: Broadcast, net: Net) {
    && NetOk(world, net) && b.Valid(world)
    && CopiesInRange(world, b, net.inflight) && ProcessedInRange(world, b, net.processed)
  }

  /** Copies sent on with the next smaller ttl are in range where they are going. */
  lemma OnwardInRange(world: World, b: Broadcast, c: Copy, q: BitchatPacket)
    requires b.packet.Valid() && c.to in world.links && CopyInRange(world, b, c)
    requires CopyOf(b.packet, q) && q.ttl == world.Reach(c.packet.ttl) - 1
    ensures CopiesInRange(world, b, Copies(c.to, world.links[c.to], Some(c.from), q))
  {
    var sent := Copies(c.to, world.links[c.to], Some(c.from), q);
    CopiesSent(c.to, world.links[c.to], Some(c.from), q);
    forall j | 0 <= j < |sent| ensures CopyInRange(world, b, sent[j]) {
      assert sent[j].to in world.links[c.to] && sent[j].packet == q;
      assert Travelled(world, b, sent[j]) == Travelled(world, b, c) + 1;
    }
  }

  lemma RelayedInRange(world: World, b: Broadcast, st: RouterState, c: Copy, now: real, sentAt: real)
    requires world.Valid() && b.Valid(world) && st.routes.Valid() && c.to in world.nodes && CopyInRange(world, b, c)
    ensures CopiesInRange(world, b, Relayed(world, st, c, now, sentAt))
  {
    var d := Handle(world, st, c, now, sentAt).1;
    RelayShrinksTtl(world.hash, world.ConfigOf(c.to), st, c.packet, Some(ToHex(c.from)), now);
    if d.relay.Some? {
      OnwardInRange(world, b, c, d.relay.value);
    }
  }

  /** Hop counts are reckoned from a ttl of 7: one is never below the links a copy has travelled, first hop apart,
      exactly if the packet sets out with at most 7 or the relay ceiling is at most 7. */
  lemma HopCountExactly(world: World, b: Broadcast, c: Copy)
    requires b.Valid(world) && CopyInRange(world, b, c)
    ensures HopCount(c.packet.ttl) >= Travelled(world, b, c)
            <==> Travelled(world, b, c) == 1 || world.Reach(b.packet.ttl) <= 7
  {}

  /** Then a node that learns a route from a copy learns no less than its distance. */
  lemma HandleLearnsInRange(world: World, b: Broadcast, st: RouterState, c: Copy, now: real, sentAt: real)
    requires world.Valid() && b.Valid(world) && RouterOk(world, st) && CopyInRange(world, b, c)
    requires world.Reach(b.packet.ttl) <= 7 && AllInRange(world, c.to, st)
    ensures AllInRange(world, c.to, Handle(world, st, c, now, sentAt).0)
  {
    forall origin | origin in world.nodes
      ensures RouteInRange(world, origin, c.to, Handle(world, st, c, now, sentAt).0)
    {
      HandleLearnsRoute(world, b, st, c, now, sentAt, origin);
    }
  }

  lemma HandleLearnsRoute(
      world: World, b: Broadcast, st: RouterState, c: Copy, now: real, sentAt: real, origin: Node)
    requires world.Valid() && b.Valid(world) && RouterOk(world, st) && CopyInRange(world, b, c)
    requires world.Reach(b.packet.ttl) <= 7 && RouteInRange(world, origin, c.to, st)
    ensures RouteInRange(world, origin, c.to, Handle(world, st, c, now, sentAt).0)
  {
    var ingress, hops := Some(ToHex(c.from)), HopCount(c.packet.ttl);
    EvaluateShape(world.hash, world.ConfigOf(c.to), st, c.packet, ingress, now);
    HopCountExactly(world, b, c);
    WithinMore(world, b.origin, c.to, Travelled(world, b, c), hops);
    if ToHex(origin) == ToHex(b.origin) {
      SameHex(origin, b.origin);
    }
    if ingress.value != "" {
      AddRouteBounded(st.routes, ToHex(c.packet.senderId), ingress.value, hops, now);
    }
  }

  lemma SameHex(a: Node, b: Node)
    requires ToHex(a) == ToHex(b)
    ensures a == b
  {
    HexRoundTrip(a);
    HexRoundTrip(b);
  }

  lemma DropInRange(world: World, b: Broadcast, copies: seq<Copy>, i: nat)
    requires b.packet.Valid() && i < |copies| && CopiesInRange(world, b, copies)
    ensures CopiesInRange(world, b, Drop(copies, i))
  {
    var rest := Drop(copies, i);
    assert forall j :: 0 <= j < |rest| ==> rest[j] == copies[if j < i then j else j + 1];
  }

  lemma DeliverKeepsCopiesInRange(world: World, b: Broadcast, net: Net, i: nat, now: real, sentAt: real)
    requires RangeInv(world, b, net) && i < |net.inflight|
    ensures CopiesInRange(world, b, Deliver(world, net, i, now, sentAt).inflight)
  {
    var c := net.inflight[i];
    RelayedInRange(world, b, net.routers[c.to], c, now, sentAt);
    DropInRange(world, b, net.inflight, i);
  }

  lemma DeliverKeepsProcessedInRange(world: World, b: Broadcast, net: Net, i: nat, now: real, sentAt: real)
    requires RangeInv(world, b, net) && i < |net.inflight|
    ensures ProcessedInRange(world, b, Deliver(world, net, i, now, sentAt).processed)
  {
    var c := net.inflight[i];
    assert CopyInRange(world, b, c);
    WithinMore(world, b.origin, c.to, Travelled(world, b, c), world.Hops(b.packet.ttl));
  }

  lemma NextKeepsRange(world: World, b: Broadcast, net: Net, e: Event)
    requires RangeInv(world, b, net) && Possible(world, net, e)
    ensures RangeInv(world, b, Next(world, net, e))
  {
    NextOk(world, net, e);
    if e.Arrives? {
      DeliverKeepsCopiesInRange(world, b, net, e.index, e.now, e.sentAt);
      DeliverKeepsProcessedInRange(world, b, net, e.index, e.now, e.sentAt);
    }
  }

  /** Whatever else happens at the nodes puts no route in that is shorter than the distance. */
  ghost predicate TeachesInRange(world: World, e: Event) {
    e.Meanwhile? ==> AllInRange(world, e.node, e.state)
  }

  lemma RoutesInRangeWith(world: World, routers: map<Node, RouterState>, v: Node, st: RouterState)
    requires RoutesInRange(world, routers) && AllInRange(world, v, st)
    ensures RoutesInRange(world, routers[v := st])
  {}

  lemma SameRoutes(world: World, v: Node, st: RouterState, st': RouterState)
    requires AllInRange(world, v, st) && st'.routes == st.routes
    ensures AllInRange(world, v, st')
  {}

  lemma NextKeepsRoutesInRange(world: World, b: Broadcast, net: Net, e: Event)
    requires RangeInv(world, b, net) && Possible(world, net, e) && world.Reach(b.packet.ttl) <= 7
    requires RoutesInRange(world, net.routers) && TeachesInRange(world, e)
    ensures RoutesInRange(world, Next(world, net, e).routers)
  {
    match e
    case Arrives(i, now, sentAt) =>
      var c := net.inflight[i];
      assert CopyInRange(world, b, c);
      HandleLearnsInRange(world, b, net.routers[c.to], c, now, sentAt);
      RoutesInRangeWith(world, net.routers, c.to, Handle(world, net.routers[c.to], c, now, sentAt).0);
    case Meanwhile(v, st) => RoutesInRangeWith(world, net.routers, v, st);
  }

  lemma {:induction false} RunKeepsRange(world: World, b: Broadcast, net: Net, events: seq<Event>)
    requires RangeInv(world, b, net) && Runs(world, net, events)
    ensures RangeInv(world, b, Final(world, net, events))
    decreases events
  {
    if events != [] {
      NextKeepsRange(world, b, net, events[0]);
      RunKeepsRange(world, b, Next(world, net, events[0]), events[1..]);
    }
  }

  lemma {:induction false} RunKeepsRoutesInRange(world: World, b: Broadcast, net: Net, events: seq<Event>)
    requires RangeInv(world, b, net) && Runs(world, net, events) && world.Reach(b.packet.ttl) <= 7
    requires RoutesInRange(world, net.routers) && forall e :: e in events ==> TeachesInRange(world, e)
    ensures RoutesInRange(world, Final(world, net, events).routers)
    decreases events
  {
    if events != [] {
      NextKeepsRange(world, b, net, events[0]);
      NextKeepsRoutesInRange(world, b, net, events[0]);
      RunKeepsRoutesInRange(world, b, Next(world, net, events[0]), events[1..]);
    }
  }

  lemma LaunchInRange(world: World, b: Broadcast, routers: map<Node, RouterState>)
    requires world.Valid() && b.Valid(world) && routers.Keys == world.nodes
    requires forall v :: v in world.nodes ==> RouterOk(world, routers[v])
    ensures RangeInv(world, b, Launched(world, b, routers))
  {
    LaunchOk(world, b, routers);
    LaunchCopiesInRange(world, b);
  }

  lemma LaunchRoutesInRange(world: World, b: Broadcast, routers: map<Node, RouterState>)
    requires world.Valid() && b.Valid(world) && b.origin in routers && RoutesInRange(world, routers)
    ensures RoutesInRange(world, Launched(world, b, routers).routers)
  {
    var st := Launched(world, b, routers).routers[b.origin];
    SameRoutes(world, b.origin, routers[b.origin], st);
    RoutesInRangeWith(world, routers, b.origin, st);
  }

  lemma LaunchCopiesInRange(world: World, b: Broadcast)
    requires world.Valid() && b.Valid(world)
    ensures CopiesInRange(world, b, Copies(b.origin, world.links[b.origin], None, b.packet))
  {
    var copies := Copies(b.origin, world.links[b.origin], None, b.packet);
    LaunchCopies(world, b);
    CopiesSent(b.origin, world.links[b.origin], None, b.packet);
    forall j | 0 <= j < |copies| ensures CopyInRange(world, b, copies[j]) {
      assert copies[j].to in world.links[b.origin];
      assert Within(world, b.origin, b.origin, 0);
    }
  }

  /** Range: in every run, whatever the routers hold and whatever else goes on, a node farther than the ttl (or the
      relay ceiling) never processes the packet. Duplicate suppression plays no part in it. */
  lemma FloodStaysInRange(world: World, b: Broadcast, routers: map<Node, RouterState>, events: seq<Event>)
    requires RunFromLaunch(world, b, routers, events)
    ensures ProcessedInRange(world, b, Outcome(world, b, routers, events).processed)
  {
    LaunchInRange(world, b, routers);
    RunKeepsRange(world, b, Launched(world, b, routers), events);
  }

  /** Routes: if the packet sets out with at most 7 or under a relay ceiling of at most 7, no router is left with a hop
      count to any node that is below the distance, unless it had one or got one from elsewhere. */
  lemma FloodTeachesInRange(world: World, b: Broadcast, routers: map<Node, RouterState>, events: seq<Event>)
    requires RunFromLaunch(world, b, routers, events) && world.Reach(b.packet.ttl) <= 7
    requires RoutesInRange(world, routers) && forall e :: e in events ==> TeachesInRange(world, e)
    ensures RoutesInRange(world, Outcome(world, b, routers, events).routers)
  {
    LaunchInRange(world, b, routers);
    LaunchRoutesInRange(world, b, routers);
    RunKeepsRoutesInRange(world, b, Launched(world, b, routers), events);
  }

  // ---- one broadcast after the other ----

  datatype Flooding = Flooding(broadcast: Broadcast, events: seq<Event>)

  /** Broadcasts one after the other, each starting from the routers that the one before has left. */
  ghost predicate InTurn(world: World, routers: map<Node, RouterState>, floods: seq<Flooding>)
    decreases floods
  {
    floods == [] ||
    (&& RunFromLaunch(world, floods[0].broadcast, routers, floods[0].events)
     && InTurn(world, RoutersAfterFirst(world, routers, floods), floods[1..]))
  }

  ghost function RoutersAfterFirst(
      world: World, routers: map<Node, RouterState>, floods: seq<Flooding>): map<Node, RouterState>
    requires floods != [] && RunFromLaunch(world, floods[0].broadcast, routers, floods[0].events)
  {
    Outcome(world, floods[0].broadcast, routers, floods[0].events).routers
  }

  lemma FirstTeaches(world: World, routers: map<Node, RouterState>, floods: seq<Flooding>)
    requires floods != [] && InTurn(world, routers, floods) && RoutesInRange(world, routers) && AllTeach(world, floods)
    ensures RoutesInRange(world, RoutersAfterFirst(world, routers, floods)) && AllTeach(world, floods[1..])
    ensures InTurn(world, RoutersAfterFirst(world, routers, floods), floods[1..])
  {
    var f := floods[0];
    assert Teaches(world, f);
    FloodTeachesInRange(world, f.broadcast, routers, f.events);
  }

  ghost predicate Teaches(world: World, f: Flooding) {
    world.Reach(f.broadcast.packet.ttl) <= 7 && forall e :: e in f.events ==> TeachesInRange(world, e)
  }

  ghost predicate AllTeach(world: World, floods: seq<Flooding>) {
    forall i :: 0 <= i < |floods| ==> Teaches(world, floods[i])
  }

  ghost function RoutersAfter(
      world: World, routers: map<Node, RouterState>, floods: seq<Flooding>): map<Node, RouterState>
    requires InTurn(world, routers, floods)
    decreases floods
  {
    if floods == [] then routers
    else
      RoutersAfter(world, RoutersAfterFirst(world, routers, floods), floods[1..])
  }

  /** Broadcasts that set out with at most 7, or under a relay ceiling of at most 7, in any number and from any origins,
      leave no route at any node whose hop count is below the distance, if there was none before. */
  lemma {:induction false} HopCountsNeverTooSmall(
      world: World, routers: map<Node, RouterState>, floods: seq<Flooding>)
    requires InTurn(world, routers, floods) && RoutesInRange(world, routers)
    requires AllTeach(world, floods)
    ensures RoutesInRange(world, RoutersAfter(world, routers, floods))
    decreases floods
  {
    if floods != [] {
      FirstTeaches(world, routers, floods);
      HopCountsNeverTooSmall(world, RoutersAfterFirst(world, routers, floods), floods[1..]);
    }
  }
}
