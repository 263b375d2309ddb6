/** A packet for one node, along the routes: when the next hops lead to the recipient, it gets there
    (src/bitchat/mesh/router.py, src/bitchat/app/session_coordinator.py:1000-1046). */
module UnicastDelivery {
  import opened Wrappers
  import opened ByteStrings
  import opened OrderedDicts
  import opened Packets
  import opened Hex
  import opened Dedup
  import opened RateLimiter
  import opened MeshRouting
  import opened RouterDecisions
  import opened Flood
  import opened FloodCoverage
  import FloodRange
  import FloodTermination
  import opened Unicast

  /** A route to `destination` over `hop` that is fresh as long as `until`. */
  predicate RouteVia(r: Routes, destination: string, hop: string, until: real) {
    destination in r.vals && r.vals[destination].nextHop == hop && until - r.vals[destination].updatedAt <= 300.0
  }

  /** From `v` the packet goes to the recipient, if that is a neighbour, or over the next hop to a node nearer to it. */
  ghost predicate Leads(world: World, l: Letter, rank: map<Node, nat>, v: Node, routes: Routes, until: real)
    requires v in world.links && v in rank
  {
    l.dest in world.links[v] ||
    exists w :: w in rank && w in world.links[v] && rank[w] < rank[v]
        && RouteVia(routes, ToHex(l.dest), ToHex(w), until)
  }

  /** The node takes a first copy for new, and has room for the route that it learns from it. */
  ghost predicate Ready(
      world: World, l: Letter, rank: map<Node, nat>, v: Node, st: RouterState, start: real, until: real)
    requires v in world.links && v in rank && l.packet.Valid()
  {
    && Unaware(world, st, l.packet, start)
    && (v != l.dest ==> |st.routes.keys| < MAX_ROUTES && Leads(world, l, rank, v, st.routes, until))
  }

  /** Ranks fall towards the recipient, which alone has rank 0. */
  ghost predicate Ranked(world: World, l: Letter, rank: map<Node, nat>) {
    rank.Keys == world.nodes && forall v :: v in rank ==> (rank[v] == 0 <==> v == l.dest)
  }

  /** The one copy under way is coming down the ranks, with hops enough. */
  ghost predicate UnderWay(world: World, l: Letter, rank: map<Node, nat>, c: Copy)
    requires Ranked(world, l, rank) && l.packet.Valid() && l.origin in rank
  {
    && CopyOf(l.packet, c.packet) && c.to in rank && c.from in rank
    && rank[c.to] < rank[c.from] <= rank[l.origin]
    && (c.to != l.dest ==> world.Reach(c.packet.ttl) > rank[c.to])
  }

  ghost predicate ReadyUpTo(world: World, l: Letter, rank: map<Node, nat>, routers: map<Node, RouterState>, top: int,
                            start: real, until: real)
    requires world.Valid() && Ranked(world, l, rank) && l.packet.Valid() && AllRoutersOk(world, routers)
  {
    forall v :: v in rank && rank[v] <= top ==> Ready(world, l, rank, v, routers[v], start, until)
  }

  /** The packet is on its way, or has been processed. */
  ghost predicate InHand(world: World, l: Letter, rank: map<Node, nat>, net: Net, start: real, until: real)
    requires MeshOk(world, net) && l.Valid(world) && Ranked(world, l, rank)
  {
    if net.inflight == [] then net.processed == [l.dest]
    else
      && |net.inflight| == 1 && net.processed == [] && UnderWay(world, l, rank, net.inflight[0])
      && ReadyUpTo(world, l, rank, net.routers, rank[net.inflight[0].to], start, until)
  }

  /** How many links it still has to go at most. */
  function Left(rank: map<Node, nat>, copies: seq<Copy>): nat {
    if copies == [] || copies[0].to !in rank then 0 else rank[copies[0].to] + 1
  }

  // ---- one node ----

  /** The next hop after a packet came in and taught a route to its sender. */
  lemma RouteStays(r: Routes, l: Letter, hop: string, ingress: string, hops: int, now: real, until: real)
    requires r.Valid() && |r.keys| < MAX_ROUTES && l.origin != l.dest && RouteVia(r, ToHex(l.dest), hop, until)
    ensures RouteVia(AddRoute(r, ToHex(l.origin), ingress, hops, now), ToHex(l.dest), hop, until)
  {
    AddRouteExactly(r, ToHex(l.origin), ingress, hops, now);
    if ToHex(l.origin) == ToHex(l.dest) {
      FloodRange.SameHex(l.origin, l.dest);
    }
  }

  /** A node that is ready, and not the recipient, hands the packet on to a node nearer to it. */
  lemma HandsOnNearer(world: World, l: Letter, rank: map<Node, nat>, v: Node, routes: Routes, q: BitchatPacket,
                      ingress: Option<Node>, sentAt: real, until: real) returns (w: Node)
    requires world.Valid() && Ranked(world, l, rank) && v in rank && v != l.dest && l.dest in rank
    requires routes.Valid() && Leads(world, l, rank, v, routes, until) && sentAt <= until
    requires ingress.Some? ==> ingress.value in rank && rank[ingress.value] > rank[v]
    ensures var h := HandOn(world, v, routes, q, ToHex(l.dest), ingress, sentAt);
            w in rank && rank[w] < rank[v] && h == Handing(h.routes, [Copy(v, w, q)], false)
  {
    var links := world.links[v];
    NeighbourFound(links, l.dest);
    var h := HandOn(world, v, routes, q, ToHex(l.dest), ingress, sentAt);
    if l.dest in links {
      w := l.dest;
      assert h == Handing(h.routes, [Copy(v, w, q)], false);
    } else {
      w :| w in rank && w in links && rank[w] < rank[v] && RouteVia(routes, ToHex(l.dest), ToHex(w), until);
      NextHopExactly(routes, ToHex(l.dest), sentAt);
      NeighbourFound(links, w);
      assert h == Handing(h.routes, [Copy(v, w, q)], false);
    }
  }

  lemma LeadsStays(world: World, l: Letter, rank: map<Node, nat>, v: Node, r: Routes, ingress: string, hops: int,
                   now: real, until: real)
    requires l.origin != l.dest && v in world.links && v in rank && r.Valid() && |r.keys| < MAX_ROUTES
    requires Leads(world, l, rank, v, r, until)
    ensures var r' := AddRoute(r, ToHex(l.origin), ingress, hops, now);
            r'.Valid() && Leads(world, l, rank, v, r', until)
  {
    AddRouteBounded(r, ToHex(l.origin), ingress, hops, now);
    if l.dest !in world.links[v] {
      var w :| w in rank && w in world.links[v] && rank[w] < rank[v] && RouteVia(r, ToHex(l.dest), ToHex(w), until);
      RouteStays(r, l, ToHex(w), ingress, hops, now, until);
    }
  }

  /** A node to which the packet is new keeps it. */
  lemma IsKept(world: World, l: Letter, st: RouterState, c: Copy, start: real, now: real)
    requires world.Valid() && l.Valid(world) && RouterOk(world, st) && CopyOf(l.packet, c.packet)
    requires c.to != l.origin && Unaware(world, st, l.packet, start) && start <= now
    ensures Evaluate(world.hash, world.ConfigOf(c.to), st, c.packet, Some(ToHex(c.from)), now).1.dropReason == None
  {
    UnawareLater(world, st, l.packet, start, now);
    KeptExactly(world, st, l.packet, c.to, c.packet, now);
    EvaluateShape(world.hash, world.ConfigOf(c.to), st, c.packet, Some(ToHex(c.from)), now);
  }

  /** And unless it is the recipient, it relays it to the recipient. */
  lemma DecidesToRelay(world: World, v: Node, st: RouterState, q: BitchatPacket, ingress: string, dest: Node, now: real)
    requires st.routes.Valid() && q.Valid() && OnlyFor(q, dest) && v != dest && world.Reach(q.ttl) > 1 && ingress != ""
    requires Evaluate(world.hash, world.ConfigOf(v), st, q, Some(ingress), now).1.dropReason == None
    ensures var (st', d) := Evaluate(world.hash, world.ConfigOf(v), st, q, Some(ingress), now);
            && !d.processLocally && d.target == Some(ToHex(dest))
            && d.relay.Some? && d.relay.value == q.(ttl := world.Reach(q.ttl) - 1)
            && st'.routes == AddRoute(st.routes, ToHex(q.senderId), ingress, Distance(q.ttl), now)
  {
    KeptMeans(world.hash, world.ConfigOf(v), st, q, Some(ingress), now);
    assert HopsLeft(q.ttl, world.ConfigOf(v).maxRelayTtl) == world.Reach(q.ttl) - 1;
  }

  /** A node that is ready decides so, and its routes still lead to the recipient. */
  lemma DecidesReady(
      world: World, l: Letter, rank: map<Node, nat>, st: RouterState, c: Copy, start: real, now: real, until: real)
    requires world.Valid() && l.Valid(world) && Ranked(world, l, rank) && RouterOk(world, st) && CopyOk(world, c)
    requires UnderWay(world, l, rank, c) && c.to != l.dest && Ready(world, l, rank, c.to, st, start, until)
    requires start <= now
    ensures var (decided, d) := Evaluate(world.hash, world.ConfigOf(c.to), st, c.packet, Some(ToHex(c.from)), now);
            && !d.processLocally && d.target == Some(ToHex(l.dest))
            && d.relay.Some? && CopyOf(l.packet, d.relay.value) && d.relay.value.ttl == world.Reach(c.packet.ttl) - 1
            && decided.routes.Valid() && Leads(world, l, rank, c.to, decided.routes, until)
  {
    assert |ToHex(c.from)| == 16;
    IsKept(world, l, st, c, start, now);
    DecidesToRelay(world, c.to, st, c.packet, ToHex(c.from), l.dest, now);
    LeadsStays(world, l, rank, c.to, st.routes, ToHex(c.from), Distance(c.packet.ttl), now, until);
  }

  /** Such a decision is carried out by handing one copy to a nearer node. */
  lemma SendsNearer(world: World, l: Letter, rank: map<Node, nat>, c: Copy, st: RouterState, d: Decision, sentAt: real,
                    until: real) returns (next: Copy)
    requires world.Valid() && l.packet.Valid() && l.origin in rank && l.dest in rank && Ranked(world, l, rank)
    requires c.to in world.nodes && c.to != l.dest
    requires UnderWay(world, l, rank, c) && st.routes.Valid() && Leads(world, l, rank, c.to, st.routes, until)
    requires d.target == Some(ToHex(l.dest)) && sentAt <= until
    requires d.relay.Some? && CopyOf(l.packet, d.relay.value) && d.relay.value.ttl == world.Reach(c.packet.ttl) - 1
    ensures SendOn(world, c.to, st, d, c.from, sentAt).1 == [next]
    ensures next.from == c.to && UnderWay(world, l, rank, next)
  {
    var w := HandsOnNearer(world, l, rank, c.to, st.routes, d.relay.value, Some(c.from), sentAt, until);
    next := Copy(c.to, w, d.relay.value);
  }

  lemma NodeHandsOn(world: World, l: Letter, rank: map<Node, nat>, st: RouterState, c: Copy, start: real, now: real,
                    sentAt: real, until: real) returns (next: Copy)
    requires world.Valid() && l.Valid(world) && Ranked(world, l, rank) && RouterOk(world, st) && CopyOk(world, c)
    requires UnderWay(world, l, rank, c) && c.to != l.dest && Ready(world, l, rank, c.to, st, start, until)
    requires start <= now && sentAt <= until
    ensures !Receive(world, st, c, now, sentAt).1.processLocally && Receive(world, st, c, now, sentAt).2 == [next]
    ensures next.from == c.to && UnderWay(world, l, rank, next)
  {
    DecidesReady(world, l, rank, st, c, start, now, until);
    var (decided, d) := Evaluate(world.hash, world.ConfigOf(c.to), st, c.packet, Some(ToHex(c.from)), now);
    next := SendsNearer(world, l, rank, c, decided, d, sentAt, until);
  }

  // ---- one event ----

  /** The event comes in time; anything else that happens at a node leaves it ready if it was. */
  ghost predicate Calm(
      world: World, l: Letter, rank: map<Node, nat>, net: Net, e: Event, start: real, until: real)
    requires MeshOk(world, net) && l.Valid(world) && Ranked(world, l, rank) && CanHappen(world, net, e)
  {
    match e
    case Arrives(_, now, sentAt) => start <= now && sentAt <= until
    case Meanwhile(v, st) =>
      Ready(world, l, rank, v, net.routers[v], start, until) ==> Ready(world, l, rank, v, st, start, until)
  }

  /** The net after its only copy was dealt with. */
  lemma OnlyDealt(net: Net, st: RouterState, processes: bool, sent: seq<Copy>)
    requires |net.inflight| == 1 && net.processed == []
    ensures Dealt(net, 0, st, processes, sent)
            == Net(net.routers[net.inflight[0].to := st], sent, if processes then [net.inflight[0].to] else [])
  {
    assert Drop(net.inflight, 0) == [];
  }

  /** What happens at a node leaves those nearer to the recipient ready. */
  lemma ReadyElsewhere(world: World, l: Letter, rank: map<Node, nat>, routers: map<Node, RouterState>, v: Node,
                       st: RouterState, top: int, start: real, until: real)
    requires world.Valid() && Ranked(world, l, rank) && l.packet.Valid() && AllRoutersOk(world, routers)
    requires v in rank && top < rank[v] && AllRoutersOk(world, routers[v := st])
    requires ReadyUpTo(world, l, rank, routers, rank[v] as int - 1, start, until)
    ensures ReadyUpTo(world, l, rank, routers[v := st], top, start, until)
  {}

  /** The copy under way. */
  lemma NextStop(world: World, l: Letter, rank: map<Node, nat>, net: Net, start: real, until: real)
    requires MeshOk(world, net) && l.Valid(world) && Ranked(world, l, rank)
    requires InHand(world, l, rank, net, start, until) && net.inflight != []
    ensures var c := net.inflight[0];
            && |net.inflight| == 1 && net.processed == [] && UnderWay(world, l, rank, c)
            && ReadyUpTo(world, l, rank, net.routers, rank[c.to], start, until)
  {}

  lemma ReadyThere(
      world: World, l: Letter, rank: map<Node, nat>, routers: map<Node, RouterState>, v: Node, start: real, until: real)
    requires world.Valid() && Ranked(world, l, rank) && l.packet.Valid() && AllRoutersOk(world, routers)
    requires v in rank && ReadyUpTo(world, l, rank, routers, rank[v], start, until)
    ensures RouterOk(world, routers[v]) && Ready(world, l, rank, v, routers[v], start, until)
  {}

  /** A node that is not the recipient passes the packet on. */
  lemma PassedOn(world: World, l: Letter, rank: map<Node, nat>, net: Net, now: real, sentAt: real, start: real,
                 until: real) returns (st: RouterState, d: Copy)
    requires MeshOk(world, net) && l.Valid(world) && Ranked(world, l, rank)
    requires InHand(world, l, rank, net, start, until) && net.inflight != [] && net.inflight[0].to != l.dest
    requires start <= now && sentAt <= until
    ensures Arrival(world, net, 0, now, sentAt) == Net(net.routers[net.inflight[0].to := st], [d], net.processed)
    ensures UnderWay(world, l, rank, d) && d.from == net.inflight[0].to
  {
    var c := net.inflight[0];
    assert CopyOk(world, c);
    NextStop(world, l, rank, net, start, until);
    ReadyThere(world, l, rank, net.routers, c.to, start, until);
    d := NodeHandsOn(world, l, rank, net.routers[c.to], c, start, now, sentAt, until);
    st := Receive(world, net.routers[c.to], c, now, sentAt).0;
    OnlyDealt(net, st, false, [d]);
    assert Arrival(world, net, 0, now, sentAt) == Dealt(net, 0, st, false, [d]);
  }

  lemma ArrivesNearer(world: World, l: Letter, rank: map<Node, nat>, net: Net, now: real, sentAt: real, start: real,
                      until: real)
    requires MeshOk(world, net) && l.Valid(world) && Ranked(world, l, rank)
    requires InHand(world, l, rank, net, start, until) && net.inflight != [] && net.inflight[0].to != l.dest
    requires start <= now && sentAt <= until
    ensures var next := Arrival(world, net, 0, now, sentAt);
            && MeshOk(world, next) && InHand(world, l, rank, next, start, until)
            && Left(rank, next.inflight) < Left(rank, net.inflight)
  {
    var st, d := PassedOn(world, l, rank, net, now, sentAt, start, until);
    ArrivalOk(world, net, 0, now, sentAt);
    NearerInHand(world, l, rank, net, st, d, Arrival(world, net, 0, now, sentAt), start, until);
  }

  lemma NearerInHand(world: World, l: Letter, rank: map<Node, nat>, net: Net, st: RouterState, d: Copy, next: Net,
                     start: real, until: real)
    requires MeshOk(world, net) && l.Valid(world) && Ranked(world, l, rank) && MeshOk(world, next)
    requires InHand(world, l, rank, net, start, until) && net.inflight != []
    requires next == Net(net.routers[net.inflight[0].to := st], [d], net.processed)
    requires UnderWay(world, l, rank, d) && d.from == net.inflight[0].to
    ensures InHand(world, l, rank, next, start, until) && Left(rank, next.inflight) < Left(rank, net.inflight)
  {
    ReadyElsewhere(world, l, rank, net.routers, d.from, st, rank[d.to], start, until);
  }

  lemma ArrivesHome(
      world: World, l: Letter, rank: map<Node, nat>, net: Net, now: real, sentAt: real, start: real, until: real)
    requires MeshOk(world, net) && l.Valid(world) && Ranked(world, l, rank)
    requires InHand(world, l, rank, net, start, until) && net.inflight != [] && net.inflight[0].to == l.dest
    requires start <= now
    ensures var next := Arrival(world, net, 0, now, sentAt);
            MeshOk(world, next) && next.inflight == [] && next.processed == [l.dest]
  {
    var c := net.inflight[0];
    assert CopyOk(world, c);
    NextStop(world, l, rank, net, start, until);
    ReadyThere(world, l, rank, net.routers, c.to, start, until);
    ArrivalOk(world, net, 0, now, sentAt);
    HomeProcesses(world, l, net.routers[c.to], c, start, now, sentAt);
    var st := Receive(world, net.routers[c.to], c, now, sentAt).0;
    OnlyDealt(net, st, true, []);
    assert Arrival(world, net, 0, now, sentAt) == Dealt(net, 0, st, true, []);
  }

  /** The recipient processes a first copy, and relays nothing. */
  lemma HomeProcesses(world: World, l: Letter, st: RouterState, c: Copy, start: real, now: real, sentAt: real)
    requires world.Valid() && l.Valid(world) && RouterOk(world, st) && CopyOk(world, c) && CopyOf(l.packet, c.packet)
    requires c.to == l.dest && Unaware(world, st, l.packet, start) && start <= now
    ensures Receive(world, st, c, now, sentAt).1.processLocally && Receive(world, st, c, now, sentAt).2 == []
  {
    IsKept(world, l, st, c, start, now);
    KeptMeans(world.hash, world.ConfigOf(c.to), st, c.packet, Some(ToHex(c.from)), now);
  }

  lemma StillReady(world: World, l: Letter, rank: map<Node, nat>, routers: map<Node, RouterState>, v: Node,
                   st: RouterState, top: int, start: real, until: real)
    requires world.Valid() && Ranked(world, l, rank) && l.packet.Valid() && AllRoutersOk(world, routers)
    requires v in rank && AllRoutersOk(world, routers[v := st])
    requires Ready(world, l, rank, v, routers[v], start, until) ==> Ready(world, l, rank, v, st, start, until)
    requires ReadyUpTo(world, l, rank, routers, top, start, until)
    ensures ReadyUpTo(world, l, rank, routers[v := st], top, start, until)
  {}

  lemma ArrivalInHand(
      world: World, l: Letter, rank: map<Node, nat>, net: Net, now: real, sentAt: real, start: real, until: real)
    requires MeshOk(world, net) && l.Valid(world) && Ranked(world, l, rank)
    requires InHand(world, l, rank, net, start, until) && net.inflight != [] && start <= now && sentAt <= until
    ensures var next := Arrival(world, net, 0, now, sentAt);
            && MeshOk(world, next) && InHand(world, l, rank, next, start, until)
            && Left(rank, next.inflight) < Left(rank, net.inflight)
  {
    if net.inflight[0].to == l.dest {
      ArrivesHome(world, l, rank, net, now, sentAt, start, until);
    } else {
      ArrivesNearer(world, l, rank, net, now, sentAt, start, until);
    }
  }

  lemma MeanwhileInHand(world: World, l: Letter, rank: map<Node, nat>, net: Net, v: Node, st: RouterState, start: real,
                        until: real)
    requires MeshOk(world, net) && l.Valid(world) && Ranked(world, l, rank) && v in rank && RouterOk(world, st)
    requires InHand(world, l, rank, net, start, until)
    requires Ready(world, l, rank, v, net.routers[v], start, until) ==> Ready(world, l, rank, v, st, start, until)
    ensures var next := net.(routers := net.routers[v := st]);
            MeshOk(world, next) && InHand(world, l, rank, next, start, until)
  {
    StateReplaced(world, net.routers, v, st);
    if net.inflight != [] {
      StillReady(world, l, rank, net.routers, v, st, rank[net.inflight[0].to], start, until);
    }
  }

  /** Every event keeps the packet in hand, and every arrival brings it nearer. */
  lemma AfterInHand(world: World, l: Letter, rank: map<Node, nat>, net: Net, e: Event, start: real, until: real)
    requires MeshOk(world, net) && l.Valid(world) && Ranked(world, l, rank) && CanHappen(world, net, e)
    requires InHand(world, l, rank, net, start, until) && Calm(world, l, rank, net, e, start, until)
    ensures var next := AfterEvent(world, net, e);
            && MeshOk(world, next) && InHand(world, l, rank, next, start, until)
            && Left(rank, next.inflight) + (if e.Arrives? then 1 else 0) <= Left(rank, net.inflight)
  {
    match e
    case Arrives(i, now, sentAt) =>
      assert i == 0;
      assert AfterEvent(world, net, e) == Arrival(world, net, 0, now, sentAt);
      ArrivalInHand(world, l, rank, net, now, sentAt, start, until);
    case Meanwhile(v, st) =>
      MeanwhileInHand(world, l, rank, net, v, st, start, until);
  }

  // ---- runs ----

  ghost predicate AllCalm(
      world: World, l: Letter, rank: map<Node, nat>, net: Net, events: seq<Event>, start: real, until: real)
    requires MeshOk(world, net) && l.Valid(world) && Ranked(world, l, rank) && CanRun(world, net, events)
    decreases events
  {
    events == [] ||
    (&& Calm(world, l, rank, net, events[0], start, until)
     && (AfterOk(world, net, events[0]);
         AllCalm(world, l, rank, AfterEvent(world, net, events[0]), events[1..], start, until)))
  }

  lemma {:induction false} RunInHand(
      world: World, l: Letter, rank: map<Node, nat>, net: Net, events: seq<Event>, start: real, until: real)
    requires MeshOk(world, net) && l.Valid(world) && Ranked(world, l, rank) && CanRun(world, net, events)
    requires InHand(world, l, rank, net, start, until) && AllCalm(world, l, rank, net, events, start, until)
    ensures var end := AfterEvents(world, net, events);
            && InHand(world, l, rank, end, start, until)
            && Left(rank, end.inflight) + FloodTermination.Arrivals(events) <= Left(rank, net.inflight)
    decreases events
  {
    if events != [] {
      AfterInHand(world, l, rank, net, events[0], start, until);
      RunInHand(world, l, rank, AfterEvent(world, net, events[0]), events[1..], start, until);
    }
  }

  /** What the routers must hold when the packet is sent. */
  ghost predicate WayIsOpen(
      world: World, l: Letter, rank: map<Node, nat>, routers: map<Node, RouterState>, start: real, until: real)
    requires world.Valid() && l.Valid(world) && AllRoutersOk(world, routers)
  {
    && Ranked(world, l, rank) && world.Hops(l.packet.ttl) >= rank[l.origin]
    && Leads(world, l, rank, l.origin, routers[l.origin].routes, until)
    && ReadyUpTo(world, l, rank, routers, rank[l.origin] as int - 1, start, until)
  }

  lemma FirstUnderWay(world: World, l: Letter, rank: map<Node, nat>, c: Copy)
    requires l.Valid(world) && Ranked(world, l, rank) && world.Hops(l.packet.ttl) >= rank[l.origin]
    requires c.packet == l.packet && c.from == l.origin && c.to in rank && rank[c.to] < rank[l.origin]
    ensures UnderWay(world, l, rank, c)
  {
    assert l.packet == l.packet.(ttl := l.packet.ttl);
  }

  lemma SentInHand(
      world: World, l: Letter, rank: map<Node, nat>, routers: map<Node, RouterState>, start: real, until: real)
    requires world.Valid() && l.Valid(world) && AllRoutersOk(world, routers) && start <= until
    requires WayIsOpen(world, l, rank, routers, start, until)
    ensures var net := SendOut(world, routers, l, start);
            MeshOk(world, net) && InHand(world, l, rank, net, start, until)
              && Left(rank, net.inflight) <= rank[l.origin]
  {
    var net := SendOut(world, routers, l, start);
    SendOutOk(world, routers, l, start);
    var w := HandsOnNearer(world, l, rank, l.origin, routers[l.origin].routes, l.packet, None, start, until);
    FirstUnderWay(world, l, rank, net.inflight[0]);
    ReadyElsewhere(world, l, rank, routers, l.origin, net.routers[l.origin], rank[net.inflight[0].to], start, until);
  }

  /** A packet whose way is open is processed by its recipient, exactly once and by nobody else, in every calm run at
      whose end no copy is under way; and no run has more arrivals than the rank of the origin. */
  lemma LetterArrives(
      world: World, l: Letter, rank: map<Node, nat>, routers: map<Node, RouterState>, events: seq<Event>,
                      start: real, until: real)
    requires world.Valid() && l.Valid(world) && AllRoutersOk(world, routers) && start <= until
    requires WayIsOpen(world, l, rank, routers, start, until) && MeshOk(world, SendOut(world, routers, l, start))
    requires CanRun(world, SendOut(world, routers, l, start), events)
    requires AllCalm(world, l, rank, SendOut(world, routers, l, start), events, start, until)
    ensures var end := AfterEvents(world, SendOut(world, routers, l, start), events);
            && (end.inflight == [] ==> end.processed == [l.dest])
            && FloodTermination.Arrivals(events) <= rank[l.origin]
            && (FloodTermination.Arrivals(events) == rank[l.origin] ==> end.inflight == [])
  {
    SentInHand(world, l, rank, routers, start, until);
    RunInHand(world, l, rank, SendOut(world, routers, l, start), events, start, until);
  }
}
