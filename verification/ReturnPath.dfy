/** A broadcast shows the way back: the routes that a flood leaves behind lead a packet from any node to the one that
    sent the broadcast (src/bitchat/mesh/router.py, src/bitchat/app/session_coordinator.py). */
module ReturnPath {
  import opened Wrappers
  import opened ByteStrings
  import opened Lists
  import opened OrderedDicts
  import opened Packets
  import opened Hex
  import opened Dedup
  import opened RateLimiter
  import opened MeshRouting
  import opened RouterDecisions
  import opened Flood
  import opened FloodCoverage
  import FloodTermination
  import opened Unicast
  import opened UnicastDelivery

  // ---- the order in which the nodes were reached ----

  function IndexOf(list: seq<Node>, v: Node): nat {
    if list == [] || list[0] == v then 0 else 1 + IndexOf(list[1..], v)
  }

  /** The place of a node in that order; the origin comes first. */
  function Place(origin: Node, processed: seq<Node>, v: Node): nat {
    if v == origin then 0 else 1 + IndexOf(processed, v)
  }

  function Places(world: World, origin: Node, processed: seq<Node>): map<Node, nat> {
    map v | v in world.nodes :: Place(origin, processed, v)
  }

  lemma {:induction false} IndexWithin(list: seq<Node>, v: Node)
    ensures if v in list then IndexOf(list, v) < |list| else IndexOf(list, v) == |list|
  {
    if list != [] && list[0] != v {
      IndexWithin(list[1..], v);
    }
  }

  lemma {:induction false} IndexStays(list: seq<Node>, v: Node, x: Node)
    requires v in list
    ensures IndexOf(list + [x], v) == IndexOf(list, v)
  {
    if list[0] != v {
      assert (list + [x])[1..] == list[1..] + [x];
      IndexStays(list[1..], v, x);
    }
  }

  lemma {:induction false} IndexOfNew(list: seq<Node>, v: Node)
    requires v !in list
    ensures IndexOf(list + [v], v) == |list|
  {
    if list != [] {
      assert (list + [v])[1..] == list[1..] + [v];
      IndexOfNew(list[1..], v);
    }
  }

  // ---- what a broadcast teaches ----

  /** No fresh route to the origin is held, and there is room for one. */
  predicate NoRouteYet(b: Broadcast, routes: Routes) {
    && |routes.keys| < MAX_ROUTES
    && (ToHex(b.origin) in routes.vals ==> b.start - routes.vals[ToHex(b.origin)].updatedAt > 300.0)
  }

  /** The route to the origin leads to `u`, which sends to `v`. */
  predicate BackTo(world: World, b: Broadcast, v: Node, routes: Routes, u: Node) {
    && u in world.links && v in world.links[u]
    && RouteVia(routes, ToHex(b.origin), ToHex(u), b.start + 300.0)
  }

  /** And `u` was reached before `v`. */
  ghost predicate LeadsBack(world: World, b: Broadcast, v: Node, routes: Routes, processed: seq<Node>) {
    exists u :: BackTo(world, b, v, routes, u) && u in Reached(b, processed)
                && Place(b.origin, processed, u) < Place(b.origin, processed, v)
  }

  ghost predicate Settled(world: World, b: Broadcast, v: Node, routes: Routes, processed: seq<Node>) {
    v != b.origin ==> if v in processed then LeadsBack(world, b, v, routes, processed) else NoRouteYet(b, routes)
  }

  ghost predicate AllSettled(world: World, b: Broadcast, routers: map<Node, RouterState>, processed: seq<Node>) {
    forall v :: v in routers ==> Settled(world, b, v, routers[v].routes, processed)
  }

  /** Copies come over links. */
  ghost predicate OverLinks(world: World, copies: seq<Copy>) {
    forall j :: 0 <= j < |copies| ==> copies[j].from in world.links && copies[j].to in world.links[copies[j].from]
  }

  /** The first copy that a node gets teaches it the way back. */
  lemma FirstTeaches(world: World, b: Broadcast, st: RouterState, c: Copy, now: real, sentAt: real)
    requires world.Valid() && b.Valid(world) && RouterOk(world, st) && CopyOf(b.packet, c.packet)
    requires c.from in world.nodes && c.to in world.links[c.from] && c.to != b.origin
    requires Unaware(world, st, b.packet, now) && NoRouteYet(b, st.routes) && b.start <= now
    ensures BackTo(world, b, c.to, Handle(world, st, c, now, sentAt).0.routes, c.from)
  {
    var cfg, ingress := world.ConfigOf(c.to), Some(ToHex(c.from));
    assert |ToHex(c.from)| == 16;
    KeptExactly(world, st, b.packet, c.to, c.packet, now);
    EvaluateShape(world.hash, cfg, st, c.packet, ingress, now);
    KeptMeans(world.hash, cfg, st, c.packet, ingress, now);
    AddRouteExactly(st.routes, ToHex(b.origin), ToHex(c.from), Distance(c.packet.ttl), now);
  }

  /** Being settled outlasts the coming of another node. */
  lemma SettledGrows(world: World, b: Broadcast, v: Node, routes: Routes, processed: seq<Node>, x: Node)
    requires Settled(world, b, v, routes, processed) && v != x
    ensures Settled(world, b, v, routes, processed + [x])
  {
    if v != b.origin && v in processed {
      var u :| BackTo(world, b, v, routes, u) && u in Reached(b, processed)
               && Place(b.origin, processed, u) < Place(b.origin, processed, v);
      IndexStays(processed, v, x);
      if u != b.origin {
        IndexStays(processed, u, x);
      }
      ReachedGrow(b, processed, x);
      assert Place(b.origin, processed + [x], u) < Place(b.origin, processed + [x], v);
    }
  }

  /** The new node has a way back over the node it heard from. */
  lemma NewSettled(world: World, b: Broadcast, v: Node, routes: Routes, processed: seq<Node>, u: Node)
    requires BackTo(world, b, v, routes, u) && u in Reached(b, processed) && v !in Reached(b, processed)
    ensures Settled(world, b, v, routes, processed + [v])
  {
    IndexOfNew(processed, v);
    if u != b.origin {
      IndexStays(processed, u, v);
      IndexWithin(processed, u);
    }
    ReachedGrow(b, processed, v);
    assert Place(b.origin, processed + [v], u) < Place(b.origin, processed + [v], v);
  }

  lemma NewAllSettled(world: World, b: Broadcast, routers: map<Node, RouterState>, processed: seq<Node>, v: Node,
                      st: RouterState)
    requires AllSettled(world, b, routers, processed) && Settled(world, b, v, st.routes, processed + [v])
    ensures AllSettled(world, b, routers[v := st], processed + [v])
  {
    forall x | x in routers && x != v ensures Settled(world, b, x, routers[x].routes, processed + [v]) {
      SettledGrows(world, b, x, routers[x].routes, processed, v);
    }
  }

  // ---- over a run ----

  ghost predicate BackInv(world: World, b: Broadcast, net: Net) {
    CoverageInv(world, b, net) && AllSettled(world, b, net.routers, net.processed) && OverLinks(world, net.inflight)
  }

  /** Anything else that happens at a node leaves its way back, and takes no room and brings no route before. */
  ghost predicate KeepsRoutes(world: World, b: Broadcast, net: Net, e: Event)
    requires NetOk(world, net) && Possible(world, net, e)
  {
    match e
    case Arrives(_, now, _) => b.start <= now
    case Meanwhile(v, st) =>
      Settled(world, b, v, net.routers[v].routes, net.processed) ==> Settled(world, b, v, st.routes, net.processed)
  }

  lemma DropOverLinks(world: World, copies: seq<Copy>, i: nat)
    requires OverLinks(world, copies) && i < |copies|
    ensures OverLinks(world, Drop(copies, i))
  {
    DropCopy(copies, i);
  }

  lemma OnwardOverLinks(world: World, b: Broadcast, c: Copy)
    requires c.to in world.links
    ensures OverLinks(world, Onward(world, b, c))
  {
    if world.Reach(c.packet.ttl) > 1 {
      CopiesSent(c.to, world.links[c.to], Some(c.from), b.packet.(ttl := world.Reach(c.packet.ttl) - 1));
    }
  }

  lemma NewArrivalSettles(world: World, b: Broadcast, net: Net, i: nat, now: real, sentAt: real)
    requires BackInv(world, b, net) && i < |net.inflight| && net.inflight[i].to !in Reached(b, net.processed)
    requires TakenForNew(world, b, net, i, now) && b.start <= now
    ensures var next := Deliver(world, net, i, now, sentAt);
            AllSettled(world, b, next.routers, next.processed) && OverLinks(world, next.inflight)
  {
    var c := net.inflight[i];
    var st := Handle(world, net.routers[c.to], c, now, sentAt).0;
    assert CopyGood(world, b, Reached(b, net.processed), c);
    assert Settled(world, b, c.to, net.routers[c.to].routes, net.processed);
    FirstTeaches(world, b, net.routers[c.to], c, now, sentAt);
    NewSettled(world, b, c.to, st.routes, net.processed, c.from);
    NewAllSettled(world, b, net.routers, net.processed, c.to, st);
    NewDelivery(world, b, net, i, now, sentAt);
    DropOverLinks(world, net.inflight, i);
    OnwardOverLinks(world, b, c);
  }

  lemma QuietArrivalSettles(world: World, b: Broadcast, net: Net, i: nat, now: real, sentAt: real)
    requires BackInv(world, b, net) && i < |net.inflight| && !TakenForNew(world, b, net, i, now)
    ensures var next := Deliver(world, net, i, now, sentAt);
            AllSettled(world, b, next.routers, next.processed) && OverLinks(world, next.inflight)
  {
    assert CopyGood(world, b, Reached(b, net.processed), net.inflight[i]);
    QuietDelivery(world, b, net, i, now, sentAt);
    DropOverLinks(world, net.inflight, i);
  }

  lemma MeanwhileSettles(world: World, b: Broadcast, routers: map<Node, RouterState>, processed: seq<Node>, v: Node,
                         st: RouterState)
    requires AllSettled(world, b, routers, processed) && v in routers
    requires Settled(world, b, v, routers[v].routes, processed) ==> Settled(world, b, v, st.routes, processed)
    ensures AllSettled(world, b, routers[v := st], processed)
  {}

  lemma NextSettles(world: World, b: Broadcast, net: Net, e: Event)
    requires BackInv(world, b, net) && EnoughHops(world, b) && Possible(world, net, e)
    requires KeepsFirst(world, b, net, e) && DropsLater(world, b, net, e) && KeepsRoutes(world, b, net, e)
    ensures BackInv(world, b, Next(world, net, e))
  {
    NextKeepsCoverage(world, b, net, e);
    match e
    case Arrives(i, now, sentAt) =>
      if net.inflight[i].to in Reached(b, net.processed) {
        QuietArrivalSettles(world, b, net, i, now, sentAt);
      } else {
        NewArrivalSettles(world, b, net, i, now, sentAt);
      }
    case Meanwhile(v, st) =>
      MeanwhileSettles(world, b, net.routers, net.processed, v, st);
  }

  ghost predicate AllKeepRoutes(world: World, b: Broadcast, net: Net, events: seq<Event>)
    requires NetOk(world, net) && Runs(world, net, events)
    decreases events
  {
    events == [] ||
    (&& KeepsRoutes(world, b, net, events[0])
     && (NextOk(world, net, events[0]); AllKeepRoutes(world, b, Next(world, net, events[0]), events[1..])))
  }

  lemma {:induction false} RunSettles(world: World, b: Broadcast, net: Net, events: seq<Event>)
    requires BackInv(world, b, net) && EnoughHops(world, b) && Runs(world, net, events)
    requires AllKeepFirst(world, b, net, events) && AllDropLater(world, b, net, events)
    requires AllKeepRoutes(world, b, net, events)
    ensures BackInv(world, b, Final(world, net, events))
    decreases events
  {
    if events != [] {
      NextSettles(world, b, net, events[0]);
      RunSettles(world, b, Next(world, net, events[0]), events[1..]);
    }
  }

  // ---- the way back ----

  ghost predicate Symmetric(world: World) {
    forall u, v :: u in world.links && v in world.links && v in world.links[u] ==> u in world.links[v]
  }

  /** No node but the origin holds a fresh route to it when the broadcast sets out. */
  ghost predicate NoRoutes(world: World, b: Broadcast, routers: map<Node, RouterState>) {
    forall v :: v in routers && v != b.origin ==> NoRouteYet(b, routers[v].routes)
  }

  ghost predicate RoutesKeptFromLaunch(world: World, b: Broadcast, routers: map<Node, RouterState>, events: seq<Event>)
    requires RunFromLaunch(world, b, routers, events)
  {
    LaunchOk(world, b, routers);
    AllKeepRoutes(world, b, Launched(world, b, routers), events)
  }

  /** A flood that nothing disturbs and that has come to an end. */
  ghost predicate FloodEnded(world: World, b: Broadcast, routers: map<Node, RouterState>, events: seq<Event>) {
    && RunFromLaunch(world, b, routers, events) && Quiet(world, b, routers)
    && UndisturbedFromLaunch(world, b, routers, events) && EnoughHops(world, b) && ConnectedFrom(world, b.origin)
    && Outcome(world, b, routers, events).inflight == []
  }

  lemma LaunchSettled(world: World, b: Broadcast, routers: map<Node, RouterState>)
    requires world.Valid() && b.Valid(world) && routers.Keys == world.nodes && NoRoutes(world, b, routers)
    requires forall v :: v in world.nodes ==> RouterOk(world, routers[v])
    ensures BackInv(world, b, Launched(world, b, routers))
  {
    LaunchOk(world, b, routers);
    LaunchProgress(world, b, routers);
    LaunchOverLinks(world, b);
    NothingProcessed(world, b, routers, Launched(world, b, routers).routers[b.origin]);
  }

  lemma LaunchOverLinks(world: World, b: Broadcast)
    requires world.Valid() && b.origin in world.nodes
    ensures OverLinks(world, Copies(b.origin, world.links[b.origin], None, b.packet))
  {
    CopiesSent(b.origin, world.links[b.origin], None, b.packet);
  }

  lemma NothingProcessed(world: World, b: Broadcast, routers: map<Node, RouterState>, st: RouterState)
    requires NoRoutes(world, b, routers)
    ensures AllSettled(world, b, routers[b.origin := st], [])
  {}

  /** After the flood every other node has a way back over a node reached before. */
  lemma FloodLeavesRoutes(world: World, b: Broadcast, routers: map<Node, RouterState>, events: seq<Event>)
    requires FloodEnded(world, b, routers, events) && NoRoutes(world, b, routers)
    requires RoutesKeptFromLaunch(world, b, routers, events)
    ensures var end := Outcome(world, b, routers, events);
            && Covered(world, b, end.processed) && Reached(b, end.processed) <= world.nodes
            && forall v :: v in world.nodes && v != b.origin ==>
                 LeadsBack(world, b, v, end.routers[v].routes, end.processed)
  {
    var end := Outcome(world, b, routers, events);
    FloodReachesAll(world, b, routers, events);
    NothingAmiss(world, b, routers, events);
    LaunchSettled(world, b, routers);
    RunSettles(world, b, Launched(world, b, routers), events);
    forall v | v in world.nodes && v != b.origin
      ensures LeadsBack(world, b, v, end.routers[v].routes, end.processed)
    {
      assert v in end.processed && Settled(world, b, v, end.routers[v].routes, end.processed);
    }
  }

  /** So the next hops lead a packet to the origin down the places of the nodes. */
  lemma BackLeads(world: World, b: Broadcast, l: Letter, v: Node, routes: Routes, processed: seq<Node>)
    requires world.Valid() && Symmetric(world) && v in world.nodes && v != b.origin && l.dest == b.origin
    requires LeadsBack(world, b, v, routes, processed)
    ensures Leads(world, l, Places(world, b.origin, processed), v, routes, b.start + 300.0)
  {
    var u :| BackTo(world, b, v, routes, u) && u in Reached(b, processed)
             && Place(b.origin, processed, u) < Place(b.origin, processed, v);
    assert u in world.links[v] && Places(world, b.origin, processed)[u] == Place(b.origin, processed, u);
  }

  lemma PlacesRanked(world: World, b: Broadcast, l: Letter, processed: seq<Node>)
    requires world.Valid() && b.Valid(world) && l.dest == b.origin && Covered(world, b, processed)
    requires Reached(b, processed) <= world.nodes
    ensures Ranked(world, l, Places(world, b.origin, processed))
    ensures forall v :: v in world.nodes ==> Places(world, b.origin, processed)[v] < |world.nodes|
  {
    DistinctSize(processed);
    assert ToSet(processed) == world.nodes - {b.origin};
    forall v | v in world.nodes ensures Places(world, b.origin, processed)[v] < |world.nodes| {
      IndexWithin(processed, v);
    }
  }

  /** The answer is new to every node on its way, and every router has room. */
  ghost predicate AnswerIsNew(world: World, l: Letter, routers: map<Node, RouterState>, sent: real)
    requires l.packet.Valid()
  {
    forall v :: v in routers && v != l.origin ==>
      Unaware(world, routers[v], l.packet, sent) && (v != l.dest ==> |routers[v].routes.keys| < MAX_ROUTES)
  }

  lemma BackIsOpen(
      world: World, b: Broadcast, l: Letter, routers: map<Node, RouterState>, processed: seq<Node>, sent: real)
    requires world.Valid() && l.Valid(world) && l.dest == b.origin && AllRoutersOk(world, routers) && Symmetric(world)
    requires forall v :: v in world.nodes && v != b.origin ==> LeadsBack(world, b, v, routers[v].routes, processed)
    requires AnswerIsNew(world, l, routers, sent)
    requires var rank := Places(world, b.origin, processed);
             Ranked(world, l, rank) && world.Hops(l.packet.ttl) >= rank[l.origin]
    ensures WayIsOpen(world, l, Places(world, b.origin, processed), routers, sent, b.start + 300.0)
  {
    var rank, until := Places(world, b.origin, processed), b.start + 300.0;
    BackLeads(world, b, l, l.origin, routers[l.origin].routes, processed);
    forall v | v in rank && rank[v] <= rank[l.origin] as int - 1
      ensures Ready(world, l, rank, v, routers[v], sent, until)
    {
      if v != l.dest {
        BackLeads(world, b, l, v, routers[v].routes, processed);
      }
    }
  }

  /** The way from any node back to the origin of a flood is open. */
  lemma WayBackIsOpen(
      world: World, b: Broadcast, routers: map<Node, RouterState>, events: seq<Event>, l: Letter, sent: real)
    requires FloodEnded(world, b, routers, events) && NoRoutes(world, b, routers)
    requires RoutesKeptFromLaunch(world, b, routers, events) && Symmetric(world)
    requires l.Valid(world) && l.dest == b.origin && |world.nodes| <= world.Hops(l.packet.ttl) + 1
    requires AnswerIsNew(world, l, Outcome(world, b, routers, events).routers, sent)
    ensures var end := Outcome(world, b, routers, events);
            var rank := Places(world, b.origin, end.processed);
            && AllRoutersOk(world, end.routers) && l.origin in rank && rank[l.origin] < |world.nodes|
            && WayIsOpen(world, l, rank, end.routers, sent, b.start + 300.0)
  {
    var end := Outcome(world, b, routers, events);
    var rank := Places(world, b.origin, end.processed);
    FloodLeavesRoutes(world, b, routers, events);
    PlacesRanked(world, b, l, end.processed);
    BackIsOpen(world, b, l, end.routers, end.processed, sent);
  }

  /** After a flood on a mesh with links both ways, a packet from any node to the origin alone, sent within the life of
      the routes, gets there over the next hops: in every calm run that leaves no copy under way it is processed by the
      origin, exactly once and by nobody else, after fewer arrivals than there are nodes. */
  lemma AnswerArrives(world: World, b: Broadcast, routers: map<Node, RouterState>, events: seq<Event>, l: Letter,
                      answer: seq<Event>, sent: real)
    requires FloodEnded(world, b, routers, events) && NoRoutes(world, b, routers)
    requires RoutesKeptFromLaunch(world, b, routers, events) && Symmetric(world)
    requires l.Valid(world) && l.dest == b.origin && |world.nodes| <= world.Hops(l.packet.ttl) + 1
    requires AnswerIsNew(world, l, Outcome(world, b, routers, events).routers, sent) && sent <= b.start + 300.0
    requires var end := Outcome(world, b, routers, events);
             var rank, net := Places(world, b.origin, end.processed), SendOut(world, end.routers, l, sent);
             && MeshOk(world, net) && Ranked(world, l, rank) && CanRun(world, net, answer)
             && AllCalm(world, l, rank, net, answer, sent, b.start + 300.0)
    ensures var net := AfterEvents(world, SendOut(world, Outcome(world, b, routers, events).routers, l, sent), answer);
            && FloodTermination.Arrivals(answer) < |world.nodes|
            && (net.inflight == [] ==> net.processed == [b.origin])
  {
    var end := Outcome(world, b, routers, events);
    WayBackIsOpen(world, b, routers, events, l, sent);
    LetterArrives(world, l, Places(world, b.origin, end.processed), end.routers, answer, sent, b.start + 300.0);
  }
}
