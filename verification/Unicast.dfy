/** A packet for one node, handed on from node to node: who processes it, and when it arrives
    (src/bitchat/mesh/router.py, src/bitchat/app/session_coordinator.py:905-920, 1000-1046). */
module Unicast {
  import opened Wrappers
  import opened ByteStrings
  import opened Lists
  import opened OrderedDicts
  import opened Packets
  import opened Hex
  import opened Dedup
  import DedupProperties
  import opened RateLimiter
  import opened MeshRouting
  import opened RouterDecisions
  import opened Flood
  import opened FloodCoverage

  /** The neighbour whose id reads so in hex. */
  function Neighbour(links: seq<Node>, name: string): Option<Node> {
    if links == [] then None
    else if ToHex(links[0]) == name then Some(links[0])
    else Neighbour(links[1..], name)
  }

  /** The routes after the next hop was looked up, the copies sent, and whether they went to all neighbours. */
  datatype Handing = Handing(routes: Routes, copies: seq<Copy>, toAll: bool)

  /** Where a packet with a target goes from node `v`: to the target itself if that is a neighbour, or else to the next
      hop on the route to it, or else to all neighbours; and never back to the node it came from. (One that comes from
      its target is queued instead.) */
  function HandOn(
      world: World, v: Node, routes: Routes, p: BitchatPacket, target: string, ingress: Option<Node>, now: real)
    : Handing
    requires v in world.links
  {
    var links := world.links[v];
    match Neighbour(links, target)
    case Some(u) => Handing(routes, if ingress == Some(u) then [] else [Copy(v, u, p)], false)
    case None =>
      var (left, hop) := GetNextHop(routes, target, now);
      var next := if hop.Some? then Neighbour(links, hop.value) else None;
      if next.Some? && next != ingress then Handing(left, [Copy(v, next.value, p)], false)
      else Handing(left, Copies(v, links, ingress, p), true)
  }

  /** A packet that is broadcast is recorded once more. */
  function Noted(world: World, st: RouterState, p: BitchatPacket, now: real): RouterState {
    if p.Valid() then st.(cache := Record(st.cache, world.dedup, PacketId(world.hash, p), now)) else st
  }

  /** What a node sends on once it has decided on a copy that came from `from`. */
  function SendOn(world: World, v: Node, st: RouterState, d: Decision, from: Node, now: real): (RouterState, seq<Copy>)
    requires v in world.links
  {
    match d.relay
    case None => (st, [])
    case Some(q) =>
      if d.target.None? then (Noted(world, st, q, now), Copies(v, world.links[v], Some(from), q))
      else
        var h := HandOn(world, v, st.routes, q, d.target.value, Some(from), now);
        var left := st.(routes := h.routes);
        (if h.toAll then Noted(world, left, q, now) else left, h.copies)
  }

  /** What a node does with a copy that arrives at `now`, and the copies it sends on at `sentAt`. */
  function Receive(world: World, st: RouterState, c: Copy, now: real, sentAt: real): (RouterState, Decision, seq<Copy>)
    requires st.routes.Valid() && c.packet.Valid() && c.to in world.links
  {
    var (decided, d) := Evaluate(world.hash, world.ConfigOf(c.to), st, c.packet, Some(ToHex(c.from)), now);
    var (after, sent) := SendOn(world, c.to, decided, d, c.from, sentAt);
    (after, d, sent)
  }

  /** With a broadcast a node does what `Flood` says. */
  lemma BroadcastsFlood(world: World, st: RouterState, c: Copy, now: real, sentAt: real)
    requires st.routes.Valid() && c.packet.Valid() && c.to in world.links && IsBroadcast(c.packet)
    ensures Receive(world, st, c, now, sentAt)
            == (Handle(world, st, c, now, sentAt).0, Handle(world, st, c, now, sentAt).1,
                Relayed(world, st, c, now, sentAt))
  {
    EvaluateShape(world.hash, world.ConfigOf(c.to), st, c.packet, Some(ToHex(c.from)), now);
  }

  // ---- the mesh ----

  ghost predicate MeshOk(world: World, net: Net) {
    world.Valid() && AllRoutersOk(world, net.routers) && AllCopiesOk(world, net.inflight)
  }

  ghost predicate AllRoutersOk(world: World, routers: map<Node, RouterState>) {
    routers.Keys == world.nodes && forall v :: v in world.nodes ==> RouterOk(world, routers[v])
  }

  predicate CopyOk(world: World, c: Copy) {
    c.to in world.nodes && c.from in world.nodes && c.packet.Valid()
  }

  ghost predicate AllCopiesOk(world: World, copies: seq<Copy>) {
    forall j :: 0 <= j < |copies| ==> CopyOk(world, copies[j])
  }

  /** The net after copy number `i` was dealt with. */
  function Dealt(net: Net, i: nat, st: RouterState, processes: bool, sent: seq<Copy>): Net
    requires i < |net.inflight|
  {
    var v := net.inflight[i].to;
    Net(net.routers[v := st], Drop(net.inflight, i) + sent, net.processed + (if processes then [v] else []))
  }

  /** The copy number `i` arrives. */
  function Arrival(world: World, net: Net, i: nat, now: real, sentAt: real): Net
    requires MeshOk(world, net) && i < |net.inflight|
  {
    var c := net.inflight[i];
    var (st, d, sent) := Receive(world, net.routers[c.to], c, now, sentAt);
    Dealt(net, i, st, d.processLocally, sent)
  }

  lemma {:induction false} NeighbourIsLinked(links: seq<Node>, name: string)
    ensures var n := Neighbour(links, name); n.Some? ==> n.value in links && ToHex(n.value) == name
    ensures Neighbour(links, name).None? ==> forall u :: u in links ==> ToHex(u) != name
  {
    if links != [] {
      NeighbourIsLinked(links[1..], name);
      assert forall u :: u in links ==> u == links[0] || u in links[1..];
    }
  }

  /** No two nodes read the same in hex. */
  lemma NeighbourFound(links: seq<Node>, u: Node)
    ensures Neighbour(links, ToHex(u)) == if u in links then Some(u) else None
  {
    NeighbourIsLinked(links, ToHex(u));
    HexRoundTrip(u);
    var n := Neighbour(links, ToHex(u));
    if n.Some? {
      HexRoundTrip(n.value);
    }
  }

  /** A packet that has a target goes to it, if it is a neighbour, unless it came from there; else to the next hop of a
      fresh route, if that is a neighbour, unless it came from there; and else to all neighbours but the one it came
      from. */
  lemma HandOnExactly(world: World, v: Node, routes: Routes, p: BitchatPacket, target: Node, hop: Node,
                      ingress: Option<Node>, now: real)
    requires v in world.links && routes.Valid()
    ensures var h, links, name := HandOn(world, v, routes, p, ToHex(target), ingress,
                                         now), world.links[v], ToHex(target);
            var routed := name in routes.vals && Fresh(routes.vals[name], now);
            if target in links then h.copies == (if ingress == Some(target) then [] else [Copy(v, target, p)])
              && !h.toAll
            else
              && (routed && routes.vals[name].nextHop == ToHex(hop) && hop in links && ingress != Some(hop) ==>
                    h.copies == [Copy(v, hop, p)] && !h.toAll)
              && (!routed || (routes.vals[name].nextHop == ToHex(hop) && (hop !in links || ingress == Some(hop))) ==>
                    h.copies == Copies(v, links, ingress, p) && h.toAll)
  {
    NextHopExactly(routes, ToHex(target), now);
    NeighbourFound(world.links[v], target);
    NeighbourFound(world.links[v], hop);
  }

  /** A packet that is relayed to all neighbours is put on record again when it is sent, one that is handed on to a
      single node is not. */
  lemma RecordedWhenSent(world: World, v: Node, st: RouterState, d: Decision, from: Node, now: real)
    requires world.Valid() && v in world.nodes && RouterOk(world, st) && d.relay.Some? && d.relay.value.Valid()
    ensures var q, st' := d.relay.value, SendOn(world, v, st, d, from, now).0;
            var toAll := d.target.None? || HandOn(world, v, st.routes, q, d.target.value, Some(from), now).toAll;
            if toAll then OnRecord(world, st', q, now) else st'.cache == st.cache
  {
    RecordAware(st.cache, world.dedup, PacketId(world.hash, d.relay.value), now);
  }

  lemma HandOnOk(
      world: World, v: Node, routes: Routes, p: BitchatPacket, target: string, ingress: Option<Node>, now: real)
    requires world.Valid() && v in world.nodes && p.Valid() && routes.Valid() && |routes.keys| <= MAX_ROUTES
    ensures var h := HandOn(world, v, routes, p, target, ingress, now);
            && h.routes.Valid() && |h.routes.keys| <= MAX_ROUTES
            && forall j :: 0 <= j < |h.copies| ==> CopyOk(world, h.copies[j]) && h.copies[j].packet == p
  {
    routes.DeleteValid(target);
    CopiesSent(v, world.links[v], ingress, p);
    NeighbourIsLinked(world.links[v], target);
    var (_, hop) := GetNextHop(routes, target, now);
    if hop.Some? {
      NeighbourIsLinked(world.links[v], hop.value);
    }
  }

  lemma SendOnOk(world: World, v: Node, st: RouterState, d: Decision, from: Node, now: real)
    requires world.Valid() && v in world.nodes && RouterOk(world, st) && (d.relay.Some? ==> d.relay.value.Valid())
    ensures var (st', sent) := SendOn(world, v, st, d, from, now);
            && RouterOk(world, st')
            && forall j :: 0 <= j < |sent| ==> CopyOk(world, sent[j]) && d.relay == Some(sent[j].packet)
  {
    if d.relay.Some? {
      DedupProperties.RecordKeepsInvariant(st.cache, world.dedup, PacketId(world.hash, d.relay.value), now);
      CopiesSent(v, world.links[v], Some(from), d.relay.value);
      if d.target.Some? {
        HandOnOk(world, v, st.routes, d.relay.value, d.target.value, Some(from), now);
      }
    }
  }

  lemma ReceiveOk(world: World, st: RouterState, c: Copy, now: real, sentAt: real)
    requires world.Valid() && RouterOk(world, st) && CopyOk(world, c)
    ensures var (st', d, sent) := Receive(world, st, c, now, sentAt);
            && RouterOk(world, st')
            && forall j :: 0 <= j < |sent| ==> CopyOk(world, sent[j]) && d.relay == Some(sent[j].packet)
  {
    var ingress := Some(ToHex(c.from));
    var (decided, d) := Evaluate(world.hash, world.ConfigOf(c.to), st, c.packet, ingress, now);
    EvaluateOk(world, c.to, st, c.packet, ingress, now);
    RelayShrinksTtl(world.hash, world.ConfigOf(c.to), st, c.packet, ingress, now);
    SendOnOk(world, c.to, decided, d, c.from, sentAt);
  }

  /** So a net in which only broadcasts are under way goes on as in `Flood`. */
  lemma ArrivalFloods(world: World, net: Net, i: nat, now: real, sentAt: real)
    requires NetOk(world, net) && MeshOk(world, net) && i < |net.inflight|
    ensures Arrival(world, net, i, now, sentAt) == Deliver(world, net, i, now, sentAt)
  {
    var c := net.inflight[i];
    assert CopyOk(world, c);
    BroadcastsFlood(world, net.routers[c.to], c, now, sentAt);
  }

  lemma DropCopy(copies: seq<Copy>, i: nat)
    requires i < |copies|
    ensures forall j :: 0 <= j < |Drop(copies, i)| ==> Drop(copies, i)[j] == copies[if j < i then j else j + 1]
  {}

  lemma DealtOk(world: World, net: Net, i: nat, st: RouterState, processes: bool, sent: seq<Copy>)
    requires MeshOk(world, net) && i < |net.inflight| && RouterOk(world, st) && AllCopiesOk(world, sent)
    ensures MeshOk(world, Dealt(net, i, st, processes, sent))
  {
    assert CopyOk(world, net.inflight[i]);
    StateReplaced(world, net.routers, net.inflight[i].to, st);
    DropCopy(net.inflight, i);
  }

  lemma StateReplaced(world: World, routers: map<Node, RouterState>, v: Node, st: RouterState)
    requires AllRoutersOk(world, routers) && v in world.nodes && RouterOk(world, st)
    ensures AllRoutersOk(world, routers[v := st])
  {}

  lemma ArrivalOk(world: World, net: Net, i: nat, now: real, sentAt: real)
    requires MeshOk(world, net) && i < |net.inflight|
    ensures MeshOk(world, Arrival(world, net, i, now, sentAt))
  {
    var c := net.inflight[i];
    assert CopyOk(world, c);
    ReceiveOk(world, net.routers[c.to], c, now, sentAt);
    var (st, d, sent) := Receive(world, net.routers[c.to], c, now, sentAt);
    DealtOk(world, net, i, st, d.processLocally, sent);
  }

  // ---- runs ----

  /** As in `Flood`: a copy arrives, or anything else happens at a node. */
  ghost predicate CanHappen(world: World, net: Net, e: Event) {
    match e
    case Arrives(i, _, _) => i < |net.inflight|
    case Meanwhile(v, st) => v in world.nodes && RouterOk(world, st)
  }

  function AfterEvent(world: World, net: Net, e: Event): Net
    requires MeshOk(world, net) && CanHappen(world, net, e)
  {
    match e
    case Arrives(i, now, sentAt) => Arrival(world, net, i, now, sentAt)
    case Meanwhile(v, st) => net.(routers := net.routers[v := st])
  }

  lemma AfterOk(world: World, net: Net, e: Event)
    requires MeshOk(world, net) && CanHappen(world, net, e)
    ensures MeshOk(world, AfterEvent(world, net, e))
  {
    match e
    case Arrives(i, now, sentAt) => ArrivalOk(world, net, i, now, sentAt);
    case Meanwhile(v, st) => StateReplaced(world, net.routers, v, st);
  }

  ghost predicate CanRun(world: World, net: Net, events: seq<Event>)
    requires MeshOk(world, net)
    decreases events
  {
    events == [] ||
    (&& CanHappen(world, net, events[0])
     && (AfterOk(world, net, events[0]); CanRun(world, AfterEvent(world, net, events[0]), events[1..])))
  }

  ghost function AfterEvents(world: World, net: Net, events: seq<Event>): (end: Net)
    requires MeshOk(world, net) && CanRun(world, net, events)
    ensures MeshOk(world, end)
    decreases events
  {
    if events == [] then net
    else
      AfterOk(world, net, events[0]);
      AfterEvents(world, AfterEvent(world, net, events[0]), events[1..])
  }

  // ---- a packet for one node ----

  /** A packet that `origin` sends to `dest` alone. */
  datatype Letter = Letter(origin: Node, dest: Node, packet: BitchatPacket) {
    ghost predicate Valid(world: World) {
      && origin in world.nodes && dest in world.nodes && origin != dest
      && packet.Valid() && packet.ttl >= 1 && packet.senderId == origin && OnlyFor(packet, dest)
    }
  }

  /** The origin records the packet and sends it to `dest`, to the next hop, or to all neighbours. */
  function SendOut(world: World, routers: map<Node, RouterState>, l: Letter, now: real): Net
    requires world.Valid() && l.origin in world.nodes && l.origin in routers && l.packet.Valid()
  {
    var st := routers[l.origin];
    var h := HandOn(world, l.origin, st.routes, l.packet, ToHex(l.dest), None, now);
    Net(routers[l.origin := RouterState(Record(st.cache, world.dedup, PacketId(world.hash, l.packet), now),
                                        h.routes, st.stamps)],
        h.copies, [])
  }

  lemma SendOutRouter(world: World, routers: map<Node, RouterState>, l: Letter, now: real)
    requires world.Valid() && l.Valid(world) && AllRoutersOk(world, routers)
    ensures AllRoutersOk(world, SendOut(world, routers, l, now).routers)
  {
    var st := routers[l.origin];
    DedupProperties.RecordKeepsInvariant(st.cache, world.dedup, PacketId(world.hash, l.packet), now);
    HandOnOk(world, l.origin, st.routes, l.packet, ToHex(l.dest), None, now);
  }

  lemma SendOutOk(world: World, routers: map<Node, RouterState>, l: Letter, now: real)
    requires world.Valid() && l.Valid(world) && AllRoutersOk(world, routers)
    ensures MeshOk(world, SendOut(world, routers, l, now))
    ensures AllCopiesOf(l.packet, SendOut(world, routers, l, now).inflight)
  {
    var st := routers[l.origin];
    HandOnOk(world, l.origin, st.routes, l.packet, ToHex(l.dest), None, now);
    SendOutRouter(world, routers, l, now);
    assert l.packet == l.packet.(ttl := l.packet.ttl);
  }

  /** The recipient takes the copy that arrives for new. */
  ghost predicate TakesIt(world: World, l: Letter, net: Net, e: Event)
    requires MeshOk(world, net) && l.packet.Valid() && CanHappen(world, net, e)
  {
    && e.Arrives? && net.inflight[e.index].to == l.dest
    && Unaware(world, net.routers[l.dest], l.packet, e.now)
  }

  /** The node processes a copy only if it is the recipient and takes it for new; and what is sent on is copies. */
  lemma ReceivedLetter(world: World, l: Letter, st: RouterState, c: Copy, now: real, sentAt: real)
    requires world.Valid() && l.Valid(world) && RouterOk(world, st) && CopyOk(world, c) && CopyOf(l.packet, c.packet)
    ensures var (st', d, sent) := Receive(world, st, c, now, sentAt);
            && (d.processLocally <==> c.to == l.dest && Unaware(world, st, l.packet, now))
            && AllCopiesOf(l.packet, sent)
  {
    var cfg, ingress := world.ConfigOf(c.to), Some(ToHex(c.from));
    ReceiveOk(world, st, c, now, sentAt);
    ReasonsExactly(world.hash, cfg, st, c.packet, ingress, now);
    EvaluateShape(world.hash, cfg, st, c.packet, ingress, now);
    if c.to != l.origin {
      KeptExactly(world, st, l.packet, c.to, c.packet, now);
    }
    if Evaluate(world.hash, cfg, st, c.packet, ingress, now).1.dropReason == None {
      KeptMeans(world.hash, cfg, st, c.packet, ingress, now);
    }
  }

  lemma DealtLetter(l: Letter, net: Net, i: nat, st: RouterState, processes: bool, sent: seq<Copy>)
    requires i < |net.inflight| && AllCopiesOf(l.packet, net.inflight) && AllCopiesOf(l.packet, sent)
    requires processes ==> net.inflight[i].to == l.dest
    ensures var next := Dealt(net, i, st, processes, sent);
            && AllCopiesOf(l.packet, next.inflight)
            && next.processed == if processes then net.processed + [l.dest] else net.processed
  {
    DropCopy(net.inflight, i);
  }

  lemma LetterProcessed(world: World, l: Letter, net: Net, e: Event)
    requires MeshOk(world, net) && l.Valid(world) && AllCopiesOf(l.packet, net.inflight) && CanHappen(world, net, e)
    ensures AllCopiesOf(l.packet, AfterEvent(world, net, e).inflight)
    ensures AfterEvent(world, net, e).processed
            == if TakesIt(world, l, net, e) then net.processed + [l.dest] else net.processed
  {
    if e.Arrives? {
      var c := net.inflight[e.index];
      assert CopyOk(world, c) && CopyOf(l.packet, c.packet);
      ReceivedLetter(world, l, net.routers[c.to], c, e.now, e.sentAt);
      var (st, d, sent) := Receive(world, net.routers[c.to], c, e.now, e.sentAt);
      DealtLetter(l, net, e.index, st, d.processLocally, sent);
    }
  }

  /** How often the recipient takes a copy for new in a run. */
  ghost function Takings(world: World, l: Letter, net: Net, events: seq<Event>): nat
    requires MeshOk(world, net) && l.packet.Valid() && CanRun(world, net, events)
    decreases events
  {
    if events == [] then 0
    else
      AfterOk(world, net, events[0]);
      (if TakesIt(world, l, net, events[0]) then 1 else 0)
      + Takings(world, l, AfterEvent(world, net, events[0]), events[1..])
  }

  function Times(v: Node, n: nat): seq<Node> {
    if n == 0 then [] else [v] + Times(v, n - 1)
  }

  /** What the first event of a run contributes. */
  lemma FirstEvent(world: World, l: Letter, net: Net, events: seq<Event>)
    requires MeshOk(world, net) && l.Valid(world) && AllCopiesOf(l.packet, net.inflight) && CanRun(world, net, events)
    requires events != []
    ensures var next, taken := AfterEvent(world, net, events[0]), TakesIt(world, l, net, events[0]);
            && MeshOk(world, next) && CanRun(world, next, events[1..]) && AllCopiesOf(l.packet, next.inflight)
            && AfterEvents(world, net, events) == AfterEvents(world, next, events[1..])
            && next.processed == (if taken then net.processed + [l.dest] else net.processed)
            && Takings(world, l, net, events) == (if taken then 1 else 0) + Takings(world, l, next, events[1..])
  {
    AfterOk(world, net, events[0]);
    LetterProcessed(world, l, net, events[0]);
  }

  /** In every run, whatever else goes on, whatever the routes, the caches and the limiters hold: a packet for one node
      is processed by that node alone, as often as it takes a copy for new. */
  lemma {:induction false} OnlyTheRecipient(world: World, l: Letter, net: Net, events: seq<Event>)
    requires MeshOk(world, net) && l.Valid(world) && AllCopiesOf(l.packet, net.inflight) && CanRun(world, net, events)
    ensures AfterEvents(world, net, events).processed == net.processed + Times(l.dest, Takings(world, l, net, events))
    decreases events
  {
    TimesMore(net.processed, l.dest);
    if events != [] {
      FirstEvent(world, l, net, events);
      OnlyTheRecipient(world, l, AfterEvent(world, net, events[0]), events[1..]);
    }
  }

  lemma TimesMore(before: seq<Node>, v: Node)
    ensures before + Times(v, 0) == before
    ensures forall n: nat :: before + [v] + Times(v, n) == before + Times(v, 1 + n)
  {
    forall n: nat ensures before + [v] + Times(v, n) == before + Times(v, 1 + n) {
      assert Times(v, 1 + n) == [v] + Times(v, n);
    }
  }

  // ---- at most once ----

  /** The recipient has the packet on record, from the time since `start`. */
  ghost predicate HasIt(world: World, l: Letter, st: RouterState, start: real)
    requires l.packet.Valid()
  {
    var id := PacketId(world.hash, l.packet);
    id in st.cache.vals && start <= st.cache.vals[id] <= start + world.dedup.entryTtl
  }

  /** The event comes within the life of a duplicate entry, and nothing else takes the packet off the recipient's
      record. */
  ghost predicate KeepsRecord(world: World, l: Letter, net: Net, e: Event, start: real)
    requires MeshOk(world, net) && l.packet.Valid() && l.dest in world.nodes && CanHappen(world, net, e)
  {
    match e
    case Arrives(_, now, _) => start <= now <= start + world.dedup.entryTtl
    case Meanwhile(v, st) => v == l.dest && HasIt(world, l, net.routers[v], start) ==> HasIt(world, l, st, start)
  }

  ghost predicate AllKeepRecord(world: World, l: Letter, net: Net, events: seq<Event>, start: real)
    requires MeshOk(world, net) && l.packet.Valid() && l.dest in world.nodes && CanRun(world, net, events)
    decreases events
  {
    events == [] ||
    (&& KeepsRecord(world, l, net, events[0], start)
     && (AfterOk(world, net, events[0]); AllKeepRecord(world, l, AfterEvent(world, net, events[0]), events[1..],
                                                       start)))
  }

  lemma DealtState(world: World, net: Net, i: nat, now: real, sentAt: real, v: Node)
    requires MeshOk(world, net) && i < |net.inflight| && v in world.nodes
    ensures var c := net.inflight[i];
            Arrival(world, net, i, now, sentAt).routers[v]
            == if c.to == v then Receive(world, net.routers[c.to], c, now, sentAt).0 else net.routers[v]
  {}

  lemma RecipientReceives(world: World, l: Letter, st: RouterState, c: Copy, now: real, sentAt: real)
    requires world.Valid() && l.Valid(world) && RouterOk(world, st) && CopyOk(world, c) && CopyOf(l.packet, c.packet)
    requires c.to == l.dest
    ensures var st' := Receive(world, st, c, now, sentAt).0;
            if Unaware(world, st, l.packet, now) then OnRecord(world, st', l.packet, now) else st'.cache == st.cache
  {
    var cfg, ingress := world.ConfigOf(c.to), Some(ToHex(c.from));
    KeptExactly(world, st, l.packet, c.to, c.packet, now);
    EvaluateShape(world.hash, cfg, st, c.packet, ingress, now);
    ReasonsExactly(world.hash, cfg, st, c.packet, ingress, now);
    IdIgnoresTtl(world.hash, l.packet, c.packet.ttl);
    if Evaluate(world.hash, cfg, st, c.packet, ingress, now).1.dropReason == None {
      KeptMeans(world.hash, cfg, st, c.packet, ingress, now);
    }
  }

  lemma RecipientHasIt(
      world: World, l: Letter, st: RouterState, c: Copy, now: real, sentAt: real, start: real)
    requires world.Valid() && l.Valid(world) && RouterOk(world, st) && CopyOk(world, c) && CopyOf(l.packet, c.packet)
    requires c.to == l.dest && start <= now <= start + world.dedup.entryTtl
    ensures HasIt(world, l, st, start) ==> !Unaware(world, st, l.packet, now)
    ensures HasIt(world, l, st, start) || Unaware(world, st, l.packet, now) ==>
              HasIt(world, l, Receive(world, st, c, now, sentAt).0, start)
  {
    RecipientReceives(world, l, st, c, now, sentAt);
  }

  /** A recipient that takes a copy has it on record afterwards, and takes no other while it has. */
  lemma RecipientRecords(world: World, l: Letter, net: Net, e: Event, start: real)
    requires MeshOk(world, net) && l.Valid(world) && AllCopiesOf(l.packet, net.inflight) && CanHappen(world, net, e)
    requires KeepsRecord(world, l, net, e, start)
    ensures HasIt(world, l, net.routers[l.dest], start) ==> !TakesIt(world, l, net, e)
    ensures HasIt(world, l, net.routers[l.dest], start) || TakesIt(world, l, net, e) ==>
              HasIt(world, l, AfterEvent(world, net, e).routers[l.dest], start)
  {
    if e.Arrives? {
      var c := net.inflight[e.index];
      assert CopyOk(world, c) && CopyOf(l.packet, c.packet);
      DealtState(world, net, e.index, e.now, e.sentAt, l.dest);
      if c.to == l.dest {
        RecipientHasIt(world, l, net.routers[l.dest], c, e.now, e.sentAt, start);
      }
    }
  }

  /** Within the life of a duplicate entry, and as long as nothing pushes it out of the recipient's cache, the recipient
      processes the packet at most once. */
  lemma {:induction false} AtMostOnce(world: World, l: Letter, net: Net, events: seq<Event>, start: real)
    requires MeshOk(world, net) && l.Valid(world) && AllCopiesOf(l.packet, net.inflight) && CanRun(world, net, events)
    requires AllKeepRecord(world, l, net, events, start)
    ensures Takings(world, l, net, events) <= if HasIt(world, l, net.routers[l.dest], start) then 0 else 1
    decreases events
  {
    if events != [] {
      FirstEvent(world, l, net, events);
      RecipientRecords(world, l, net, events[0], start);
      AtMostOnce(world, l, AfterEvent(world, net, events[0]), events[1..], start);
    }
  }
}
