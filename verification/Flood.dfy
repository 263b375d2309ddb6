/** Flooding one broadcast through a mesh: every node decides as the router does, and relays as the session
    coordinator does (src/bitchat/mesh/router.py, src/bitchat/app/session_coordinator.py). */
module Flood {
  import opened Wrappers
  import opened ByteStrings
  import opened OrderedDicts
  import opened Packets
  import opened Hex
  import opened Dedup
  import opened DedupProperties
  import opened RateLimiter
  import opened MeshRouting

  type Node = Bytes  // a peer id

  /** A copy of a packet under way on a link. */
  datatype Copy = Copy(from: Node, to: Node, packet: BitchatPacket)

  /** A static mesh; every node runs with the same settings. */
  datatype World = World(
    hash: Bytes -> Bytes, nodes: set<Node>, links: map<Node, seq<Node>>,
    maxRelayTtl: int, rateLimit: int, dedup: Bounds)
  {
    ghost predicate Valid() {
      && links.Keys == nodes && dedup.Valid()
      && (forall v :: v in nodes ==> |v| == SENDER_ID_SIZE)
      && (forall u, w :: u in nodes && w in links[u] ==> w in nodes)
    }

    function ConfigOf(v: Node): Config {
      Config(v, maxRelayTtl, rateLimit, dedup)
    }

    /** The hops a copy with this ttl is good for. */
    function Reach(ttl: int): int {
      Min(ttl, maxRelayTtl)
    }

    /** The first hop is taken whatever the relay ceiling. */
    function Hops(ttl: int): nat {
      if Reach(ttl) >= 1 then Reach(ttl) else 1
    }
  }

  /** Router states, copies under way, and the nodes that processed a packet, in order. */
  datatype Net = Net(routers: map<Node, RouterState>, inflight: seq<Copy>, processed: seq<Node>)

  ghost predicate RouterOk(world: World, st: RouterState) {
    st.routes.Valid() && |st.routes.keys| <= MAX_ROUTES && CacheInv(st.cache, world.dedup)
  }

  /** Every packet under way is a valid broadcast for a node of the mesh. */
  ghost predicate NetOk(world: World, net: Net) {
    && world.Valid() && net.routers.Keys == world.nodes
    && (forall v :: v in world.nodes ==> RouterOk(world, net.routers[v]))
    && CopiesOk(world, net.inflight)
  }

  /** `broadcast_packet` at node `v`: one copy to every neighbour but the one excluded. */
  function Copies(v: Node, neighbours: seq<Node>, exclude: Option<Node>, p: BitchatPacket): seq<Copy> {
    if neighbours == [] then []
    else
      (if exclude == Some(neighbours[0]) then [] else [Copy(v, neighbours[0], p)])
      + Copies(v, neighbours[1..], exclude, p)
  }

  function Drop<T>(xs: seq<T>, i: nat): seq<T>
    requires i < |xs|
  {
    xs[..i] + xs[i + 1..]
  }

  /** What a node does with a copy that arrives at `now`; a relayed copy is recorded once more when it is sent. */
  function Handle(world: World, st: RouterState, c: Copy, now: real, sentAt: real): (RouterState, Decision)
    requires st.routes.Valid() && c.packet.Valid()
  {
    var (st', d) := Evaluate(world.hash, world.ConfigOf(c.to), st, c.packet, Some(ToHex(c.from)), now);
    (if d.relay.Some? && d.relay.value.Valid()
     then st'.(cache := Record(st'.cache, world.dedup, PacketId(world.hash, d.relay.value), sentAt)) else st',
     d)
  }

  /** One delivery: the copy number `i` arrives. */
  function Deliver(world: World, net: Net, i: nat, now: real, sentAt: real): Net
    requires NetOk(world, net) && i < |net.inflight|
  {
    var c := net.inflight[i];
    var (st, d) := Handle(world, net.routers[c.to], c, now, sentAt);
    Net(net.routers[c.to := st],
        Drop(net.inflight, i) + Relayed(world, net.routers[c.to], c, now, sentAt),
        net.processed + (if d.processLocally then [c.to] else []))
  }

  /** The origin records its packet and sends it to every neighbour. */
  function Launch(world: World, routers: map<Node, RouterState>, origin: Node, p: BitchatPacket, now: real): Net
    requires world.Valid() && origin in world.nodes && origin in routers && p.Valid()
  {
    var st := routers[origin];
    Net(routers[origin := st.(cache := Record(st.cache, world.dedup, PacketId(world.hash, p), now))],
        Copies(origin, world.links[origin], None, p), [])
  }

  // ---- one router ----

  ghost predicate CopyOf(p: BitchatPacket, q: BitchatPacket) {
    q.Valid() && q.ttl >= 1 && q == p.(ttl := q.ttl)
  }

  /** The rate limiter of the node lets packets of the sender through at that time. */
  predicate LetsThrough(world: World, st: RouterState, p: BitchatPacket, now: real) {
    LetsIn(st.stamps, Limit(world.rateLimit, ROUTER_PRUNE_ABOVE), ToHex(p.senderId), now)
  }

  /** The node does not have the packet on record, or no longer. */
  ghost predicate NotOnRecord(world: World, st: RouterState, p: BitchatPacket, now: real)
    requires p.Valid()
  {
    var id := PacketId(world.hash, p);
    id in st.cache.vals ==> Expired(world.dedup, st.cache.vals[id], now)
  }

  /** The packet is new to the node, and its sender may send. */
  ghost predicate Unaware(world: World, st: RouterState, p: BitchatPacket, start: real)
    requires p.Valid()
  {
    NotOnRecord(world, st, p, start) && LetsThrough(world, st, p, start)
  }

  ghost predicate OnRecord(world: World, st: RouterState, p: BitchatPacket, time: real)
    requires p.Valid()
  {
    var id := PacketId(world.hash, p);
    id in st.cache.vals && st.cache.vals[id] == time
  }

  lemma RecordAware(c: Cache, b: Bounds, id: Bytes, now: real)
    requires b.Valid() && CacheInv(c, b)
    ensures CacheInv(Record(c, b, id, now), b) && id in Record(c, b, id, now).vals
    ensures Record(c, b, id, now).vals[id] == now
  {
    RecordKeepsInvariant(c, b, id, now);
  }

  lemma EvaluateOk(world: World, v: Node, st: RouterState, p: BitchatPacket, ingress: Option<string>, now: real)
    requires world.Valid() && RouterOk(world, st) && p.Valid()
    ensures RouterOk(world, Evaluate(world.hash, world.ConfigOf(v), st, p, ingress, now).0)
  {
    var id := PacketId(world.hash, p);
    EvaluateShape(world.hash, world.ConfigOf(v), st, p, ingress, now);
    StepKeepsInvariant(st.cache, world.dedup, CheckEvent(id, now));
    RecordKeepsInvariant(CheckAndRecord(st.cache, world.dedup, id, now).0, world.dedup, id, now);
    LearnRouteOk(st.routes, p, ingress, now);
  }

  lemma LearnRouteOk(r: Routes, p: BitchatPacket, ingress: Option<string>, now: real)
    requires r.Valid() && |r.keys| <= MAX_ROUTES
    ensures LearnRoute(r, p, ingress, now).Valid() && |LearnRoute(r, p, ingress, now).keys| <= MAX_ROUTES
  {
    if ingress.Some? && ingress.value != "" {
      AddRouteBounded(r, ToHex(p.senderId), ingress.value, HopCount(p.ttl), now);
    }
  }

  lemma HandleOk(world: World, st: RouterState, c: Copy, now: real, sentAt: real)
    requires world.Valid() && RouterOk(world, st) && c.packet.Valid()
    ensures RouterOk(world, Handle(world, st, c, now, sentAt).0)
  {
    EvaluateOk(world, c.to, st, c.packet, Some(ToHex(c.from)), now);
    var (st', d) := Evaluate(world.hash, world.ConfigOf(c.to), st, c.packet, Some(ToHex(c.from)), now);
    if d.relay.Some? && d.relay.value.Valid() {
      RecordKeepsInvariant(st'.cache, world.dedup, PacketId(world.hash, d.relay.value), sentAt);
    }
  }

  /** A node other than the sender keeps a copy exactly if the packet is new to it and its limiter lets the sender
      through. */
  lemma KeptExactly(world: World, st: RouterState, p: BitchatPacket, v: Node, q: BitchatPacket, now: real)
    requires p.Valid() && CopyOf(p, q) && p.senderId != v
    ensures WhyDropped(world.hash, world.ConfigOf(v), st, q, now) == None <==> Unaware(world, st, p, now)
  {
    IdIgnoresTtl(world.hash, p, q.ttl);
    RefusedExactly(st.stamps, Limit(world.rateLimit, ROUTER_PRUNE_ABOVE), ToHex(p.senderId), now);
  }

  /** Recording an id, once or again, leaves it on record with the latest time. */
  lemma RecordTwice(c: Cache, b: Bounds, id: Bytes, now: real)
    requires b.Valid() && CacheInv(c, b) && (id in c.vals ==> Expired(b, c.vals[id], now))
    ensures var once := CheckAndRecord(c, b, id, now).0;
            var twice := Record(once, b, id, now);
            && CacheInv(once, b) && id in once.vals && once.vals[id] == now
            && CacheInv(twice, b) && id in twice.vals && twice.vals[id] == now
  {
    var checked := CheckId(c, b, id, now).0;
    StepKeepsInvariant(c, b, QueryEvent(id, now));
    RecordAware(checked, b, id, now);
    RecordAware(Record(checked, b, id, now), b, id, now);
  }

  /** A copy that is new to a node other than the sender, and whose sender may send, is processed, put on record, and
      relayed with the next smaller ttl as long as that is at least 1. */
  lemma FirstArrival(world: World, st: RouterState, p: BitchatPacket, c: Copy, now: real, sentAt: real)
    requires world.Valid() && RouterOk(world, st) && p.Valid() && CopyOf(p, c.packet) && IsBroadcast(p)
    requires Unaware(world, st, p, now) && p.senderId != c.to
    ensures var (st', d) := Handle(world, st, c, now, sentAt);
            && d.processLocally && OnRecord(world, st', p, if d.relay.Some? then sentAt else now)
            && d.relay == if world.Reach(c.packet.ttl) > 1 then Some(p.(ttl := world.Reach(c.packet.ttl) - 1)) else None
  {
    var cfg, q, ingress := world.ConfigOf(c.to), c.packet, Some(ToHex(c.from));
    var (st', d) := Evaluate(world.hash, cfg, st, q, ingress, now);
    KeptExactly(world, st, p, c.to, q, now);
    EvaluateShape(world.hash, cfg, st, q, ingress, now);
    RouteOfBroadcast(world, p, c.to, q, ingress);
    RecordTwice(st.cache, world.dedup, PacketId(world.hash, q), now);
    IdIgnoresTtl(world.hash, p, q.ttl);
    if d.relay.Some? {
      IdIgnoresTtl(world.hash, p, d.relay.value.ttl);
      RecordAware(st'.cache, world.dedup, PacketId(world.hash, d.relay.value), sentAt);
    }
  }

  lemma RouteOfBroadcast(world: World, p: BitchatPacket, v: Node, q: BitchatPacket, ingress: Option<string>)
    requires p.Valid() && CopyOf(p, q) && IsBroadcast(p)
    ensures var d := Route(world.ConfigOf(v), q, ingress);
            && d.processLocally
            && d.relay == (if world.Reach(q.ttl) > 1 then Some(p.(ttl := world.Reach(q.ttl) - 1)) else None)
  {}

  /** Any other copy is dropped, as a duplicate or by the rate limiter, and changes nothing but that. */
  lemma LaterArrival(world: World, st: RouterState, p: BitchatPacket, c: Copy, now: real, sentAt: real)
    requires world.Valid() && RouterOk(world, st) && p.Valid() && CopyOf(p, c.packet) && p.senderId != c.to
    requires !Unaware(world, st, p, now)
    ensures var (st', d) := Handle(world, st, c, now, sentAt);
            !d.processLocally && d.relay == None && st' == st.(stamps := st'.stamps)
  {
    KeptExactly(world, st, p, c.to, c.packet, now);
    EvaluateShape(world.hash, world.ConfigOf(c.to), st, c.packet, Some(ToHex(c.from)), now);
  }

  /** A copy that comes back to the sender is dropped. */
  lemma BackAtSender(world: World, st: RouterState, p: BitchatPacket, c: Copy, now: real, sentAt: real)
    requires st.routes.Valid() && p.Valid() && CopyOf(p, c.packet) && p.senderId == c.to
    ensures var (st', d) := Handle(world, st, c, now, sentAt);
            st' == st && !d.processLocally && d.relay == None
  {}

  // ---- copies ----

  ghost predicate CopyTo(inflight: seq<Copy>, w: Node) {
    exists j :: 0 <= j < |inflight| && inflight[j].to == w
  }

  lemma CopyToAppend(a: seq<Copy>, b: seq<Copy>, w: Node)
    ensures CopyTo(a + b, w) <==> CopyTo(a, w) || CopyTo(b, w)
  {
    if CopyTo(a, w) {
      var j :| 0 <= j < |a| && a[j].to == w;
      assert (a + b)[j].to == w;
    }
    if CopyTo(b, w) {
      var j :| 0 <= j < |b| && b[j].to == w;
      assert (a + b)[|a| + j].to == w;
    }
    if CopyTo(a + b, w) {
      var j :| 0 <= j < |a + b| && (a + b)[j].to == w;
      if j < |a| {
        assert a[j].to == w;
      } else {
        assert b[j - |a|].to == w;
      }
    }
  }

  lemma CopyToDrop(inflight: seq<Copy>, i: nat, w: Node)
    requires i < |inflight| && CopyTo(inflight, w) && inflight[i].to != w
    ensures CopyTo(Drop(inflight, i), w)
  {
    var j :| 0 <= j < |inflight| && inflight[j].to == w;
    var rest := Drop(inflight, i);
    if j < i {
      assert rest[j] == inflight[j];
    } else {
      assert rest[j - 1] == inflight[j];
    }
  }

  /** Every copy sent carries the packet from `v` to a neighbour. */
  ghost predicate SentBy(copies: seq<Copy>, v: Node, neighbours: seq<Node>, p: BitchatPacket) {
    forall j :: 0 <= j < |copies| ==> copies[j].from == v && copies[j].to in neighbours && copies[j].packet == p
  }

  lemma {:induction false} CopiesSent(v: Node, neighbours: seq<Node>, exclude: Option<Node>, p: BitchatPacket)
    ensures SentBy(Copies(v, neighbours, exclude, p), v, neighbours, p)
    ensures |Copies(v, neighbours, exclude, p)| <= |neighbours|
  {
    if neighbours != [] {
      CopiesSent(v, neighbours[1..], exclude, p);
      var rest := Copies(v, neighbours[1..], exclude, p);
      assert forall w :: w in neighbours[1..] ==> w in neighbours;
    }
  }

  lemma {:induction false} CopyToEveryNeighbour(
      v: Node, neighbours: seq<Node>, exclude: Option<Node>, p: BitchatPacket, w: Node)
    requires w in neighbours && exclude != Some(w)
    ensures CopyTo(Copies(v, neighbours, exclude, p), w)
  {
    var head := if exclude == Some(neighbours[0]) then [] else [Copy(v, neighbours[0], p)];
    var rest := Copies(v, neighbours[1..], exclude, p);
    CopyToAppend(head, rest, w);
    if w == neighbours[0] {
      assert head[0].to == w;
    } else {
      assert w in neighbours[1..];
      CopyToEveryNeighbour(v, neighbours[1..], exclude, p, w);
    }
  }

  // ---- deliveries keep the net in order ----

  ghost predicate CopiesOk(world: World, copies: seq<Copy>) {
    forall j :: 0 <= j < |copies| ==>
      && copies[j].to in world.nodes && copies[j].from in world.nodes
      && copies[j].packet.Valid() && IsBroadcast(copies[j].packet)
  }

  /** What a delivery adds to the copies under way. */
  function Relayed(world: World, st: RouterState, c: Copy, now: real, sentAt: real): seq<Copy>
    requires st.routes.Valid() && c.packet.Valid() && c.to in world.links
  {
    var d := Handle(world, st, c, now, sentAt).1;
    if d.relay.Some? then Copies(c.to, world.links[c.to], Some(c.from), d.relay.value) else []
  }

  lemma RelayedOk(world: World, st: RouterState, c: Copy, now: real, sentAt: real)
    requires world.Valid() && st.routes.Valid() && c.packet.Valid() && IsBroadcast(c.packet) && c.to in world.nodes
    ensures CopiesOk(world, Relayed(world, st, c, now, sentAt))
  {
    var d := Handle(world, st, c, now, sentAt).1;
    RelayShrinksTtl(world.hash, world.ConfigOf(c.to), st, c.packet, Some(ToHex(c.from)), now);
    if d.relay.Some? {
      CopiesSent(c.to, world.links[c.to], Some(c.from), d.relay.value);
    }
  }

  lemma DropOk(world: World, copies: seq<Copy>, i: nat)
    requires CopiesOk(world, copies) && i < |copies|
    ensures CopiesOk(world, Drop(copies, i))
  {
    var rest := Drop(copies, i);
    assert forall j :: 0 <= j < |rest| ==> rest[j] == copies[if j < i then j else j + 1];
  }

  lemma DeliveredCopiesOk(world: World, net: Net, i: nat, now: real, sentAt: real)
    requires NetOk(world, net) && i < |net.inflight|
    ensures CopiesOk(world, Deliver(world, net, i, now, sentAt).inflight)
  {
    var c := net.inflight[i];
    RelayedOk(world, net.routers[c.to], c, now, sentAt);
    DropOk(world, net.inflight, i);
  }

  /** Deliveries keep the net in order. */
  lemma DeliverOk(world: World, net: Net, i: nat, now: real, sentAt: real)
    requires NetOk(world, net) && i < |net.inflight|
    ensures NetOk(world, Deliver(world, net, i, now, sentAt))
  {
    var c := net.inflight[i];
    HandleOk(world, net.routers[c.to], c, now, sentAt);
    DeliveredCopiesOk(world, net, i, now, sentAt);
  }

  // ---- runs ----

  /** A copy arrives and, if it is relayed, is recorded as sent a little later; or anything else happens at a node, be
      it other packets or pruning, and leaves its router in some state. */
  datatype Event = Arrives(index: nat, now: real, sentAt: real) | Meanwhile(node: Node, state: RouterState)

  ghost predicate Possible(world: World, net: Net, e: Event) {
    match e
    case Arrives(i, _, _) => i < |net.inflight|
    case Meanwhile(v, st) => v in world.nodes && RouterOk(world, st)
  }

  function Next(world: World, net: Net, e: Event): Net
    requires NetOk(world, net) && Possible(world, net, e)
  {
    match e
    case Arrives(i, now, sentAt) => Deliver(world, net, i, now, sentAt)
    case Meanwhile(v, st) => net.(routers := net.routers[v := st])
  }

  /** Every event keeps the net in order. */
  lemma NextOk(world: World, net: Net, e: Event)
    requires NetOk(world, net) && Possible(world, net, e)
    ensures NetOk(world, Next(world, net, e))
  {
    if e.Arrives? {
      DeliverOk(world, net, e.index, e.now, e.sentAt);
    }
  }

  /** Every event of the list can happen in its turn. */
  ghost predicate Runs(world: World, net: Net, events: seq<Event>)
    requires NetOk(world, net)
    decreases events
  {
    events == [] ||
    (&& Possible(world, net, events[0])
     && (NextOk(world, net, events[0]); Runs(world, Next(world, net, events[0]), events[1..])))
  }

  ghost function Final(world: World, net: Net, events: seq<Event>): (final: Net)
    requires NetOk(world, net) && Runs(world, net, events)
    ensures NetOk(world, final)
    decreases events
  {
    if events == [] then net
    else
      NextOk(world, net, events[0]);
      Final(world, Next(world, net, events[0]), events[1..])
  }
}
