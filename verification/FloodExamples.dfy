/** Floods that miss a node: why hops are needed for as many nodes as the mesh has, and not only for the farthest one,
    and why the sender must not have used up the rate limit (src/bitchat/mesh/router.py). */
module FloodExamples {
  import opened Wrappers
  import opened ByteStrings
  import opened Lists
  import opened OrderedDicts
  import opened Packets
  import opened Hex
  import opened RateLimiter
  import opened MeshRouting
  import opened Flood
  import opened FloodCoverage
  import opened FloodRange

  // ---- a detour that is faster than the direct link ----

  ghost predicate LinksAlong(world: World, path: seq<Node>, i: nat)
    requires 1 <= i < |path| - 1 && path[i] in world.links
  {
    world.links[path[i]] == [path[i - 1], path[i + 1]]
  }

  /** `path` leads from the origin to the hub; the origin has a link to the hub too, and the far node hangs on the
      hub. */
  ghost predicate IsDetour(world: World, b: Broadcast, path: seq<Node>, far: Node) {
    && |path| >= 3 && path[0] == b.origin && Distinct(path) && far !in path
    && world.nodes == world.links.Keys == ToSet(path) + {far}
    && world.links[path[0]] == [path[|path| - 1], path[1]]
    && (forall i :: 1 <= i < |path| - 1 ==> LinksAlong(world, path, i))
    && world.links[path[|path| - 1]] == [path[|path| - 2], path[0], far]
    && world.links[far] == [path[|path| - 1]]
  }

  /** The copy on its way to the node number `k` of the path. */
  function CopyAlong(b: Broadcast, path: seq<Node>, k: nat): Copy
    requires 1 <= k < |path|
  {
    Copy(path[k - 1], path[k], if k == 1 then b.packet else b.packet.(ttl := |path| - k))
  }

  /** The copy that was sent to the hub at once. */
  function Direct(b: Broadcast, path: seq<Node>): Copy
    requires path != []
  {
    Copy(path[0], path[|path| - 1], b.packet)
  }

  ghost predicate Setting(world: World, b: Broadcast, path: seq<Node>, far: Node) {
    world.Valid() && b.Valid(world) && IsDetour(world, b, path, far) && world.Reach(b.packet.ttl) == |path| - 1
  }

  /** The direct copy is still under way; the nodes of the path before number `k` have processed the packet. */
  ghost predicate OnItsWay(world: World, b: Broadcast, path: seq<Node>, net: Net, k: nat)
    requires b.packet.Valid() && 1 <= k <= |path|
  {
    && NetOk(world, net) && net.processed == path[1..k] && RoutersAgree(world, b, net.routers, net.processed)
    && net.inflight == [Direct(b, path)] + if k < |path| then [CopyAlong(b, path, k)] else []
  }

  /** A node of the path sends the packet to the next one, and the hub to nobody: the hops are spent. */
  lemma OnwardAlong(world: World, b: Broadcast, path: seq<Node>, far: Node, k: nat)
    requires Setting(world, b, path, far) && 1 <= k < |path|
    ensures Onward(world, b, CopyAlong(b, path, k)) == if k + 1 < |path| then [CopyAlong(b, path, k + 1)] else []
  {
    var c := CopyAlong(b, path, k);
    DistinctKeys(path);
    assert world.Reach(c.packet.ttl) == |path| - k;
    if k + 1 < |path| {
      var q := b.packet.(ttl := |path| - k - 1);
      assert LinksAlong(world, path, k);
      var rest: seq<Node> := [path[k + 1]];
      assert [path[k - 1], path[k + 1]][1..] == rest && rest[1..] == [];
      assert Copies(c.to, [path[k + 1]], Some(c.from), q) == [CopyAlong(b, path, k + 1)];
    }
  }

  /** The node number `k` of the path is a new one, and sends the packet on to the next one only. */
  ghost predicate StepsOn(world: World, b: Broadcast, path: seq<Node>, k: nat)
    requires b.packet.Valid() && 1 <= k < |path|
  {
    && path[k] in world.links && path[k] != b.origin && path[k] !in path[1..k]
    && CopyOf(b.packet, CopyAlong(b, path, k).packet)
    && Onward(world, b, CopyAlong(b, path, k)) == if k + 1 < |path| then [CopyAlong(b, path, k + 1)] else []
  }

  ghost predicate AllStepOn(world: World, b: Broadcast, path: seq<Node>) {
    && b.Valid(world) && |path| >= 2 && CopyOf(b.packet, b.packet)
    && forall k :: 1 <= k < |path| ==> StepsOn(world, b, path, k)
  }

  lemma OnPath(world: World, b: Broadcast, path: seq<Node>, far: Node, k: nat)
    requires Setting(world, b, path, far) && 1 <= k < |path|
    ensures StepsOn(world, b, path, k)
  {
    DistinctKeys(path);
    OnwardAlong(world, b, path, far, k);
    assert b.packet == b.packet.(ttl := b.packet.ttl);
  }

  lemma DetourStepsOn(world: World, b: Broadcast, path: seq<Node>, far: Node)
    requires Setting(world, b, path, far)
    ensures AllStepOn(world, b, path)
  {
    assert b.packet == b.packet.(ttl := b.packet.ttl);
    forall k | 1 <= k < |path| ensures StepsOn(world, b, path, k) {
      OnPath(world, b, path, far, k);
    }
  }

  /** A copy that arrives at once where the packet has not been is taken for new. */
  lemma NewAtOnce(world: World, b: Broadcast, net: Net, i: nat)
    requires NetOk(world, net) && b.Valid(world) && i < |net.inflight| && CopyOf(b.packet, net.inflight[i].packet)
    requires RoutersAgree(world, b, net.routers, net.processed)
    requires net.inflight[i].to != b.origin && net.inflight[i].to !in net.processed
    ensures var e := Arrives(i, b.start, b.start);
            var t := Next(world, net, e);
            && LeavesAlone(world, b, net, e) && NetOk(world, t) && RoutersAgree(world, b, t.routers, t.processed)
            && t.inflight == Drop(net.inflight, i) + Onward(world, b, net.inflight[i])
            && t.processed == net.processed + [net.inflight[i].to]
  {
    var e := Arrives(i, b.start, b.start);
    NextOk(world, net, e);
    AgreeingDecide(world, b, net, e);
    AgreeingGoOn(world, b, net, e);
    NewDelivery(world, b, net, i, b.start, b.start);
  }

  /** One that arrives where the packet has been is not. */
  lemma KnownAtOnce(world: World, b: Broadcast, net: Net, i: nat)
    requires NetOk(world, net) && b.Valid(world) && i < |net.inflight| && CopyOf(b.packet, net.inflight[i].packet)
    requires RoutersAgree(world, b, net.routers, net.processed) && net.inflight[i].to in net.processed
    ensures var e := Arrives(i, b.start, b.start);
            var t := Next(world, net, e);
            && LeavesAlone(world, b, net, e) && NetOk(world, t)
            && t.inflight == Drop(net.inflight, i) && t.processed == net.processed
  {
    var e := Arrives(i, b.start, b.start);
    NextOk(world, net, e);
    AgreeingDecide(world, b, net, e);
    QuietDelivery(world, b, net, i, b.start, b.start);
  }

  /** The copy along the path arrives at the next node. */
  lemma OneNodeOn(world: World, b: Broadcast, path: seq<Node>, net: Net, k: nat)
    requires AllStepOn(world, b, path) && 1 <= k < |path| && OnItsWay(world, b, path, net, k)
    ensures var e := Arrives(1, b.start, b.start);
            && Possible(world, net, e) && LeavesAlone(world, b, net, e)
            && OnItsWay(world, b, path, Next(world, net, e), k + 1)
  {
    assert net.inflight[1] == CopyAlong(b, path, k) && StepsOn(world, b, path, k);
    NewAtOnce(world, b, net, 1);
    DropSecond(Direct(b, path), CopyAlong(b, path, k));
    LongerBy(path, k);
  }

  lemma LastOf(path: seq<Node>)
    requires |path| >= 2
    ensures path[1..|path|] == path[1..] && path[|path| - 1] in path[1..]
  {
    assert path[1..][|path| - 2] == path[|path| - 1];
  }

  lemma DropSecond(c: Copy, d: Copy)
    ensures Drop([c] + [d], 1) == [c]
  {}

  lemma LongerBy(path: seq<Node>, k: nat)
    requires 1 <= k < |path|
    ensures path[1..k] + [path[k]] == path[1..k + 1]
  {}

  /** The direct copy arrives at last, when the hub has the packet on record. */
  lemma DirectIsLate(world: World, b: Broadcast, path: seq<Node>, net: Net)
    requires AllStepOn(world, b, path) && OnItsWay(world, b, path, net, |path|)
    ensures var e := Arrives(0, b.start, b.start);
            && Possible(world, net, e) && LeavesAlone(world, b, net, e) && NetOk(world, Next(world, net, e))
            && Next(world, net, e).inflight == [] && Next(world, net, e).processed == path[1..]
  {
    assert net.inflight == [Direct(b, path)];
    LastOf(path);
    KnownAtOnce(world, b, net, 0);
  }

  /** Nothing happens but arrivals. */
  ghost predicate OnlyArrivals(events: seq<Event>) {
    forall e :: e in events ==> e.Arrives?
  }

  /** A run of these arrivals that nothing disturbs leaves no copy under way, and exactly `reached` has processed the
      packet. */
  ghost predicate EndsWith(world: World, b: Broadcast, net: Net, events: seq<Event>, reached: seq<Node>)
    requires NetOk(world, net) && b.packet.Valid()
  {
    && OnlyArrivals(events) && Runs(world, net, events) && Undisturbed(world, b, net, events)
    && Final(world, net, events).inflight == [] && Final(world, net, events).processed == reached
  }

  lemma OneMoreEvent(world: World, net: Net, e: Event, rest: seq<Event>)
    requires NetOk(world, net) && Possible(world, net, e) && NetOk(world, Next(world, net, e))
    requires Runs(world, Next(world, net, e), rest)
    ensures Runs(world, net, [e] + rest) && Final(world, net, [e] + rest) == Final(world, Next(world, net, e), rest)
  {
    assert ([e] + rest)[1..] == rest;
  }

  lemma EndsAfter(world: World, b: Broadcast, net: Net, e: Event, rest: seq<Event>, reached: seq<Node>)
    requires NetOk(world, net) && b.packet.Valid() && Possible(world, net, e) && NetOk(world, Next(world, net, e))
    requires e.Arrives? && LeavesAlone(world, b, net, e)
    requires EndsWith(world, b, Next(world, net, e), rest, reached)
    ensures EndsWith(world, b, net, [e] + rest, reached)
  {
    OneMoreEvent(world, net, e, rest);
    assert ([e] + rest)[1..] == rest;
  }

  lemma OnlyOne(e: Event)
    ensures [e] + [] == [e]
  {}

  lemma DirectEnds(world: World, b: Broadcast, path: seq<Node>, net: Net)
    requires AllStepOn(world, b, path) && OnItsWay(world, b, path, net, |path|)
    ensures EndsWith(world, b, net, [Arrives(0, b.start, b.start)], path[1..])
  {
    var e := Arrives(0, b.start, b.start);
    DirectIsLate(world, b, path, net);
    EndsAfter(world, b, net, e, [], path[1..]);
    OnlyOne(e);
  }

  /** Each copy along the path arrives before the one that was sent to the hub at once. */
  lemma {:induction false} DetourEnds(world: World, b: Broadcast, path: seq<Node>, net: Net, k: nat)
    returns (events: seq<Event>)
    requires AllStepOn(world, b, path) && 1 <= k <= |path| && OnItsWay(world, b, path, net, k)
    ensures EndsWith(world, b, net, events, path[1..])
    decreases |path| - k
  {
    if k == |path| {
      DirectEnds(world, b, path, net);
      events := [Arrives(0, b.start, b.start)];
    } else {
      var e := Arrives(1, b.start, b.start);
      OneNodeOn(world, b, path, net, k);
      var rest := DetourEnds(world, b, path, Next(world, net, e), k + 1);
      EndsAfter(world, b, net, e, rest, path[1..]);
      events := [e] + rest;
    }
  }

  lemma LaunchOnItsWay(world: World, b: Broadcast, path: seq<Node>, far: Node, routers: map<Node, RouterState>)
    requires Setting(world, b, path, far) && routers.Keys == world.nodes && Quiet(world, b, routers)
    requires forall v :: v in world.nodes ==> RouterOk(world, routers[v])
    ensures OnItsWay(world, b, path, Launched(world, b, routers), 1)
  {
    LaunchSends(world, b, path, far);
    LaunchedIs(world, b, routers);
    NothingYet(path);
  }

  lemma NothingYet(path: seq<Node>)
    requires |path| >= 1
    ensures path[1..1] == []
  {}

  lemma LaunchedIs(world: World, b: Broadcast, routers: map<Node, RouterState>)
    requires world.Valid() && b.Valid(world) && routers.Keys == world.nodes && Quiet(world, b, routers)
    requires forall v :: v in world.nodes ==> RouterOk(world, routers[v])
    ensures var net := Launched(world, b, routers);
            && NetOk(world, net) && net.processed == [] && RoutersAgree(world, b, net.routers, [])
            && net.inflight == Copies(b.origin, world.links[b.origin], None, b.packet)
  {
    LaunchOk(world, b, routers);
    LaunchAgrees(world, b, routers);
  }

  lemma LaunchSends(world: World, b: Broadcast, path: seq<Node>, far: Node)
    requires Setting(world, b, path, far)
    ensures Copies(b.origin, world.links[b.origin], None, b.packet) == [Direct(b, path)] + [CopyAlong(b, path, 1)]
  {
    var links: seq<Node> := [path[|path| - 1], path[1]];
    var rest: seq<Node> := links[1..];
    assert rest == [path[1]] && rest[1..] == [];
    assert Copies(b.origin, rest, None, b.packet) == [CopyAlong(b, path, 1)];
  }

  // ---- every node is near ----

  predicate HasLink(world: World, u: Node, v: Node) {
    u in world.links && v in world.links[u]
  }

  /** The links that lead to every node. */
  ghost predicate LeadsOn(world: World, path: seq<Node>, far: Node) {
    && |path| >= 3
    && (forall k :: 1 <= k < |path| ==> HasLink(world, path[k - 1], path[k]))
    && HasLink(world, path[0], path[|path| - 1]) && HasLink(world, path[|path| - 1], far)
  }

  lemma DetourLeadsOn(world: World, b: Broadcast, path: seq<Node>, far: Node)
    requires IsDetour(world, b, path, far)
    ensures LeadsOn(world, path, far)
  {
    forall k | 1 <= k < |path| ensures HasLink(world, path[k - 1], path[k]) {
      assert k > 1 ==> LinksAlong(world, path, k - 1);
      assert world.links[path[k - 1]][1] == path[k];
    }
    assert world.links[path[0]][0] == path[|path| - 1];
    assert world.links[path[|path| - 1]][2] == far;
  }

  lemma OneFarther(world: World, origin: Node, u: Node, v: Node, h: nat)
    requires Within(world, origin, u, h) && HasLink(world, u, v)
    ensures Within(world, origin, v, h + 1)
  {}

  lemma {:induction false} PathWithin(world: World, path: seq<Node>, far: Node, k: nat)
    requires LeadsOn(world, path, far) && k < |path|
    ensures Within(world, path[0], path[k], k)
  {
    if k > 0 {
      PathWithin(world, path, far, k - 1);
      OneFarther(world, path[0], path[k - 1], path[k], k - 1);
    }
  }

  lemma PlaceNear(world: World, path: seq<Node>, far: Node, k: nat)
    requires LeadsOn(world, path, far) && k < |path|
    ensures Within(world, path[0], path[k], |path| - 1)
  {
    PathWithin(world, path, far, k);
    WithinMore(world, path[0], path[k], k, |path| - 1);
  }

  lemma FarNear(world: World, path: seq<Node>, far: Node)
    requires LeadsOn(world, path, far)
    ensures Within(world, path[0], far, |path| - 1)
  {
    OneFarther(world, path[0], path[0], path[|path| - 1], 0);
    OneFarther(world, path[0], path[|path| - 1], far, 1);
    WithinMore(world, path[0], far, 2, |path| - 1);
  }

  lemma NodeNear(world: World, path: seq<Node>, far: Node, v: Node)
    requires LeadsOn(world, path, far) && v in ToSet(path) + {far}
    ensures Within(world, path[0], v, |path| - 1)
  {
    if v in path {
      var k :| 0 <= k < |path| && path[k] == v;
      PlaceNear(world, path, far, k);
    } else {
      FarNear(world, path, far);
    }
  }

  lemma AllNear(world: World, b: Broadcast, path: seq<Node>, far: Node)
    requires Setting(world, b, path, far)
    ensures forall v :: v in world.nodes ==> Within(world, b.origin, v, world.Hops(b.packet.ttl))
  {
    DetourLeadsOn(world, b, path, far);
    forall v | v in world.nodes ensures Within(world, b.origin, v, world.Hops(b.packet.ttl)) {
      NodeNear(world, path, far, v);
    }
  }

  lemma {:induction false} WalkOn(world: World, walk: seq<Node>, v: Node)
    requires IsWalk(world, walk) && v in world.links
    requires walk[|walk| - 1] in world.links && v in world.links[walk[|walk| - 1]]
    ensures IsWalk(world, walk + [v])
    decreases walk
  {
    var one: seq<Node> := [v];
    assert IsWalk(world, one);
    assert (walk + [v])[1..] == walk[1..] + [v];
    if |walk| > 1 {
      WalkOn(world, walk[1..], v);
    } else {
      assert (walk + [v])[1..] == one;
    }
  }

  lemma {:induction false} NearIsLinked(world: World, origin: Node, v: Node, h: nat)
    requires world.Valid() && origin in world.nodes && v in world.nodes && Within(world, origin, v, h)
    ensures Linked(world, origin, v)
    decreases h
  {
    if v == origin {
      var walk := [origin];
      assert IsWalk(world, walk);
    } else {
      var u :| u in world.links && v in world.links[u] && Within(world, origin, u, h - 1);
      NearIsLinked(world, origin, u, h - 1);
      var walk :| IsWalk(world, walk) && walk[0] == origin && walk[|walk| - 1] == u;
      WalkOn(world, walk, v);
      assert (walk + [v])[0] == origin && (walk + [v])[|walk + [v]| - 1] == v;
    }
  }

  lemma AllLinked(world: World, b: Broadcast, h: nat)
    requires world.Valid() && b.Valid(world) && forall v :: v in world.nodes ==> Within(world, b.origin, v, h)
    ensures ConnectedFrom(world, b.origin)
  {
    forall v | v in world.nodes ensures Linked(world, b.origin, v) {
      NearIsLinked(world, b.origin, v, h);
    }
  }

  lemma OneNodeTooMany(world: World, b: Broadcast, path: seq<Node>, far: Node)
    requires Setting(world, b, path, far)
    ensures |world.nodes| == world.Hops(b.packet.ttl) + 2
  {
    DistinctSize(path);
  }

  /** For every ttl of at least 2: a mesh of ttl + 2 nodes, all within ttl hops of the origin, that the broadcast does
      not cover, though no copy is lost, no limiter refuses and nothing else goes on. The copies that go round the path
      reach the hub before the direct one and with their hops spent; the direct one is a duplicate then. So the bound on
      the number of nodes in `FloodReachesAll` cannot be relaxed by one, nor replaced by one on the distance. */
  lemma DetourSpendsTheHops(world: World, b: Broadcast, path: seq<Node>, far: Node, routers: map<Node, RouterState>)
    requires Setting(world, b, path, far) && routers.Keys == world.nodes && Quiet(world, b, routers)
    requires forall v :: v in world.nodes ==> RouterOk(world, routers[v])
    ensures |world.nodes| == world.Hops(b.packet.ttl) + 2 && ConnectedFrom(world, b.origin)
    ensures forall v :: v in world.nodes ==> Within(world, b.origin, v, world.Hops(b.packet.ttl))
    ensures exists events ::
              && OnlyArrivals(events)
              && RunFromLaunch(world, b, routers, events) && UndisturbedFromLaunch(world, b, routers, events)
              && Outcome(world, b, routers, events).inflight == []
              && far !in Outcome(world, b, routers, events).processed
  {
    OneNodeTooMany(world, b, path, far);
    AllNear(world, b, path, far);
    AllLinked(world, b, world.Hops(b.packet.ttl));
    LaunchOnItsWay(world, b, path, far, routers);
    DetourStepsOn(world, b, path, far);
    var events := DetourEnds(world, b, path, Launched(world, b, routers), 1);
    FromLaunch(world, b, routers, events);
  }

  lemma FromLaunch(world: World, b: Broadcast, routers: map<Node, RouterState>, events: seq<Event>)
    requires world.Valid() && b.Valid(world) && routers.Keys == world.nodes
    requires forall v :: v in world.nodes ==> RouterOk(world, routers[v])
    requires NetOk(world, Launched(world, b, routers)) && Runs(world, Launched(world, b, routers), events)
    ensures RunFromLaunch(world, b, routers, events)
    ensures Outcome(world, b, routers, events) == Final(world, Launched(world, b, routers), events)
    ensures Undisturbed(world, b, Launched(world, b, routers), events) ==>
            UndisturbedFromLaunch(world, b, routers, events)
  {}

  // ---- a used-up rate limit ----

  /** The origin and one other node. */
  ghost predicate IsPair(world: World, b: Broadcast, other: Node) {
    && world.nodes == world.links.Keys == {b.origin, other} && other != b.origin
    && world.links[b.origin] == [other] && world.links[other] == [b.origin]
  }

  lemma PairSends(world: World, b: Broadcast, other: Node)
    requires b.packet.Valid() && IsPair(world, b, other)
    ensures Copies(b.origin, world.links[b.origin], None, b.packet) == [Copy(b.origin, other, b.packet)]
    ensures Onward(world, b, Copy(b.origin, other, b.packet)) == []
  {
    var there: seq<Node>, back: seq<Node> := [other], [b.origin];
    var q := b.packet.(ttl := world.Reach(b.packet.ttl) - 1);
    assert there[1..] == [] && back[1..] == [];
    assert Copies(other, back, Some(b.origin), q) == [];
  }

  lemma PairCovered(world: World, b: Broadcast, other: Node)
    requires IsPair(world, b, other)
    ensures Covered(world, b, [] + [other]) && !Covered(world, b, [])
  {
    var one: seq<Node> := [] + [other];
    assert one[1..] == [];
  }

  lemma DropOnly(c: Copy)
    ensures Drop([c], 0) == [] && Drop([c], 0) + [] == []
  {}

  lemma OnlyNew(world: World, b: Broadcast, net: Net, c: Copy, now: real)
    requires NetOk(world, net) && b.Valid(world) && net.inflight == [c] && CopyOf(b.packet, c.packet)
    requires c.to in world.links && Onward(world, b, c) == [] && TakenForNew(world, b, net, 0, now)
    ensures var t := Deliver(world, net, 0, now, now); t.inflight == [] && t.processed == net.processed + [c.to]
  {
    DropOnly(c);
    NewDelivery(world, b, net, 0, now, now);
  }

  lemma OnlyKnown(world: World, b: Broadcast, net: Net, c: Copy, now: real)
    requires NetOk(world, net) && b.Valid(world) && net.inflight == [c] && CopyOf(b.packet, c.packet)
    requires !TakenForNew(world, b, net, 0, now)
    ensures var t := Deliver(world, net, 0, now, now); t.inflight == [] && t.processed == net.processed
  {
    DropOnly(c);
    QuietDelivery(world, b, net, 0, now, now);
  }

  lemma PairDelivery(world: World, b: Broadcast, other: Node, net: Net, now: real)
    requires NetOk(world, net) && b.Valid(world) && IsPair(world, b, other)
    requires net.inflight == [Copy(b.origin, other, b.packet)] && net.processed == []
    ensures var t := Deliver(world, net, 0, now, now);
            && t.inflight == []
            && t.processed == if TakenForNew(world, b, net, 0, now) then [] + [other] else []
  {
    var c := Copy(b.origin, other, b.packet);
    assert b.packet == b.packet.(ttl := b.packet.ttl);
    PairSends(world, b, other);
    if TakenForNew(world, b, net, 0, now) {
      OnlyNew(world, b, net, c, now);
    } else {
      OnlyKnown(world, b, net, c, now);
    }
  }

  /** On a mesh of two, the broadcast reaches the other node exactly if it is new there and the rate limiter lets the
      sender through when the only copy arrives. */
  lemma PairExactly(world: World, b: Broadcast, other: Node, routers: map<Node, RouterState>, now: real)
    requires world.Valid() && b.Valid(world) && IsPair(world, b, other) && routers.Keys == world.nodes
    requires forall v :: v in world.nodes ==> RouterOk(world, routers[v])
    ensures var events := [Arrives(0, now, now)];
            && RunFromLaunch(world, b, routers, events) && Outcome(world, b, routers, events).inflight == []
            && (Covered(world, b, Outcome(world, b, routers, events).processed)
                <==> Unaware(world, routers[other], b.packet, now))
  {
    var net, e := Launched(world, b, routers), Arrives(0, now, now);
    LaunchOk(world, b, routers);
    PairSends(world, b, other);
    PairDelivery(world, b, other, net, now);
    PairCovered(world, b, other);
    NextOk(world, net, e);
    OneMoreEvent(world, net, e, []);
    FromLaunch(world, b, routers, [e] + []);
    OnlyOne(e);
  }
}
