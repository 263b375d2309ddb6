/** Every flood comes to an end, within a bound on its arrivals (src/bitchat/mesh/router.py). */
module FloodTermination {
  import opened Wrappers
  import opened ByteStrings
  import opened OrderedDicts
  import opened Packets
  import opened Hex
  import opened MeshRouting
  import opened Flood
  import opened FloodCoverage

  function Power(base: nat, e: nat): nat {
    if e == 0 then 1 else base * Power(base, e - 1)
  }

  function AtLeast0(n: int): nat {
    if n < 0 then 0 else n
  }

  /** A bound on the deliveries that a copy can still cause, when no node has more than `degree` neighbours. */
  function Weight(world: World, degree: nat, c: Copy): nat {
    Power(degree + 1, AtLeast0(world.Reach(c.packet.ttl)))
  }

  function TotalWeight(world: World, degree: nat, copies: seq<Copy>): nat {
    if copies == [] then 0 else Weight(world, degree, copies[0]) + TotalWeight(world, degree, copies[1..])
  }

  lemma {:induction false} TotalAppend(world: World, degree: nat, a: seq<Copy>, b: seq<Copy>)
    ensures TotalWeight(world, degree, a + b) == TotalWeight(world, degree, a) + TotalWeight(world, degree, b)
  {
    if a == [] {
      assert a + b == b;
    } else {
      assert (a + b)[1..] == a[1..] + b;
      TotalAppend(world, degree, a[1..], b);
    }
  }

  lemma TotalDrop(world: World, degree: nat, copies: seq<Copy>, i: nat)
    requires i < |copies|
    ensures TotalWeight(world, degree, Drop(copies, i)) + Weight(world, degree, copies[i])
            == TotalWeight(world, degree, copies)
  {
    assert copies == copies[..i] + ([copies[i]] + copies[i + 1..]);
    TotalAppend(world, degree, copies[..i], [copies[i]] + copies[i + 1..]);
    TotalAppend(world, degree, [copies[i]], copies[i + 1..]);
    assert [copies[i]][1..] == [];
    assert TotalWeight(world, degree, [copies[i]]) == Weight(world, degree, copies[i]);
    TotalAppend(world, degree, copies[..i], copies[i + 1..]);
  }

  lemma {:induction false} TotalOfEqual(world: World, degree: nat, copies: seq<Copy>, weight: nat)
    requires forall j :: 0 <= j < |copies| ==> Weight(world, degree, copies[j]) == weight
    ensures TotalWeight(world, degree, copies) == |copies| * weight
  {
    if copies != [] {
      TotalOfEqual(world, degree, copies[1..], weight);
      MulStep(|copies[1..]|, weight);
    }
  }

  lemma MulStep(n: nat, w: nat)
    ensures (n + 1) * w == n * w + w
  {}

  lemma {:induction false} PowerPositive(base: nat, e: nat)
    requires base >= 1
    ensures Power(base, e) >= 1
  {
    if e > 0 {
      PowerPositive(base, e - 1);
      MulAtLeast(base, Power(base, e - 1));
    }
  }

  lemma MulAtLeast(a: nat, b: nat)
    requires a >= 1 && b >= 1
    ensures a * b >= 1
  {}

  lemma MulMonotone(a: nat, b: nat, w: nat)
    requires a <= b
    ensures a * w <= b * w
  {}

  /** Termination: every delivery, whatever the duplicate caches hold and whatever the packets, makes the total weight
      of the copies under way smaller. */
  lemma EveryDeliveryDecreases(world: World, net: Net, i: nat, now: real, sentAt: real, degree: nat)
    requires NetOk(world, net) && i < |net.inflight|
    requires forall v :: v in world.nodes ==> |world.links[v]| <= degree
    ensures TotalWeight(world, degree, Deliver(world, net, i, now, sentAt).inflight)
            < TotalWeight(world, degree, net.inflight)
  {
    var c := net.inflight[i];
    var sent := Relayed(world, net.routers[c.to], c, now, sentAt);
    TotalDrop(world, degree, net.inflight, i);
    TotalAppend(world, degree, Drop(net.inflight, i), sent);
    RelayedWeighsLess(world, net.routers[c.to], c, now, sentAt, degree);
  }

  ghost predicate DegreeAtMost(world: World, degree: nat) {
    forall v :: v in world.links ==> |world.links[v]| <= degree
  }

  /** How many copies arrive in a run. */
  function Arrivals(events: seq<Event>): nat {
    if events == [] then 0 else (if events[0].Arrives? then 1 else 0) + Arrivals(events[1..])
  }

  /** So every flood ends: in a run there are no more arrivals than the copies under way at its start weigh, less what
      those at its end do. */
  lemma {:induction false} EveryRunEnds(world: World, net: Net, events: seq<Event>, degree: nat)
    requires NetOk(world, net) && Runs(world, net, events) && DegreeAtMost(world, degree)
    ensures Arrivals(events) + TotalWeight(world, degree, Final(world, net, events).inflight)
            <= TotalWeight(world, degree, net.inflight)
    decreases events
  {
    if events != [] {
      var e := events[0];
      NextOk(world, net, e);
      if e.Arrives? {
        EveryDeliveryDecreases(world, net, e.index, e.now, e.sentAt, degree);
      }
      EveryRunEnds(world, Next(world, net, e), events[1..], degree);
    }
  }

  lemma LaunchWeighs(world: World, b: Broadcast, degree: nat)
    requires world.Valid() && b.Valid(world)
    ensures var sent := Copies(b.origin, world.links[b.origin], None, b.packet);
            TotalWeight(world, degree, sent) == |sent| * Power(degree + 1, AtLeast0(world.Reach(b.packet.ttl)))
            && |sent| <= |world.links[b.origin]|
  {
    var sent := Copies(b.origin, world.links[b.origin], None, b.packet);
    var weight := Power(degree + 1, AtLeast0(world.Reach(b.packet.ttl)));
    CopiesSent(b.origin, world.links[b.origin], None, b.packet);
    forall j | 0 <= j < |sent| ensures Weight(world, degree, sent[j]) == weight {
      assert sent[j].packet == b.packet;
    }
    TotalOfEqual(world, degree, sent, weight);
  }

  /** A broadcast causes at most `degree * (degree + 1) ^ ttl` arrivals in all, with the relay ceiling for the ttl if
      that is lower. */
  lemma ArrivalsBounded(
      world: World, b: Broadcast, routers: map<Node, RouterState>, events: seq<Event>, degree: nat)
    requires RunFromLaunch(world, b, routers, events) && DegreeAtMost(world, degree)
    ensures Arrivals(events) <= degree * Power(degree + 1, AtLeast0(world.Reach(b.packet.ttl)))
  {
    var net := Launched(world, b, routers);
    LaunchOk(world, b, routers);
    EveryRunEnds(world, net, events, degree);
    LaunchWeighs(world, b, degree);
    MulMonotone(|net.inflight|, degree, Power(degree + 1, AtLeast0(world.Reach(b.packet.ttl))));
  }

  lemma RelayedWeighsLess(world: World, st: RouterState, c: Copy, now: real, sentAt: real, degree: nat)
    requires world.Valid() && st.routes.Valid() && c.packet.Valid() && c.to in world.nodes
    requires |world.links[c.to]| <= degree
    ensures TotalWeight(world, degree, Relayed(world, st, c, now, sentAt)) < Weight(world, degree, c)
  {
    var d := Handle(world, st, c, now, sentAt).1;
    PowerPositive(degree + 1, AtLeast0(world.Reach(c.packet.ttl)));
    RelayShrinksTtl(world.hash, world.ConfigOf(c.to), st, c.packet, Some(ToHex(c.from)), now);
    if d.relay.Some? {
      CopiesWeighLess(world, c, d.relay.value, degree);
    }
  }

  lemma CopiesWeighLess(world: World, c: Copy, q: BitchatPacket, degree: nat)
    requires c.to in world.links && |world.links[c.to]| <= degree
    requires q.ttl == world.Reach(c.packet.ttl) - 1 >= 1
    ensures TotalWeight(world, degree, Copies(c.to, world.links[c.to], Some(c.from), q)) < Weight(world, degree, c)
  {
    var sent := Copies(c.to, world.links[c.to], Some(c.from), q);
    var less := Power(degree + 1, q.ttl);
    CopiesSent(c.to, world.links[c.to], Some(c.from), q);
    forall j | 0 <= j < |sent| ensures Weight(world, degree, sent[j]) == less {
      assert sent[j].packet == q;
    }
    TotalOfEqual(world, degree, sent, less);
    PowerPositive(degree + 1, q.ttl);
    MulMonotone(|sent|, degree, less);
    MulStep(degree, less);
  }
}
