/** The decisions of a mesh node on incoming packets, and its routing table (src/bitchat/mesh/router.py). */
module MeshRouting {
  import opened Wrappers
  import opened ByteStrings
  import opened Lists
  import opened OrderedDicts
  import opened Packets
  import opened Hex
  import opened Dedup
  import opened RateLimiter

  const MAX_ROUTES := 1000
  const ROUTE_TTL := 300.0

  datatype RouteEntry = RouteEntry(nextHop: string, hopCount: int, updatedAt: real)

  type Routes = OrderedDict<string, RouteEntry>

  datatype DropReason = OwnPacket | RateLimited | ExpiredTtl | Duplicate

  datatype Decision = Decision(
    processLocally: bool,
    relay: Option<BitchatPacket>,
    target: Option<string>,
    excludeIngress: Option<string>,
    dropReason: Option<DropReason>)

  datatype Config = Config(localPeerId: Bytes, maxRelayTtl: int, rateLimit: int, dedup: Bounds)

  datatype RouterState = RouterState(cache: Cache, routes: Routes, stamps: Stamps<string>)

  // ---- routes ----

  /** The destinations among the first `n` whose routes are older than `maxAge`. */
  function ExpiredRoutes(r: Routes, n: nat, maxAge: real, now: real): seq<string>
    requires n <= |r.keys| && forall i :: 0 <= i < n ==> r.keys[i] in r.vals
  {
    if n == 0 then []
    else
      ExpiredRoutes(r, n - 1, maxAge, now)
      + (if now - r.vals[r.keys[n - 1]].updatedAt > maxAge then [r.keys[n - 1]] else [])
  }

  function PruneRoutes(r: Routes, maxAge: real, now: real): Routes
    requires r.Valid()
  {
    r.DeleteAll(ExpiredRoutes(r, |r.keys|, maxAge, now))
  }

  /** The first of the first `n` destinations with the least update time. */
  function OldestRoute(r: Routes, n: nat): (k: string)
    requires 0 < n <= |r.keys| && forall i :: 0 <= i < n ==> r.keys[i] in r.vals
    ensures k in r.keys && k in r.vals
    ensures forall i :: 0 <= i < n ==> r.vals[k].updatedAt <= r.vals[r.keys[i]].updatedAt
  {
    if n == 1 then r.keys[0]
    else
      var best := OldestRoute(r, n - 1);
      if r.vals[r.keys[n - 1]].updatedAt < r.vals[best].updatedAt then r.keys[n - 1] else best
  }

  /** The table with room for one more: expired routes pruned, then the oldest dropped, if it is full. */
  function RoomForRoute(r: Routes, now: real): Routes
    requires r.Valid()
  {
    if |r.keys| < MAX_ROUTES then r
    else
      var pruned := PruneRoutes(r, ROUTE_TTL, now);
      PruneRoutesExactly(r, ROUTE_TTL, now);
      if |pruned.keys| >= MAX_ROUTES then pruned.Delete(OldestRoute(pruned, |pruned.keys|)) else pruned
  }

  /** `add_route`: a fresh route with fewer hops is kept. */
  function AddRoute(r: Routes, destination: string, nextHop: string, hopCount: int, now: real): Routes
    requires r.Valid()
  {
    var room := RoomForRoute(r, now);
    if destination in room.vals && now - room.vals[destination].updatedAt <= ROUTE_TTL
       && room.vals[destination].hopCount < hopCount
    then room
    else room.Put(destination, RouteEntry(nextHop, hopCount, now))
  }

  /** `get_next_hop`: an expired route is dropped on the way. */
  function GetNextHop(r: Routes, destination: string, now: real): (Routes, Option<string>) {
    if destination !in r.vals then (r, None)
    else if now - r.vals[destination].updatedAt > ROUTE_TTL then (r.Delete(destination), None)
    else (r, Some(r.vals[destination].nextHop))
  }

  ghost predicate ExpiredExactly(r: Routes, expired: seq<string>, n: nat, maxAge: real, now: real)
    requires n <= |r.keys| && forall i :: 0 <= i < n ==> r.keys[i] in r.vals
  {
    && (forall k :: k in expired ==> k in r.vals && now - r.vals[k].updatedAt > maxAge)
    && (forall i :: 0 <= i < n && now - r.vals[r.keys[i]].updatedAt > maxAge ==> r.keys[i] in expired)
  }

  lemma {:induction false} ExpiredRoutesExactly(r: Routes, n: nat, maxAge: real, now: real)
    requires n <= |r.keys| && forall i :: 0 <= i < n ==> r.keys[i] in r.vals
    ensures ExpiredExactly(r, ExpiredRoutes(r, n, maxAge, now), n, maxAge, now)
  {
    if n > 0 {
      ExpiredRoutesExactly(r, n - 1, maxAge, now);
    }
  }

  /** Pruning removes exactly the routes older than `maxAge`. */
  lemma PruneRoutesExactly(r: Routes, maxAge: real, now: real)
    requires r.Valid()
    ensures var kept := PruneRoutes(r, maxAge, now);
            && kept.Valid() && |kept.keys| <= |r.keys|
            && (forall k :: k in kept.vals ==> k in r.vals && kept.vals[k] == r.vals[k])
            && (forall k :: k in r.vals ==> (k in kept.vals <==> now - r.vals[k].updatedAt <= maxAge))
  {
    var expired := ExpiredRoutes(r, |r.keys|, maxAge, now);
    ExpiredRoutesExactly(r, |r.keys|, maxAge, now);
    r.DeleteAllExactly(expired);
    forall k | k in r.vals ensures k in PruneRoutes(r, maxAge, now).vals <==> now - r.vals[k].updatedAt <= maxAge {
      assert k in r.keys;
    }
  }

  /** The table never grows beyond its bound, and a route in it either was there or is the one added. */
  lemma AddRouteBounded(r: Routes, destination: string, nextHop: string, hopCount: int, now: real)
    requires r.Valid() && |r.keys| <= MAX_ROUTES
    ensures var r' := AddRoute(r, destination, nextHop, hopCount, now);
            && r'.Valid() && |r'.keys| <= MAX_ROUTES && destination in r'.vals
            && (forall k :: k in r'.vals ==>
                  (k in r.vals && r'.vals[k] == r.vals[k])
                  || (k == destination && r'.vals[k] == RouteEntry(nextHop, hopCount, now)))
  {
    PruneRoutesExactly(r, ROUTE_TTL, now);
    var room := RoomForRoute(r, now);
    if |r.keys| >= MAX_ROUTES {
      var pruned := PruneRoutes(r, ROUTE_TTL, now);
      if |pruned.keys| >= MAX_ROUTES {
        pruned.DeleteValid(OldestRoute(pruned, |pruned.keys|));
      }
    }
    assert room.Valid() && |room.keys| < MAX_ROUTES;
    room.PutValid(destination, RouteEntry(nextHop, hopCount, now));
  }

  /** Fresh: not older than the routes' time to live. */
  predicate Fresh(e: RouteEntry, now: real) {
    now - e.updatedAt <= 300.0
  }

  predicate HeldBetter(r: Routes, destination: string, hopCount: int, now: real) {
    destination in r.vals && Fresh(r.vals[destination], now) && r.vals[destination].hopCount < hopCount
  }

  /** A new route is put in unless a fresh one with fewer hops is held. The other routes stay, unless the table is full:
      then those that are not fresh go, and if all are, one that is no younger than any other. */
  lemma AddRouteExactly(r: Routes, destination: string, nextHop: string, hopCount: int, now: real)
    requires r.Valid() && |r.keys| <= MAX_ROUTES
    ensures var r' := AddRoute(r, destination, nextHop, hopCount, now);
            var better := HeldBetter(r, destination, hopCount, now);
            && destination in r'.vals
            && (r'.vals[destination] == RouteEntry(nextHop, hopCount, now)
                || (better && r'.vals[destination] == r.vals[destination]))
            && (|r.keys| < MAX_ROUTES && better ==> r'.vals[destination] == r.vals[destination])
            && (|r.keys| < MAX_ROUTES ==>
                  forall k :: k in r.vals && k != destination ==> k in r'.vals && r'.vals[k] == r.vals[k])
            && (forall k :: k in r.vals && k !in r'.vals ==> MayGo(r, k, now))
  {
    AddRouteBounded(r, destination, nextHop, hopCount, now);
    if |r.keys| >= MAX_ROUTES {
      RoomExactly(r, now);
    }
  }

  ghost predicate MayGo(r: Routes, k: string, now: real)
    requires k in r.vals
  {
    || !Fresh(r.vals[k], now)
    || (forall j :: j in r.vals ==> Fresh(r.vals[j], now) && r.vals[k].updatedAt <= r.vals[j].updatedAt)
  }

  lemma RoomExactly(r: Routes, now: real)
    requires r.Valid() && |r.keys| == MAX_ROUTES
    ensures forall k :: k in r.vals ==> k in RoomForRoute(r, now).vals || MayGo(r, k, now)
    ensures forall k :: k in RoomForRoute(r, now).vals ==> k in r.vals && RoomForRoute(r, now).vals[k] == r.vals[k]
  {
    var pruned := PruneRoutes(r, ROUTE_TTL, now);
    PruneRoutesExactly(r, ROUTE_TTL, now);
    if |pruned.keys| >= MAX_ROUTES {
      AllKept(r, pruned);
      var oldest := OldestRoute(pruned, |pruned.keys|);
      forall j | j in r.vals ensures Fresh(r.vals[j], now) && r.vals[oldest].updatedAt <= r.vals[j].updatedAt {
        assert j in pruned.keys;
      }
    }
  }

  /** A part that is no smaller is the whole. */
  lemma AllKept(r: Routes, pruned: Routes)
    requires r.Valid() && pruned.Valid() && |pruned.keys| >= |r.keys| && forall k :: k in pruned.vals ==> k in r.vals
    ensures forall k :: k in r.vals ==> k in pruned.vals
  {
    DistinctSize(r.keys);
    DistinctSize(pruned.keys);
    SubsetSize(ToSet(pruned.keys), ToSet(r.keys));
    forall k | k in r.vals ensures k in pruned.vals {
      assert k in ToSet(r.keys);
    }
  }

  /** The next hop that is looked up is that of the route held, as long as that is fresh; a route that is not is
      dropped. */
  lemma NextHopExactly(r: Routes, destination: string, now: real)
    requires r.Valid()
    ensures var (r', hop) := GetNextHop(r, destination, now);
            && r'.Valid()
            && (hop.Some? <==> destination in r.vals && Fresh(r.vals[destination], now))
            && (hop.Some? ==> hop.value == r.vals[destination].nextHop && r' == r)
            && (forall k :: k in r'.vals <==> k in r.vals && (k == destination ==> Fresh(r.vals[k], now)))
            && (forall k :: k in r'.vals ==> r'.vals[k] == r.vals[k])
  {
    r.DeleteValid(destination);
  }

  // ---- decisions ----

  predicate IsBroadcast(p: BitchatPacket) {
    p.recipientId == None || p.recipientId == Some(BROADCAST_RECIPIENT)
  }

  /** How far away a packet's sender is, read off its ttl on the assumption that it set out with 7. */
  function HopCount(ttl: int): int {
    if ttl <= 7 then (if 7 - ttl + 1 >= 1 then 7 - ttl + 1 else 1) else 1
  }

  function Min(a: int, b: int): int {
    if a <= b then a else b
  }

  /** The ttl a relayed copy gets. */
  function RelayTtl(cfg: Config, ttl: int): int {
    Min(ttl, cfg.maxRelayTtl) - 1
  }

  predicate Relays(cfg: Config, p: BitchatPacket) {
    && p.ttl > 1 && (IsBroadcast(p) || p.recipientId != Some(cfg.localPeerId))
    && RelayTtl(cfg, p.ttl) >= 1
  }

  function Dropped(reason: DropReason): Decision {
    Decision(false, None, None, None, Some(reason))
  }

  /** The routes after a packet that is not dropped came in from `ingress`. */
  function LearnRoute(r: Routes, p: BitchatPacket, ingress: Option<string>, now: real): Routes
    requires r.Valid()
  {
    if ingress.Some? && ingress.value != ""
    then AddRoute(r, ToHex(p.senderId), ingress.value, HopCount(p.ttl), now) else r
  }

  /** The decision on a packet that is neither own, rate limited, expired nor a duplicate. */
  function Route(cfg: Config, p: BitchatPacket, ingress: Option<string>): Decision {
    var forUs := IsBroadcast(p) || p.recipientId == Some(cfg.localPeerId);
    Decision(
      forUs,
      if Relays(cfg, p) then Some(p.(ttl := RelayTtl(cfg, p.ttl))) else None,
      if forUs || p.recipientId.None? then None else Some(ToHex(p.recipientId.value)),
      ingress, None)
  }

  /** What follows once the packet is known to be new. */
  function Accept(
      hash: Bytes -> Bytes, cfg: Config, st: RouterState, p: BitchatPacket, ingress: Option<string>, now: real)
    : (RouterState, Decision)
    requires p.Valid() && st.routes.Valid()
  {
    var learnt := st.(routes := LearnRoute(st.routes, p, ingress, now));
    var d := Route(cfg, p, ingress);
    (if d.relay.Some? then learnt.(cache := Record(st.cache, cfg.dedup, PacketId(hash, p), now)) else learnt, d)
  }

  /** `evaluate_incoming`, over any hash function. */
  function Evaluate(
      hash: Bytes -> Bytes, cfg: Config, st: RouterState, p: BitchatPacket, ingress: Option<string>, now: real)
    : (RouterState, Decision)
    requires p.Valid() && st.routes.Valid()
  {
    if p.senderId == cfg.localPeerId then (st, Dropped(OwnPacket))
    else
      var (stamps, refused) := Ask(st.stamps, Limit(cfg.rateLimit, ROUTER_PRUNE_ABOVE), ToHex(p.senderId), now);
      var st1 := st.(stamps := stamps);
      if refused then (st1, Dropped(RateLimited))
      else if p.ttl <= 0 then (st1, Dropped(ExpiredTtl))
      else
        var (cache, duplicate) := CheckAndRecord(st.cache, cfg.dedup, PacketId(hash, p), now);
        var st2 := st1.(cache := cache);
        if duplicate then (st2, Dropped(Duplicate)) else Accept(hash, cfg, st2, p, ingress, now)
  }

  class MeshRouter {
    const cfg: Config
    const deduplicator: PacketDeduplicator
    var routes: Routes
    var stamps: Stamps<string>

    ghost predicate Valid()
      reads this, deduplicator
    {
      deduplicator.Valid() && deduplicator.bounds == cfg.dedup && routes.Valid() && |routes.keys| <= MAX_ROUTES
    }

    ghost function State(): RouterState
      reads this, deduplicator
    {
      RouterState(deduplicator.entries, routes, stamps)
    }

    constructor (cfg: Config)
      requires cfg.dedup.Valid()
      ensures Valid() && this.cfg == cfg && fresh(deduplicator)
      ensures State() == RouterState(NO_ENTRIES, OrderedDict([], map[]), map[])
    {
      this.cfg := cfg;
      deduplicator := new PacketDeduplicator(cfg.dedup);
      routes, stamps := OrderedDict([], map[]), map[];
    }

    method PruneRateLimiter(maxAge: real, now: real) returns (removed: nat)
      modifies this`stamps
      ensures stamps == PruneStamps(old(stamps), maxAge, now)
      ensures removed == |old(stamps).Keys - stamps.Keys|
    {
      var before := stamps.Keys;
      stamps := map k | k in stamps && stamps[k] != [] && now - Newest(stamps[k]) <= maxAge :: stamps[k];
      removed := |before - stamps.Keys|;
    }

    method IsRateLimited(sender: string, now: real) returns (refused: bool)
      modifies this`stamps
      ensures (stamps, refused) == Ask(old(stamps), Limit(cfg.rateLimit, ROUTER_PRUNE_ABOVE), sender, now)
    {
      if |stamps| > ROUTER_PRUNE_ABOVE {
        var _ := PruneRateLimiter(WINDOW, now);
      }
      if sender !in stamps {
        stamps := stamps[sender := [now]];
        return false;
      }
      var valid := Recent(stamps[sender], now);
      if valid == [] {
        stamps := stamps[sender := [now]];
        return false;
      }
      if |valid| >= cfg.rateLimit {
        stamps := stamps[sender := valid];
        return true;
      }
      stamps := stamps[sender := valid + [now]];
      return false;
    }

    method PruneExpiredRoutes(maxAge: real, now: real) returns (removed: nat)
      requires Valid()
      modifies this`routes
      ensures Valid() && routes == PruneRoutes(old(routes), maxAge, now)
      ensures removed == |ExpiredRoutes(old(routes), |old(routes).keys|, maxAge, now)|
    {
      var expired: seq<string> := [];
      for i := 0 to |routes.keys|
        invariant expired == ExpiredRoutes(routes, i, maxAge, now)
      {
        if now - routes.vals[routes.keys[i]].updatedAt > maxAge {
          expired := expired + [routes.keys[i]];
        }
      }
      removed := |expired|;
      routes.DeleteAllExactly(expired);
      for i := 0 to |expired|
        invariant routes.DeleteAll(expired[i..]) == old(routes).DeleteAll(expired)
      {
        assert expired[i..][1..] == expired[i + 1..];
        routes := routes.Delete(expired[i]);
      }
    }

    method LearnNewRoute(destination: string, nextHop: string, hopCount: int, now: real)
      requires Valid()
      modifies this`routes
      ensures Valid() && routes == AddRoute(old(routes), destination, nextHop, hopCount, now)
    {
      AddRouteBounded(routes, destination, nextHop, hopCount, now);
      if |routes.keys| >= MAX_ROUTES {
        var _ := PruneExpiredRoutes(ROUTE_TTL, now);
        if |routes.keys| >= MAX_ROUTES {
          var oldest := OldestRoute(routes, |routes.keys|);
          routes := routes.Delete(oldest);
        }
      }
      if destination in routes.vals {
        var existing := routes.vals[destination];
        if now - existing.updatedAt <= ROUTE_TTL && existing.hopCount < hopCount {
          return;
        }
      }
      routes := routes.Put(destination, RouteEntry(nextHop, hopCount, now));
    }

    method NextHop(destination: string, now: real) returns (hop: Option<string>)
      requires Valid()
      modifies this`routes
      ensures Valid() && (routes, hop) == GetNextHop(old(routes), destination, now)
    {
      if destination !in routes.vals {
        return None;
      }
      var entry := routes.vals[destination];
      if now - entry.updatedAt > ROUTE_TTL {
        routes.DeleteValid(destination);
        routes := routes.Delete(destination);
        return None;
      }
      return Some(entry.nextHop);
    }

    method EvaluateIncoming(hash: Bytes -> Bytes, p: BitchatPacket, ingress: Option<string>, now: real)
      returns (d: Decision)
      requires Valid() && p.Valid()
      modifies this, deduplicator
      ensures Valid()
      ensures (State(), d) == Evaluate(hash, cfg, old(State()), p, ingress, now)
    {
      if p.senderId == cfg.localPeerId {
        return Dropped(OwnPacket);
      }
      var sender := ToHex(p.senderId);
      var refused := IsRateLimited(sender, now);
      if refused {
        return Dropped(RateLimited);
      }
      if p.ttl <= 0 {
        return Dropped(ExpiredTtl);
      }
      var duplicate := deduplicator.CheckAndRecordId(PacketId(hash, p), now);
      if duplicate {
        return Dropped(Duplicate);
      }
      d := AcceptPacket(hash, p, ingress, now);
    }

    /** Steps 5 to 7 of `evaluate_incoming`. */
    method AcceptPacket(hash: Bytes -> Bytes, p: BitchatPacket, ingress: Option<string>, now: real)
      returns (d: Decision)
      requires Valid() && p.Valid()
      modifies this`routes, deduplicator
      ensures Valid()
      ensures (State(), d) == Accept(hash, cfg, old(State()), p, ingress, now)
    {
      if ingress.Some? && ingress.value != "" {
        LearnNewRoute(ToHex(p.senderId), ingress.value, HopCount(p.ttl), now);
      }
      var isBroadcast := IsBroadcast(p);
      var isForUs := isBroadcast || p.recipientId == Some(cfg.localPeerId);
      var relay: Option<BitchatPacket> := None;
      var target: Option<string> := None;
      if !isForUs {
        target := if p.recipientId.Some? then Some(ToHex(p.recipientId.value)) else None;
      }
      if p.ttl > 1 && !(!isBroadcast && isForUs) {
        var decremented := Min(p.ttl, cfg.maxRelayTtl) - 1;
        if decremented >= 1 {
          relay := Some(p.(ttl := decremented));
          deduplicator.RecordId(PacketId(hash, relay.value), now);
        }
      }
      return Decision(isForUs, relay, target, ingress, None);
    }
  }

  // ---- what a decision can be ----

  /** The reason to drop a packet, if there is one, in the order in which the router looks for one. */
  function WhyDropped(hash: Bytes -> Bytes, cfg: Config, st: RouterState, p: BitchatPacket, now: real)
    : Option<DropReason>
    requires p.Valid()
  {
    if p.senderId == cfg.localPeerId then Some(OwnPacket)
    else if Ask(st.stamps, Limit(cfg.rateLimit, ROUTER_PRUNE_ABOVE), ToHex(p.senderId), now).1 then Some(RateLimited)
    else if p.ttl <= 0 then Some(ExpiredTtl)
    else if CheckId(st.cache, cfg.dedup, PacketId(hash, p), now).1 then Some(Duplicate)
    else None
  }

  /** A dropped packet changes nothing but the rate limiter. A packet that is not dropped is put on record, teaches a
      route, is processed exactly if it is addressed to this node or to all, and relayed exactly if hops are left. */
  lemma EvaluateShape(
      hash: Bytes -> Bytes, cfg: Config, st: RouterState, p: BitchatPacket, ingress: Option<string>, now: real)
    requires p.Valid() && st.routes.Valid()
    ensures var (st', d) := Evaluate(hash, cfg, st, p, ingress, now);
            var why := WhyDropped(hash, cfg, st, p, now);
            var once := CheckAndRecord(st.cache, cfg.dedup, PacketId(hash, p), now).0;
            && d.dropReason == why
            && if why.Some? then d == Dropped(why.value) && st' == st.(stamps := st'.stamps)
               else
                 && d == Route(cfg, p, ingress)
                 && st'.routes == LearnRoute(st.routes, p, ingress, now)
                 && st'.cache == if Relays(cfg, p) then Record(once, cfg.dedup, PacketId(hash, p), now) else once
  {}

  /** A relayed copy is the packet itself but for its ttl, which is smaller and between 1 and the ceiling less one. */
  lemma RelayShrinksTtl(
      hash: Bytes -> Bytes, cfg: Config, st: RouterState, p: BitchatPacket, ingress: Option<string>, now: real)
    requires p.Valid() && st.routes.Valid()
    ensures var d := Evaluate(hash, cfg, st, p, ingress, now).1;
            d.relay.Some? ==>
              var q := d.relay.value;
              && q.Valid() && q == p.(ttl := RelayTtl(cfg, p.ttl)) && PacketId(hash, q) == PacketId(hash, p)
              && 1 <= q.ttl <= cfg.maxRelayTtl - 1 && q.ttl < p.ttl
              && d.dropReason == None && p.senderId != cfg.localPeerId
  {
    EvaluateShape(hash, cfg, st, p, ingress, now);
    if Relays(cfg, p) {
      IdIgnoresTtl(hash, p, RelayTtl(cfg, p.ttl));
    }
  }
}
