/** What the router's decisions mean: which packets it drops and why, whom it processes them for, and where they go
    (src/bitchat/mesh/router.py, src/bitchat/mesh/dedup.py). */
module RouterDecisions {
  import opened Wrappers
  import opened ByteStrings
  import opened OrderedDicts
  import opened Packets
  import opened Hex
  import opened Dedup
  import opened RateLimiter
  import opened MeshRouting

  // ---- why a packet is dropped ----

  /** The packet's sender has used up its limit within the last second. */
  predicate TooMany(cfg: Config, st: RouterState, p: BitchatPacket, now: real) {
    !LetsIn(st.stamps, Limit(cfg.rateLimit, ROUTER_PRUNE_ABOVE), ToHex(p.senderId), now)
  }

  /** The packet's id has been on record for no longer than the cache keeps it. */
  predicate OnRecordNow(hash: Bytes -> Bytes, cfg: Config, st: RouterState, p: BitchatPacket, now: real)
    requires p.Valid()
  {
    var id := PacketId(hash, p);
    id in st.cache.vals && now - st.cache.vals[id] <= cfg.dedup.entryTtl
  }

  /** Each reason for which a packet is dropped, exactly; a dropped packet is not processed, goes nowhere and changes
      nothing but the rate limiter. */
  lemma ReasonsExactly(
      hash: Bytes -> Bytes, cfg: Config, st: RouterState, p: BitchatPacket, ingress: Option<string>, now: real)
    requires p.Valid() && st.routes.Valid()
    ensures var (st', d) := Evaluate(hash, cfg, st, p, ingress, now);
            var own, tooMany := p.senderId == cfg.localPeerId, TooMany(cfg, st, p, now);
            && (d.dropReason == Some(OwnPacket) <==> own)
            && (d.dropReason == Some(RateLimited) <==> !own && tooMany)
            && (d.dropReason == Some(ExpiredTtl) <==> !own && !tooMany && p.ttl == 0)
            && (d.dropReason == Some(Duplicate) <==>
                  !own && !tooMany && p.ttl >= 1 && OnRecordNow(hash, cfg, st, p, now))
            && (d.dropReason.Some? ==>
                  && !d.processLocally && d.relay == None && d.target == None
                  && st'.cache == st.cache && st'.routes == st.routes)
  {
    RefusedExactly(st.stamps, Limit(cfg.rateLimit, ROUTER_PRUNE_ABOVE), ToHex(p.senderId), now);
  }

  // ---- what becomes of a packet that is kept ----

  /** For everybody: without recipient, or with eight bytes of ones. */
  predicate ForAll(p: BitchatPacket) {
    p.recipientId == None || p.recipientId == Some([255, 255, 255, 255, 255, 255, 255, 255])
  }

  /** For this node and nobody else. */
  predicate OnlyFor(p: BitchatPacket, id: Bytes) {
    p.recipientId == Some(id) && !ForAll(p)
  }

  /** The hops left for a relayed copy. */
  function HopsLeft(ttl: int, ceiling: int): int {
    if ttl < ceiling then ttl - 1 else ceiling - 1
  }

  /** The links behind a packet that set out with a ttl of 7. */
  function Distance(ttl: int): int {
    if ttl >= 7 then 1 else 8 - ttl
  }

  /** A packet that is kept is processed exactly if it is for all or for this node, has a target exactly if it is for
      another node, and is relayed, with the hops that are left, exactly if there are any and it is not for this node
      alone. */
  lemma KeptMeans(
      hash: Bytes -> Bytes, cfg: Config, st: RouterState, p: BitchatPacket, ingress: Option<string>, now: real)
    requires p.Valid() && st.routes.Valid() && Evaluate(hash, cfg, st, p, ingress, now).1.dropReason == None
    ensures var (st', d) := Evaluate(hash, cfg, st, p, ingress, now);
            && (d.processLocally <==> ForAll(p) || OnlyFor(p, cfg.localPeerId))
            && (d.target.Some? <==> !ForAll(p) && !OnlyFor(p, cfg.localPeerId))
            && (d.target.Some? ==> d.target.value == ToHex(p.recipientId.value))
            && (d.relay.Some? <==> !OnlyFor(p, cfg.localPeerId) && HopsLeft(p.ttl, cfg.maxRelayTtl) >= 1)
            && (d.relay.Some? ==> d.relay.value == p.(ttl := HopsLeft(p.ttl, cfg.maxRelayTtl)))
            && d.excludeIngress == ingress
            && PacketId(hash, p) in st'.cache.vals && st'.cache.vals[PacketId(hash, p)] == now
            && st'.routes == if ingress == None || ingress == Some("") then st.routes
                             else AddRoute(st.routes, ToHex(p.senderId), ingress.value, Distance(p.ttl), now)
  {
    if Relays(cfg, p) {
      IdIgnoresTtl(hash, p, RelayTtl(cfg, p.ttl));
    }
  }

  /** The first packet with its id, within the limit and with a hop, is kept. */
  lemma NewIsKept(
      hash: Bytes -> Bytes, cfg: Config, st: RouterState, p: BitchatPacket, ingress: Option<string>, now: real)
    requires p.Valid() && st.routes.Valid() && p.senderId != cfg.localPeerId && p.ttl >= 1
    ensures Evaluate(hash, cfg, st, p, ingress, now).1.dropReason == None <==>
            !TooMany(cfg, st, p, now) && !OnRecordNow(hash, cfg, st, p, now)
  {
    ReasonsExactly(hash, cfg, st, p, ingress, now);
  }

  // ---- duplicates ----

  /** Every id on record is that of a packet of the list. */
  ghost predicate RecordsOf(hash: Bytes -> Bytes, c: Cache, heard: seq<BitchatPacket>) {
    && (forall i :: 0 <= i < |heard| ==> heard[i].Valid())
    && forall id :: id in c.vals ==> HasId(hash, heard, id)
  }

  ghost predicate HasId(hash: Bytes -> Bytes, heard: seq<BitchatPacket>, id: Bytes) {
    exists i :: 0 <= i < |heard| && heard[i].Valid() && PacketId(hash, heard[i]) == id
  }

  /** The packet is told apart from all of the list by its digest. */
  ghost predicate Distinguished(hash: Bytes -> Bytes, p: BitchatPacket, heard: seq<BitchatPacket>) {
    p.Valid() && forall i :: 0 <= i < |heard| ==> heard[i].Valid() && ToldApart(hash, p, heard[i])
  }

  ghost predicate Heard(p: BitchatPacket, heard: seq<BitchatPacket>) {
    exists i :: 0 <= i < |heard| && SameMessage(p, heard[i])
  }

  /** A packet that differs in sender, timestamp, type or recipient with payload from everything on record is not
      dropped as a duplicate. */
  lemma DifferentIsNoDuplicate(hash: Bytes -> Bytes, cfg: Config, st: RouterState, heard: seq<BitchatPacket>,
                               p: BitchatPacket, ingress: Option<string>, now: real)
    requires st.routes.Valid() && RecordsOf(hash, st.cache, heard) && Distinguished(hash, p, heard) && !Heard(p, heard)
    ensures Evaluate(hash, cfg, st, p, ingress, now).1.dropReason != Some(Duplicate)
  {
    if PacketId(hash, p) in st.cache.vals {
      var i :| 0 <= i < |heard| && heard[i].Valid() && PacketId(hash, heard[i]) == PacketId(hash, p);
      SameIdExactly(hash, p, heard[i]);
    }
  }

  /** One that agrees in these with a packet of which the record is fresh is always dropped. */
  lemma SameIsDropped(hash: Bytes -> Bytes, cfg: Config, st: RouterState, q: BitchatPacket,
                      p: BitchatPacket, ingress: Option<string>, now: real)
    requires st.routes.Valid() && p.Valid() && q.Valid() && SameMessage(p, q) && OnRecordNow(hash, cfg, st, q, now)
    ensures Evaluate(hash, cfg, st, p, ingress, now).1.dropReason.Some?
  {
    SameIdentityExactly(p, q);
  }

  // ---- over a run ----

  datatype Incoming = Incoming(packet: BitchatPacket, ingress: Option<string>, now: real)

  ghost predicate AllValid(run: seq<Incoming>) {
    forall i :: 0 <= i < |run| ==> run[i].packet.Valid()
  }

  function PacketsOf(run: seq<Incoming>): seq<BitchatPacket> {
    seq(|run|, i requires 0 <= i < |run| => run[i].packet)
  }

  /** The state after the packets of a run. */
  ghost function StateAfter(hash: Bytes -> Bytes, cfg: Config, st: RouterState, run: seq<Incoming>): (r: RouterState)
    requires st.routes.Valid() && |st.routes.keys| <= MAX_ROUTES && AllValid(run)
    ensures r.routes.Valid() && |r.routes.keys| <= MAX_ROUTES
    decreases run
  {
    if run == [] then st
    else
      var first := run[0];
      EvaluateKeepsRoutes(hash, cfg, st, first.packet, first.ingress, first.now);
      StateAfter(hash, cfg, Evaluate(hash, cfg, st, first.packet, first.ingress, first.now).0, run[1..])
  }

  lemma EvaluateKeepsRoutes(
      hash: Bytes -> Bytes, cfg: Config, st: RouterState, p: BitchatPacket, ingress: Option<string>, now: real)
    requires p.Valid() && st.routes.Valid() && |st.routes.keys| <= MAX_ROUTES
    ensures var r := Evaluate(hash, cfg, st, p, ingress, now).0.routes; r.Valid() && |r.keys| <= MAX_ROUTES
  {
    EvaluateShape(hash, cfg, st, p, ingress, now);
    if ingress.Some? && ingress.value != "" {
      AddRouteBounded(st.routes, ToHex(p.senderId), ingress.value, HopCount(p.ttl), now);
    }
  }

  lemma OnlyItsIdIsNew(
      hash: Bytes -> Bytes, cfg: Config, st: RouterState, p: BitchatPacket, ingress: Option<string>, now: real)
    requires p.Valid() && st.routes.Valid()
    ensures forall id :: id in Evaluate(hash, cfg, st, p, ingress, now).0.cache.vals ==>
              id == PacketId(hash, p) || id in st.cache.vals
  {
    EvaluateShape(hash, cfg, st, p, ingress, now);
  }

  lemma EvaluateRecords(hash: Bytes -> Bytes, cfg: Config, st: RouterState, heard: seq<BitchatPacket>,
                        p: BitchatPacket, ingress: Option<string>, now: real)
    requires st.routes.Valid() && RecordsOf(hash, st.cache, heard) && p.Valid()
    ensures RecordsOf(hash, Evaluate(hash, cfg, st, p, ingress, now).0.cache, heard + [p])
  {
    var cache := Evaluate(hash, cfg, st, p, ingress, now).0.cache;
    OnlyItsIdIsNew(hash, cfg, st, p, ingress, now);
    forall id | id in cache.vals ensures HasId(hash, heard + [p], id) {
      if id == PacketId(hash, p) {
        assert (heard + [p])[|heard|] == p;
      } else {
        assert id in st.cache.vals;
        var i :| 0 <= i < |heard| && heard[i].Valid() && PacketId(hash, heard[i]) == id;
        assert (heard + [p])[i] == heard[i];
      }
    }
  }

  lemma {:induction false} RunRecords(
      hash: Bytes -> Bytes, cfg: Config, st: RouterState, heard: seq<BitchatPacket>, run: seq<Incoming>)
    requires st.routes.Valid() && |st.routes.keys| <= MAX_ROUTES && AllValid(run) && RecordsOf(hash, st.cache, heard)
    ensures RecordsOf(hash, StateAfter(hash, cfg, st, run).cache, heard + PacketsOf(run))
    decreases run
  {
    if run == [] {
      assert heard + PacketsOf(run) == heard;
    } else {
      var x := run[0];
      EvaluateKeepsRoutes(hash, cfg, st, x.packet, x.ingress, x.now);
      EvaluateRecords(hash, cfg, st, heard, x.packet, x.ingress, x.now);
      RunRecords(hash, cfg, Evaluate(hash, cfg, st, x.packet, x.ingress, x.now).0, heard + [x.packet], run[1..]);
      assert heard + [x.packet] + PacketsOf(run[1..]) == heard + PacketsOf(run);
    }
  }

  /** Over every run of a router that starts with nothing on record: a packet is dropped as a duplicate only if one that
      came before agrees with it in sender, timestamp, type and recipient with payload. */
  lemma DuplicateOnlyIfHeard(hash: Bytes -> Bytes, cfg: Config, st: RouterState, run: seq<Incoming>, x: Incoming)
    requires st.routes.Valid() && |st.routes.keys| <= MAX_ROUTES && st.cache == NO_ENTRIES && AllValid(run)
    requires Distinguished(hash, x.packet, PacketsOf(run))
    requires var before := StateAfter(hash, cfg, st, run);
             Evaluate(hash, cfg, before, x.packet, x.ingress, x.now).1.dropReason == Some(Duplicate)
    ensures Heard(x.packet, PacketsOf(run))
  {
    RunRecords(hash, cfg, st, [], run);
    assert [] + PacketsOf(run) == PacketsOf(run);
    if !Heard(x.packet, PacketsOf(run)) {
      DifferentIsNoDuplicate(hash, cfg, StateAfter(hash, cfg, st, run), PacketsOf(run), x.packet, x.ingress, x.now);
    }
  }
}
