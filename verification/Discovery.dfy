/** The registry of peers heard of on the LAN (src/bitchat/network/discovery.py). */
module Discovery {
  import opened Wrappers
  import opened OrderedDicts

  datatype Peer = Peer(
    address: string, ip: string, port: nat, peerId: string, nickname: string, ssid: string, instanceId: string,
    lastSeen: real)

  /** A beacon that parsed; its peer id is in lower case. */
  datatype Beacon = Beacon(peerId: string, nickname: string, port: nat, ssid: string, instanceId: string)

  /** Who this node is, and was, to tell its own beacons. */
  datatype Local = Local(peerId: string, previousIds: set<string>, instanceId: string, port: nat)

  type Registry = OrderedDict<string, Peer>

  const NO_PEERS: Registry := OrderedDict([], map[])

  // ---- specification ----

  function Digit(n: nat): char
    requires n < 10
  {
    (n + 48) as char
  }

  function Decimal(n: nat): string {
    if n < 10 then [Digit(n)] else Decimal(n / 10) + [Digit(n % 10)]
  }

  function Endpoint(ip: string, port: nat): string {
    ip + ":" + Decimal(port)
  }

  /** The number that decimal digits spell. */
  function Number(s: string): int {
    if s == "" then 0 else 10 * Number(s[..|s| - 1]) + (s[|s| - 1] as int - 48)
  }

  /** Decimal digits spell the number they were made of, without a colon or a leading zero. */
  lemma {:induction false} DecimalExactly(n: nat)
    ensures Number(Decimal(n)) == n
    ensures Decimal(n) != "" && (forall i :: 0 <= i < |Decimal(n)| ==> '0' <= Decimal(n)[i] <= '9')
    ensures n > 0 ==> Decimal(n)[0] != '0'
  {
    var s := Decimal(n);
    if n < 10 {
      assert s[..0] == "";
    } else {
      DecimalExactly(n / 10);
      assert s[..|s| - 1] == Decimal(n / 10);
    }
  }

  lemma LastColon(ip: string, port: nat)
    ensures var e := Endpoint(ip, port); e[|ip|] == ':' && forall i :: |ip| < i < |e| ==> e[i] != ':'
  {
    DecimalExactly(port);
    var e := Endpoint(ip, port);
    forall i | |ip| < i < |e| ensures e[i] != ':' {
      assert e[i] == Decimal(port)[i - |ip| - 1];
    }
  }

  /** An endpoint tells its IP and its port. */
  lemma EndpointsDistinct(ip: string, port: nat, other: string, otherPort: nat)
    requires Endpoint(ip, port) == Endpoint(other, otherPort)
    ensures ip == other && port == otherPort
  {
    DecimalExactly(port);
    DecimalExactly(otherPort);
    var e := Endpoint(ip, port);
    LastColon(ip, port);
    LastColon(other, otherPort);
    assert e[..|ip|] == ip && e[..|other|] == other;
    assert e[|ip| + 1..] == Decimal(port) && e[|other| + 1..] == Decimal(otherPort);
  }

  /** A beacon of this node itself, or one that came over the loopback interface. */
  predicate Ignored(self: Local, b: Beacon, ip: string, isLocalIp: bool) {
    || b.peerId == self.peerId || b.peerId in self.previousIds
    || (self.instanceId != "" && b.instanceId != "" && b.instanceId == self.instanceId)
    || (isLocalIp && b.port == self.port)
    || "127." <= ip || ip == "localhost" || ip == "::1"
  }

  /** The other endpoints, among the first `n`, under which this peer is registered. */
  function PriorKeys(r: Registry, id: string, endpoint: string, n: nat): seq<string>
    requires r.Valid() && n <= |r.keys|
  {
    if n == 0 then []
    else
      var k := r.keys[n - 1];
      PriorKeys(r, id, endpoint, n - 1) + if r.vals[k].peerId == id && k != endpoint then [k] else []
  }

  lemma {:induction false} PriorMembers(r: Registry, id: string, endpoint: string, n: nat)
    requires r.Valid() && n <= |r.keys|
    ensures forall k :: k in PriorKeys(r, id, endpoint, n) <==>
            k in r.keys[..n] && r.vals[k].peerId == id && k != endpoint
  {
    if n > 0 {
      PriorMembers(r, id, endpoint, n - 1);
      assert r.keys[..n] == r.keys[..n - 1] + [r.keys[n - 1]];
    }
  }

  /** The first of these keys is one of the registry. */
  lemma FirstPrior(r: Registry, id: string, endpoint: string)
    requires r.Valid()
    ensures var ks := PriorKeys(r, id, endpoint, |r.keys|); ks != [] ==> ks[0] in r.vals && r.vals[ks[0]].peerId == id
  {
    PriorMembers(r, id, endpoint, |r.keys|);
    var ks := PriorKeys(r, id, endpoint, |r.keys|);
    assert ks != [] ==> ks[0] in ks;
  }

  /** The record of a peer that has moved. */
  function Moved(p: Peer, b: Beacon, ip: string, ssid: string, now: real): Peer {
    p.(address := Endpoint(ip, b.port), ip := ip, port := b.port, peerId := b.peerId, nickname := b.nickname,
       ssid := ssid, lastSeen := now)
  }

  function Refreshed(p: Peer, b: Beacon, ssid: string, now: real): Peer {
    p.(nickname := b.nickname, ssid := ssid, lastSeen := now)
  }

  function NewPeer(b: Beacon, ip: string, ssid: string, now: real): Peer {
    Peer(Endpoint(ip, b.port), ip, b.port, b.peerId, b.nickname, ssid, b.instanceId, now)
  }

  predicate Differs(p: Peer, b: Beacon, ssid: string) {
    p.nickname != b.nickname || p.ssid != ssid
  }

  /** The registry after a beacon that is not ignored, and whether the callback fires. */
  function Hear(r: Registry, interval: real, b: Beacon, ip: string, ssid: string, now: real): (Registry, bool)
    requires r.Valid()
  {
    var endpoint := Endpoint(ip, b.port);
    var prior := PriorKeys(r, b.peerId, endpoint, |r.keys|);
    FirstPrior(r, b.peerId, endpoint);
    if prior != [] then
      var p := r.vals[prior[0]];
      if p.ip == ip || now - p.lastSeen > 2.0 * interval
      then (r.DeleteAll(prior).Put(endpoint, Moved(p, b, ip, ssid, now)), true)
      else (r.Put(prior[0], Refreshed(p, b, ssid, now)), Differs(p, b, ssid))
    else if endpoint in r.vals && r.vals[endpoint].peerId == b.peerId
    then (r.Put(endpoint, Refreshed(r.vals[endpoint], b, ssid, now)), Differs(r.vals[endpoint], b, ssid))
    else (r.Put(endpoint, NewPeer(b, ip, ssid, now)), true)
  }

  /** `_process_incoming_packet`, past the rate limiter and the parser. */
  function Processed(
      r: Registry, interval: real, self: Local, b: Beacon, ip: string, isLocalIp: bool, ssid: string, now: real)
    : (Registry, bool)
    requires r.Valid()
  {
    if Ignored(self, b, ip, isLocalIp) then (r, false) else Hear(r, interval, b, ip, ssid, now)
  }

  /** The peers not heard of for too long, among the first `n`. */
  function StaleKeys(r: Registry, maxAge: real, now: real, n: nat): seq<string>
    requires r.Valid() && n <= |r.keys|
  {
    if n == 0 then []
    else
      var k := r.keys[n - 1];
      StaleKeys(r, maxAge, now, n - 1) + if now - r.vals[k].lastSeen > maxAge then [k] else []
  }

  lemma {:induction false} StaleMembers(r: Registry, maxAge: real, now: real, n: nat)
    requires r.Valid() && n <= |r.keys|
    ensures forall k :: k in StaleKeys(r, maxAge, now, n) <==> k in r.keys[..n] && now - r.vals[k].lastSeen > maxAge
  {
    if n > 0 {
      StaleMembers(r, maxAge, now, n - 1);
      assert r.keys[..n] == r.keys[..n - 1] + [r.keys[n - 1]];
    }
  }

  /** `prune_stale_peers` */
  function PruneStale(r: Registry, maxAge: real, now: real): Registry
    requires r.Valid()
  {
    r.DeleteAll(StaleKeys(r, maxAge, now, |r.keys|))
  }

  // ---- properties ----

  /** At most one record for a peer id, each under its own address. */
  ghost predicate OnePerId(r: Registry) {
    && r.Valid()
    && (forall k :: k in r.vals ==> r.vals[k].address == k)
    && (forall k, l :: k in r.vals && l in r.vals && r.vals[k].peerId == r.vals[l].peerId ==> k == l)
  }

  /** The registry has this record for the peer. */
  ghost predicate Has(r: Registry, id: string, p: Peer) {
    p.peerId == id && p.address in r.vals && r.vals[p.address] == p
  }

  /** The record that the beacon leads to. */
  function RecordAfter(r: Registry, interval: real, b: Beacon, ip: string, ssid: string, now: real): Peer
    requires r.Valid()
  {
    var endpoint := Endpoint(ip, b.port);
    var prior := PriorKeys(r, b.peerId, endpoint, |r.keys|);
    FirstPrior(r, b.peerId, endpoint);
    if prior != [] then
      var p := r.vals[prior[0]];
      if p.ip == ip || now - p.lastSeen > 2.0 * interval then Moved(p, b, ip, ssid, now) else Refreshed(p, b, ssid, now)
    else if endpoint in r.vals && r.vals[endpoint].peerId == b.peerId then Refreshed(r.vals[endpoint], b, ssid, now)
    else NewPeer(b, ip, ssid, now)
  }

  lemma PriorIsAll(r: Registry, id: string, endpoint: string)
    requires OnePerId(r)
    ensures var ks := PriorKeys(r, id, endpoint, |r.keys|);
            && (forall k :: k in ks <==> k in r.vals && r.vals[k].peerId == id && k != endpoint)
            && (forall k :: ks != [] && k in ks ==> k == ks[0])
  {
    PriorMembers(r, id, endpoint, |r.keys|);
    assert r.keys[..|r.keys|] == r.keys;
    var ks := PriorKeys(r, id, endpoint, |r.keys|);
    if ks != [] {
      assert ks[0] in ks;
    }
  }

  lemma PutKeeps(r: Registry, p: Peer)
    requires OnePerId(r) && forall k :: k in r.vals && r.vals[k].peerId == p.peerId ==> k == p.address
    ensures OnePerId(r.Put(p.address, p)) && Has(r.Put(p.address, p), p.peerId, p)
  {
    r.PutValid(p.address, p);
  }

  /** Every beacon keeps one record per peer id, and leaves its peer with a record seen just now. */
  lemma HearKeepsOnePerId(r: Registry, interval: real, b: Beacon, ip: string, ssid: string, now: real)
    requires OnePerId(r)
    ensures var (t, _) := Hear(r, interval, b, ip, ssid, now);
            var p := RecordAfter(r, interval, b, ip, ssid, now);
            && OnePerId(t) && Has(t, b.peerId, p)
            && p.nickname == b.nickname && p.ssid == ssid && p.lastSeen == now
  {
    var endpoint := Endpoint(ip, b.port);
    var prior := PriorKeys(r, b.peerId, endpoint, |r.keys|);
    PriorIsAll(r, b.peerId, endpoint);
    if prior != [] {
      assert prior[0] in prior;
      r.DeleteAllExactly(prior);
      var p := r.vals[prior[0]];
      if p.ip == ip || now - p.lastSeen > 2.0 * interval {
        PutKeeps(r.DeleteAll(prior), Moved(p, b, ip, ssid, now));
      } else {
        PutKeeps(r, Refreshed(p, b, ssid, now));
      }
    } else if endpoint in r.vals && r.vals[endpoint].peerId == b.peerId {
      PutKeeps(r, Refreshed(r.vals[endpoint], b, ssid, now));
    } else {
      PutKeeps(r, NewPeer(b, ip, ssid, now));
    }
  }

  /** What the record of the peer says after the beacon: a peer without a record gets one with the beacon's address; one
      at this endpoint keeps its record, brought up to date; one elsewhere moves here if the IP is the same or it has
      not been heard of for two intervals, and otherwise stays where it is. */
  lemma HeardExactly(r: Registry, interval: real, b: Beacon, ip: string, ssid: string, now: real)
    requires OnePerId(r)
    ensures var here, t := ip + ":" + Decimal(b.port), Hear(r, interval, b, ip, ssid, now).0;
            && ((forall p :: !Has(r, b.peerId, p)) ==>
                  Has(t, b.peerId, Peer(here, ip, b.port, b.peerId, b.nickname, ssid, b.instanceId, now)))
            && (forall p :: Has(r, b.peerId, p) ==>
                  var moves := p.address != here && (p.ip == ip || now - p.lastSeen > 2.0 * interval);
                  Has(t, b.peerId,
                      Peer(if moves then here else p.address, if moves then ip else p.ip,
                           if moves then b.port else p.port,
                           b.peerId, b.nickname, ssid, p.instanceId, now)))
  {
    var endpoint := Endpoint(ip, b.port);
    HearKeepsOnePerId(r, interval, b, ip, ssid, now);
    PriorIsAll(r, b.peerId, endpoint);
    var prior := PriorKeys(r, b.peerId, endpoint, |r.keys|);
    assert prior != [] ==> prior[0] in prior && Has(r, b.peerId, r.vals[prior[0]]);
    assert endpoint in r.vals && r.vals[endpoint].peerId == b.peerId ==> Has(r, b.peerId, r.vals[endpoint]);
  }

  // ---- own beacons ----

  /** No record is of this node itself, by id, by instance or by address, nor of a loopback address. */
  ghost predicate NoneOwn(r: Registry, self: Local, localIps: set<string>) {
    forall k :: k in r.vals ==> NotOwn(r.vals[k], self, localIps)
  }

  ghost predicate NotOwn(p: Peer, self: Local, localIps: set<string>) {
    && p.peerId != self.peerId && p.peerId !in self.previousIds
    && (self.instanceId == "" || p.instanceId != self.instanceId)
    && !(p.ip in localIps && p.port == self.port)
    && !("127." <= p.ip) && p.ip != "localhost" && p.ip != "::1"
  }

  /** Every record was there before or is the one that the beacon leads to. */
  lemma HearAdds(r: Registry, interval: real, b: Beacon, ip: string, ssid: string, now: real)
    requires r.Valid()
    ensures var t := Hear(r, interval, b, ip, ssid, now).0;
            forall k :: k in t.vals ==>
              (k in r.vals && t.vals[k] == r.vals[k]) || t.vals[k] == RecordAfter(r, interval, b, ip, ssid, now)
  {
    r.DeleteAllExactly(PriorKeys(r, b.peerId, Endpoint(ip, b.port), |r.keys|));
  }

  /** Whatever beacons come, none of the node's own leaves a record or is reported; and every other one is taken up. */
  lemma OwnNeverEnters(r: Registry, interval: real, self: Local, localIps: set<string>, b: Beacon, ip: string,
                       ssid: string, now: real)
    requires OnePerId(r) && NoneOwn(r, self, localIps)
    ensures var (t, notified) := Processed(r, interval, self, b, ip, ip in localIps, ssid, now);
            && NoneOwn(t, self, localIps)
            && (t, notified) == if NotOwn(Peer("", ip, b.port, b.peerId, "", "", b.instanceId, 0.0), self, localIps)
                                then Hear(r, interval, b, ip, ssid, now) else (r, false)
  {
    if !Ignored(self, b, ip, ip in localIps) {
      HearAdds(r, interval, b, ip, ssid, now);
      FirstPrior(r, b.peerId, Endpoint(ip, b.port));
      assert NotOwn(RecordAfter(r, interval, b, ip, ssid, now), self, localIps);
    }
  }

  /** The callback fires exactly if the peer had no record with the same endpoint, nickname and network before. */
  lemma NotifiedExactly(r: Registry, interval: real, b: Beacon, ip: string, ssid: string, now: real)
    requires OnePerId(r)
    ensures var (_, notified) := Hear(r, interval, b, ip, ssid, now);
            var q := RecordAfter(r, interval, b, ip, ssid, now);
            notified <==>
              !exists p :: Has(r, b.peerId, p) && p.address == q.address && p.nickname == q.nickname && p.ssid == q.ssid
  {
    var endpoint := Endpoint(ip, b.port);
    var prior := PriorKeys(r, b.peerId, endpoint, |r.keys|);
    PriorIsAll(r, b.peerId, endpoint);
    if prior != [] {
      assert prior[0] in prior;
      assert Has(r, b.peerId, r.vals[prior[0]]);
    } else if endpoint in r.vals && r.vals[endpoint].peerId == b.peerId {
      assert Has(r, b.peerId, r.vals[endpoint]);
    }
  }

  lemma PutLeavesOthers(r: Registry, q: Peer, id: string, p: Peer)
    requires id != q.peerId
    ensures Has(r.Put(q.address, q), id, p) <==> Has(r, id, p) && p.address != q.address
  {}

  lemma DeletingLeavesOthers(r: Registry, ks: seq<string>, gone: string, id: string, p: Peer)
    requires OnePerId(r) && id != gone && forall k :: k in ks ==> k in r.vals && r.vals[k].peerId == gone
    ensures Has(r.DeleteAll(ks), id, p) <==> Has(r, id, p)
  {
    r.DeleteAllExactly(ks);
  }

  /** Records of other peers stay as they are; only the one at the endpoint of a new or moved record makes way for
      it. */
  lemma OthersKept(r: Registry, interval: real, b: Beacon, ip: string, ssid: string, now: real, id: string, p: Peer)
    requires OnePerId(r) && id != b.peerId
    ensures var t := Hear(r, interval, b, ip, ssid, now).0;
            Has(t, id, p) <==> Has(r, id, p) && p.address != RecordAfter(r, interval, b, ip, ssid, now).address
  {
    var endpoint := Endpoint(ip, b.port);
    var prior := PriorKeys(r, b.peerId, endpoint, |r.keys|);
    var q := RecordAfter(r, interval, b, ip, ssid, now);
    PriorIsAll(r, b.peerId, endpoint);
    PutLeavesOthers(r, q, id, p);
    DeletingLeavesOthers(r, prior, b.peerId, id, p);
    PutLeavesOthers(r.DeleteAll(prior), q, id, p);
    if prior != [] {
      assert prior[0] in prior;
    }
  }

  /** Pruning removes exactly the peers not heard of for longer than the limit, and lists their endpoints. */
  lemma PruneRemovesExactlyStale(r: Registry, maxAge: real, now: real, id: string, p: Peer)
    requires OnePerId(r)
    ensures OnePerId(PruneStale(r, maxAge, now))
    ensures Has(PruneStale(r, maxAge, now), id, p) <==> Has(r, id, p) && now - p.lastSeen <= maxAge
    ensures forall k :: k in StaleKeys(r, maxAge, now, |r.keys|) <==>
            k in r.vals && k !in PruneStale(r, maxAge, now).vals
  {
    StaleMembers(r, maxAge, now, |r.keys|);
    assert r.keys[..|r.keys|] == r.keys;
    r.DeleteAllExactly(StaleKeys(r, maxAge, now, |r.keys|));
  }

  // ---- the mutable objects ----

  class PeerRecord {
    var value: Peer  // the fields of the record

    constructor (p: Peer)
      ensures value == p
    {
      value := p;
    }
  }

  class LanDiscovery {
    const interval: real
    var discovered: OrderedDict<string, PeerRecord>
    ghost var contents: Registry  // the registry as a value

    ghost function Records(): set<PeerRecord>
      reads this
    {
      set k | k in discovered.vals :: discovered.vals[k]
    }

    ghost predicate Valid()
      reads this, Records()
    {
      && discovered.Valid() && contents.Valid() && contents.keys == discovered.keys
      && (forall k :: k in discovered.vals ==> discovered.vals[k].value == contents.vals[k])
      && (forall k, l :: k in discovered.vals && l in discovered.vals && discovered.vals[k] == discovered.vals[l] ==>
            k == l)
    }

    constructor (interval: real)
      ensures Valid() && this.interval == interval && contents == NO_PEERS
    {
      this.interval, discovered, contents := interval, OrderedDict([], map[]), NO_PEERS;
    }

    method Clear()
      requires Valid()
      modifies this
      ensures Valid() && contents == NO_PEERS
    {
      discovered, contents := OrderedDict([], map[]), NO_PEERS;
    }

    /** `_process_incoming_packet`, past the rate limiter and the parser; true if the callback fires. */
    method ProcessBeacon(self: Local, b: Beacon, ip: string, isLocalIp: bool, ssid: string, now: real)
      returns (notified: bool)
      requires Valid() && OnePerId(contents)
      modifies this, Records()
      ensures Valid() && OnePerId(contents) && fresh(Records() - old(Records()))
      ensures (contents, notified) == Processed(old(contents), interval, self, b, ip, isLocalIp, ssid, now)
    {
      if Ignored(self, b, ip, isLocalIp) {
        return false;
      }
      HearKeepsOnePerId(contents, interval, b, ip, ssid, now);
      notified := Register(b, ip, ssid, now);
    }

    method Register(b: Beacon, ip: string, ssid: string, now: real) returns (notified: bool)
      requires Valid()
      modifies this, Records()
      ensures Valid() && fresh(Records() - old(Records()))
      ensures (contents, notified) == Hear(old(contents), interval, b, ip, ssid, now)
    {
      var endpoint := Endpoint(ip, b.port);
      var prior := FindPrior(b.peerId, endpoint);
      if prior != [] {
        notified := UpdatePrior(prior, b, ip, ssid, now);
      } else {
        notified := RegisterHere(b, ip, ssid, now);
      }
    }

    /** The peer is registered under this endpoint or not at all. */
    method RegisterHere(b: Beacon, ip: string, ssid: string, now: real) returns (notified: bool)
      requires Valid() && PriorKeys(contents, b.peerId, Endpoint(ip, b.port), |contents.keys|) == []
      modifies this, Records()
      ensures Valid() && fresh(Records() - old(Records()))
      ensures (contents, notified) == Hear(old(contents), interval, b, ip, ssid, now)
    {
      var endpoint := Endpoint(ip, b.port);
      if endpoint in discovered.vals && discovered.vals[endpoint].value.peerId == b.peerId {
        notified := Refresh(endpoint, b, ssid, now);
      } else {
        Add(NewPeer(b, ip, ssid, now));
        notified := true;
      }
    }

    /** The peer is registered under another endpoint: its record moves if the peer has, and is only refreshed
        otherwise. */
    method UpdatePrior(prior: seq<string>, b: Beacon, ip: string, ssid: string, now: real) returns (notified: bool)
      requires Valid() && prior == PriorKeys(contents, b.peerId, Endpoint(ip, b.port), |contents.keys|) && prior != []
      modifies this, Records()
      ensures Valid() && Records() <= old(Records())
      ensures (contents, notified) == Hear(old(contents), interval, b, ip, ssid, now)
    {
      FirstPrior(contents, b.peerId, Endpoint(ip, b.port));
      var p := discovered.vals[prior[0]];
      if p.value.ip == ip || now - p.value.lastSeen > 2.0 * interval {
        Rekey(prior, p, Moved(p.value, b, ip, ssid, now));
        return true;
      }
      notified := Refresh(prior[0], b, ssid, now);
    }

    /** A record brought up to date in place. */
    method Refresh(k: string, b: Beacon, ssid: string, now: real) returns (notified: bool)
      requires Valid() && k in discovered.vals
      modifies `contents, discovered.vals[k]
      ensures Valid() && contents == old(contents).Put(k, Refreshed(old(contents).vals[k], b, ssid, now))
      ensures notified == Differs(old(contents).vals[k], b, ssid)
    {
      var record := discovered.vals[k];
      notified := Differs(record.value, b, ssid);
      record.value := Refreshed(record.value, b, ssid, now);
      contents.PutValid(k, record.value);
      contents := contents.Put(k, record.value);
    }

    /** The list comprehension over the registry. */
    method FindPrior(id: string, endpoint: string) returns (prior: seq<string>)
      requires Valid()
      ensures prior == PriorKeys(contents, id, endpoint, |contents.keys|)
    {
      prior := [];
      for i := 0 to |discovered.keys|
        invariant prior == PriorKeys(contents, id, endpoint, i)
      {
        var k := discovered.keys[i];
        if discovered.vals[k].value.peerId == id && k != endpoint {
          prior := prior + [k];
        }
      }
    }

    /** A new record, in place of any at the same endpoint. */
    method Add(p: Peer)
      requires Valid()
      modifies this
      ensures Valid() && contents == old(contents).Put(p.address, p) && fresh(Records() - old(Records()))
    {
      var record := new PeerRecord(p);
      discovered.PutValid(p.address, record);
      contents.PutValid(p.address, p);
      discovered := discovered.Put(p.address, record);
      contents := contents.Put(p.address, p);
    }

    /** `pop` for each key of a list. */
    method PopAll(ks: seq<string>)
      requires Valid()
      modifies this
      ensures Valid() && contents == old(contents).DeleteAll(ks) && Records() <= old(Records())
      ensures forall k :: k in discovered.vals ==>
              k in old(discovered).vals && discovered.vals[k] == old(discovered).vals[k]
      ensures forall k :: k in ks ==> k !in discovered.vals
    {
      ghost var goal := contents.DeleteAll(ks);
      for i := 0 to |ks|
        invariant Valid() && contents.DeleteAll(ks[i..]) == goal && Records() <= old(Records())
        invariant forall k :: k in discovered.vals ==>
                  k in old(discovered).vals && discovered.vals[k] == old(discovered).vals[k]
        invariant forall j :: 0 <= j < i ==> ks[j] !in discovered.vals
      {
        assert ks[i..][1..] == ks[i + 1..];
        Pop(ks[i]);
      }
    }

    method Pop(k: string)
      requires Valid()
      modifies this
      ensures Valid() && contents == old(contents).Delete(k) && discovered == old(discovered).Delete(k)
      ensures Records() <= old(Records())
    {
      discovered.DeleteValid(k);
      contents.DeleteValid(k);
      discovered := discovered.Delete(k);
      contents := contents.Delete(k);
    }

    /** The record of a peer that has moved is changed in place and goes to its new endpoint. */
    method Rekey(prior: seq<string>, record: PeerRecord, p: Peer)
      requires Valid() && prior != [] && prior[0] in discovered.vals && discovered.vals[prior[0]] == record
      modifies this, record
      ensures Valid() && contents == old(contents).DeleteAll(prior).Put(p.address, p) && Records() <= old(Records())
    {
      PopAll(prior);
      PutBack(record, p);
    }

    method PutBack(record: PeerRecord, p: Peer)
      requires Valid() && record !in Records()
      modifies this, record
      ensures Valid() && contents == old(contents).Put(p.address, p) && Records() <= old(Records()) + {record}
    {
      record.value := p;
      discovered.PutValid(p.address, record);
      contents.PutValid(p.address, p);
      discovered := discovered.Put(p.address, record);
      contents := contents.Put(p.address, p);
    }

    /** The endpoints handed back are the ones that are gone. */
    method PruneStalePeers(maxAge: real, now: real) returns (stale: seq<string>)
      requires Valid()
      modifies this
      ensures Valid() && contents == PruneStale(old(contents), maxAge, now)
      ensures stale == StaleKeys(old(contents), maxAge, now, |old(contents).keys|)
    {
      stale := [];
      for i := 0 to |discovered.keys|
        invariant stale == StaleKeys(contents, maxAge, now, i)
      {
        var k := discovered.keys[i];
        if now - discovered.vals[k].value.lastSeen > maxAge {
          stale := stale + [k];
        }
      }
      PopAll(stale);
    }
  }
}
