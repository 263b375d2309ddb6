/** The connection tables of the LAN transport and how it resolves duplicate connections
    (src/bitchat/network/transport.py). */
module LanTransport {
  import opened Wrappers
  import opened Lists
  import opened OrderedDicts
  import opened Hex

  // ---- names ----

  function LowerChar(c: char): char {
    if 'A' <= c <= 'Z' then (c as int + 32) as char else c
  }

  function Lower(s: string): string {
    if s == "" then "" else [LowerChar(s[0])] + Lower(s[1..])
  }

  /** `address.split(":", 1)[0]` */
  function IpOf(address: string): string {
    if address == "" || address[0] == ':' then "" else [address[0]] + IpOf(address[1..])
  }

  predicate Loopback(ip: string) {
    "127." <= ip
  }

  /** Letters are lowered one by one, everything else stays. */
  lemma {:induction false} LowerExactly(s: string)
    ensures |Lower(s)| == |s|
    ensures forall i :: 0 <= i < |s| ==>
              if 'A' <= s[i] <= 'Z' then Lower(s)[i] as int == s[i] as int + 32 else Lower(s)[i] == s[i]
  {
    if s != "" {
      LowerExactly(s[1..]);
      assert forall i :: 0 < i < |s| ==> s[i] == s[1..][i - 1] && Lower(s)[i] == Lower(s[1..])[i - 1];
    }
  }

  /** The IP of an address is what stands before its first colon. */
  lemma {:induction false} IpExactly(address: string)
    ensures IpOf(address) <= address && ':' !in IpOf(address)
    ensures IpOf(address) == address || address[|IpOf(address)|] == ':'
  {
    if address != "" && address[0] != ':' {
      IpExactly(address[1..]);
    }
  }

  /** An address made of an IP and a port. */
  lemma {:induction false} IpOfEndpoint(ip: string, port: string)
    requires ':' !in ip
    ensures IpOf(ip + ":" + port) == ip
  {
    if ip != "" {
      IpOfEndpoint(ip[1..], port);
      assert (ip + ":" + port)[1..] == ip[1..] + ":" + port;
    }
  }

  // ---- values ----

  /** A peer heard of by discovery. */
  datatype Discovered = Discovered(ip: string, peerId: string)

  datatype Settings = Settings(
    localId: string, localEndpoint: string, maxConnections: int, discovered: OrderedDict<string, Discovered>)

  /** What the transport looks at in a connection. */
  datatype ConnInfo = ConnInfo(peerAddress: string, isInbound: bool, isReady: bool)

  /** `_connections`, `_peer_connections` and `_address_to_peer_key`. */
  datatype Tables<C(==)> = Tables(
    conns: OrderedDict<string, C>, peers: OrderedDict<string, C>, keys: map<string, string>)
  {
    ghost predicate Valid() {
      conns.Valid() && peers.Valid()
    }

    /** The connections in the tables are known. */
    ghost predicate Covered(info: map<C, ConnInfo>) {
      && (forall k :: k in conns.vals ==> conns.vals[k] in info)
      && (forall k :: k in peers.vals ==> peers.vals[k] in info)
    }
  }

  /** New tables, and the connection that is to be closed, if any. */
  datatype Verdict<C(==)> = Verdict(tables: Tables<C>, dropped: Option<C>)

  // ---- specification ----

  /** The first discovered peer with this address and an id. */
  function KeyByIp(d: OrderedDict<string, Discovered>, ip: string, i: nat): Option<string>
    requires i <= |d.keys| && forall k :: k in d.keys ==> k in d.vals
    decreases |d.keys| - i
  {
    if i == |d.keys| then None
    else
      var p := d.vals[d.keys[i]];
      if p.ip == ip && p.peerId != "" then Some("peer:" + Lower(p.peerId)) else KeyByIp(d, ip, i + 1)
  }

  /** `_get_peer_key` for an address */
  function PeerKey(d: OrderedDict<string, Discovered>, address: string): string
    requires forall k :: k in d.keys ==> k in d.vals
  {
    if address in d.vals && d.vals[address].peerId != "" then "peer:" + Lower(d.vals[address].peerId)
    else if !Loopback(IpOf(address)) then
      match KeyByIp(d, IpOf(address), 0)
      case Some(key) => key
      case None => "ip:" + IpOf(address)
    else "addr:" + address
  }

  /** A discovered record with this IP and an id. */
  predicate Matches(p: Discovered, ip: string) {
    p.ip == ip && p.peerId != ""
  }

  /** The first record of the registry that matches is number `i`. */
  ghost predicate FirstMatch(d: OrderedDict<string, Discovered>, ip: string, i: int)
    requires d.Valid()
  {
    && 0 <= i < |d.keys| && Matches(d.vals[d.keys[i]], ip)
    && forall j :: 0 <= j < i ==> !Matches(d.vals[d.keys[j]], ip)
  }

  ghost predicate NoMatch(d: OrderedDict<string, Discovered>, ip: string)
    requires d.Valid()
  {
    forall k :: k in d.vals ==> !Matches(d.vals[k], ip)
  }

  lemma {:induction false} KeyByIpExactly(d: OrderedDict<string, Discovered>, ip: string, n: nat)
    requires d.Valid() && n <= |d.keys| && forall j :: 0 <= j < n ==> !Matches(d.vals[d.keys[j]], ip)
    ensures match KeyByIp(d, ip, n)
            case None => NoMatch(d, ip)
            case Some(key) => exists i :: FirstMatch(d, ip, i) && key == "peer:" + Lower(d.vals[d.keys[i]].peerId)
    decreases |d.keys| - n
  {
    if n < |d.keys| {
      if Matches(d.vals[d.keys[n]], ip) {
        assert FirstMatch(d, ip, n);
      } else {
        KeyByIpExactly(d, ip, n + 1);
      }
    }
  }

  /** Under which key a connection is on record. An address with a record of its own that has an id goes by that id. Any
      other that is not loopback goes by the id of the first record with its IP and an id, exactly if there is one, and
      by its IP otherwise; a loopback address goes by itself. */
  lemma PeerKeyExactly(d: OrderedDict<string, Discovered>, address: string)
    requires d.Valid()
    ensures var key, ip := PeerKey(d, address), IpOf(address);
            if address in d.vals && d.vals[address].peerId != "" then key == "peer:" + Lower(d.vals[address].peerId)
            else if "127." <= ip then key == "addr:" + address
            else
              && (key == "ip:" + ip <==> NoMatch(d, ip))
              && (forall i :: FirstMatch(d, ip, i) ==> key == "peer:" + Lower(d.vals[d.keys[i]].peerId))
  {
    var ip := IpOf(address);
    KeyByIpExactly(d, ip, 0);
    forall i, j | FirstMatch(d, ip, i) && FirstMatch(d, ip, j) ensures i == j {
      assert !(i < j) && !(j < i);
    }
    assert forall id: string :: ("peer:" + id)[0] != ("ip:" + ip)[0];
  }

  /** `_get_remote_id` */
  function RemoteId(key: string, address: string): string {
    if "peer:" <= key then key[5..] else address
  }

  /** `_should_keep_outbound`: the end with the smaller id keeps the connection it opened. */
  predicate KeepOutbound(cfg: Settings, remoteId: string, remoteAddress: string) {
    var localId := Lower(cfg.localId);
    if localId != "" && remoteId != "" && localId != remoteId then TextLess(localId, Lower(remoteId))
    else TextLess(cfg.localEndpoint, remoteAddress)
  }

  /** Two ids that are given and differ decide, in lower case, and else the two endpoints. */
  lemma KeepOutboundExactly(cfg: Settings, remoteId: string, remoteAddress: string)
    ensures KeepOutbound(cfg, remoteId, remoteAddress) <==>
            if cfg.localId != "" && remoteId != "" && Lower(cfg.localId) != remoteId
            then ComesFirst(Lower(cfg.localId), Lower(remoteId))
            else ComesFirst(cfg.localEndpoint, remoteAddress)
  {
    TextLessExactly(Lower(cfg.localId), Lower(remoteId));
    TextLessExactly(cfg.localEndpoint, remoteAddress);
  }

  /** The id that a key was made of, and the address for any other key. */
  lemma RemoteIdExactly(id: string, key: string, address: string)
    ensures RemoteId("peer:" + id, address) == id
    ensures RemoteId(key, address) != address ==> exists i: string :: key == "peer:" + i
  {
    assert ("peer:" + id)[5..] == id;
    if "peer:" <= key {
      assert key == "peer:" + key[5..];
    }
  }

  /** The first ready connection to this IP. */
  function ReadyByIp<C(==)>(t: Tables<C>, info: map<C, ConnInfo>, ip: string, i: nat): (r: Option<C>)
    requires t.Valid() && t.Covered(info) && i <= |t.conns.keys|
    ensures r.Some? ==> r.value in info && info[r.value].isReady
    decreases |t.conns.keys| - i
  {
    if i == |t.conns.keys| then None
    else
      var c := t.conns.vals[t.conns.keys[i]];
      if info[c].isReady && IpOf(info[c].peerAddress) == ip then Some(c) else ReadyByIp(t, info, ip, i + 1)
  }

  /** `_find_existing_connection` */
  function Find<C(==)>(t: Tables<C>, info: map<C, ConnInfo>, cfg: Settings, address: string): (r: Option<C>)
    requires t.Valid() && t.Covered(info) && cfg.discovered.Valid()
    ensures r.Some? ==> r.value in info && info[r.value].isReady
  {
    var key := PeerKey(cfg.discovered, address);
    if address in t.conns.vals && info[t.conns.vals[address]].isReady then Some(t.conns.vals[address])
    else if key in t.peers.vals && info[t.peers.vals[key]].isReady then Some(t.peers.vals[key])
    else if !Loopback(IpOf(address)) then ReadyByIp(t, info, IpOf(address), 0)
    else None
  }

  /** The keys under which a dictionary holds `c`, in order. */
  function KeysHolding<C(==)>(d: OrderedDict<string, C>, c: C, n: nat): seq<string>
    requires n <= |d.keys| && forall k :: k in d.keys ==> k in d.vals
  {
    if n == 0 then []
    else KeysHolding(d, c, n - 1) + if d.vals[d.keys[n - 1]] == c then [d.keys[n - 1]] else []
  }

  /** `_remove_connection_references` */
  function Remove<C(==)>(t: Tables<C>, c: C): Tables<C>
    requires t.Valid()
  {
    var addresses := KeysHolding(t.conns, c, |t.conns.keys|);
    Tables(
      t.conns.DeleteAll(addresses), t.peers.DeleteAll(KeysHolding(t.peers, c, |t.peers.keys|)),
      t.keys - ToSet(addresses))
  }

  function Register<C(==)>(t: Tables<C>, address: string, key: string, c: C): Tables<C> {
    Tables(t.conns.Put(address, c), t.peers.Put(key, c), t.keys[address := key])
  }

  /** `_handle_inbound_connection` */
  function Inbound<C(==)>(t: Tables<C>, info: map<C, ConnInfo>, cfg: Settings, c: C): Verdict<C>
    requires t.Valid() && t.Covered(info) && cfg.discovered.Valid() && c in info
  {
    var address := info[c].peerAddress;
    var key := PeerKey(cfg.discovered, address);
    if |t.conns.keys| >= cfg.maxConnections then Verdict(t, Some(c))
    else
      match Find(t, info, cfg, address)
      case None => Verdict(Register(t, address, key, c), None)
      case Some(existing) =>
        if existing == c then Verdict(Register(t, address, key, c), None)
        else if info[existing].isInbound || KeepOutbound(cfg, RemoteId(key, address), address) then Verdict(t, Some(c))
        else Verdict(Register(Remove(t, existing), address, key, c), Some(existing))
  }

  /** `_handle_packet_received`, for a packet from `sender` (in hex) over the connection known as `address` */
  function Packet<C(==)>(t: Tables<C>, info: map<C, ConnInfo>, cfg: Settings, sender: string, address: string)
    : Verdict<C>
    requires t.Valid() && t.Covered(info)
  {
    var key := "peer:" + Lower(sender);
    var noted := t.(keys := t.keys[address := key]);
    if address !in t.conns.vals || !info[t.conns.vals[address]].isReady then Verdict(noted, None)
    else
      var conn := t.conns.vals[address];
      if key in t.peers.vals && t.peers.vals[key] != conn && info[t.peers.vals[key]].isReady then
        var existing := t.peers.vals[key];
        var existingStays := KeepOutbound(cfg, sender, address) != info[existing].isInbound;
        var (keep, drop) := if existingStays then (existing, conn) else (conn, existing);
        var left := Remove(noted, drop);
        Verdict(left.(peers := left.peers.Put(key, keep)), Some(drop))
      else Verdict(noted.(peers := t.peers.Put(key, conn)), None)
  }

  /** `_handle_peer_disconnected` */
  function Disconnected<C(==)>(t: Tables<C>, address: string): Tables<C>
    requires t.Valid()
  {
    if address in t.conns.vals then Remove(t, t.conns.vals[address]) else t.(keys := t.keys - {address})
  }

  // ---- a removed connection is gone from all three tables ----

  lemma {:induction false} KeysHoldingExactly<C>(d: OrderedDict<string, C>, c: C, n: nat)
    requires n <= |d.keys| && forall k :: k in d.keys ==> k in d.vals
    ensures forall k :: k in KeysHolding(d, c, n) <==> k in d.keys[..n] && d.vals[k] == c
  {
    if n > 0 {
      KeysHoldingExactly(d, c, n - 1);
      assert d.keys[..n] == d.keys[..n - 1] + [d.keys[n - 1]];
    }
  }

  /** `rest` is the part of `d` that does not hold `c`. */
  ghost predicate LacksConnection<C>(rest: OrderedDict<string, C>, d: OrderedDict<string, C>, c: C) {
    && rest.Valid()
    && (forall k :: k in rest.vals ==> k in d.vals && rest.vals[k] == d.vals[k] != c)
    && (forall k :: k in d.vals && d.vals[k] != c ==> k in rest.vals)
  }

  lemma DeleteHolding<C>(d: OrderedDict<string, C>, c: C)
    requires d.Valid()
    ensures LacksConnection(d.DeleteAll(KeysHolding(d, c, |d.keys|)), d, c)
    ensures |d.DeleteAll(KeysHolding(d, c, |d.keys|)).keys| <= |d.keys|
  {
    KeysHoldingExactly(d, c, |d.keys|);
    assert d.keys[..|d.keys|] == d.keys;
    d.DeleteAllExactly(KeysHolding(d, c, |d.keys|));
  }

  /** After removal no table mentions the connection any more, and nothing else has changed. */
  lemma RemovedEverywhere<C>(t: Tables<C>, c: C)
    requires t.Valid()
    ensures var r := Remove(t, c);
            && r.Valid() && LacksConnection(r.conns, t.conns, c) && LacksConnection(r.peers, t.peers, c)
            && (forall a :: a in r.keys <==> a in t.keys && !(a in t.conns.vals && t.conns.vals[a] == c))
            && (forall a :: a in r.keys ==> r.keys[a] == t.keys[a])
  {
    KeysHoldingExactly(t.conns, c, |t.conns.keys|);
    assert t.conns.keys[..|t.conns.keys|] == t.conns.keys;
    DeleteHolding(t.conns, c);
    DeleteHolding(t.peers, c);
  }

  lemma RegisterValid<C>(t: Tables<C>, address: string, key: string, c: C)
    requires t.Valid()
    ensures Register(t, address, key, c).Valid()
  {
    t.conns.PutValid(address, c);
    t.peers.PutValid(key, c);
  }

  // ---- an inbound connection and the connections to other peers ----

  /** The registry knows the peer at the address by that id: by a record of its own, or else by the first with its
      IP. */
  ghost predicate KnownAs(d: OrderedDict<string, Discovered>, address: string, id: string)
    requires d.Valid()
  {
    if address in d.vals && d.vals[address].peerId != "" then d.vals[address].peerId == id
    else
      && !("127." <= IpOf(address))
      && exists i :: FirstMatch(d, IpOf(address), i) && d.vals[d.keys[i]].peerId == id
  }

  lemma KnownByKey(d: OrderedDict<string, Discovered>, address: string, id: string)
    requires d.Valid() && KnownAs(d, address, id)
    ensures PeerKey(d, address) == "peer:" + Lower(id)
  {
    PeerKeyExactly(d, address);
  }

  /** Connections are at their own addresses, and on record under the keys of these. */
  ghost predicate ByAddress<C>(t: Tables<C>, info: map<C, ConnInfo>, cfg: Settings)
    requires t.Valid() && t.Covered(info) && cfg.discovered.Valid()
  {
    && (forall a :: a in t.conns.vals ==> info[t.conns.vals[a]].peerAddress == a)
    && (forall k :: k in t.peers.vals ==> k == PeerKey(cfg.discovered, info[t.peers.vals[k]].peerAddress))
  }

  /** What the search takes for a connection to the peer at the address. */
  ghost predicate ToSamePeer<C>(info: map<C, ConnInfo>, cfg: Settings, address: string, e: C)
    requires cfg.discovered.Valid() && e in info
  {
    && info[e].isReady
    && (|| info[e].peerAddress == address
        || PeerKey(cfg.discovered, info[e].peerAddress) == PeerKey(cfg.discovered, address)
        || (IpOf(info[e].peerAddress) == IpOf(address) && !("127." <= IpOf(address))))
  }

  lemma {:induction false} ReadyByIpSame<C>(t: Tables<C>, info: map<C, ConnInfo>, ip: string, i: nat)
    requires t.Valid() && t.Covered(info) && i <= |t.conns.keys|
    ensures var r := ReadyByIp(t, info, ip, i);
            r.Some? ==> r.value in info && info[r.value].isReady && IpOf(info[r.value].peerAddress) == ip
    decreases |t.conns.keys| - i
  {
    if i < |t.conns.keys| {
      ReadyByIpSame(t, info, ip, i + 1);
    }
  }

  /** The connection in the table is ready and comes from that IP. */
  predicate ReadyFrom<C>(t: Tables<C>, info: map<C, ConnInfo>, ip: string, i: nat)
    requires t.Valid() && t.Covered(info) && i < |t.conns.keys|
  {
    var c := t.conns.vals[t.conns.keys[i]];
    info[c].isReady && IpOf(info[c].peerAddress) == ip
  }

  lemma {:induction false} ReadyByIpExactly<C>(t: Tables<C>, info: map<C, ConnInfo>, ip: string, n: nat)
    requires t.Valid() && t.Covered(info) && n <= |t.conns.keys|
    ensures match ReadyByIp(t, info, ip, n)
            case None => forall i :: n <= i < |t.conns.keys| ==> !ReadyFrom(t, info, ip, i)
            case Some(c) => exists i :: n <= i < |t.conns.keys| && ReadyFrom(t, info, ip, i)
                                        && t.conns.vals[t.conns.keys[i]] == c
                                        && forall j :: n <= j < i ==> !ReadyFrom(t, info, ip, j)
    decreases |t.conns.keys| - n
  {
    if n < |t.conns.keys| {
      ReadyByIpExactly(t, info, ip, n + 1);
      var c := t.conns.vals[t.conns.keys[n]];
      if info[c].isReady && IpOf(info[c].peerAddress) == ip {
        assert ReadyFrom(t, info, ip, n);
      } else {
        assert !ReadyFrom(t, info, ip, n);
      }
    }
  }

  /** The ready connection that a dictionary holds under a key. */
  function ReadyAt<C>(d: OrderedDict<string, C>, info: map<C, ConnInfo>, key: string): Option<C>
    requires forall k :: k in d.vals ==> d.vals[k] in info
  {
    if key in d.vals && info[d.vals[key]].isReady then Some(d.vals[key]) else None
  }

  /** The search goes by the address, then by the key of the peer, then, unless it is loopback, by the IP: what it finds
      is the first ready connection, and it finds none if and only if there is none. */
  lemma FindExactly<C>(t: Tables<C>, info: map<C, ConnInfo>, cfg: Settings, address: string)
    requires t.Valid() && t.Covered(info) && cfg.discovered.Valid()
    ensures var r, ip := Find(t, info, cfg, address), IpOf(address);
            var there, known := ReadyAt(t.conns, info, address), ReadyAt(t.peers, info,
                                                                         PeerKey(cfg.discovered, address));
            if there.Some? then r == there
            else if known.Some? then r == known
            else if "127." <= ip then r == None
            else
              match r
              case None => forall i :: 0 <= i < |t.conns.keys| ==> !ReadyFrom(t, info, ip, i)
              case Some(c) => exists i :: 0 <= i < |t.conns.keys| && ReadyFrom(t, info, ip, i)
                                          && t.conns.vals[t.conns.keys[i]] == c
                                          && forall j :: 0 <= j < i ==> !ReadyFrom(t, info, ip, j)
  {
    ReadyByIpExactly(t, info, IpOf(address), 0);
  }

  lemma FindsSamePeer<C>(t: Tables<C>, info: map<C, ConnInfo>, cfg: Settings, address: string)
    requires t.Valid() && t.Covered(info) && cfg.discovered.Valid() && ByAddress(t, info, cfg)
    ensures var r := Find(t, info, cfg, address); r.Some? ==> ToSamePeer(info, cfg, address, r.value)
  {
    ReadyByIpSame(t, info, IpOf(address), 0);
  }

  /** An inbound connection is dropped, or another one for it, only if the table is full or there is a ready connection
      to the same peer already; if neither, it is registered. A full table always turns it down. */
  lemma InboundDrops<C>(t: Tables<C>, info: map<C, ConnInfo>, cfg: Settings, c: C)
    requires t.Valid() && t.Covered(info) && cfg.discovered.Valid() && c in info && ByAddress(t, info, cfg)
    ensures var v, address := Inbound(t, info, cfg, c), info[c].peerAddress;
            && (v.dropped == None ==> v.tables == Register(t, address, PeerKey(cfg.discovered, address), c))
            && (v.dropped == Some(c) ==> v.tables == t)
            && (v.dropped.Some? && v.dropped != Some(c) ==>
                  v.tables == Register(Remove(t, v.dropped.value), address, PeerKey(cfg.discovered, address), c))
            && (|t.conns.keys| >= cfg.maxConnections ==> v.dropped == Some(c))
            && (v.dropped.Some? ==>
                  || (|t.conns.keys| >= cfg.maxConnections && v.dropped == Some(c))
                  || exists e :: e in info && e != c && ToSamePeer(info, cfg, address, e)
                                 && (v.dropped == Some(c) || v.dropped == Some(e)))
  {
    FindsSamePeer(t, info, cfg, info[c].peerAddress);
  }

  /** Peers that are discovered under different ids, and connect from different IPs, leave each other's connections
      alone: an inbound connection of the one neither ends a connection to the other nor is turned down for it. */
  lemma OtherPeersSpared<C>(
      t: Tables<C>, info: map<C, ConnInfo>, cfg: Settings, c: C, e: C, mine: string, others: string)
    requires t.Valid() && t.Covered(info) && cfg.discovered.Valid() && c in info && ByAddress(t, info, cfg)
    requires e in info && e != c && IpOf(info[e].peerAddress) != IpOf(info[c].peerAddress)
    requires KnownAs(cfg.discovered, info[c].peerAddress, mine) && KnownAs(cfg.discovered, info[e].peerAddress, others)
    requires Lower(mine) != Lower(others)
    ensures !ToSamePeer(info, cfg, info[c].peerAddress, e)
    ensures Inbound(t, info, cfg, c).dropped != Some(e)
    ensures Inbound(t, info, cfg, c).dropped == Some(c) && |t.conns.keys| < cfg.maxConnections ==>
              exists x :: x in info && x != c && x != e && ToSamePeer(info, cfg, info[c].peerAddress, x)
  {
    KnownByKey(cfg.discovered, info[c].peerAddress, mine);
    KnownByKey(cfg.discovered, info[e].peerAddress, others);
    assert ("peer:" + Lower(mine))[5..] == Lower(mine) && ("peer:" + Lower(others))[5..] == Lower(others);
    InboundDrops(t, info, cfg, c);
  }

  lemma RegisterByAddress<C>(t: Tables<C>, info: map<C, ConnInfo>, cfg: Settings, c: C)
    requires t.Valid() && t.Covered(info) && cfg.discovered.Valid() && c in info && ByAddress(t, info, cfg)
    ensures var address := info[c].peerAddress;
            var r := Register(t, address, PeerKey(cfg.discovered, address), c);
            r.Valid() && r.Covered(info) && ByAddress(r, info, cfg)
  {
    RegisterValid(t, info[c].peerAddress, PeerKey(cfg.discovered, info[c].peerAddress), c);
  }

  lemma RemoveByAddress<C>(t: Tables<C>, info: map<C, ConnInfo>, cfg: Settings, c: C)
    requires t.Valid() && t.Covered(info) && cfg.discovered.Valid() && ByAddress(t, info, cfg)
    ensures var r := Remove(t, c); r.Valid() && r.Covered(info) && ByAddress(r, info, cfg)
  {
    RemovedEverywhere(t, c);
  }

  /** Accepting keeps the connections at their own addresses, and so does a close. */
  lemma InboundByAddress<C>(t: Tables<C>, info: map<C, ConnInfo>, cfg: Settings, c: C)
    requires t.Valid() && t.Covered(info) && cfg.discovered.Valid() && c in info && ByAddress(t, info, cfg)
    ensures var r := Inbound(t, info, cfg, c).tables; r.Valid() && r.Covered(info) && ByAddress(r, info, cfg)
  {
    var existing := Find(t, info, cfg, info[c].peerAddress);
    RegisterByAddress(t, info, cfg, c);
    if existing.Some? {
      RemoveByAddress(t, info, cfg, existing.value);
      RegisterByAddress(Remove(t, existing.value), info, cfg, c);
    }
  }

  lemma DisconnectedByAddress<C>(t: Tables<C>, info: map<C, ConnInfo>, cfg: Settings, address: string)
    requires t.Valid() && t.Covered(info) && cfg.discovered.Valid() && ByAddress(t, info, cfg)
    ensures var r := Disconnected(t, address); r.Valid() && r.Covered(info) && ByAddress(r, info, cfg)
  {
    if address in t.conns.vals {
      RemoveByAddress(t, info, cfg, t.conns.vals[address]);
    }
  }

  // ---- the mutable objects ----

  /** Why `connect_peer` raises an error before it opens a connection. */
  datatype Refusal = OwnEndpoint | Unavailable | LimitReached

  class Connection {
    const peerAddress: string
    const isInbound: bool
    var isReady: bool
    var peerId: string

    constructor (peerAddress: string, isInbound: bool, isReady: bool)
      ensures this.peerAddress == peerAddress && this.isInbound == isInbound && this.isReady == isReady
    {
      this.peerAddress, this.isInbound, this.isReady, peerId := peerAddress, isInbound, isReady, "";
    }
  }

  class Transport {
    const cfg: Settings
    var conns: OrderedDict<string, Connection>
    var peers: OrderedDict<string, Connection>
    var keys: map<string, string>
    ghost var known: set<Connection>  // every connection there has been

    ghost function State(): Tables<Connection>
      reads this
    {
      Tables(conns, peers, keys)
    }

    ghost function Info(): map<Connection, ConnInfo>
      reads this, known
    {
      map c | c in known :: ConnInfo(c.peerAddress, c.isInbound, c.isReady)
    }

    ghost predicate Valid()
      reads this, known
    {
      State().Valid() && State().Covered(Info()) && cfg.discovered.Valid()
    }

    constructor (cfg: Settings)
      requires cfg.discovered.Valid()
      ensures Valid() && this.cfg == cfg && known == {}
      ensures State() == Tables(OrderedDict([], map[]), OrderedDict([], map[]), map[])
    {
      this.cfg, conns, peers, keys, known := cfg, OrderedDict([], map[]), OrderedDict([], map[]), map[], {};
    }

    method GetPeerKey(address: string) returns (key: string)
      requires Valid()
      ensures key == PeerKey(cfg.discovered, address)
    {
      if address in cfg.discovered.vals && cfg.discovered.vals[address].peerId != "" {
        return "peer:" + Lower(cfg.discovered.vals[address].peerId);
      }
      var ip := IpOf(address);
      if !Loopback(ip) {
        for i := 0 to |cfg.discovered.keys|
          invariant KeyByIp(cfg.discovered, ip, i) == KeyByIp(cfg.discovered, ip, 0)
        {
          var p := cfg.discovered.vals[cfg.discovered.keys[i]];
          if p.ip == ip && p.peerId != "" {
            return "peer:" + Lower(p.peerId);
          }
        }
        return "ip:" + ip;
      }
      return "addr:" + address;
    }

    method FindExistingConnection(address: string) returns (r: Option<Connection>)
      requires Valid()
      ensures r == Find(State(), Info(), cfg, address)
    {
      if address in conns.vals && conns.vals[address].isReady {
        return Some(conns.vals[address]);
      }
      var key := GetPeerKey(address);
      if key in peers.vals && peers.vals[key].isReady {
        return Some(peers.vals[key]);
      }
      var ip := IpOf(address);
      if !Loopback(ip) {
        for i := 0 to |conns.keys|
          invariant ReadyByIp(State(), Info(), ip, i) == ReadyByIp(State(), Info(), ip, 0)
        {
          var c := conns.vals[conns.keys[i]];
          if c.isReady && IpOf(c.peerAddress) == ip {
            return Some(c);
          }
        }
      }
      return None;
    }

    /** The two list comprehensions of `_remove_connection_references`. */
    static method FindKeys(d: OrderedDict<string, Connection>, c: Connection) returns (found: seq<string>)
      requires d.Valid()
      ensures found == KeysHolding(d, c, |d.keys|)
    {
      found := [];
      for i := 0 to |d.keys|
        invariant found == KeysHolding(d, c, i)
      {
        if d.vals[d.keys[i]] == c {
          found := found + [d.keys[i]];
        }
      }
    }

    static method PopAll(d: OrderedDict<string, Connection>, ks: seq<string>)
      returns (rest: OrderedDict<string, Connection>)
      requires d.Valid()
      ensures rest == d.DeleteAll(ks)
    {
      rest := d;
      for i := 0 to |ks|
        invariant rest.Valid() && rest.DeleteAll(ks[i..]) == d.DeleteAll(ks)
      {
        assert ks[i..][1..] == ks[i + 1..];
        rest.DeleteValid(ks[i]);
        rest := rest.Delete(ks[i]);
      }
    }

    method RemoveConnectionReferences(c: Connection)
      requires Valid()
      modifies `conns, `peers, `keys
      ensures Valid() && State() == Remove(old(State()), c)
    {
      RemovedEverywhere(State(), c);
      var addresses := FindKeys(conns, c);
      var peerKeys := FindKeys(peers, c);
      conns := PopAll(conns, addresses);
      keys := keys - ToSet(addresses);
      peers := PopAll(peers, peerKeys);
    }

    method RegisterConnection(address: string, key: string, c: Connection)
      requires Valid() && c in known
      modifies `conns, `peers, `keys
      ensures Valid() && State() == Register(old(State()), address, key, c)
    {
      RegisterValid(State(), address, key, c);
      conns := conns.Put(address, c);
      peers := peers.Put(key, c);
      keys := keys[address := key];
    }

    /** The connection handed back, if any, is the one for which a close is scheduled. */
    method HandleInboundConnection(c: Connection) returns (dropped: Option<Connection>)
      requires Valid() && c in known
      modifies `conns, `peers, `keys
      ensures Valid() && Verdict(State(), dropped) == Inbound(old(State()), old(Info()), cfg, c)
    {
      if |conns.keys| >= cfg.maxConnections {
        return Some(c);
      }
      var key := GetPeerKey(c.peerAddress);
      var existing := FindExistingConnection(c.peerAddress);
      dropped := None;
      if existing.Some? && existing.value != c {
        if existing.value.isInbound {
          return Some(c);
        }
        if KeepOutbound(cfg, RemoteId(key, c.peerAddress), c.peerAddress) {
          return Some(c);
        }
        dropped := existing;
        RemoveConnectionReferences(existing.value);
      }
      RegisterConnection(c.peerAddress, key, c);
    }

    method HandlePacketReceived(sender: string, address: string) returns (dropped: Option<Connection>)
      requires Valid()
      modifies `conns, `peers, `keys, known`peerId
      ensures Valid() && Verdict(State(), dropped) == Packet(old(State()), old(Info()), cfg, sender, address)
    {
      var key := "peer:" + Lower(sender);
      var conn := NoteSender(sender, key, address);
      if conn.None? || !conn.value.isReady {
        return None;
      }
      if key in peers.vals && peers.vals[key] != conn.value && peers.vals[key].isReady {
        dropped := ResolveDuplicate(key, peers.vals[key], conn.value, sender, address);
      } else {
        peers.PutValid(key, conn.value);
        peers := peers.Put(key, conn.value);
        dropped := None;
      }
    }

    /** The sender is noted on the connection, if there is one at the address, and its key under the address. */
    method NoteSender(sender: string, key: string, address: string) returns (conn: Option<Connection>)
      requires Valid()
      modifies `keys, known`peerId
      ensures Valid() && Info() == old(Info())
      ensures State() == old(State()).(keys := old(keys)[address := key])
      ensures conn == if address in conns.vals then Some(conns.vals[address]) else None
    {
      conn := None;
      if address in conns.vals {
        conn := Some(conns.vals[address]);
        conn.value.peerId := sender;
      }
      keys := keys[address := key];
    }

    /** Two ready connections to one peer: which to keep. */
    method ResolveDuplicate(key: string, existing: Connection, conn: Connection, sender: string, address: string)
      returns (dropped: Option<Connection>)
      requires Valid() && existing in known && conn in known
      modifies `conns, `peers, `keys
      ensures Valid()
      ensures var (keep, drop) := if KeepOutbound(cfg, sender, address) != existing.isInbound
                                  then (existing, conn) else (conn, existing);
              var left := Remove(old(State()), drop);
              State() == left.(peers := left.peers.Put(key, keep)) && dropped == Some(drop)
    {
      var keep, drop := conn, existing;
      if KeepOutbound(cfg, sender, address) {
        if !existing.isInbound {
          keep, drop := existing, conn;
        }
      } else if existing.isInbound {
        keep, drop := existing, conn;
      }
      RemoveConnectionReferences(drop);
      peers.PutValid(key, keep);
      peers := peers.Put(key, keep);
      return Some(drop);
    }

    method HandlePeerDisconnected(address: string)
      requires Valid()
      modifies `conns, `peers, `keys
      ensures Valid() && State() == Disconnected(old(State()), address)
    {
      if address in conns.vals {
        RemoveConnectionReferences(conns.vals[address]);
      } else {
        keys := keys - {address};
      }
    }

    /** `connect_peer` up to the point where it waits for the connection it opens: an existing connection is used again,
        and none is opened beyond the limit. `ownEndpoint` says that the address is the one the server of this node
        listens at, `available` that the transport is neither off nor in error. */
    method ConnectPeer(address: string, ownEndpoint: bool, available: bool)
      returns (c: Result<Connection, Refusal>, opens: bool)
      requires Valid()
      modifies this
      ensures Valid() && (opens ==> c.Success?) && known == old(known) + (if opens then {c.value} else {})
      ensures ownEndpoint || !available ==>
                c == Failure(if ownEndpoint then OwnEndpoint else Unavailable) && State() == old(State())
      ensures !ownEndpoint && available ==>
                match Find(old(State()), old(Info()), cfg, address)
                case Some(existing) =>
                  c == Success(existing) && !opens
                  && State() == Register(old(State()), address, PeerKey(cfg.discovered, address), existing)
                case None =>
                  if |old(conns).keys| >= cfg.maxConnections then c == Failure(LimitReached) && State() == old(State())
                  else c.Success? && opens && fresh(c.value) && !c.value.isReady && !c.value.isInbound
                       && c.value.peerAddress == address
                       && State() == Register(old(State()), address, PeerKey(cfg.discovered, address), c.value)
    {
      if ownEndpoint {
        return Failure(OwnEndpoint), false;
      }
      if !available {
        return Failure(Unavailable), false;
      }
      c, opens := ConnectOrReuse(address);
    }

    /** The same, once nothing speaks against connecting. */
    method ConnectOrReuse(address: string) returns (c: Result<Connection, Refusal>, opens: bool)
      requires Valid()
      modifies this
      ensures Valid() && (opens ==> c.Success?) && known == old(known) + (if opens then {c.value} else {})
      ensures match Find(old(State()), old(Info()), cfg, address)
              case Some(existing) =>
                c == Success(existing) && !opens
                && State() == Register(old(State()), address, PeerKey(cfg.discovered, address), existing)
              case None =>
                if |old(conns).keys| >= cfg.maxConnections then c == Failure(LimitReached) && State() == old(State())
                else c.Success? && opens && fresh(c.value) && !c.value.isReady && !c.value.isInbound
                     && c.value.peerAddress == address
                     && State() == Register(old(State()), address, PeerKey(cfg.discovered, address), c.value)
    {
      var existing := FindExistingConnection(address);
      var key := GetPeerKey(address);
      if existing.Some? {
        RegisterConnection(address, key, existing.value);
        return Success(existing.value), false;
      }
      if |conns.keys| >= cfg.maxConnections {
        return Failure(LimitReached), false;
      }
      var conn := OpenConnection(address, key);
      return Success(conn), true;
    }

    method OpenConnection(address: string, key: string) returns (c: Connection)
      requires Valid()
      modifies this
      ensures Valid() && known == old(known) + {c} && fresh(c)
      ensures !c.isReady && !c.isInbound && c.peerAddress == address
      ensures State() == Register(old(State()), address, key, c)
    {
      c := new Connection(address, false, false);
      known := known + {c};
      RegisterConnection(address, key, c);
    }

    /** A connection accepted by the server becomes known. */
    ghost method Meet(c: Connection)
      requires Valid()
      modifies `known
      ensures Valid() && known == old(known) + {c} && State() == old(State())
    {
      known := known + {c};
    }
  }
}
