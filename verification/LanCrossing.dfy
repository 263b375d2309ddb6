/** Two peers that connect to each other at the same time, seen from one end: which of the two connections it drops, and
    what its tables hold (src/bitchat/network/transport.py:123-159, 187-256, 263-318, 486-574). */
module LanCrossing {
  import opened Wrappers
  import opened Lists
  import opened OrderedDicts
  import opened Hex
  import opened LanTransport

  // ---- one end ----

  /** An end's two connections to the other end: the one it opened and the one it accepted. */
  datatype Dir = Out | In

  function Flip(d: Dir): Dir {
    if d.Out? then In else Out
  }

  /** A connection that is open is `Ended` by the other end, or dropped by this one: then it is `Closing` while its
      close is scheduled and `Shutting` while that runs. `Ended` and `Shutting` go over into `Closed` with the close
      callback. */
  datatype Phase = Absent | Connecting | Open | Ended | Closing | Shutting | Closed
  {
    /** In the tables: until its close callback, unless it is dropped. */
    predicate Live() {
      Connecting? || Open? || Ended?
    }

    predicate Ready() {
      Open? || Closing?
    }

    /** Packets can come in; a close that has started may still be overtaken by one. */
    predicate Reads() {
      Open? || Closing? || Shutting?
    }

    /** The close callback comes next. */
    predicate Finishing() {
      Ended? || Shutting?
    }

    predicate Dropped() {
      Closing? || Shutting? || Closed?
    }

    predicate Leaving() {
      Ended? || Dropped()
    }
  }

  /** The key under which `_handle_packet_received` puts a sender on record. */
  function KeyOf(sender: string): string {
    "peer:" + Lower(sender)
  }

  /** How one end sees the other, and what it decides by. */
  datatype Site = Site(cfg: Settings, remoteId: string, outAddress: string, inAddress: string)
  {
    function Key(): string {
      KeyOf(remoteId)
    }

    function AddressOf(d: Dir): string {
      if d.Out? then outAddress else inAddress
    }

    /** The other end has been discovered, and there is room for both connections. */
    ghost predicate Valid() {
      && cfg.discovered.Valid() && cfg.maxConnections >= 2
      && outAddress != inAddress && cfg.localId != "" && remoteId != ""
      && Lower(cfg.localId) == cfg.localId && Lower(remoteId) == remoteId && cfg.localId != remoteId
      && PeerKey(cfg.discovered, outAddress) == Key() && PeerKey(cfg.discovered, inAddress) == Key()
    }

    /** What the registry has to hold for that: the other end at the address that is connected to, and, where it
        connects from, no record of its own but its id in the first record with that IP. */
    ghost predicate Discovers() {
      && cfg.discovered.Valid() && KnownAs(cfg.discovered, outAddress, remoteId)
      && inAddress !in cfg.discovered.vals && KnownAs(cfg.discovered, inAddress, remoteId)
    }

    lemma DiscoveredIsValid()
      requires Discovers() && cfg.maxConnections >= 2 && outAddress != inAddress
      requires cfg.localId != "" && remoteId != "" && cfg.localId != remoteId
      requires Lower(cfg.localId) == cfg.localId && Lower(remoteId) == remoteId
      ensures Valid()
    {
      KnownByKey(cfg.discovered, outAddress, remoteId);
      KnownByKey(cfg.discovered, inAddress, remoteId);
    }

    /** The end with the smaller id keeps what it opened. */
    predicate KeepsOut() {
      TextLess(cfg.localId, remoteId)
    }

    /** What it goes by when a packet of `sender` shows that there are two: the sender need not be the other end. */
    predicate KeepsOutFor(sender: string, d: Dir) {
      KeepOutbound(cfg, sender, AddressOf(d))
    }
  }

  /** `wired`: the accepted connection reports packets and its end to the transport. */
  datatype End = End(tables: Tables<Dir>, outPhase: Phase, inPhase: Phase, wired: bool)
  {
    function PhaseOf(d: Dir): Phase {
      if d.Out? then outPhase else inPhase
    }

    function Set(d: Dir, p: Phase): End {
      if d.Out? then this.(outPhase := p) else this.(inPhase := p)
    }

    function Hears(d: Dir): bool {
      d.Out? || wired
    }
  }

  const EMPTY_END := End(Tables(OrderedDict([], map[]), OrderedDict([], map[]), map[]), Absent, Absent, false)

  function InfoOf(site: Site, e: End): map<Dir, ConnInfo> {
    map[Out := ConnInfo(site.outAddress, false, e.outPhase.Ready()),
        In := ConnInfo(site.inAddress, true, e.inPhase.Ready())]
  }

  lemma BothKnown(site: Site, e: End)
    ensures e.tables.Covered(InfoOf(site, e))
  {
    forall d: Dir ensures d in InfoOf(site, e) {
      match d case Out => case In =>
    }
  }

  /** What an end's tables hold: the connections at the two addresses, and the one on record for the peer. */
  datatype Slots = Slots(atOut: Option<Dir>, atIn: Option<Dir>, onRecord: Option<Dir>)
  {
    function At(d: Dir): Option<Dir> {
      if d.Out? then atOut else atIn
    }

    predicate Has(c: Dir) {
      atOut == Some(c) || atIn == Some(c)
    }

    /** `c` registered at the address of `d` */
    function Put(d: Dir, c: Dir): Slots {
      if d.Out? then Slots(Some(c), atIn, Some(c)) else Slots(atOut, Some(c), Some(c))
    }

    function Without(c: Dir): Slots {
      Slots(Blank(atOut, c), Blank(atIn, c), Blank(onRecord, c))
    }

    static function Blank(x: Option<Dir>, c: Dir): Option<Dir> {
      if x == Some(c) then None else x
    }
  }

  function Lookup(d: OrderedDict<string, Dir>, k: string): Option<Dir> {
    if k in d.vals then Some(d.vals[k]) else None
  }

  function SlotsOf(site: Site, t: Tables<Dir>): Slots {
    Slots(Lookup(t.conns, site.outAddress), Lookup(t.conns, site.inAddress), Lookup(t.peers, site.Key()))
  }

  /** The tables know no other address. */
  ghost predicate OnlyThese(site: Site, t: Tables<Dir>) {
    t.Valid() && forall a :: a in t.conns.vals ==> a == site.outAddress || a == site.inAddress
  }

  lemma EitherWay(x: Option<Dir>)
    ensures x == None || x == Some(Out) || x == Some(In)
  {
    match x
    case None =>
    case Some(d) => match d case Out => case In =>
  }

  lemma EverySlot(s: Slots)
    ensures s.atOut == None || s.atOut == Some(Out) || s.atOut == Some(In)
    ensures s.atIn == None || s.atIn == Some(Out) || s.atIn == Some(In)
    ensures s.onRecord == None || s.onRecord == Some(Out) || s.onRecord == Some(In)
  {
    EitherWay(s.atOut);
    EitherWay(s.atIn);
    EitherWay(s.onRecord);
  }

  /** An end as far as its two connections go. */
  datatype Shape = Shape(slots: Slots, outPhase: Phase, inPhase: Phase, wired: bool)
  {
    function PhaseOf(d: Dir): Phase {
      if d.Out? then outPhase else inPhase
    }

    function Set(d: Dir, p: Phase): Shape {
      if d.Out? then this.(outPhase := p) else this.(inPhase := p)
    }

    function Hears(d: Dir): bool {
      d.Out? || wired
    }

    /** The connection belongs in the tables and is not there. */
    predicate Missing(d: Dir) {
      PhaseOf(d).Live() && !slots.Has(d)
    }

    /** The tables hold and name only what is under way or open; an address holds a connection other than its own only
        after that has been used again for it. */
    predicate Sound() {
      && inPhase != Connecting && (inPhase.Live() ==> wired)
      && (slots.Has(Out) || slots.onRecord == Some(Out) ==> outPhase.Live() && slots.Has(Out))
      && (slots.Has(In) || slots.onRecord == Some(In) ==> inPhase.Live() && slots.Has(In))
      && (slots.atIn == Some(Out) ==> outPhase in {Open, Ended} && inPhase.Leaving() && slots.atOut == Some(Out))
      && (slots.atOut == Some(In) ==> slots.atIn == Some(In))
      && (outPhase.Live() && inPhase == Absent ==> slots.atOut == slots.onRecord == Some(Out))
      && (inPhase == Open && outPhase != Closed ==> slots.atIn == Some(In) && (outPhase.Live() ==> slots.atOut.Some?))
      && (inPhase == Open && outPhase == Absent ==> slots.onRecord == Some(In))
    }

    /** The connection may be on record for another peer, whose packets have come over it. */
    predicate MayHold(c: Dir) {
      PhaseOf(c) in {Open, Ended, Closed} && (PhaseOf(c) == Open ==> slots.Has(c))
    }
  }

  function ShapeOf(site: Site, e: End): Shape {
    Shape(SlotsOf(site, e.tables), e.outPhase, e.inPhase, e.wired)
  }

  ghost predicate OthersHold(site: Site, e: End) {
    forall k :: k != site.Key() && Lookup(e.tables.peers, k).Some? ==>
      ShapeOf(site, e).MayHold(Lookup(e.tables.peers, k).value)
  }

  ghost predicate EndInv(site: Site, e: End) {
    OnlyThese(site, e.tables) && ShapeOf(site, e).Sound() && OthersHold(site, e)
  }

  function Less(x: Option<Dir>, gone: Option<Dir>): Option<Dir> {
    if x == gone then None else x
  }

  /** What is on record for other peers is the same but for the connection that is gone, if any. */
  ghost predicate RecordsLess(site: Site, t: Tables<Dir>, r: Tables<Dir>, gone: Option<Dir>) {
    forall k :: k != site.Key() ==> Lookup(r.peers, k) == Less(Lookup(t.peers, k), gone)
  }

  lemma OthersStay(site: Site, e: End, r: End, gone: Option<Dir>)
    requires OthersHold(site, e) && RecordsLess(site, e.tables, r.tables, gone)
    requires forall c :: Some(c) != gone && ShapeOf(site, e).MayHold(c) ==> ShapeOf(site, r).MayHold(c)
    ensures OthersHold(site, r)
  {
    forall k | k != site.Key() && Lookup(r.tables.peers, k).Some?
      ensures ShapeOf(site, r).MayHold(Lookup(r.tables.peers, k).value)
    {
      assert Lookup(r.tables.peers, k) == Less(Lookup(e.tables.peers, k), gone);
      assert ShapeOf(site, e).MayHold(Lookup(e.tables.peers, k).value);
    }
  }

  // ---- what an end does ----

  function Search(site: Site, e: End, d: Dir): Option<Dir>
    requires site.Valid() && e.tables.Valid()
  {
    BothKnown(site, e);
    Find(e.tables, InfoOf(site, e), site.cfg, site.AddressOf(d))
  }

  /** `connect_peer` for the address of `d`: uses again what the search finds, and opens a connection otherwise. */
  function Connect(site: Site, e: End, d: Dir): End
    requires site.Valid() && e.tables.Valid()
  {
    var address := site.AddressOf(d);
    match Search(site, e, d)
    case Some(existing) =>
      e.(tables := Register(e.tables, address, PeerKey(site.cfg.discovered, address), existing))
    case None =>
      if |e.tables.conns.keys| >= site.cfg.maxConnections then e
      else e.(tables := Register(e.tables, address, PeerKey(site.cfg.discovered, address), Out), outPhase := Connecting)
  }

  /** A connection is scheduled to be closed. */
  function Drop(e: End, dropped: Option<Dir>): End {
    match dropped
    case None => e
    case Some(d) => e.Set(d, Closing)
  }

  /** The server accepts the other end's connection; one turned down at once is never wired up. */
  function Accept(site: Site, e: End): End
    requires site.Valid() && e.tables.Valid()
  {
    var met := e.(inPhase := Open);
    BothKnown(site, met);
    var v := Inbound(e.tables, InfoOf(site, met), site.cfg, In);
    Drop(met.(tables := v.tables, wired := v.dropped != Some(In)), v.dropped)
  }

  /** A packet arrives over `d`, from the other end or passed on by it. */
  function Receive(site: Site, e: End, d: Dir, sender: string): End
    requires site.Valid() && e.tables.Valid()
  {
    BothKnown(site, e);
    var v := Packet(e.tables, InfoOf(site, e), site.cfg, sender, site.AddressOf(d));
    Drop(e.(tables := v.tables), v.dropped)
  }

  /** The close of `d` starts, because the other end has closed or as scheduled. */
  function Ending(e: End, d: Dir): End {
    e.Set(d, if e.PhaseOf(d) == Open then Ended else Shutting)
  }

  /** The callback at the end of the close. */
  function Close(site: Site, e: End, d: Dir): End
    requires e.tables.Valid()
  {
    e.Set(d, Closed).(tables := if e.Hears(d) then Disconnected(e.tables, site.AddressOf(d)) else e.tables)
  }

  // ---- the same in terms of shapes ----

  /** A packet that shows there are two connections: both are open, this one is in its place and the other on record for
      the sender. */
  predicate Reveals(s: Shape, d: Dir, record: Option<Dir>) {
    s.PhaseOf(d) == Open && s.PhaseOf(Flip(d)) == Open && s.slots.At(d) == Some(d) && record == Some(Flip(d))
  }

  /** Which of the two goes. */
  function Loser(keepsOut: bool): Dir {
    if keepsOut then In else Out
  }

  function ShapeAccept(keepsOut: bool, s: Shape): Shape {
    if s.outPhase != Open then s.(slots := s.slots.Put(In, In), inPhase := Open, wired := true)
    else if keepsOut then s.(inPhase := Closing, wired := false)
    else s.(slots := s.slots.Without(Out).Put(In, In), outPhase := Closing, inPhase := Open, wired := true)
  }

  /** `own`: the sender is the other end itself. */
  function ShapeReceive(keepsOut: bool, own: bool, s: Shape, d: Dir, record: Option<Dir>): Shape {
    match s.slots.At(d)
    case None => s
    case Some(c) =>
      if !s.PhaseOf(c).Ready() then s
      else if Reveals(s, d, record) then
        var left := s.slots.Without(Loser(keepsOut));
        s.Set(Loser(keepsOut), Closing).(slots := if own then left.(onRecord := Some(Flip(Loser(keepsOut)))) else left)
      else if own then s.(slots := s.slots.(onRecord := Some(c)))
      else s
  }

  /** What is on record for the sender afterwards. */
  function RecordAfter(keepsOut: bool, s: Shape, d: Dir, record: Option<Dir>): Option<Dir> {
    match s.slots.At(d)
    case None => record
    case Some(c) =>
      if !s.PhaseOf(c).Ready() then record
      else if Reveals(s, d, record) then Some(Flip(Loser(keepsOut)))
      else Some(c)
  }

  function ShapeEnding(s: Shape, d: Dir): Shape {
    s.Set(d, if s.PhaseOf(d) == Open then Ended else Shutting)
  }

  function ShapeClose(s: Shape, d: Dir): Shape {
    var left := match s.slots.At(d) case None => s.slots case Some(c) => s.slots.Without(c);
    s.Set(d, Closed).(slots := if s.Hears(d) then left else s.slots)
  }

  // What is gone from all tables after each of these.

  function AcceptGone(keepsOut: bool, s: Shape): Option<Dir> {
    if s.outPhase == Open && !keepsOut then Some(Out) else None
  }

  function ReceiveGone(keepsOut: bool, s: Shape, d: Dir, record: Option<Dir>): Option<Dir> {
    if s.slots.At(d).Some? && s.PhaseOf(s.slots.At(d).value).Ready() && Reveals(s, d, record) then Some(Loser(keepsOut))
    else None
  }

  function CloseGone(s: Shape, d: Dir): Option<Dir> {
    if s.Hears(d) then s.slots.At(d) else None
  }

  lemma RegisterSlots(site: Site, t: Tables<Dir>, d: Dir, c: Dir)
    requires site.Valid() && OnlyThese(site, t)
    ensures var r := Register(t, site.AddressOf(d), site.Key(), c);
            && OnlyThese(site, r) && SlotsOf(site, r) == SlotsOf(site, t).Put(d, c)
            && RecordsLess(site, t, r, None)
  {
    RegisterValid(t, site.AddressOf(d), site.Key(), c);
  }

  lemma RemoveSlots(site: Site, t: Tables<Dir>, c: Dir)
    requires OnlyThese(site, t)
    ensures OnlyThese(site, Remove(t, c)) && SlotsOf(site, Remove(t, c)) == SlotsOf(site, t).Without(c)
    ensures RecordsLess(site, t, Remove(t, c), Some(c))
  {
    RemovedEverywhere(t, c);
  }

  // ---- the search ----

  /** What the search by IP finds is in the table and ready. */
  lemma {:induction false} ByIpFinds(site: Site, t: Tables<Dir>, info: map<Dir, ConnInfo>, ip: string, i: nat)
    requires OnlyThese(site, t) && t.Covered(info) && i <= |t.conns.keys|
    ensures var r := ReadyByIp(t, info, ip, i); r.Some? ==> SlotsOf(site, t).Has(r.value)
    decreases |t.conns.keys| - i
  {
    if i < |t.conns.keys| {
      assert t.conns.keys[i] in t.conns.vals;
      ByIpFinds(site, t, info, ip, i + 1);
    }
  }

  /** The search prefers what is at the address, then what is on record, and finds only what is ready and known. */
  ghost predicate Finds(s: Shape, d: Dir, found: Option<Dir>) {
    && (found.Some? ==> s.PhaseOf(found.value).Ready() && (s.slots.Has(found.value) || s.slots.onRecord == found))
    && (s.slots.At(d).Some? && s.PhaseOf(s.slots.At(d).value).Ready() ==> found == s.slots.At(d))
    && (s.slots.At(d).None? || !s.PhaseOf(s.slots.At(d).value).Ready() ==>
          s.slots.onRecord.Some? && s.PhaseOf(s.slots.onRecord.value).Ready() ==> found == s.slots.onRecord)
  }

  lemma FindFinds(site: Site, e: End, d: Dir)
    requires site.Valid() && OnlyThese(site, e.tables) && e.tables.Covered(InfoOf(site, e))
    ensures Finds(ShapeOf(site, e), d, Find(e.tables, InfoOf(site, e), site.cfg, site.AddressOf(d)))
  {
    var info := InfoOf(site, e);
    forall c: Dir ensures c in info && info[c].isReady == e.PhaseOf(c).Ready() {
      match c case Out => case In =>
    }
    ByIpFinds(site, e.tables, info, IpOf(site.AddressOf(d)), 0);
  }

  // ---- every operation of one end keeps its tables in order ----

  lemma AtMostOne(keys: seq<string>, a: string)
    requires Distinct(keys) && forall k :: k in keys ==> k == a
    ensures |keys| <= 1
  {
    DistinctSize(keys);
    assert {a} == ToSet(keys) + ({a} - ToSet(keys));
  }

  /** Nothing is at the address of the connection to accept: there is room. */
  lemma FewKeys(site: Site, t: Tables<Dir>)
    requires OnlyThese(site, t) && SlotsOf(site, t).atIn == None
    ensures |t.conns.keys| <= 1
  {
    AtMostOne(t.conns.keys, site.outAddress);
  }

  /** `connect_peer`, where it uses a connection again, or opens the first one. */
  ghost predicate CanConnect(site: Site, e: End, d: Dir) {
    && site.Valid() && e.tables.Valid()
    && (Search(site, e, d).None? ==> d == Out && e.outPhase == Absent)
    && (d == In ==> e.inPhase != Absent)
  }

  function ShapeConnect(s: Shape, d: Dir, found: Option<Dir>): Shape {
    match found
    case Some(c) => s.(slots := s.slots.Put(d, c))
    case None => s.(slots := s.slots.Put(Out, Out), outPhase := Connecting)
  }

  lemma ConnectSound(s: Shape, d: Dir, found: Option<Dir>)
    requires s.Sound() && Finds(s, d, found) && (found.None? ==> d == Out && s.outPhase == Absent)
    requires d == In ==> s.inPhase != Absent
    ensures ShapeConnect(s, d, found).Sound()
    ensures forall c :: s.MayHold(c) ==> ShapeConnect(s, d, found).MayHold(c)
  {
    EverySlot(s.slots);
  }

  lemma ConnectShapes(site: Site, e: End, d: Dir)
    requires EndInv(site, e) && CanConnect(site, e, d) && (e.outPhase == Absent ==> e.inPhase != Ended)
    ensures OnlyThese(site, Connect(site, e, d).tables)
    ensures ShapeOf(site, Connect(site, e, d)) == ShapeConnect(ShapeOf(site, e), d, Search(site, e, d))
    ensures Finds(ShapeOf(site, e), d, Search(site, e, d))
    ensures RecordsLess(site, e.tables, Connect(site, e, d).tables, None)
  {
    BothKnown(site, e);
    FindFinds(site, e, d);
    match Search(site, e, d)
    case Some(c) =>
      RegisterSlots(site, e.tables, d, c);
    case None =>
      EverySlot(SlotsOf(site, e.tables));
      FewKeys(site, e.tables);
      RegisterSlots(site, e.tables, Out, Out);
  }

  /** Connecting opens a connection if the search finds none, and uses again what it finds. (The other end closes none
      before this one has opened one.) */
  lemma ConnectKeeps(site: Site, e: End, d: Dir)
    requires EndInv(site, e) && CanConnect(site, e, d) && (e.outPhase == Absent ==> e.inPhase != Ended)
    ensures EndInv(site, Connect(site, e, d))
    ensures ShapeOf(site, Connect(site, e, d)) == ShapeConnect(ShapeOf(site, e), d, Search(site, e, d))
    ensures Finds(ShapeOf(site, e), d, Search(site, e, d))
    ensures RecordsLess(site, e.tables, Connect(site, e, d).tables, None)
  {
    ConnectShapes(site, e, d);
    ConnectSound(ShapeOf(site, e), d, Search(site, e, d));
    OthersStay(site, e, Connect(site, e, d), None);
  }

  lemma EstablishKeeps(site: Site, e: End)
    requires EndInv(site, e) && e.outPhase == Connecting
    ensures EndInv(site, e.(outPhase := Open))
    ensures RecordsLess(site, e.tables, e.tables, None)
  {
    EverySlot(SlotsOf(site, e.tables));
    OthersStay(site, e, e.(outPhase := Open), None);
  }

  lemma EndingSound(s: Shape, d: Dir)
    requires s.Sound() && (s.PhaseOf(d) == Open || s.PhaseOf(d) == Closing)
    ensures ShapeEnding(s, d).Sound()
    ensures forall c :: s.MayHold(c) ==> ShapeEnding(s, d).MayHold(c)
  {
    EverySlot(s.slots);
  }

  /** The other end has closed, or a close that was scheduled starts: from here on the connection is not ready. */
  lemma EndingKeeps(site: Site, e: End, d: Dir)
    requires EndInv(site, e) && (e.PhaseOf(d) == Open || e.PhaseOf(d) == Closing)
    ensures EndInv(site, Ending(e, d)) && ShapeOf(site, Ending(e, d)) == ShapeEnding(ShapeOf(site, e), d)
    ensures RecordsLess(site, e.tables, Ending(e, d).tables, None)
  {
    EndingSound(ShapeOf(site, e), d);
    OthersStay(site, e, Ending(e, d), None);
  }

  lemma RemoteIdOfKey(site: Site, address: string)
    requires site.Valid()
    ensures RemoteId(site.Key(), address) == site.remoteId
  {
    assert "peer:" <= site.Key();
  }

  lemma AcceptSound(keepsOut: bool, s: Shape)
    requires s.Sound() && s.inPhase == Absent
    ensures ShapeAccept(keepsOut, s).Sound()
    ensures forall c :: s.MayHold(c) && Some(c) != AcceptGone(keepsOut, s) ==> ShapeAccept(keepsOut, s).MayHold(c)
  {
    EverySlot(s.slots);
  }

  /** Before the other end's connection is accepted, the search finds the own one once that is open. */
  lemma FindsOwn(site: Site, e: End)
    requires site.Valid() && EndInv(site, e) && e.inPhase == Absent
    ensures var met := e.(inPhase := Open);
            && met.tables.Covered(InfoOf(site, met))
            && Find(met.tables, InfoOf(site, met), site.cfg, site.inAddress)
               == if e.outPhase == Open then Some(Out) else None
  {
    var met := e.(inPhase := Open);
    BothKnown(site, met);
    EverySlot(SlotsOf(site, e.tables));
    FindFinds(site, met, In);
  }

  /** Accepting while the own connection is not open. */
  lemma AcceptAlone(site: Site, e: End)
    requires site.Valid() && EndInv(site, e) && e.inPhase == Absent && e.outPhase != Open
    ensures Accept(site, e)
            == e.(tables := Register(e.tables, site.inAddress, site.Key(), In), inPhase := Open, wired := true)
  {
    EverySlot(SlotsOf(site, e.tables));
    FewKeys(site, e.tables);
    FindsOwn(site, e);
  }

  /** Accepting while the own connection is open. */
  lemma AcceptBeside(site: Site, e: End)
    requires site.Valid() && EndInv(site, e) && e.inPhase == Absent && e.outPhase == Open
    ensures Accept(site, e)
            == if site.KeepsOut() then e.(inPhase := Closing, wired := false)
               else e.(tables := Register(Remove(e.tables, Out), site.inAddress, site.Key(), In),
                       outPhase := Closing, inPhase := Open, wired := true)
  {
    EverySlot(SlotsOf(site, e.tables));
    FewKeys(site, e.tables);
    FindsOwn(site, e);
    RemoteIdOfKey(site, site.inAddress);
  }

  lemma AcceptShapes(site: Site, e: End)
    requires site.Valid() && EndInv(site, e) && e.inPhase == Absent
    ensures OnlyThese(site, Accept(site, e).tables)
    ensures ShapeOf(site, Accept(site, e)) == ShapeAccept(site.KeepsOut(), ShapeOf(site, e))
    ensures RecordsLess(site, e.tables, Accept(site, e).tables, AcceptGone(site.KeepsOut(), ShapeOf(site, e)))
  {
    if e.outPhase != Open {
      AcceptAlone(site, e);
      RegisterSlots(site, e.tables, In, In);
    } else {
      AcceptBeside(site, e);
      RemoveSlots(site, e.tables, Out);
      RegisterSlots(site, Remove(e.tables, Out), In, In);
    }
  }

  /** Accepting: if the own connection is open, one of the two is dropped, by the order of the ids. */
  lemma AcceptKeeps(site: Site, e: End)
    requires site.Valid() && EndInv(site, e) && e.inPhase == Absent
    ensures EndInv(site, Accept(site, e))
    ensures ShapeOf(site, Accept(site, e)) == ShapeAccept(site.KeepsOut(), ShapeOf(site, e))
    ensures RecordsLess(site, e.tables, Accept(site, e).tables, AcceptGone(site.KeepsOut(), ShapeOf(site, e)))
  {
    AcceptShapes(site, e);
    AcceptSound(site.KeepsOut(), ShapeOf(site, e));
    OthersStay(site, e, Accept(site, e), AcceptGone(site.KeepsOut(), ShapeOf(site, e)));
  }

  lemma ReceiveSound(keepsOut: bool, own: bool, s: Shape, d: Dir, record: Option<Dir>)
    requires s.Sound() && s.PhaseOf(d).Reads() && s.Hears(d)
    requires if own then record == s.slots.onRecord else record.Some? ==> s.MayHold(record.value)
    ensures var r := ShapeReceive(keepsOut, own, s, d, record);
            && r.Sound()
            && (forall c :: s.MayHold(c) && Some(c) != ReceiveGone(keepsOut, s, d, record) ==> r.MayHold(c))
            && (!own ==> var after := RecordAfter(keepsOut, s, d, record); after.Some? ==> r.MayHold(after.value))
  {
    EverySlot(s.slots);
    EitherWay(record);
  }

  function WithPeer(t: Tables<Dir>, key: string, d: Dir): Tables<Dir> {
    t.(peers := t.peers.Put(key, d))
  }

  /** What a record that is put in does. */
  lemma PeerSlots(site: Site, t: Tables<Dir>, key: string, d: Dir)
    requires OnlyThese(site, t)
    ensures var r := WithPeer(t, key, d);
            && OnlyThese(site, r)
            && SlotsOf(site, r)
               == (if key == site.Key() then SlotsOf(site, t).(onRecord := Some(d)) else SlotsOf(site, t))
            && Lookup(r.peers, key) == Some(d) && forall k :: k != key ==> Lookup(r.peers, k) == Lookup(t.peers, k)
  {
    t.peers.PutValid(key, d);
  }

  function Noted(site: Site, e: End, d: Dir, sender: string): Tables<Dir> {
    e.tables.(keys := e.tables.keys[site.AddressOf(d) := KeyOf(sender)])
  }

  /** What is on record for the sender, and whether that is the other end. */
  function RecordOf(e: End, sender: string): Option<Dir> {
    Lookup(e.tables.peers, KeyOf(sender))
  }

  predicate IsOwn(site: Site, sender: string) {
    KeyOf(sender) == site.Key()
  }

  lemma RecordHolds(site: Site, e: End, sender: string)
    requires EndInv(site, e)
    ensures var s, record := ShapeOf(site, e), RecordOf(e, sender);
            if IsOwn(site, sender) then record == s.slots.onRecord else record.Some? ==> s.MayHold(record.value)
  {}

  /** What `_handle_packet_received` comes down to. */
  lemma ReceiveIs(site: Site, e: End, d: Dir, sender: string)
    requires site.Valid() && EndInv(site, e) && e.PhaseOf(d).Reads() && e.Hears(d)
    ensures Noted(site, e, d, sender).Valid()
    ensures var s, noted := ShapeOf(site, e), Noted(site, e, d, sender);
            var loser := Loser(site.KeepsOutFor(sender, d));
            Receive(site, e, d, sender)
            == match s.slots.At(d)
               case None => e.(tables := noted)
               case Some(c) =>
                 if !s.PhaseOf(c).Ready() then e.(tables := noted)
                 else if Reveals(s, d, RecordOf(e, sender)) then
                   e.Set(loser, Closing).(tables := WithPeer(Remove(noted, loser), KeyOf(sender), Flip(loser)))
                 else e.(tables := WithPeer(noted, KeyOf(sender), c))
  {
    BothKnown(site, e);
    EverySlot(SlotsOf(site, e.tables));
    RecordHolds(site, e, sender);
    EitherWay(RecordOf(e, sender));
  }

  /** What the packet does to the records: the sender's is the connection it came over or the one that stays, the others
      lose the one that goes. */
  ghost predicate RecordsMove(site: Site, e: End, r: End, d: Dir, sender: string) {
    var keepsOut, s, record := site.KeepsOutFor(sender, d), ShapeOf(site, e), RecordOf(e, sender);
    && RecordOf(r, sender) == RecordAfter(keepsOut, s, d, record)
    && forall k :: k != site.Key() && k != KeyOf(sender) ==>
         Lookup(r.tables.peers, k) == Less(Lookup(e.tables.peers, k), ReceiveGone(keepsOut, s, d, record))
  }

  lemma ReceiveShapes(site: Site, e: End, d: Dir, sender: string)
    requires site.Valid() && EndInv(site, e) && e.PhaseOf(d).Reads() && e.Hears(d)
    ensures var r := Receive(site, e, d, sender);
            && OnlyThese(site, r.tables) && RecordsMove(site, e, r, d, sender)
            && ShapeOf(site, r) == ShapeReceive(site.KeepsOutFor(sender, d), IsOwn(site, sender), ShapeOf(site, e), d,
                                                RecordOf(e, sender))
  {
    var loser, noted := Loser(site.KeepsOutFor(sender, d)), Noted(site, e, d, sender);
    ReceiveIs(site, e, d, sender);
    match ShapeOf(site, e).slots.At(d)
    case None =>
    case Some(c) =>
      RemoveSlots(site, noted, loser);
      PeerSlots(site, Remove(noted, loser), KeyOf(sender), Flip(loser));
      PeerSlots(site, noted, KeyOf(sender), c);
  }

  /** A packet over a connection that is not the one on record for its sender, while the tables hold both and both are
      open, makes the end drop one of them, by the order of its own id and the sender's; no other packet does. */
  lemma ReceiveKeeps(site: Site, e: End, d: Dir, sender: string)
    requires site.Valid() && EndInv(site, e) && e.PhaseOf(d).Reads() && e.Hears(d)
    ensures var r := Receive(site, e, d, sender);
            && EndInv(site, r) && RecordsMove(site, e, r, d, sender)
            && ShapeOf(site, r) == ShapeReceive(site.KeepsOutFor(sender, d), IsOwn(site, sender), ShapeOf(site, e), d,
                                                RecordOf(e, sender))
  {
    ReceiveShapes(site, e, d, sender);
    RecordHolds(site, e, sender);
    ReceiveSound(site.KeepsOutFor(sender, d), IsOwn(site, sender), ShapeOf(site, e), d, RecordOf(e, sender));
    OthersStayBut(site, e, Receive(site, e, d, sender), d, sender);
  }

  lemma OthersStayBut(site: Site, e: End, r: End, d: Dir, sender: string)
    requires OthersHold(site, e) && RecordsMove(site, e, r, d, sender)
    requires var gone := ReceiveGone(site.KeepsOutFor(sender, d), ShapeOf(site, e), d, RecordOf(e, sender));
             forall c :: ShapeOf(site, e).MayHold(c) && Some(c) != gone ==> ShapeOf(site, r).MayHold(c)
    requires !IsOwn(site, sender) && RecordOf(r, sender).Some? ==> ShapeOf(site, r).MayHold(RecordOf(r, sender).value)
    ensures OthersHold(site, r)
  {
    forall k | k != site.Key() && Lookup(r.tables.peers, k).Some?
      ensures ShapeOf(site, r).MayHold(Lookup(r.tables.peers, k).value)
    {
      if k != KeyOf(sender) {
        assert ShapeOf(site, e).MayHold(Lookup(e.tables.peers, k).value);
      }
    }
  }

  /** The right order is kept for the other end's own packets. */
  lemma OwnIsRight(site: Site, sender: string, d: Dir)
    requires site.Valid() && IsOwn(site, sender)
    ensures site.KeepsOutFor(sender, d) <==> site.KeepsOut()
  {
    assert KeyOf(sender)[5..] == Lower(sender) && site.Key()[5..] == Lower(site.remoteId);
  }

  lemma CloseSound(s: Shape, d: Dir)
    requires s.Sound() && s.PhaseOf(d).Finishing()
    ensures ShapeClose(s, d).Sound()
    ensures forall c :: s.MayHold(c) && Some(c) != CloseGone(s, d) ==> ShapeClose(s, d).MayHold(c)
  {
    EverySlot(s.slots);
  }

  lemma CloseShapes(site: Site, e: End, d: Dir)
    requires site.Valid() && EndInv(site, e)
    ensures OnlyThese(site, Close(site, e, d).tables)
    ensures ShapeOf(site, Close(site, e, d)) == ShapeClose(ShapeOf(site, e), d)
    ensures RecordsLess(site, e.tables, Close(site, e, d).tables, CloseGone(ShapeOf(site, e), d))
    ensures e.Hears(d) ==> site.AddressOf(d) !in Close(site, e, d).tables.keys
  {
    match ShapeOf(site, e).slots.At(d)
    case None =>
    case Some(c) =>
      RemoveSlots(site, e.tables, c);
      RemovedEverywhere(e.tables, c);
  }

  /** The close callback takes out of the tables whatever is at the address of the connection that closed. */
  lemma CloseKeeps(site: Site, e: End, d: Dir)
    requires site.Valid() && EndInv(site, e) && e.PhaseOf(d).Finishing()
    ensures EndInv(site, Close(site, e, d))
    ensures ShapeOf(site, Close(site, e, d)) == ShapeClose(ShapeOf(site, e), d)
    ensures RecordsLess(site, e.tables, Close(site, e, d).tables, CloseGone(ShapeOf(site, e), d))
    ensures e.Hears(d) ==> site.AddressOf(d) !in Close(site, e, d).tables.keys
  {
    CloseShapes(site, e, d);
    CloseSound(ShapeOf(site, e), d);
    OthersStay(site, e, Close(site, e, d), CloseGone(ShapeOf(site, e), d));
  }

  /** A connection that this end has dropped, or that is closed, is at no address and not on record for its peer, and
      one that is being dropped is not on record for anybody. */
  lemma ClosedIsForgotten(site: Site, e: End, d: Dir)
    requires EndInv(site, e) && e.PhaseOf(d).Dropped()
    ensures forall a :: a in e.tables.conns.vals ==> e.tables.conns.vals[a] != d
    ensures forall k :: k in e.tables.peers.vals && (k == site.Key() || e.PhaseOf(d) != Closed) ==>
            e.tables.peers.vals[k] != d
  {
    EitherWay(Some(d));
    forall k | k in e.tables.peers.vals && (k == site.Key() || e.PhaseOf(d) != Closed)
      ensures e.tables.peers.vals[k] != d
    {
      assert Lookup(e.tables.peers, k) == Some(e.tables.peers.vals[k]);
    }
  }
}
