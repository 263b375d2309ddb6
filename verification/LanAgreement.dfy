/** Both ends together: in every interleaving of two crossed connections the ends settle on the same open connections;
    exactly when either is dropped, and exactly when one that stays open falls out of an end's tables
    (src/bitchat/network/transport.py:123-159, 187-256, 263-318, 486-574, connection.py:103-157, 194-222). */
module LanAgreement {
  import opened Wrappers
  import opened OrderedDicts
  import opened Hex
  import opened LanTransport
  import opened LanCrossing

  datatype Who = Low | High

  function Other(w: Who): Who {
    if w.Low? then High else Low
  }

  datatype Sites = Sites(low: Site, high: Site)
  {
    function Of(w: Who): Site {
      if w.Low? then low else high
    }

    /** Each has discovered the other, and `low` has the smaller id. */
    ghost predicate Valid() {
      && low.Valid() && high.Valid()
      && low.cfg.localId == high.remoteId && high.cfg.localId == low.remoteId
      && TextLess(low.cfg.localId, high.cfg.localId)
    }
  }

  /** What one end opened, the other accepts. */
  datatype System = System(low: End, high: End)
  {
    function Of(w: Who): End {
      if w.Low? then low else high
    }

    function With(w: Who, e: End): System {
      if w.Low? then this.(low := e) else this.(high := e)
    }
  }

  const EMPTY_SHAPE := Shape(Slots(None, None, None), Absent, Absent, false)

  const START := System(EMPTY_END, EMPTY_END)

  datatype Event =
    | Connects(who: Who, dir: Dir)                  // connect_peer is called for the connection's address, at any time
    | Establishes(who: Who)                         // the connection it opened is up
    | Accepts(who: Who)                             // the server accepts the other end's connection
    | Receives(who: Who, dir: Dir, sender: string)  // a packet arrives, by whomever it was sent
    | HearsEnd(who: Who, dir: Dir)                  // the other end has closed: the close starts
    | ShutsDown(who: Who, dir: Dir)                 // the scheduled close starts
    | Closes(who: Who, dir: Dir)                    // the close has run, down to the callback

  ghost predicate Enabled(sites: Sites, sys: System, ev: Event) {
    var e, o := sys.Of(ev.who), sys.Of(Other(ev.who));
    match ev
    case Connects(w, d) => CanConnect(sites.Of(w), e, d)
    case Establishes(_) => e.outPhase == Connecting
    case Accepts(_) => e.inPhase == Absent && o.outPhase != Absent
    case Receives(_, d, _) => e.PhaseOf(d).Reads() && e.Hears(d)
    case HearsEnd(_, d) => e.PhaseOf(d) == Open && o.PhaseOf(Flip(d)) in {Shutting, Closed}
    case ShutsDown(_, d) => e.PhaseOf(d) == Closing
    case Closes(_, d) => e.PhaseOf(d).Finishing()
  }

  /** What the event does to the end where it happens. */
  function Happens(site: Site, e: End, ev: Event): End
    requires site.Valid() && e.tables.Valid()
  {
    match ev
    case Connects(_, d) => Connect(site, e, d)
    case Establishes(_) => e.(outPhase := Open)
    case Accepts(_) => Accept(site, e)
    case Receives(_, d, sender) => Receive(site, e, d, sender)
    case HearsEnd(_, d) => Ending(e, d)
    case ShutsDown(_, d) => Ending(e, d)
    case Closes(_, d) => Close(site, e, d)
  }

  function Next(sites: Sites, sys: System, ev: Event): System
    requires sites.Of(ev.who).Valid() && sys.Of(ev.who).tables.Valid()
  {
    sys.With(ev.who, Happens(sites.Of(ev.who), sys.Of(ev.who), ev))
  }

  // ---- one end over an event ----

  /** An event at an end and what it depends on besides the shape: what the search finds, or what is on record for the
      sender of a packet; whether the end is to keep what it opened, if it has to choose; and whether the sender is the
      other end. */
  datatype EndStep = EndStep(ev: Event, found: Option<Dir>, keepsOut: bool, own: bool)

  function StepOf(site: Site, e: End, ev: Event): EndStep
    requires site.Valid() && e.tables.Valid()
  {
    match ev
    case Connects(_, d) => EndStep(ev, Search(site, e, d), site.KeepsOut(), true)
    case Receives(_, d, sender) => EndStep(ev, RecordOf(e, sender), site.KeepsOutFor(sender, d), IsOwn(site, sender))
    case _ => EndStep(ev, None, site.KeepsOut(), true)
  }

  function ShapeAfter(s: Shape, x: EndStep): Shape {
    match x.ev
    case Connects(_, d) => ShapeConnect(s, d, x.found)
    case Establishes(_) => s.(outPhase := Open)
    case Accepts(_) => ShapeAccept(x.keepsOut, s)
    case Receives(_, d, _) => ShapeReceive(x.keepsOut, x.own, s, d, x.found)
    case HearsEnd(_, d) => ShapeEnding(s, d)
    case ShutsDown(_, d) => ShapeEnding(s, d)
    case Closes(_, d) => ShapeClose(s, d)
  }

  /** What an event finds an end like. */
  ghost predicate Fit(s: Shape, x: EndStep) {
    && s.Sound()
    && match x.ev
       case Connects(_, d) =>
         && Finds(s, d, x.found) && (x.found.None? ==> d == Out && s.outPhase == Absent)
         && (d == In ==> s.inPhase != Absent)
       case Establishes(_) => s.outPhase == Connecting
       case Accepts(_) => s.inPhase == Absent
       case Receives(_, d, _) =>
         && s.PhaseOf(d).Reads() && s.Hears(d)
         && if x.own then x.found == s.slots.onRecord else x.found.Some? ==> s.MayHold(x.found.value)
       case HearsEnd(_, d) => s.PhaseOf(d) == Open
       case ShutsDown(_, d) => s.PhaseOf(d) == Closing
       case Closes(_, d) => s.PhaseOf(d).Finishing()
  }

  /** Every event keeps the tables of its end in order and changes the end as it should. */
  lemma HappensKeeps(sites: Sites, sys: System, ev: Event)
    requires sites.Of(ev.who).Valid() && EndInv(sites.Of(ev.who), sys.Of(ev.who)) && Safe(sys)
    requires Enabled(sites, sys, ev)
    ensures var site, e := sites.Of(ev.who), sys.Of(ev.who);
            var r, x := Happens(site, e, ev), StepOf(site, e, ev);
            EndInv(site, r) && Fit(ShapeOf(site, e), x) && ShapeOf(site, r) == ShapeAfter(ShapeOf(site, e), x)
  {
    var site, e := sites.Of(ev.who), sys.Of(ev.who);
    match ev
    case Connects(_, d) => ConnectKeeps(site, e, d);
    case Establishes(_) => EstablishKeeps(site, e);
    case Accepts(_) => AcceptKeeps(site, e);
    case Receives(_, d, sender) => ReceiveHappens(sites, sys, ev);
    case HearsEnd(_, d) => EndingKeeps(site, e, d);
    case ShutsDown(_, d) => EndingKeeps(site, e, d);
    case Closes(_, d) => CloseKeeps(site, e, d);
  }

  lemma ReceiveHappens(sites: Sites, sys: System, ev: Event)
    requires sites.Of(ev.who).Valid() && EndInv(sites.Of(ev.who), sys.Of(ev.who)) && ev.Receives?
    requires Enabled(sites, sys, ev)
    ensures var site, e := sites.Of(ev.who), sys.Of(ev.who);
            var r, x := Happens(site, e, ev), StepOf(site, e, ev);
            EndInv(site, r) && Fit(ShapeOf(site, e), x) && ShapeOf(site, r) == ShapeAfter(ShapeOf(site, e), x)
  {
    var site, e := sites.Of(ev.who), sys.Of(ev.who);
    ReceiveKeeps(site, e, ev.dir, ev.sender);
    RecordHolds(site, e, ev.sender);
  }

  /** The event makes the end choose between its two connections. */
  ghost predicate Chooses(s: Shape, x: EndStep) {
    match x.ev
    case Accepts(_) => s.outPhase == Open
    case Receives(_, d, _) => Reveals(s, d, x.found)
    case _ => false
  }

  /** How the phases of an end move. */
  ghost predicate PhasesMove(s: Shape, r: Shape, x: EndStep) {
    match x.ev
    case Connects(_, _) =>
      r.inPhase == s.inPhase && (r.outPhase == s.outPhase || (s.outPhase == Absent && r.outPhase == Connecting))
    case Establishes(_) => r.inPhase == s.inPhase && r.outPhase == Open
    case Accepts(_) =>
      if !Chooses(s, x) then r.inPhase == Open && r.outPhase == s.outPhase else Chosen(x.keepsOut, s, r)
    case Receives(_, _, _) =>
      if !Chooses(s, x) then r.inPhase == s.inPhase && r.outPhase == s.outPhase else Chosen(x.keepsOut, s, r)
    case HearsEnd(_, d) => r.PhaseOf(d) == Ended && r.PhaseOf(Flip(d)) == s.PhaseOf(Flip(d))
    case ShutsDown(_, d) => r.PhaseOf(d) == Shutting && r.PhaseOf(Flip(d)) == s.PhaseOf(Flip(d))
    case Closes(_, d) => r.PhaseOf(d) == Closed && r.PhaseOf(Flip(d)) == s.PhaseOf(Flip(d))
  }

  ghost predicate Chosen(keepsOut: bool, s: Shape, r: Shape) {
    && s.outPhase == Open && s.inPhase in {Absent, Open}
    && if keepsOut then r.outPhase == Open && r.inPhase == Closing else r.outPhase == Closing && r.inPhase == Open
  }

  lemma ShapesMove(s: Shape, x: EndStep)
    requires Fit(s, x)
    ensures PhasesMove(s, ShapeAfter(s, x), x)
  {
    EverySlot(s.slots);
  }

  // ---- what holds between the ends ----

  /** The connection opened by that end is on its way out at one of the ends. */
  ghost predicate Going(sys: System, opener: Who) {
    sys.Of(opener).outPhase.Leaving() || sys.Of(Other(opener)).inPhase.Leaving()
  }

  /** Only what has been opened can be accepted, and something goes only after both ends have opened. */
  ghost predicate Safe(sys: System) {
    && sys.low.inPhase != Connecting && sys.high.inPhase != Connecting
    && (sys.high.inPhase != Absent ==> sys.low.outPhase != Absent)
    && (sys.low.inPhase != Absent ==> sys.high.outPhase != Absent)
    && (Going(sys, Low) || Going(sys, High) ==> sys.low.outPhase != Absent && sys.high.outPhase != Absent)
  }

  ghost predicate SystemInv(sites: Sites, sys: System) {
    sites.Valid() && EndInv(sites.low, sys.low) && EndInv(sites.high, sys.high) && Safe(sys)
  }

  lemma WhoKeeps(sites: Sites)
    requires sites.Valid()
    ensures sites.low.KeepsOut() && !sites.high.KeepsOut()
  {
    TextOrderTotal(sites.low.cfg.localId, sites.high.cfg.localId);
  }

  /** The event makes the end drop the connection that `opener` opened. */
  ghost predicate Drops(s: Shape, x: EndStep, opener: Who) {
    Chooses(s, x) && opener == (if x.keepsOut then Other(x.ev.who) else x.ev.who)
  }

  /** The event moves the phases of its end, by the shapes `s` before and `r` after, and no other. */
  ghost predicate MovesOneEnd(sys: System, t: System, x: EndStep, s: Shape, r: Shape) {
    && PhasesMove(s, r, x) && t.Of(Other(x.ev.who)) == sys.Of(Other(x.ev.who))
    && sys.Of(x.ev.who).outPhase == s.outPhase && sys.Of(x.ev.who).inPhase == s.inPhase
    && t.Of(x.ev.who).outPhase == r.outPhase && t.Of(x.ev.who).inPhase == r.inPhase
  }

  lemma GoingMoves(sites: Sites, sys: System, t: System, x: EndStep, s: Shape, r: Shape, opener: Who)
    requires Enabled(sites, sys, x.ev) && MovesOneEnd(sys, t, x, s, r)
    ensures Going(t, opener) <==> Going(sys, opener) || Drops(s, x, opener)
  {
    match opener case Low => case High =>
  }

  lemma PhasesStaySafe(sites: Sites, sys: System, t: System, x: EndStep, s: Shape, r: Shape)
    requires Safe(sys) && Enabled(sites, sys, x.ev) && MovesOneEnd(sys, t, x, s, r)
    ensures Safe(t) && forall opener :: Going(t, opener) <==> Going(sys, opener) || Drops(s, x, opener)
  {
    forall opener ensures Going(t, opener) <==> Going(sys, opener) || Drops(s, x, opener) {
      GoingMoves(sites, sys, t, x, s, r, opener);
    }
  }

  lemma OneEndMoves(sites: Sites, sys: System, t: System, x: EndStep)
    requires t == sys.With(x.ev.who, t.Of(x.ev.who))
    requires PhasesMove(ShapeOf(sites.Of(x.ev.who), sys.Of(x.ev.who)), ShapeOf(sites.Of(x.ev.who), t.Of(x.ev.who)), x)
    ensures MovesOneEnd(sys, t, x, ShapeOf(sites.Of(x.ev.who), sys.Of(x.ev.who)),
                        ShapeOf(sites.Of(x.ev.who), t.Of(x.ev.who)))
  {}

  /** What an event does to the system. */
  lemma EventMoves(sites: Sites, sys: System, ev: Event)
    requires SystemInv(sites, sys) && Enabled(sites, sys, ev)
    ensures var t := Next(sites, sys, ev);
            var s, r := ShapeOf(sites.Of(ev.who), sys.Of(ev.who)), ShapeOf(sites.Of(ev.who), t.Of(ev.who));
            var x := StepOf(sites.Of(ev.who), sys.Of(ev.who), ev);
            EndInv(sites.Of(ev.who), t.Of(ev.who)) && MovesOneEnd(sys, t, x, s, r) && Fit(s, x) && r == ShapeAfter(s, x)
  {
    var site, e := sites.Of(ev.who), sys.Of(ev.who);
    HappensKeeps(sites, sys, ev);
    ShapesMove(ShapeOf(site, e), StepOf(site, e, ev));
    assert Next(sites, sys, ev).Of(ev.who) == Happens(site, e, ev);
    OneEndMoves(sites, sys, Next(sites, sys, ev), StepOf(site, e, ev));
  }

  /** What the event is to the end where it happens. */
  ghost predicate DropsAt(sites: Sites, sys: System, ev: Event, opener: Who)
    requires SystemInv(sites, sys)
  {
    var site, e := sites.Of(ev.who), sys.Of(ev.who);
    Drops(ShapeOf(site, e), StepOf(site, e, ev), opener)
  }

  /** Every event at either end keeps the invariant of both. */
  lemma EventKeeps(sites: Sites, sys: System, ev: Event)
    requires SystemInv(sites, sys) && Enabled(sites, sys, ev)
    ensures SystemInv(sites, Next(sites, sys, ev))
    ensures forall opener :: Going(Next(sites, sys, ev), opener) <==>
            Going(sys, opener) || DropsAt(sites, sys, ev, opener)
  {
    var t := Next(sites, sys, ev);
    var site, e := sites.Of(ev.who), sys.Of(ev.who);
    EventMoves(sites, sys, ev);
    PhasesStaySafe(sites, sys, t, StepOf(site, e, ev), ShapeOf(site, e), ShapeOf(site, t.Of(ev.who)));
  }

  lemma StartIsSafe(sites: Sites)
    requires sites.Valid()
    ensures SystemInv(sites, START)
  {}

  // ---- runs ----

  /** Every event can happen in its turn. */
  ghost predicate IsRun(sites: Sites, sys: System, events: seq<Event>)
    requires SystemInv(sites, sys)
    decreases events
  {
    events == [] ||
    (&& Enabled(sites, sys, events[0])
     && (EventKeeps(sites, sys, events[0]); IsRun(sites, Next(sites, sys, events[0]), events[1..])))
  }

  ghost function After(sites: Sites, sys: System, events: seq<Event>): (r: System)
    requires SystemInv(sites, sys) && IsRun(sites, sys, events)
    ensures SystemInv(sites, r)
    decreases events
  {
    if events == [] then sys
    else
      EventKeeps(sites, sys, events[0]);
      After(sites, Next(sites, sys, events[0]), events[1..])
  }

  /** A run from the start. */
  ghost predicate Happened(sites: Sites, events: seq<Event>) {
    sites.Valid() && (StartIsSafe(sites); IsRun(sites, START, events))
  }

  /** Where such a run leads. */
  ghost function AtEnd(sites: Sites, events: seq<Event>): (r: System)
    requires Happened(sites, events)
    ensures SystemInv(sites, r)
  {
    StartIsSafe(sites);
    After(sites, START, events)
  }

  /** Nothing is left to happen but packets and new calls of `connect_peer`. */
  ghost predicate AtRest(sites: Sites, sys: System) {
    forall ev :: Enabled(sites, sys, ev) ==> ev.Connects? || ev.Receives?
  }

  // ---- when a connection is dropped ----

  /** Some event of the run makes its end drop the connection that `opener` opened. */
  ghost predicate SomeoneDrops(sites: Sites, sys: System, events: seq<Event>, opener: Who)
    requires SystemInv(sites, sys) && IsRun(sites, sys, events)
    decreases events
  {
    events != [] &&
    (|| DropsAt(sites, sys, events[0], opener)
     || (EventKeeps(sites, sys, events[0]); SomeoneDrops(sites, Next(sites, sys, events[0]), events[1..], opener)))
  }

  lemma {:induction false} DroppedFrom(sites: Sites, sys: System, events: seq<Event>, opener: Who)
    requires SystemInv(sites, sys) && IsRun(sites, sys, events)
    ensures Going(After(sites, sys, events), opener) <==> Going(sys, opener) || SomeoneDrops(sites, sys, events, opener)
    decreases events
  {
    if events != [] {
      EventKeeps(sites, sys, events[0]);
      DroppedFrom(sites, Next(sites, sys, events[0]), events[1..], opener);
    }
  }

  /** A connection is closed exactly if some end, having to choose, chooses the other one: it accepts the other end's
      connection while its own is open, or gets a packet over one while both are open and in its tables and the other is
      on record for the packet's sender. */
  lemma DroppedExactly(sites: Sites, events: seq<Event>, opener: Who)
    requires Happened(sites, events)
    ensures SystemInv(sites, START) && IsRun(sites, START, events)
    ensures Going(AtEnd(sites, events), opener) <==> SomeoneDrops(sites, START, events, opener)
  {
    StartIsSafe(sites);
    DroppedFrom(sites, START, events, opener);
  }

  /** A packet that somebody else than the other end sent makes the end choose, and the order of its own id and the
      sender's is not that of the two ends' ids. */
  ghost predicate Misleads(sites: Sites, sys: System, ev: Event)
    requires SystemInv(sites, sys)
  {
    && ev.Receives? && !IsOwn(sites.Of(ev.who), ev.sender)
    && Reveals(ShapeOf(sites.Of(ev.who), sys.Of(ev.who)), ev.dir, RecordOf(sys.Of(ev.who), ev.sender))
    && sites.Of(ev.who).KeepsOutFor(ev.sender, ev.dir) != sites.Of(ev.who).KeepsOut()
  }

  ghost predicate SomeoneIsMisled(sites: Sites, sys: System, events: seq<Event>)
    requires SystemInv(sites, sys) && IsRun(sites, sys, events)
    decreases events
  {
    events != [] &&
    (|| Misleads(sites, sys, events[0])
     || (EventKeeps(sites, sys, events[0]); SomeoneIsMisled(sites, Next(sites, sys, events[0]), events[1..])))
  }

  lemma DropsLowersExactly(sites: Sites, sys: System, ev: Event)
    requires SystemInv(sites, sys)
    ensures DropsAt(sites, sys, ev, Low) <==> Misleads(sites, sys, ev)
  {
    WhoKeeps(sites);
    if ev.Receives? && IsOwn(sites.Of(ev.who), ev.sender) {
      OwnIsRight(sites.Of(ev.who), ev.sender, ev.dir);
    }
  }

  lemma {:induction false} MisledFrom(sites: Sites, sys: System, events: seq<Event>)
    requires SystemInv(sites, sys) && IsRun(sites, sys, events)
    ensures SomeoneDrops(sites, sys, events, Low) <==> SomeoneIsMisled(sites, sys, events)
    decreases events
  {
    if events != [] {
      DropsLowersExactly(sites, sys, events[0]);
      EventKeeps(sites, sys, events[0]);
      MisledFrom(sites, Next(sites, sys, events[0]), events[1..]);
    }
  }

  /** Each end has the packets that arrive there from the other end itself, none that was passed on. */
  ghost predicate NothingPassedOn(sites: Sites, events: seq<Event>) {
    forall i :: 0 <= i < |events| && events[i].Receives? ==> IsOwn(sites.Of(events[i].who), events[i].sender)
  }

  lemma {:induction false} NobodyMisled(sites: Sites, sys: System, events: seq<Event>)
    requires SystemInv(sites, sys) && IsRun(sites, sys, events) && NothingPassedOn(sites, events)
    ensures !SomeoneIsMisled(sites, sys, events)
    decreases events
  {
    if events != [] {
      EventKeeps(sites, sys, events[0]);
      NobodyMisled(sites, Next(sites, sys, events[0]), events[1..]);
    }
  }

  /** Safety, over every run: the connection opened by the end with the smaller id is closed exactly if a packet of a
      third sender misleads an end; never, if all packets are the two ends' own. */
  lemma NeverDropsBoth(sites: Sites, events: seq<Event>)
    requires Happened(sites, events)
    ensures SystemInv(sites, START) && IsRun(sites, START, events)
    ensures Going(AtEnd(sites, events), Low) <==> SomeoneIsMisled(sites, START, events)
    ensures NothingPassedOn(sites, events) ==> !Going(AtEnd(sites, events), Low)
  {
    DroppedExactly(sites, events, Low);
    MisledFrom(sites, START, events);
    if NothingPassedOn(sites, events) {
      NobodyMisled(sites, START, events);
    }
  }

  /** Agreement: whatever the interleaving, once nothing is left to happen a connection is open at both ends or at
      neither, and that exactly if it was opened and nobody has dropped it. */
  lemma EndsAgree(sites: Sites, events: seq<Event>, opener: Who)
    requires Happened(sites, events) && AtRest(sites, AtEnd(sites, events))
    ensures SystemInv(sites, START) && IsRun(sites, START, events)
    ensures var sys := AtEnd(sites, events);
            && (sys.Of(opener).outPhase == Open <==> sys.Of(Other(opener)).inPhase == Open)
            && (sys.Of(opener).outPhase == Open <==>
                  sys.Of(opener).outPhase != Absent && !SomeoneDrops(sites, START, events, opener))
  {
    var sys := AtEnd(sites, events);
    assert SystemInv(sites, sys);
    DroppedExactly(sites, events, opener);
    RestPhases(sites, sys, opener);
  }

  lemma RestPhases(sites: Sites, sys: System, opener: Who)
    requires AtRest(sites, sys) && Safe(sys)
    ensures sys.Of(opener).outPhase == Open <==> sys.Of(Other(opener)).inPhase == Open
    ensures sys.Of(opener).outPhase == Open <==> sys.Of(opener).outPhase != Absent && !Going(sys, opener)
  {
    assert !Enabled(sites, sys, Establishes(opener)) && !Enabled(sites, sys, Accepts(Other(opener)));
    assert !Enabled(sites, sys, HearsEnd(opener, Out)) && !Enabled(sites, sys, HearsEnd(Other(opener), In));
    assert !Enabled(sites, sys, ShutsDown(opener, Out)) && !Enabled(sites, sys, ShutsDown(Other(opener), In));
    assert !Enabled(sites, sys, Closes(opener, Out)) && !Enabled(sites, sys, Closes(Other(opener), In));
  }

  // ---- when a connection that is kept falls out of the tables ----

  /** The end has the connection in its table. */
  ghost predicate HasConnection(e: End, d: Dir) {
    exists a :: a in e.tables.conns.vals && e.tables.conns.vals[a] == d
  }

  lemma HasExactlySlots(site: Site, e: End, d: Dir)
    requires OnlyThese(site, e.tables)
    ensures HasConnection(e, d) <==> SlotsOf(site, e.tables).Has(d)
  {}

  /** A call of `connect_peer` for the address of the other connection uses `d` again, while that other one is still
      connecting, or is being closed by either end and will report so. */
  ghost predicate Reuses(s: Shape, x: EndStep, d: Dir) {
    && x.ev.Connects? && x.ev.dir == Flip(d) && x.found == Some(d)
    && s.PhaseOf(Flip(d)) in {Connecting, Ended, Closing, Shutting} && s.Hears(Flip(d))
  }

  /** A call of `connect_peer` for its own address, while `d` is connecting or has been closed by the other end, uses
      the other connection again. */
  ghost predicate Overwrites(s: Shape, x: EndStep, d: Dir) {
    x.ev.Connects? && x.ev.dir == d && x.found == Some(Flip(d)) && s.PhaseOf(d) in {Connecting, Ended}
  }

  /** The end loses track of `d`: by overwriting it while it is not ready, or, `d` having been used again for the
      address of the other connection, by the other one's close callback. */
  ghost predicate LosesNow(s: Shape, x: EndStep, d: Dir, reused: bool) {
    (reused && x.ev.Closes? && x.ev.dir == Flip(d)) || Overwrites(s, x, d)
  }

  /** In the course of these steps the end loses track of `d`; `reused` says that `d` has been used again before. */
  ghost predicate LosesTrack(s: Shape, steps: seq<EndStep>, d: Dir, reused: bool)
    decreases steps
  {
    steps != [] &&
    (|| LosesNow(s, steps[0], d, reused)
     || LosesTrack(ShapeAfter(s, steps[0]), steps[1..], d, reused || Reuses(s, steps[0], d)))
  }

  function ShapeRun(s: Shape, steps: seq<EndStep>): Shape
    decreases steps
  {
    if steps == [] then s else ShapeRun(ShapeAfter(s, steps[0]), steps[1..])
  }

  ghost predicate FitAll(s: Shape, steps: seq<EndStep>)
    decreases steps
  {
    steps == [] || (Fit(s, steps[0]) && FitAll(ShapeAfter(s, steps[0]), steps[1..]))
  }

  /** What an end goes through in an event. */
  function StepsOf(sites: Sites, sys: System, ev: Event, who: Who): seq<EndStep>
    requires sites.Of(who).Valid() && sys.Of(who).tables.Valid()
  {
    if ev.who == who then [StepOf(sites.Of(who), sys.Of(who), ev)] else []
  }

  /** What an end goes through in a run. */
  ghost function History(sites: Sites, sys: System, events: seq<Event>, who: Who): seq<EndStep>
    requires SystemInv(sites, sys) && IsRun(sites, sys, events)
    decreases events
  {
    if events == [] then []
    else
      EventKeeps(sites, sys, events[0]);
      StepsOf(sites, sys, events[0], who)
      + History(sites, Next(sites, sys, events[0]), events[1..], who)
  }

  lemma FirstStep(s: Shape, x: EndStep, rest: seq<EndStep>)
    requires Fit(s, x) && FitAll(ShapeAfter(s, x), rest)
    ensures FitAll(s, [x] + rest) && ShapeRun(s, [x] + rest) == ShapeRun(ShapeAfter(s, x), rest)
  {
    assert ([x] + rest)[1..] == rest;
  }

  /** The steps lead from one shape to the other. */
  ghost predicate Tells(s: Shape, steps: seq<EndStep>, t: Shape) {
    FitAll(s, steps) && ShapeRun(s, steps) == t
  }

  /** One event of the run, at the end or at the other. */
  lemma TellsOn(sites: Sites, sys: System, ev: Event, who: Who, rest: seq<EndStep>, t: Shape)
    requires SystemInv(sites, sys) && Enabled(sites, sys, ev)
    requires Tells(ShapeOf(sites.Of(who), Next(sites, sys, ev).Of(who)), rest, t)
    ensures Tells(ShapeOf(sites.Of(who), sys.Of(who)), StepsOf(sites, sys, ev, who) + rest, t)
  {
    EventMoves(sites, sys, ev);
    if ev.who == who {
      FirstStep(ShapeOf(sites.Of(who), sys.Of(who)), StepOf(sites.Of(who), sys.Of(who), ev), rest);
    } else {
      assert [] + rest == rest;
    }
  }

  /** The history tells how the end changes. */
  lemma {:induction false} HistoryTells(sites: Sites, sys: System, events: seq<Event>, who: Who)
    requires SystemInv(sites, sys) && IsRun(sites, sys, events)
    ensures Tells(ShapeOf(sites.Of(who), sys.Of(who)), History(sites, sys, events, who),
                  ShapeOf(sites.Of(who), After(sites, sys, events).Of(who)))
    decreases events
  {
    if events != [] {
      var t := Next(sites, sys, events[0]);
      EventKeeps(sites, sys, events[0]);
      HistoryTells(sites, t, events[1..], who);
      TellsOn(sites, sys, events[0], who, History(sites, t, events[1..], who),
              ShapeOf(sites.Of(who), After(sites, t, events[1..]).Of(who)));
    }
  }

  /** The address of the other connection holds `d`, and a close callback for it is still to come. */
  ghost predicate Marked(s: Shape, d: Dir) {
    s.slots.At(Flip(d)) == Some(d) && s.PhaseOf(Flip(d)) !in {Absent, Closed} && s.Hears(Flip(d))
  }

  ghost predicate Tracks(s: Shape, d: Dir, reused: bool) {
    && (s.PhaseOf(d) == Absent ==> !reused)
    && (s.PhaseOf(d).Live() && !s.Missing(d) ==> (reused <==> Marked(s, d)))
  }

  /** What an event that turns the end from `s` into `r` does as far as `d` goes. */
  ghost predicate TracksInto(s: Shape, x: EndStep, r: Shape, d: Dir, reused: bool) {
    var loses := LosesNow(s, x, d, reused);
    && (s.PhaseOf(d).Dropped() ==> r.PhaseOf(d).Dropped())
    && (r.PhaseOf(d).Live() ==> (r.Missing(d) <==> s.Missing(d) || loses))
    && (!loses || r.Missing(d) ==> Tracks(r, d, reused || Reuses(s, x, d)))
  }

  lemma TracksConnect(s: Shape, x: EndStep, d: Dir, reused: bool)
    requires x.ev.Connects? && Fit(s, x) && Tracks(s, d, reused)
    ensures TracksInto(s, x, ShapeConnect(s, x.ev.dir, x.found), d, reused)
  {
    EverySlot(s.slots);
    EitherWay(x.found);
    EitherWay(Some(d));
  }

  lemma TracksReceive(s: Shape, x: EndStep, d: Dir, reused: bool)
    requires x.ev.Receives? && Fit(s, x) && Tracks(s, d, reused)
    ensures TracksInto(s, x, ShapeReceive(x.keepsOut, x.own, s, x.ev.dir, x.found), d, reused)
  {
    EverySlot(s.slots);
    EitherWay(Some(d));
  }

  lemma TracksClose(s: Shape, x: EndStep, d: Dir, reused: bool)
    requires x.ev.Closes? && Fit(s, x) && Tracks(s, d, reused)
    ensures TracksInto(s, x, ShapeClose(s, x.ev.dir), d, reused)
  {
    EverySlot(s.slots);
    EitherWay(Some(d));
  }

  lemma TracksGrow(s: Shape, x: EndStep, d: Dir, reused: bool)
    requires (x.ev.Establishes? || x.ev.Accepts? || x.ev.HearsEnd? || x.ev.ShutsDown?) && Fit(s, x)
    requires Tracks(s, d, reused)
    ensures TracksInto(s, x, ShapeAfter(s, x), d, reused)
  {
    EverySlot(s.slots);
    EitherWay(Some(d));
  }

  /** One event at the end, as far as `d` goes. */
  lemma TracksOn(s: Shape, x: EndStep, d: Dir, reused: bool)
    requires Fit(s, x) && Tracks(s, d, reused)
    ensures TracksInto(s, x, ShapeAfter(s, x), d, reused)
  {
    match x.ev
    case Connects(_, _) => TracksConnect(s, x, d, reused);
    case Receives(_, _, _) => TracksReceive(s, x, d, reused);
    case Closes(_, _) => TracksClose(s, x, d, reused);
    case _ => TracksGrow(s, x, d, reused);
  }

  lemma {:induction false} DeadStaysDead(s: Shape, steps: seq<EndStep>, d: Dir)
    requires FitAll(s, steps) && s.PhaseOf(d).Dropped()
    ensures ShapeRun(s, steps).PhaseOf(d).Dropped()
    decreases steps
  {
    if steps != [] {
      ShapesMove(s, steps[0]);
      DeadStaysDead(ShapeAfter(s, steps[0]), steps[1..], d);
    }
  }

  lemma {:induction false} TracksAlong(s: Shape, steps: seq<EndStep>, d: Dir, reused: bool)
    requires FitAll(s, steps) && Tracks(s, d, reused)
    ensures var r := ShapeRun(s, steps);
            r.PhaseOf(d).Live() ==> (r.Missing(d) <==> s.Missing(d) || LosesTrack(s, steps, d, reused))
    decreases steps
  {
    if steps != [] {
      var t := ShapeAfter(s, steps[0]);
      TracksOn(s, steps[0], d, reused);
      if t.PhaseOf(d).Dropped() {
        DeadStaysDead(t, steps[1..], d);
      } else {
        TracksAlong(t, steps[1..], d, reused || Reuses(s, steps[0], d));
      }
    }
  }

  /** What the tables hold, over every run: a connection is in an end's table exactly if it is under way or open there,
      or has been closed by the other end and not yet reported so, and the end has not lost track of it. */
  lemma InTheTableExactly(sites: Sites, events: seq<Event>, who: Who, d: Dir)
    requires Happened(sites, events)
    ensures SystemInv(sites, START) && IsRun(sites, START, events)
    ensures var e := AtEnd(sites, events).Of(who);
            HasConnection(e, d) <==>
            e.PhaseOf(d).Live() && !LosesTrack(EMPTY_SHAPE, History(sites, START, events, who), d, false)
  {
    StartIsSafe(sites);
    var e := AtEnd(sites, events).Of(who);
    var steps := History(sites, START, events, who);
    assert SystemInv(sites, AtEnd(sites, events)) && ShapeOf(sites.Of(who), START.Of(who)) == EMPTY_SHAPE;
    HistoryTells(sites, START, events, who);
    TracksAlong(EMPTY_SHAPE, steps, d, false);
    HasExactlySlots(sites.Of(who), e, d);
    EitherWay(Some(d));
  }
}
