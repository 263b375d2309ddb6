/** Runs of two crossed connections after which they are not as one would wish: one that both ends keep is out of an
    end's tables, two stay for good, or none is left (src/bitchat/network/transport.py:123-159, 187-256, 263-318,
    486-595, connection.py:103-157, 194-222). */
module LanExamples {
  import opened Wrappers
  import opened LanTransport
  import opened LanCrossing
  import opened LanAgreement

  // ---- runs in terms of shapes ----

  /** The two ends, and what each has on record for a third sender. */
  datatype Shapes = Shapes(low: Shape, high: Shape, lowRecord: Option<Dir>, highRecord: Option<Dir>)
  {
    function Of(w: Who): Shape {
      if w.Low? then low else high
    }

    function RecordAt(w: Who): Option<Dir> {
      if w.Low? then lowRecord else highRecord
    }

    function With(w: Who, s: Shape, record: Option<Dir>): Shapes {
      if w.Low? then this.(low := s, lowRecord := record) else this.(high := s, highRecord := record)
    }

    function After(x: EndStep): Shapes {
      var s := Of(x.ev.who);
      With(x.ev.who, ShapeAfter(s, x), ThirdAfter(s, x, RecordAt(x.ev.who)))
    }
  }

  /** What is on record for the third sender after a step. */
  function ThirdAfter(s: Shape, x: EndStep, record: Option<Dir>): Option<Dir> {
    match x.ev
    case Accepts(_) => Less(record, AcceptGone(x.keepsOut, s))
    case Receives(_, d, _) =>
      if x.own then Less(record, ReceiveGone(x.keepsOut, s, d, x.found)) else RecordAfter(x.keepsOut, s, d, record)
    case Closes(_, d) => Less(record, CloseGone(s, d))
    case _ => record
  }

  /** The search can only find this. */
  ghost predicate FindsJust(s: Shape, d: Dir, found: Option<Dir>) {
    forall f :: Finds(s, d, f) ==> f == found
  }

  /** Between ends of these shapes the event can happen, and it depends on what the step says. */
  ghost predicate CanHappen(p: Shapes, x: EndStep) {
    var s, o := p.Of(x.ev.who), p.Of(Other(x.ev.who));
    match x.ev
    case Connects(_, d) =>
      && FindsJust(s, d, x.found) && (x.found.None? ==> d == Out && s.outPhase == Absent)
      && (d == In ==> s.inPhase != Absent)
    case Establishes(_) => s.outPhase == Connecting
    case Accepts(_) => s.inPhase == Absent && o.outPhase != Absent
    case Receives(_, d, _) =>
      s.PhaseOf(d).Reads() && s.Hears(d) && x.found == if x.own then s.slots.onRecord else p.RecordAt(x.ev.who)
    case HearsEnd(_, d) => s.PhaseOf(d) == Open && o.PhaseOf(Flip(d)) in {Shutting, Closed}
    case ShutsDown(_, d) => s.PhaseOf(d) == Closing
    case Closes(_, d) => s.PhaseOf(d).Finishing()
  }

  ghost predicate CanAllHappen(p: Shapes, steps: seq<EndStep>)
    decreases steps
  {
    steps == [] || (CanHappen(p, steps[0]) && CanAllHappen(p.After(steps[0]), steps[1..]))
  }

  function AfterAll(p: Shapes, steps: seq<EndStep>): Shapes
    decreases steps
  {
    if steps == [] then p else AfterAll(p.After(steps[0]), steps[1..])
  }

  lemma {:induction false} Continues(p: Shapes, steps: seq<EndStep>, more: seq<EndStep>)
    requires CanAllHappen(p, steps) && CanAllHappen(AfterAll(p, steps), more)
    ensures CanAllHappen(p, steps + more) && AfterAll(p, steps + more) == AfterAll(AfterAll(p, steps), more)
    decreases steps
  {
    if steps == [] {
      assert steps + more == more;
    } else {
      Continues(p.After(steps[0]), steps[1..], more);
      assert (steps + more)[1..] == steps[1..] + more;
    }
  }

  function EventsOf(steps: seq<EndStep>): seq<Event> {
    seq(|steps|, i requires 0 <= i < |steps| => steps[i].ev)
  }

  /** A step that says what happens by the ids of the two ends. */
  function Told(ev: Event, found: Option<Dir>): EndStep {
    EndStep(ev, found, ev.who.Low?, true)
  }

  /** A third sender, whose packets are passed on. */
  ghost predicate IsThird(sites: Sites, third: string) {
    !IsOwn(sites.low, third) && !IsOwn(sites.high, third)
  }

  /** The step says how the end decides. */
  ghost predicate Judges(sites: Sites, third: string, x: EndStep) {
    var site := sites.Of(x.ev.who);
    match x.ev
    case Receives(_, d, sender) =>
      && x.keepsOut == site.KeepsOutFor(sender, d)
      && if x.own then IsOwn(site, sender) else sender == third
    case _ => x.keepsOut == site.KeepsOut() && x.own
  }

  ghost predicate JudgesAll(sites: Sites, third: string, steps: seq<EndStep>) {
    forall i :: 0 <= i < |steps| ==> Judges(sites, third, steps[i])
  }

  ghost predicate Looks(sites: Sites, third: string, sys: System, p: Shapes) {
    && ShapeOf(sites.low, sys.low) == p.low && ShapeOf(sites.high, sys.high) == p.high
    && RecordOf(sys.low, third) == p.lowRecord && RecordOf(sys.high, third) == p.highRecord
  }

  lemma FindsAsShaped(site: Site, e: End, s: Shape, d: Dir, found: Option<Dir>)
    requires site.Valid() && OnlyThese(site, e.tables) && ShapeOf(site, e) == s && FindsJust(s, d, found)
    ensures Search(site, e, d) == found
  {
    BothKnown(site, e);
    FindFinds(site, e, d);
    assert Finds(s, d, Search(site, e, d));
  }

  /** The step as it is read off the system. */
  lemma CanHappenIsEnabled(sites: Sites, third: string, sys: System, p: Shapes, x: EndStep)
    requires SystemInv(sites, sys) && IsThird(sites, third) && Looks(sites, third, sys, p)
    requires CanHappen(p, x) && Judges(sites, third, x)
    ensures Enabled(sites, sys, x.ev)
    ensures var y := StepOf(sites.Of(x.ev.who), sys.Of(x.ev.who), x.ev);
            y.keepsOut == x.keepsOut && y.own == x.own && (x.ev.Connects? || x.ev.Receives? ==> y.found == x.found)
  {
    if x.ev.Connects? {
      FindsAsShaped(sites.Of(x.ev.who), sys.Of(x.ev.who), p.Of(x.ev.who), x.ev.dir, x.found);
    } else if x.ev.Receives? && x.own {
      RecordHolds(sites.Of(x.ev.who), sys.Of(x.ev.who), x.ev.sender);
    }
  }

  /** What an event does to the record of the third sender. */
  lemma ThirdMoves(sites: Sites, third: string, sys: System, x: EndStep)
    requires SystemInv(sites, sys) && IsThird(sites, third) && Enabled(sites, sys, x.ev) && Judges(sites, third, x)
    requires var y := StepOf(sites.Of(x.ev.who), sys.Of(x.ev.who), x.ev);
             y.keepsOut == x.keepsOut && y.own == x.own && (x.ev.Connects? || x.ev.Receives? ==> y.found == x.found)
    ensures var site, e := sites.Of(x.ev.who), sys.Of(x.ev.who);
            RecordOf(Happens(site, e, x.ev), third) == ThirdAfter(ShapeOf(site, e), x, RecordOf(e, third))
  {
    var site, e := sites.Of(x.ev.who), sys.Of(x.ev.who);
    match x.ev
    case Connects(_, d) => ConnectKeeps(site, e, d);
    case Establishes(_) =>
    case Accepts(_) => AcceptKeeps(site, e);
    case Receives(_, d, sender) => ReceiveKeeps(site, e, d, sender);
    case HearsEnd(_, _) =>
    case ShutsDown(_, _) =>
    case Closes(_, d) => CloseKeeps(site, e, d);
  }

  lemma StepLooks(sites: Sites, third: string, sys: System, p: Shapes, x: EndStep)
    requires SystemInv(sites, sys) && IsThird(sites, third) && Looks(sites, third, sys, p)
    requires CanHappen(p, x) && Judges(sites, third, x)
    ensures Enabled(sites, sys, x.ev) && SystemInv(sites, Next(sites, sys, x.ev))
    ensures Looks(sites, third, Next(sites, sys, x.ev), p.After(x))
  {
    CanHappenIsEnabled(sites, third, sys, p, x);
    ThirdMoves(sites, third, sys, x);
    EventMoves(sites, sys, x.ev);
    EventKeeps(sites, sys, x.ev);
  }

  /** The run happens and leads to ends of these shapes. */
  ghost predicate LeadsTo(sites: Sites, third: string, sys: System, events: seq<Event>, p: Shapes) {
    SystemInv(sites, sys) && IsRun(sites, sys, events) && Looks(sites, third, After(sites, sys, events), p)
  }

  lemma LeadsOn(sites: Sites, third: string, sys: System, ev: Event, rest: seq<Event>, p: Shapes)
    requires SystemInv(sites, sys) && Enabled(sites, sys, ev) && LeadsTo(sites, third, Next(sites, sys, ev), rest, p)
    ensures LeadsTo(sites, third, sys, [ev] + rest, p)
  {
    assert ([ev] + rest)[1..] == rest;
  }

  lemma EventsOfFirst(steps: seq<EndStep>)
    requires steps != []
    ensures EventsOf(steps) == [steps[0].ev] + EventsOf(steps[1..])
  {}

  lemma AfterFirst(p: Shapes, steps: seq<EndStep>)
    requires steps != []
    ensures AfterAll(p, steps) == AfterAll(p.After(steps[0]), steps[1..])
  {}

  lemma StepsLeadOn(sites: Sites, third: string, sys: System, p: Shapes, steps: seq<EndStep>)
    requires steps != [] && SystemInv(sites, sys) && Enabled(sites, sys, steps[0].ev)
    requires LeadsTo(sites, third, Next(sites, sys, steps[0].ev), EventsOf(steps[1..]),
                     AfterAll(p.After(steps[0]), steps[1..]))
    ensures LeadsTo(sites, third, sys, EventsOf(steps), AfterAll(p, steps))
  {
    EventsOfFirst(steps);
    AfterFirst(p, steps);
    LeadsOn(sites, third, sys, steps[0].ev, EventsOf(steps[1..]), AfterAll(p, steps));
  }

  /** What shapes allow, the two ends can do. */
  lemma {:induction false} RunLooks(sites: Sites, third: string, sys: System, p: Shapes, steps: seq<EndStep>)
    requires SystemInv(sites, sys) && IsThird(sites, third) && Looks(sites, third, sys, p)
    requires CanAllHappen(p, steps) && JudgesAll(sites, third, steps)
    ensures LeadsTo(sites, third, sys, EventsOf(steps), AfterAll(p, steps))
    decreases steps
  {
    if steps != [] {
      StepLooks(sites, third, sys, p, steps[0]);
      RunLooks(sites, third, Next(sites, sys, steps[0].ev), p.After(steps[0]), steps[1..]);
      StepsLeadOn(sites, third, sys, p, steps);
    }
  }

  const NO_SHAPES := Shapes(EMPTY_SHAPE, EMPTY_SHAPE, None, None)

  lemma Reach(sites: Sites, third: string, steps: seq<EndStep>)
    requires sites.Valid() && IsThird(sites, third) && CanAllHappen(NO_SHAPES, steps) && JudgesAll(sites, third, steps)
    ensures Happened(sites, EventsOf(steps))
    ensures Looks(sites, third, AtEnd(sites, EventsOf(steps)), AfterAll(NO_SHAPES, steps))
  {
    StartIsSafe(sites);
    RunLooks(sites, third, START, NO_SHAPES, steps);
  }

  // ---- steps without their senders ----

  /** The step with its sender: the other end, or the third. */
  function Sent(sites: Sites, third: string, x: EndStep): EndStep {
    if x.ev.Receives? then
      x.(ev := x.ev.(sender := if x.own then sites.Of(Other(x.ev.who)).cfg.localId else third))
    else x
  }

  function Named(sites: Sites, third: string, steps: seq<EndStep>): seq<EndStep> {
    seq(|steps|, i requires 0 <= i < |steps| => Sent(sites, third, steps[i]))
  }

  lemma {:induction false} NamedSame(sites: Sites, third: string, p: Shapes, steps: seq<EndStep>)
    requires CanAllHappen(p, steps)
    ensures CanAllHappen(p, Named(sites, third, steps)) && AfterAll(p, Named(sites, third, steps)) == AfterAll(p, steps)
    decreases steps
  {
    if steps != [] {
      NamedSame(sites, third, p.After(steps[0]), steps[1..]);
      assert Named(sites, third, steps)[1..] == Named(sites, third, steps[1..]);
    }
  }

  /** The steps say how the ends decide: by their ids, or by the third sender's. */
  ghost predicate Decides(sites: Sites, third: string, steps: seq<EndStep>) {
    forall i :: 0 <= i < |steps| ==>
      var x := steps[i];
      if x.own then x.keepsOut == x.ev.who.Low?
      else x.ev.Receives? && x.keepsOut == sites.Of(x.ev.who).KeepsOutFor(third, x.ev.dir)
  }

  lemma NamedJudges(sites: Sites, third: string, steps: seq<EndStep>)
    requires sites.Valid() && Decides(sites, third, steps)
    ensures JudgesAll(sites, third, Named(sites, third, steps))
  {
    WhoKeeps(sites);
    forall i | 0 <= i < |steps| ensures Judges(sites, third, Named(sites, third, steps)[i]) {
      var x := Named(sites, third, steps)[i];
      if x.ev.Receives? && x.own {
        OwnIsRight(sites.Of(x.ev.who), x.ev.sender, x.ev.dir);
      }
    }
  }

  /** The steps can be taken and lead from these shapes to those. */
  ghost predicate Plays(sites: Sites, third: string, p: Shapes, steps: seq<EndStep>, q: Shapes) {
    CanAllHappen(p, steps) && AfterAll(p, steps) == q && JudgesAll(sites, third, steps)
  }

  lemma PlaysNamed(sites: Sites, third: string, p: Shapes, steps: seq<EndStep>, q: Shapes)
    requires sites.Valid() && CanAllHappen(p, steps) && AfterAll(p, steps) == q && Decides(sites, third, steps)
    ensures Plays(sites, third, p, Named(sites, third, steps), q)
  {
    NamedSame(sites, third, p, steps);
    NamedJudges(sites, third, steps);
  }

  lemma PlaysOn(sites: Sites, third: string, p: Shapes, first: seq<EndStep>, q: Shapes, more: seq<EndStep>, r: Shapes)
    requires Plays(sites, third, p, first, q) && Plays(sites, third, q, more, r)
    ensures Plays(sites, third, p, first + more, r)
  {
    Continues(p, first, more);
  }

  lemma PlayedLooks(sites: Sites, third: string, steps: seq<EndStep>, q: Shapes)
    requires sites.Valid() && IsThird(sites, third) && Plays(sites, third, NO_SHAPES, steps, q)
    ensures Happened(sites, EventsOf(steps)) && Looks(sites, third, AtEnd(sites, EventsOf(steps)), q)
  {
    Reach(sites, third, steps);
  }

  /** No peer has the empty id. */
  lemma NoIdIsThird(sites: Sites)
    requires sites.Valid()
    ensures IsThird(sites, "")
  {
    assert KeyOf("")[5..] == "" && sites.low.Key()[5..] == sites.low.remoteId
           && sites.high.Key()[5..] == sites.high.remoteId;
  }

  // ---- a connection that is kept, and in no table ----

  const NOTHING := Slots(None, None, None)
  const OWN := Slots(Some(Out), None, Some(Out))
  const BOTH := Slots(Some(Out), Some(In), Some(In))

  /** At rest the lower end's connection is open at both ends, and the higher end has it in no table. */
  ghost predicate KeptAndForgotten(sites: Sites, run: seq<Event>) {
    && Happened(sites, run) && AtRest(sites, AtEnd(sites, run))
    && AtEnd(sites, run).low.outPhase == Open && HasConnection(AtEnd(sites, run).low, Out)
    && AtEnd(sites, run).high.inPhase == Open && !HasConnection(AtEnd(sites, run).high, In)
  }

  const FORGOTTEN := Shapes(Shape(OWN, Open, Closed, false), Shape(NOTHING, Closed, Open, true), None, None)

  /** With nobody connecting and nothing to accept or to close any more, a system is at rest. */
  lemma OnlyConnectsLeft(sites: Sites, sys: System)
    requires sys.low.outPhase in {Open, Closed} && sys.low.inPhase in {Open, Closed}
    requires sys.low.outPhase == sys.high.inPhase && sys.low.inPhase == sys.high.outPhase
    ensures AtRest(sites, sys)
  {
    forall ev | Enabled(sites, sys, ev) ensures ev.Connects? || ev.Receives? {
      match ev
      case HearsEnd(_, d) => EitherWay(Some(d));
      case ShutsDown(_, d) => EitherWay(Some(d));
      case Closes(_, d) => EitherWay(Some(d));
      case _ =>
    }
  }

  /** A run that ends so. */
  lemma KeptBy(sites: Sites, steps: seq<EndStep>)
    requires sites.Valid() && Plays(sites, "", NO_SHAPES, steps, FORGOTTEN)
    ensures KeptAndForgotten(sites, EventsOf(steps))
  {
    NoIdIsThird(sites);
    PlayedLooks(sites, "", steps, FORGOTTEN);
    var sys := AtEnd(sites, EventsOf(steps));
    HasExactlySlots(sites.low, sys.low, Out);
    HasExactlySlots(sites.high, sys.high, In);
    OnlyConnectsLeft(sites, sys);
  }

  /** The higher end accepts while its own connection is open, and drops that one. */
  const ACCEPTED_WHILE_OPEN :=
    [Told(Connects(High, Out), None), Told(Establishes(High), None), Told(Connects(Low, Out), None),
     Told(Accepts(High), None)]

  const DROPPED :=
    Shapes(Shape(OWN, Connecting, Absent, false),
           Shape(Slots(None, Some(In), Some(In)), Closing, Open, true), None, None)

  lemma DroppedPlays(sites: Sites)
    requires sites.Valid()
    ensures Plays(sites, "", NO_SHAPES, Named(sites, "", ACCEPTED_WHILE_OPEN), DROPPED)
  {
    PlaysNamed(sites, "", NO_SHAPES, ACCEPTED_WHILE_OPEN, DROPPED);
  }

  /** A call of `connect_peer` uses the accepted connection again before the close callback of the other one has run. */
  const REUSED_WHILE_CLOSING :=
    [Told(Connects(High, Out), Some(In)), Told(ShutsDown(High, Out), None), Told(Closes(High, Out), None)]

  const REUSED := Shapes(Shape(OWN, Connecting, Absent, false), Shape(NOTHING, Closed, Open, true), None, None)

  lemma ReusedPlays(sites: Sites)
    requires sites.Valid()
    ensures Plays(sites, "", DROPPED, Named(sites, "", REUSED_WHILE_CLOSING), REUSED)
  {
    PlaysNamed(sites, "", DROPPED, REUSED_WHILE_CLOSING, REUSED);
  }

  /** The lower end's connection comes up, and it turns down the higher one's. */
  const LOWER_END_FOLLOWS :=
    [Told(Establishes(Low), None), Told(Accepts(Low), None), Told(ShutsDown(Low, In), None),
     Told(Closes(Low, In), None)]

  lemma LowerEndFollows(sites: Sites)
    requires sites.Valid()
    ensures Plays(sites, "", REUSED, Named(sites, "", LOWER_END_FOLLOWS), FORGOTTEN)
  {
    PlaysNamed(sites, "", REUSED, LOWER_END_FOLLOWS, FORGOTTEN);
  }

  function RunOf(sites: Sites, third: string, a: seq<EndStep>, b: seq<EndStep>, c: seq<EndStep>): seq<EndStep> {
    Named(sites, third, a) + Named(sites, third, b) + Named(sites, third, c)
  }

  lemma ThreePlay(
      sites: Sites, third: string, a: seq<EndStep>, p: Shapes, b: seq<EndStep>, q: Shapes, c: seq<EndStep>, r: Shapes)
    requires Plays(sites, third, NO_SHAPES, Named(sites, third, a), p)
    requires Plays(sites, third, p, Named(sites, third, b), q)
    requires Plays(sites, third, q, Named(sites, third, c), r)
    ensures Plays(sites, third, NO_SHAPES, RunOf(sites, third, a, b, c), r)
  {
    PlaysOn(sites, third, NO_SHAPES, Named(sites, third, a), p, Named(sites, third, b), q);
    PlaysOn(sites, third, NO_SHAPES, Named(sites, third, a) + Named(sites, third, b), q, Named(sites, third, c), r);
  }

  /** The close callback of the connection that the higher end dropped takes out what `connect_peer` had used again. */
  lemma KeptConnectionForgotten(sites: Sites)
    requires sites.Valid()
    ensures KeptAndForgotten(sites,
                             EventsOf(RunOf(sites, "", ACCEPTED_WHILE_OPEN, REUSED_WHILE_CLOSING, LOWER_END_FOLLOWS)))
  {
    DroppedPlays(sites);
    ReusedPlays(sites);
    LowerEndFollows(sites);
    ThreePlay(sites, "", ACCEPTED_WHILE_OPEN, DROPPED, REUSED_WHILE_CLOSING, REUSED, LOWER_END_FOLLOWS, FORGOTTEN);
    KeptBy(sites, RunOf(sites, "", ACCEPTED_WHILE_OPEN, REUSED_WHILE_CLOSING, LOWER_END_FOLLOWS));
  }

  /** The higher end accepts while connecting. */
  const ACCEPTED_AT_HIGHER_END :=
    [Told(Connects(High, Out), None), Told(Connects(Low, Out), None), Told(Establishes(Low), None),
     Told(Accepts(High), None)]

  const MET_HIGHER := Shapes(Shape(OWN, Open, Absent, false), Shape(BOTH, Connecting, Open, true), None, None)

  lemma MetHigherPlays(sites: Sites)
    requires sites.Valid()
    ensures Plays(sites, "", NO_SHAPES, Named(sites, "", ACCEPTED_AT_HIGHER_END), MET_HIGHER)
  {
    PlaysNamed(sites, "", NO_SHAPES, ACCEPTED_AT_HIGHER_END, MET_HIGHER);
  }

  /** The lower one, whose own connection is open, turns the higher one's down. */
  const TURNED_DOWN := [Told(Establishes(High), None), Told(Accepts(Low), None), Told(ShutsDown(Low, In), None)]

  const REFUSED := Shapes(Shape(OWN, Open, Shutting, false), Shape(BOTH, Open, Open, true), None, None)

  lemma TurnedDownPlays(sites: Sites)
    requires sites.Valid()
    ensures Plays(sites, "", MET_HIGHER, Named(sites, "", TURNED_DOWN), REFUSED)
  {
    PlaysNamed(sites, "", MET_HIGHER, TURNED_DOWN, REFUSED);
  }

  /** The higher end hears of it, and `connect_peer` is called before its close callback has run. */
  const REUSED_WHILE_ENDING :=
    [Told(HearsEnd(High, Out), None), Told(Connects(High, Out), Some(In)), Told(Closes(High, Out), None),
     Told(Closes(Low, In), None)]

  lemma ReusedWhileEndingPlays(sites: Sites)
    requires sites.Valid()
    ensures Plays(sites, "", REFUSED, Named(sites, "", REUSED_WHILE_ENDING), FORGOTTEN)
  {
    PlaysNamed(sites, "", REFUSED, REUSED_WHILE_ENDING, FORGOTTEN);
  }

  /** The same after the other end has closed the connection: between its end and its callback it is not ready and still
      in the tables, and `connect_peer` puts the accepted one in its place, for the callback to take out. */
  lemma ForgottenWhileEnding(sites: Sites)
    requires sites.Valid()
    ensures KeptAndForgotten(sites,
                             EventsOf(RunOf(sites, "", ACCEPTED_AT_HIGHER_END, TURNED_DOWN, REUSED_WHILE_ENDING)))
  {
    MetHigherPlays(sites);
    TurnedDownPlays(sites);
    ReusedWhileEndingPlays(sites);
    ThreePlay(sites, "", ACCEPTED_AT_HIGHER_END, MET_HIGHER, TURNED_DOWN, REFUSED, REUSED_WHILE_ENDING, FORGOTTEN);
    KeptBy(sites, RunOf(sites, "", ACCEPTED_AT_HIGHER_END, TURNED_DOWN, REUSED_WHILE_ENDING));
  }

  /** A run by which the lower end loses its own connection, which is open, from all tables. */
  ghost predicate OwnIsForgotten(sites: Sites, run: seq<Event>) {
    && Happened(sites, run)
    && AtEnd(sites, run).low.outPhase == Open && !HasConnection(AtEnd(sites, run).low, Out)
  }

  lemma ForgottenBy(sites: Sites, steps: seq<EndStep>, q: Shapes)
    requires sites.Valid() && Plays(sites, "", NO_SHAPES, steps, q) && q.low.outPhase == Open && !q.low.slots.Has(Out)
    ensures OwnIsForgotten(sites, EventsOf(steps))
  {
    NoIdIsThird(sites);
    PlayedLooks(sites, "", steps, q);
    HasExactlySlots(sites.low, AtEnd(sites, EventsOf(steps)).low, Out);
  }

  /** The lower end accepts while connecting. */
  const ACCEPTED_AT_LOWER_END :=
    [Told(Connects(Low, Out), None), Told(Connects(High, Out), None), Told(Accepts(Low), None)]

  const MET_LOWER := Shapes(Shape(BOTH, Connecting, Open, true), Shape(OWN, Connecting, Absent, false), None, None)

  lemma MetLowerPlays(sites: Sites, third: string)
    requires sites.Valid()
    ensures Plays(sites, third, NO_SHAPES, Named(sites, third, ACCEPTED_AT_LOWER_END), MET_LOWER)
  {
    PlaysNamed(sites, third, NO_SHAPES, ACCEPTED_AT_LOWER_END, MET_LOWER);
  }

  /** It drops what it accepted, on a packet of the other end over its own connection. */
  const DROPPED_ON_PACKET := [Told(Establishes(Low), None), Told(Receives(Low, Out, ""), Some(In))]

  const DROPPED_IN :=
    Shapes(Shape(OWN, Open, Closing, true), Shape(OWN, Connecting, Absent, false), None, None)

  lemma DroppedInPlays(sites: Sites)
    requires sites.Valid()
    ensures Plays(sites, "", MET_LOWER, Named(sites, "", DROPPED_ON_PACKET), DROPPED_IN)
  {
    PlaysNamed(sites, "", MET_LOWER, DROPPED_ON_PACKET, DROPPED_IN);
  }

  /** It uses its own again for the address of the other before the close callback of that has run. */
  const REUSED_WHILE_SHUTTING :=
    [Told(ShutsDown(Low, In), None), Told(Connects(Low, In), Some(Out)), Told(Closes(Low, In), None)]

  const LOST_AT_LOWER_END :=
    Shapes(Shape(NOTHING, Open, Closed, true), Shape(OWN, Connecting, Absent, false), None, None)

  lemma LostAtLowerEndPlays(sites: Sites)
    requires sites.Valid()
    ensures Plays(sites, "", DROPPED_IN, Named(sites, "", REUSED_WHILE_SHUTTING), LOST_AT_LOWER_END)
  {
    PlaysNamed(sites, "", DROPPED_IN, REUSED_WHILE_SHUTTING, LOST_AT_LOWER_END);
  }

  /** The same at the lower end, over the address of the connection it accepted. */
  lemma LowerEndForgets(sites: Sites)
    requires sites.Valid()
    ensures OwnIsForgotten(sites,
                           EventsOf(RunOf(sites, "", ACCEPTED_AT_LOWER_END, DROPPED_ON_PACKET, REUSED_WHILE_SHUTTING)))
  {
    MetLowerPlays(sites, "");
    DroppedInPlays(sites);
    LostAtLowerEndPlays(sites);
    ThreePlay(sites, "", ACCEPTED_AT_LOWER_END, MET_LOWER, DROPPED_ON_PACKET, DROPPED_IN, REUSED_WHILE_SHUTTING,
              LOST_AT_LOWER_END);
    ForgottenBy(sites, RunOf(sites, "", ACCEPTED_AT_LOWER_END, DROPPED_ON_PACKET, REUSED_WHILE_SHUTTING),
                LOST_AT_LOWER_END);
  }

  /** A second call of `connect_peer` finds the accepted connection. */
  const OVERWRITTEN_WHILE_CONNECTING := [Told(Connects(Low, Out), Some(In)), Told(Establishes(Low), None)]

  const OVERWRITTEN :=
    Shapes(Shape(Slots(Some(In), Some(In), Some(In)), Open, Open, true),
           Shape(OWN, Connecting, Absent, false), None, None)

  lemma OverwrittenPlays(sites: Sites)
    requires sites.Valid()
    ensures Plays(sites, "", MET_LOWER, Named(sites, "", OVERWRITTEN_WHILE_CONNECTING), OVERWRITTEN)
  {
    PlaysNamed(sites, "", MET_LOWER, OVERWRITTEN_WHILE_CONNECTING, OVERWRITTEN);
  }

  /** The accepted connection takes the place of the own one, which then opens and is in no table. */
  lemma OwnConnectionForgotten(sites: Sites)
    requires sites.Valid()
    ensures OwnIsForgotten(sites, EventsOf(Named(sites, "", ACCEPTED_AT_LOWER_END)
                                           + Named(sites, "", OVERWRITTEN_WHILE_CONNECTING)))
  {
    var first, more := Named(sites, "", ACCEPTED_AT_LOWER_END), Named(sites, "", OVERWRITTEN_WHILE_CONNECTING);
    MetLowerPlays(sites, "");
    OverwrittenPlays(sites);
    PlaysOn(sites, "", NO_SHAPES, first, MET_LOWER, more, OVERWRITTEN);
    ForgottenBy(sites, first + more, OVERWRITTEN);
  }

  // ---- two connections that stay ----

  const BOTH_OPEN := Shape(BOTH, Open, Open, true)

  const ALL_OPEN := Shapes(BOTH_OPEN, BOTH_OPEN, None, None)

  const ALL_COME_UP := [Told(Accepts(High), None), Told(Establishes(Low), None), Told(Establishes(High), None)]

  lemma AllComeUp(sites: Sites, third: string)
    requires sites.Valid()
    ensures Plays(sites, third, MET_LOWER, Named(sites, third, ALL_COME_UP), ALL_OPEN)
  {
    PlaysNamed(sites, third, MET_LOWER, ALL_COME_UP, ALL_OPEN);
  }

  /** Packets of the two ends, over the accepted connections only. */
  ghost predicate OnlyPackets(packets: seq<EndStep>) {
    forall i :: 0 <= i < |packets| ==>
      && packets[i].ev.Receives? && packets[i].ev.dir == In && packets[i].found == Some(In)
      && packets[i].own && packets[i].keepsOut == packets[i].ev.who.Low?
  }

  lemma {:induction false} PacketsChangeNothing(packets: seq<EndStep>)
    requires OnlyPackets(packets)
    ensures CanAllHappen(ALL_OPEN, packets) && AfterAll(ALL_OPEN, packets) == ALL_OPEN
    decreases packets
  {
    if packets != [] {
      PacketsChangeNothing(packets[1..]);
    }
  }

  /** Both ends accept while still connecting, and then each only hears over the connection it accepted: two connections
      stay open at both ends, and in their tables, however many packets of the two ends arrive. */
  lemma BothMayStay(sites: Sites, packets: seq<EndStep>)
    requires sites.Valid() && OnlyPackets(packets)
    ensures var run := EventsOf(RunOf(sites, "", ACCEPTED_AT_LOWER_END, ALL_COME_UP, packets));
            && Happened(sites, run)
            && forall w: Who, d: Dir ::
                 AtEnd(sites, run).Of(w).PhaseOf(d) == Open && HasConnection(AtEnd(sites, run).Of(w), d)
  {
    MetLowerPlays(sites, "");
    AllComeUp(sites, "");
    PacketsChangeNothing(packets);
    PlaysNamed(sites, "", ALL_OPEN, packets, ALL_OPEN);
    ThreePlay(sites, "", ACCEPTED_AT_LOWER_END, MET_LOWER, ALL_COME_UP, ALL_OPEN, packets, ALL_OPEN);
    NoIdIsThird(sites);
    PlayedLooks(sites, "", RunOf(sites, "", ACCEPTED_AT_LOWER_END, ALL_COME_UP, packets), ALL_OPEN);
    AllInTables(sites, AtEnd(sites, EventsOf(RunOf(sites, "", ACCEPTED_AT_LOWER_END, ALL_COME_UP, packets))));
  }

  lemma AllInTables(sites: Sites, sys: System)
    requires SystemInv(sites, sys) && Looks(sites, "", sys, ALL_OPEN)
    ensures forall w: Who, d: Dir :: sys.Of(w).PhaseOf(d) == Open && HasConnection(sys.Of(w), d)
  {
    forall w: Who, d: Dir ensures sys.Of(w).PhaseOf(d) == Open && HasConnection(sys.Of(w), d) {
      HasExactlySlots(sites.Of(w), sys.Of(w), d);
      EitherWay(Some(d));
    }
  }

  // ---- no connection that stays ----

  /** Packets of a third sender, passed on over both connections. */
  function PassedOn(w: Who): seq<EndStep> {
    [EndStep(Receives(w, In, ""), None, false, false), EndStep(Receives(w, Out, ""), Some(In), false, false)]
  }

  /** The end closes its own. */
  function OwnCloses(w: Who): seq<EndStep> {
    [Told(ShutsDown(w, Out), None), Told(Closes(w, Out), None)]
  }

  const BOTH_END :=
    [Told(HearsEnd(Low, In), None), Told(Closes(Low, In), None), Told(HearsEnd(High, In), None),
     Told(Closes(High, In), None)]

  const ACCEPTED_LEFT := Shape(Slots(None, Some(In), Some(In)), Closed, Open, true)

  const DROPS_OWN := Shape(Slots(None, Some(In), Some(In)), Closing, Open, true)

  const LOW_MISLED := Shapes(ACCEPTED_LEFT, BOTH_OPEN, Some(In), None)
  const BOTH_MISLED := Shapes(ACCEPTED_LEFT, ACCEPTED_LEFT, Some(In), Some(In))
  const NONE_LEFT := Shapes(Shape(NOTHING, Closed, Closed, true), Shape(NOTHING, Closed, Closed, true), None, None)

  /** The id of the third sender is smaller than those of both ends. */
  ghost predicate IsSmaller(sites: Sites, third: string) {
    && IsThird(sites, third)
    && forall w: Who, d: Dir :: !sites.Of(w).KeepsOutFor(third, d)
  }

  lemma LowMisled(sites: Sites, third: string)
    requires sites.Valid() && IsSmaller(sites, third)
    ensures Plays(sites, third, ALL_OPEN, Named(sites, third, PassedOn(Low)),
                  Shapes(DROPS_OWN, BOTH_OPEN, Some(In), None))
  {
    PlaysNamed(sites, third, ALL_OPEN, PassedOn(Low), Shapes(DROPS_OWN, BOTH_OPEN, Some(In), None));
  }

  lemma LowCloses(sites: Sites, third: string)
    requires sites.Valid()
    ensures Plays(sites, third, Shapes(DROPS_OWN, BOTH_OPEN, Some(In), None), Named(sites, third, OwnCloses(Low)),
                  LOW_MISLED)
  {
    PlaysNamed(sites, third, Shapes(DROPS_OWN, BOTH_OPEN, Some(In), None), OwnCloses(Low), LOW_MISLED);
  }

  lemma HighMisled(sites: Sites, third: string)
    requires sites.Valid() && IsSmaller(sites, third)
    ensures Plays(sites, third, LOW_MISLED, Named(sites, third, PassedOn(High)),
                  Shapes(ACCEPTED_LEFT, DROPS_OWN, Some(In), Some(In)))
  {
    PlaysNamed(sites, third, LOW_MISLED, PassedOn(High), Shapes(ACCEPTED_LEFT, DROPS_OWN, Some(In), Some(In)));
  }

  lemma HighCloses(sites: Sites, third: string)
    requires sites.Valid()
    ensures Plays(sites, third, Shapes(ACCEPTED_LEFT, DROPS_OWN, Some(In), Some(In)),
                  Named(sites, third, OwnCloses(High)), BOTH_MISLED)
  {
    PlaysNamed(sites, third, Shapes(ACCEPTED_LEFT, DROPS_OWN, Some(In), Some(In)), OwnCloses(High), BOTH_MISLED);
  }

  /** Each end gets such packets and closes its own. */
  function EachMisled(sites: Sites, third: string): seq<EndStep> {
    Named(sites, third, PassedOn(Low)) + Named(sites, third, OwnCloses(Low))
    + Named(sites, third, PassedOn(High)) + Named(sites, third, OwnCloses(High))
  }

  lemma EachIsMisled(sites: Sites, third: string)
    requires sites.Valid() && IsSmaller(sites, third)
    ensures Plays(sites, third, ALL_OPEN, EachMisled(sites, third), BOTH_MISLED)
  {
    var a, b := Named(sites, third, PassedOn(Low)), Named(sites, third, OwnCloses(Low));
    var c, d := Named(sites, third, PassedOn(High)), Named(sites, third, OwnCloses(High));
    LowMisled(sites, third);
    LowCloses(sites, third);
    HighMisled(sites, third);
    HighCloses(sites, third);
    PlaysOn(sites, third, ALL_OPEN, a, Shapes(DROPS_OWN, BOTH_OPEN, Some(In), None), b, LOW_MISLED);
    PlaysOn(sites, third, ALL_OPEN, a + b, LOW_MISLED, c, Shapes(ACCEPTED_LEFT, DROPS_OWN, Some(In), Some(In)));
    PlaysOn(sites, third, ALL_OPEN, a + b + c, Shapes(ACCEPTED_LEFT, DROPS_OWN, Some(In), Some(In)), d, BOTH_MISLED);
  }

  lemma AllEnd(sites: Sites, third: string)
    requires sites.Valid()
    ensures Plays(sites, third, BOTH_MISLED, Named(sites, third, BOTH_END), NONE_LEFT)
  {
    PlaysNamed(sites, third, BOTH_MISLED, BOTH_END, NONE_LEFT);
  }

  /** Packets of a third sender with a smaller id than both ends, passed on over two connections that stay, make each
      end drop its own: at rest none is left. */
  lemma BothDropped(sites: Sites, third: string)
    requires sites.Valid() && IsSmaller(sites, third)
    ensures var run := EventsOf(Named(sites, third, ACCEPTED_AT_LOWER_END) + Named(sites, third, ALL_COME_UP)
                                + EachMisled(sites, third) + Named(sites, third, BOTH_END));
            && Happened(sites, run) && AtRest(sites, AtEnd(sites, run))
            && forall w: Who, d: Dir :: AtEnd(sites, run).Of(w).PhaseOf(d) == Closed
  {
    var a, b := Named(sites, third, ACCEPTED_AT_LOWER_END), Named(sites, third, ALL_COME_UP);
    var c, d := EachMisled(sites, third), Named(sites, third, BOTH_END);
    MetLowerPlays(sites, third);
    AllComeUp(sites, third);
    EachIsMisled(sites, third);
    AllEnd(sites, third);
    PlaysOn(sites, third, NO_SHAPES, a, MET_LOWER, b, ALL_OPEN);
    PlaysOn(sites, third, NO_SHAPES, a + b, ALL_OPEN, c, BOTH_MISLED);
    PlaysOn(sites, third, NO_SHAPES, a + b + c, BOTH_MISLED, d, NONE_LEFT);
    PlayedLooks(sites, third, a + b + c + d, NONE_LEFT);
    NoneLeft(sites, third, AtEnd(sites, EventsOf(a + b + c + d)));
  }

  lemma NoneLeft(sites: Sites, third: string, sys: System)
    requires SystemInv(sites, sys) && Looks(sites, third, sys, NONE_LEFT)
    ensures AtRest(sites, sys) && forall w: Who, d: Dir :: sys.Of(w).PhaseOf(d) == Closed
  {
    OnlyConnectsLeft(sites, sys);
  }

  // ---- a third peer that is connected itself ----

  /** A packet of a peer that has a connection of its own, passed on over the connection to another peer: the end drops
      one of these two connections to different peers, from all tables. */
  lemma NeighbourDropped<C>(t: Tables<C>, info: map<C, ConnInfo>, cfg: Settings, sender: string, address: string)
    requires t.Valid() && t.Covered(info)
    requires address in t.conns.vals && info[t.conns.vals[address]].isReady
    requires KeyOf(sender) in t.peers.vals && info[t.peers.vals[KeyOf(sender)]].isReady
    requires t.peers.vals[KeyOf(sender)] != t.conns.vals[address]
    ensures var r := Packet(t, info, cfg, sender, address);
            && r.dropped.Some? && r.dropped.value in {t.conns.vals[address], t.peers.vals[KeyOf(sender)]}
            && (forall a :: a in r.tables.conns.vals ==> r.tables.conns.vals[a] != r.dropped.value)
            && (forall k :: k in r.tables.peers.vals ==> r.tables.peers.vals[k] != r.dropped.value)
  {
    var noted := t.(keys := t.keys[address := KeyOf(sender)]);
    RemovedEverywhere(noted, t.conns.vals[address]);
    RemovedEverywhere(noted, t.peers.vals[KeyOf(sender)]);
  }
}
