/**
 * Requests, travel legs and scheduling policy of the itinerary solver.
 * Times are whole seconds; distances are exact reals.
 */
module SolverModel {
  import opened Prelude

  type Node = string
  type PoiId = string
  type Time = int
  type Meters = r: real | r >= 0.0 witness 0.0

  // ------------------------------------------------------------- travel

  datatype Mode = Walk | Bike | Drive | Transit | Ferry

  datatype Leg = Leg(mode: Mode, seconds: nat, meters: Meters) {
    /** The part of the leg that counts against a walking budget. */
    function Walked(): Meters {
      if mode.Walk? then meters else 0.0
    }
  }

  /**
   * The travel matrix.  `estimate` stands for the straight-line fallback used when
   * the pair has no edge; nothing relates different legs to each other.
   */
  datatype TravelMatrix = TravelMatrix(edges: map<(Node, Node), Leg>, estimate: (Node, Node) -> Leg,
                                       defaultMode: Mode) {
    function LegBetween(a: Node, b: Node): Leg {
      if a == b then Leg(defaultMode, 0, 0.0)
      else if (a, b) in edges then edges[(a, b)]
      else estimate(a, b)
    }
  }

  /** Only legs on foot count as walked; staying costs nothing, and an edge goes before an estimate. */
  lemma LegsAreLookedUp(m: TravelMatrix, a: Node, b: Node)
    ensures var leg := m.LegBetween(a, b);
      && leg.Walked() == (if leg.mode == Walk then leg.meters else 0.0)
      && (a == b ==> leg.seconds == 0 && leg.meters == 0.0)
      && (a != b && (a, b) in m.edges ==> leg == m.edges[(a, b)])
      && (a != b && (a, b) !in m.edges ==> leg == m.estimate(a, b))
  {}

  // ------------------------------------------------------------- requests

  datatype Window = Window(dayIndex: nat, opens: Time, closes: Time)

  datatype Candidate = Candidate(
    poiId: PoiId, node: Node, durationMin: nat, priority: real, mustDo: bool,
    windows: seq<Window>, bestTimeWindows: seq<Window>,
    outOfTown: bool, accessVerified: bool, userForced: bool)

  datatype Day = Day(
    dayIndex: nat, startTime: Time, startNode: Node,
    endDeadline: Option<Time>, endNode: Option<Node>, walkingBudget: Option<Meters>)

  datatype WeatherBucket = WeatherBucket(dayIndex: nat, starts: Time, ends: Time, rain: real, temperature: Option<real>)

  datatype Pacing = PackedPacing | RelaxedPacing | OtherPacing

  datatype Departure = ByTrain | ByFlight | ByBus | ByFerry | OtherDeparture

  datatype MealPolicy = MealPolicy(
    enabled: bool, countPerDay: nat, durationMin: nat,
    lunchStartHour: nat, lunchEndHour: nat, dinnerStartHour: nat, dinnerEndHour: nat)

  datatype Options = Options(
    age: Option<nat>, pacing: Option<Pacing>, departure: Departure, limitedMobility: bool,
    meals: MealPolicy, weather: seq<WeatherBucket>,
    forcedAccessBufferMin: nat, maxDayDurationMin: nat)

  /**
   * `prizeOf` maps a candidate, its weather bucket and the golden-hour flag to the rounded
   * prize; `midnightOf` is the calendar midnight that meal hours count from.
   */
  datatype Request = Request(
    days: seq<Day>, candidates: seq<Candidate>, matrix: TravelMatrix, options: Options,
    prizeOf: (Candidate, Option<WeatherBucket>, bool) -> nat, midnightOf: Day -> Time)

  ghost predicate DistinctDays(days: seq<Day>) {
    forall i, j | 0 <= i < j < |days| :: days[i].dayIndex != days[j].dayIndex
  }

  lemma SameIndexSameDay(days: seq<Day>, a: Day, b: Day)
    requires DistinctDays(days) && a in days && b in days && a.dayIndex == b.dayIndex
    ensures a == b
  {
    var i :| 0 <= i < |days| && days[i] == a;
    var j :| 0 <= j < |days| && days[j] == b;
    assert i == j;
  }

  ghost predicate DistinctPois(cs: seq<Candidate>) {
    forall i, j | 0 <= i < j < |cs| :: cs[i].poiId != cs[j].poiId
  }

  ghost predicate ValidWindows(ws: seq<Window>) {
    forall w | w in ws :: w.opens < w.closes
  }

  /** What request parsing has already rejected. */
  ghost predicate ValidRequest(r: Request) {
    && r.days != [] && DistinctDays(r.days) && DistinctPois(r.candidates)
    && (forall c | c in r.candidates :: c.durationMin > 0 && ValidWindows(c.windows) && ValidWindows(c.bestTimeWindows))
    && (forall b | b in r.options.weather :: b.starts < b.ends)
  }

  function WindowsForDay(windows: seq<Window>, dayIndex: nat): (ws: seq<Window>)
    ensures forall w :: w in ws <==> w in windows && w.dayIndex == dayIndex
  {
    if windows == [] then []
    else if windows[0].dayIndex == dayIndex then [windows[0]] + WindowsForDay(windows[1..], dayIndex)
    else WindowsForDay(windows[1..], dayIndex)
  }

  // ------------------------------------------------------------- policy

  function EffectivePacing(o: Options): Pacing {
    if o.pacing.Some? then o.pacing.value
    else if o.age.Some? && o.age.value < 30 then PackedPacing
    else if o.age.Some? && o.age.value >= 60 then RelaxedPacing
    else OtherPacing
  }

  function StartOffsetMin(o: Options): nat {
    if EffectivePacing(o).PackedPacing? then 30 else 0
  }

  function DepartureBufferMin(o: Options): nat {
    var base := match o.departure
      case ByTrain => 45
      case ByFlight => 150
      case ByBus => 40
      case ByFerry => 40
      case OtherDeparture => 0;
    var young := o.age.Some? && o.age.value < 30 && EffectivePacing(o).PackedPacing?;
    var brisk := if young then (if base >= 10 then base - 10 else 0) else base;
    if (o.age.Some? && o.age.value >= 60) || o.limitedMobility
    then brisk + (if o.limitedMobility then 30 else 15)
    else brisk
  }

  /** `effective_deadline`: the deadline less the departure buffer. */
  function Deadline(r: Request, day: Day): Option<Time> {
    if day.endDeadline.None? then None
    else Some(day.endDeadline.value - 60 * DepartureBufferMin(r.options))
  }

  predicate AutoInsertable(c: Candidate) {
    !c.outOfTown || c.accessVerified || c.userForced
  }

  /** Minutes a visit occupies: dwell, access buffer, and rest under relaxed pacing. */
  function VisitMinutes(r: Request, c: Candidate): nat {
    var access := if c.outOfTown && !c.accessVerified then r.options.forcedAccessBufferMin else 0;
    var rest :=
      if EffectivePacing(r.options).RelaxedPacing? then (if c.durationMin < 60 then c.durationMin else 60) else 0;
    c.durationMin + access + rest
  }

  /** Travellers under thirty are paced as packed and those from sixty on as relaxed, unless they say otherwise. */
  lemma PacingByAge(o: Options)
    ensures EffectivePacing(o).PackedPacing? <==>
      o.pacing == Some(PackedPacing) || (o.pacing.None? && o.age.Some? && o.age.value < 30)
    ensures EffectivePacing(o).RelaxedPacing? <==>
      o.pacing == Some(RelaxedPacing) || (o.pacing.None? && o.age.Some? && o.age.value >= 60)
    ensures StartOffsetMin(o) == if EffectivePacing(o).PackedPacing? then 30 else 0
  {}

  /** Minutes to be at the departure early, for somebody of whom nothing is known. */
  lemma PlainBuffers(o: Options)
    requires o.age.None? && !o.limitedMobility
    ensures o.departure.ByTrain? ==> DepartureBufferMin(o) == 45
    ensures o.departure.ByFlight? ==> DepartureBufferMin(o) == 150
    ensures o.departure.ByBus? || o.departure.ByFerry? ==> DepartureBufferMin(o) == 40
    ensures o.departure.OtherDeparture? ==> DepartureBufferMin(o) == 0
  {}

  /**
   * Who travels changes the buffer: limited mobility adds half an hour, otherwise age a quarter;
   * the young who want a packed day come ten minutes later, but never after the departure.
   */
  lemma BuffersByTraveller(o: Options)
    ensures var plain := DepartureBufferMin(o.(age := None, limitedMobility := false));
      var young := o.age.Some? && o.age.value < 30 && (o.pacing.None? || o.pacing.value.PackedPacing?);
      var late := if !young then 0 else if plain < 10 then plain else 10;
      DepartureBufferMin(o) + late
        == plain + (if o.limitedMobility then 30 else if o.age.Some? && o.age.value >= 60 then 15 else 0)
  {}

  /** The day must end its buffer before the deadline. */
  lemma DeadlineIsBuffered(r: Request, day: Day)
    ensures Deadline(r, day).Some? <==> day.endDeadline.Some?
    ensures day.endDeadline.Some? ==>
      Deadline(r, day).value + 60 * DepartureBufferMin(r.options) == day.endDeadline.value
  {}

  /** A visit takes its dwell; under relaxed pacing rest comes on top, and at an unverified place the detour. */
  lemma VisitsTakeTheirTime(r: Request, c: Candidate)
    ensures !EffectivePacing(r.options).RelaxedPacing? && (!c.outOfTown || c.accessVerified) ==>
      VisitMinutes(r, c) == c.durationMin
    ensures EffectivePacing(r.options).RelaxedPacing? && (!c.outOfTown || c.accessVerified) ==>
      VisitMinutes(r, c) == if c.durationMin <= 60 then 2 * c.durationMin else c.durationMin + 60
    ensures c.outOfTown && !c.accessVerified ==>
      VisitMinutes(r, c) == VisitMinutes(r, c.(outOfTown := false)) + r.options.forcedAccessBufferMin
  {}

  // ------------------------------------------------------------- variants

  /** A candidate pinned to one day and one stretch of start times. */
  datatype Variant = Variant(
    key: string, candidate: Candidate, dayIndex: nat,
    opens: Time, latestStart: Time, durationMin: nat, prize: nat)
  {
    function Seconds(): nat {
      60 * durationMin
    }
  }

  function MaxTime(a: Time, b: Time): Time {
    if a >= b then a else b
  }

  function MinTime(a: Time, b: Time): Time {
    if a <= b then a else b
  }
}
