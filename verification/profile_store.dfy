/**
 * The profile store: overlapping loads, saves and erasures, guarded by revision
 * counters.  Each asynchronous operation is two steps, one before its await and one
 * after; a run is any interleaving of such steps.
 */
module ProfileStore {
  import opened Prelude

  type Value = string

  datatype Resource = User | Traveler | Taste

  datatype PerResource<+T> = PerResource(user: T, traveler: T, taste: T) {
    function Of(res: Resource): T {
      match res
      case User => user
      case Traveler => traveler
      case Taste => taste
    }
  }

  datatype LoadStatus = Idle | Loading | Ready | Failed

  /** The store's fields and its four counters. */
  datatype State = State(status: LoadStatus, values: PerResource<Option<Value>>, loadRequest: nat,
                         revisions: PerResource<nat>)

  const START := State(Idle, PerResource(None, None, None), 0, PerResource(0, 0, 0))

  // ------------------------------------------------------------- single steps

  function Bump(r: PerResource<nat>, res: Resource): PerResource<nat> {
    match res
    case User => r.(user := r.user + 1)
    case Traveler => r.(traveler := r.traveler + 1)
    case Taste => r.(taste := r.taste + 1)
  }

  function Put(v: PerResource<Option<Value>>, res: Resource, x: Option<Value>): PerResource<Option<Value>> {
    match res
    case User => v.(user := x)
    case Traveler => v.(traveler := x)
    case Taste => v.(taste := x)
  }

  function LoadBegun(s: State): State {
    s.(loadRequest := s.loadRequest + 1, status := Loading)
  }

  function Fresh(s: State, res: Resource, begun: State, loaded: PerResource<Value>): Option<Value> {
    if s.revisions.Of(res) == begun.revisions.Of(res) then Some(loaded.Of(res)) else s.values.Of(res)
  }

  /** The end of a load whose first step left the store in `begun`; `None` is a failed request. */
  function LoadEnded(s: State, begun: State, loaded: Option<PerResource<Value>>): State {
    if s.loadRequest != begun.loadRequest then s
    else if loaded.None? then s.(status := Failed)
    else
      s.(status := Ready, values := PerResource(
        Fresh(s, User, begun, loaded.value), Fresh(s, Traveler, begun, loaded.value),
       Fresh(s, Taste, begun, loaded.value)))
  }

  function SaveBegun(s: State, res: Resource): State {
    s.(revisions := Bump(s.revisions, res))
  }

  function SaveEnded(s: State, begun: State, res: Resource, saved: Option<Value>): State {
    if saved.Some? && s.revisions.Of(res) == begun.revisions.Of(res) then s.(values := Put(s.values, res, saved)) else s
  }

  function EraseEnded(s: State, erased: bool): State {
    if !erased then s
    else s.(revisions := PerResource(s.revisions.user + 1, s.revisions.traveler + 1, s.revisions.taste + 1),
            values := PerResource(None, None, None))
  }

  // ------------------------------------------------------------- the store

  class Store {
    var status: LoadStatus
    var user: Option<Value>
    var traveler: Option<Value>
    var taste: Option<Value>
    var loadRequest: nat
    var userRevision: nat
    var travelerRevision: nat
    var tasteRevision: nat

    ghost function Now(): State
      reads this
    {
      State(status, PerResource(user, traveler, taste), loadRequest,
          PerResource(userRevision, travelerRevision, tasteRevision))
    }

    constructor ()
      ensures Now() == START
    {
      status, user, traveler, taste := Idle, None, None, None;
      loadRequest, userRevision, travelerRevision, tasteRevision := 0, 0, 0, 0;
    }

    /** `load` up to its await: the request number and the revisions it captured. */
    method BeginLoad() returns (request: nat, revisions: PerResource<nat>)
      modifies this
      ensures Now() == LoadBegun(old(Now()))
      ensures request == Now().loadRequest && revisions == Now().revisions
    {
      loadRequest := loadRequest + 1;
      request := loadRequest;
      revisions := PerResource(userRevision, travelerRevision, tasteRevision);
      status := Loading;
    }

    /** `load` after its await. */
    method EndLoad(request: nat, revisions: PerResource<nat>, loaded: Option<PerResource<Value>>, ghost begun: State)
      requires request == begun.loadRequest && revisions == begun.revisions
      modifies this
      ensures Now() == LoadEnded(old(Now()), begun, loaded)
    {
      if request != loadRequest {
        return;
      }
      if loaded.None? {
        status := Failed;
        return;
      }
      status := Ready;
      user := if userRevision == revisions.user then Some(loaded.value.user) else user;
      traveler := if travelerRevision == revisions.traveler then Some(loaded.value.traveler) else traveler;
      taste := if tasteRevision == revisions.taste then Some(loaded.value.taste) else taste;
    }

    /** `saveProfile`, `saveTraveler` or `saveTaste` up to its await. */
    method BeginSave(res: Resource) returns (revision: nat)
      modifies this
      ensures Now() == SaveBegun(old(Now()), res)
      ensures revision == Now().revisions.Of(res)
    {
      match res {
        case User => userRevision := userRevision + 1; revision := userRevision;
        case Traveler => travelerRevision := travelerRevision + 1; revision := travelerRevision;
        case Taste => tasteRevision := tasteRevision + 1; revision := tasteRevision;
      }
    }

    method EndSave(res: Resource, revision: nat, saved: Option<Value>, ghost begun: State)
      requires revision == begun.revisions.Of(res)
      modifies this
      ensures Now() == SaveEnded(old(Now()), begun, res, saved)
    {
      if saved.None? {
        return;
      }
      match res {
        case User => if revision == userRevision { user := saved; }
        case Traveler => if revision == travelerRevision { traveler := saved; }
        case Taste => if revision == tasteRevision { taste := saved; }
      }
    }

    /** `eraseAccount` after its await. */
    method EndErase(erased: bool)
      modifies this
      ensures Now() == EraseEnded(old(Now()), erased)
    {
      if erased {
        userRevision := userRevision + 1;
        travelerRevision := travelerRevision + 1;
        tasteRevision := tasteRevision + 1;
        user, traveler, taste := None, None, None;
      }
    }
  }

  // ------------------------------------------------------------- interleavings

  /** One step of a run.  An end names the position of the step that began the operation. */
  datatype Event =
    | LoadBegin
    | LoadEnd(from: nat, loaded: Option<PerResource<Value>>)
    | SaveBegin(res: Resource)
    | SaveEnd(from: nat, res: Resource, saved: Option<Value>)
    | EraseEnd(erased: bool)

  /** Every end has an earlier begin of its own kind. */
  ghost predicate WellFormed(events: seq<Event>) {
    forall j | 0 <= j < |events| ::
      match events[j]
      case LoadEnd(i, _) => i < j && events[i].LoadBegin?
      case SaveEnd(i, res, _) => i < j && events[i] == SaveBegin(res)
      case _ => true
  }

  /** The store after the first `k` steps. */
  ghost function After(events: seq<Event>, k: nat): State
    requires WellFormed(events) && k <= |events|
  {
    if k == 0 then START
    else
      var s := After(events, k - 1);
      match events[k - 1]
      case LoadBegin => LoadBegun(s)
      case LoadEnd(i, loaded) => LoadEnded(s, After(events, i + 1), loaded)
      case SaveBegin(res) => SaveBegun(s, res)
      case SaveEnd(i, res, saved) => SaveEnded(s, After(events, i + 1), res, saved)
      case EraseEnd(erased) => EraseEnded(s, erased)
  }

  /** Steps that make earlier operations on the resource stale. */
  predicate Supersedes(e: Event, res: Resource) {
    e == SaveBegin(res) || e == EraseEnd(true)
  }

  ghost predicate Superseded(events: seq<Event>, res: Resource, i: nat, j: nat)
    requires i <= j <= |events|
  {
    exists k | i <= k < j :: Supersedes(events[k], res)
  }

  ghost predicate LaterLoad(events: seq<Event>, i: nat, j: nat)
    requires i <= j <= |events|
  {
    exists k | i <= k < j :: events[k].LoadBegin?
  }

  /** A revision is unchanged exactly while nothing supersedes. */
  lemma {:induction false} RevisionTellsSuperseded(events: seq<Event>, res: Resource, i: nat, j: nat)
    requires WellFormed(events) && i <= j <= |events|
    ensures After(events, i).revisions.Of(res) <= After(events, j).revisions.Of(res)
    ensures After(events, i).revisions.Of(res) == After(events, j).revisions.Of(res) <==> !Superseded(events, res, i, j)
    decreases j
  {
    if i >= j {
    } else {
      RevisionTellsSuperseded(events, res, i, j - 1);
      assert Superseded(events, res, i, j) <==> Superseded(events, res, i, j - 1) || Supersedes(events[j - 1], res);
    }
  }

  lemma {:induction false} RequestTellsLaterLoad(events: seq<Event>, i: nat, j: nat)
    requires WellFormed(events) && i <= j <= |events|
    ensures After(events, i).loadRequest <= After(events, j).loadRequest
    ensures After(events, i).loadRequest == After(events, j).loadRequest <==> !LaterLoad(events, i, j)
    decreases j
  {
    if i >= j {
    } else {
      RequestTellsLaterLoad(events, i, j - 1);
      assert LaterLoad(events, i, j) <==> LaterLoad(events, i, j - 1) || events[j - 1].LoadBegin?;
    }
  }

  /**
   * In any interleaving, what a load does to a resource when it ends: nothing if a newer
   * load began, or a save of that resource began, or an erasure completed after it began;
   * otherwise it stores what it loaded.
   */
  lemma LoadWritesExactly(events: seq<Event>, j: nat, res: Resource)
    requires WellFormed(events) && j < |events| && events[j].LoadEnd?
    ensures var i, before, after := events[j].from, After(events, j), After(events, j + 1);
      if LaterLoad(events, i + 1, j) then after == before
      else if events[j].loaded.None? || Superseded(events, res, i + 1, j)
          then after.values.Of(res) == before.values.Of(res)
      else after.values.Of(res) == Some(events[j].loaded.value.Of(res))
  {
    var i := events[j].from;
    RequestTellsLaterLoad(events, i + 1, j);
    RevisionTellsSuperseded(events, res, i + 1, j);
  }

  /** What a load makes of the status when it ends: ready or failed, unless a newer load began. */
  lemma LoadSettles(events: seq<Event>, j: nat)
    requires WellFormed(events) && j < |events| && events[j].LoadEnd?
    ensures var before, after := After(events, j), After(events, j + 1);
      if LaterLoad(events, events[j].from + 1, j) then after == before
      else after.status == if events[j].loaded.Some? then Ready else Failed
  {
    RequestTellsLaterLoad(events, events[j].from + 1, j);
  }

  /** No load began in the first `k` steps. */
  ghost predicate NoLoadYet(events: seq<Event>, k: nat)
    requires k <= |events|
  {
    forall i | 0 <= i < k :: !events[i].LoadBegin?
  }

  /** Step `i` began the latest load of the first `k` steps, and it has not ended. */
  ghost predicate InFlight(events: seq<Event>, i: nat, k: nat)
    requires k <= |events|
  {
    && i < k && events[i].LoadBegin? && !LaterLoad(events, i + 1, k)
    && forall j | i < j < k && events[j].LoadEnd? :: events[j].from != i
  }

  ghost predicate LoadInFlight(events: seq<Event>, k: nat)
    requires k <= |events|
  {
    exists i: nat :: InFlight(events, i, k)
  }

  /**
   * The status in every reachable state: idle until a load begins, and loading exactly while
   * the latest load is under way; saves and erasures do not touch it.
   */
  lemma {:induction false} StatusFollowsLoads(events: seq<Event>, k: nat)
    requires WellFormed(events) && k <= |events|
    ensures After(events, k).status == Idle <==> NoLoadYet(events, k)
    ensures After(events, k).status == Loading <==> LoadInFlight(events, k)
  {
    hide After;
    if k == 0 {
      StartsIdle(events);
    } else {
      var last := k - 1;
      StatusFollowsLoads(events, last);
      StatusMoves(events, last);
      match events[last] {
        case LoadBegin =>
          assert InFlight(events, last, k);
        case LoadEnd(from, loaded) =>
          EndOfLoad(events, last);
        case _ =>
          FlightsStay(events, last);
      }
    }
  }

  lemma StartsIdle(events: seq<Event>)
    requires WellFormed(events)
    ensures After(events, 0).status == Idle
  {}

  lemma StatusMoves(events: seq<Event>, k: nat)
    requires WellFormed(events) && k < |events|
    ensures var before, after := After(events, k).status, After(events, k + 1).status;
      match events[k]
      case LoadBegin => after == Loading
      case LoadEnd(from, loaded) =>
        after == if LaterLoad(events, from + 1, k) then before else if loaded.Some? then Ready else Failed
      case _ => after == before
  {
    if events[k].LoadEnd? {
      LoadSettles(events, k);
    }
  }

  /** An end that is not the latest load's leaves that one in flight; otherwise none is. */
  lemma EndOfLoad(events: seq<Event>, k: nat)
    requires WellFormed(events) && k < |events| && events[k].LoadEnd?
    ensures !NoLoadYet(events, k) && !NoLoadYet(events, k + 1)
    ensures LoadInFlight(events, k + 1) <==> LaterLoad(events, events[k].from + 1, k) && LoadInFlight(events, k)
  {
    var from, next := events[k].from, k + 1;
    forall i: nat | i < k && i != from
      ensures InFlight(events, i, next) <==> InFlight(events, i, k)
    {
      NoLoadAt(events, i + 1, k);
    }
    if LoadInFlight(events, next) {
      var i: nat :| InFlight(events, i, next);
      assert i < k && i != from;
      assert InFlight(events, i, k);
    }
  }

  lemma NoLoadAt(events: seq<Event>, i: nat, k: nat)
    requires i <= k < |events| && !events[k].LoadBegin?
    ensures LaterLoad(events, i, k + 1) <==> LaterLoad(events, i, k)
  {}

  lemma FlightsStay(events: seq<Event>, k: nat)
    requires WellFormed(events) && k < |events| && !events[k].LoadBegin? && !events[k].LoadEnd?
    ensures LoadInFlight(events, k) <==> LoadInFlight(events, k + 1)
    ensures NoLoadYet(events, k) <==> NoLoadYet(events, k + 1)
  {
    var next := k + 1;
    forall i: nat | i < k
      ensures InFlight(events, i, next) <==> InFlight(events, i, k)
    {
      NoLoadAt(events, i + 1, k);
    }
    if LoadInFlight(events, next) {
      var i: nat :| InFlight(events, i, next);
      assert InFlight(events, i, k);
    }
    if LoadInFlight(events, k) {
      var i: nat :| InFlight(events, i, k);
      assert InFlight(events, i, next);
    }
  }

  /** A save writes its resource exactly if it succeeded and nothing superseded it, and never touches another. */
  lemma SaveWritesExactly(events: seq<Event>, j: nat, res: Resource)
    requires WellFormed(events) && j < |events| && events[j].SaveEnd?
    ensures var e, before, after := events[j], After(events, j), After(events, j + 1);
      after.values.Of(res) ==
        if res == e.res && e.saved.Some? && !Superseded(events, res, e.from + 1, j) then e.saved
            else before.values.Of(res)
  {
    RevisionTellsSuperseded(events, res, events[j].from + 1, j);
  }

  /** Position of the step that began the operation ending at `j`. */
  ghost predicate BegunBefore(events: seq<Event>, j: nat, k: nat)
    requires j < |events|
  {
    (events[j].LoadEnd? || events[j].SaveEnd?) && events[j].from < k
  }

  /** Once an erasure completes, no operation begun before it changes any resource. */
  lemma NothingOutlivesErasure(events: seq<Event>, k: nat, j: nat, res: Resource)
    requires WellFormed(events) && k < j < |events| && events[k] == EraseEnd(true) && BegunBefore(events, j, k)
    ensures After(events, k + 1).values.Of(res) == None
    ensures After(events, j + 1).values.Of(res) == After(events, j).values.Of(res)
  {
    assert Supersedes(events[k], res);
    if events[j].LoadEnd? {
      LoadWritesExactly(events, j, res);
    } else {
      SaveWritesExactly(events, j, res);
    }
  }

  /** After an erasure a resource stays empty until an operation begun later writes it. */
  lemma {:induction false} ErasedUntilNewWork(events: seq<Event>, k: nat, j: nat, res: Resource)
    requires WellFormed(events) && k < j <= |events| && events[k] == EraseEnd(true)
    requires forall m | k < m < j :: BegunBefore(events, m, k) || !(events[m].LoadEnd? || events[m].SaveEnd?)
    ensures After(events, j).values.Of(res) == None
    decreases j
  {
    if j == k + 1 {
    } else {
      ErasedUntilNewWork(events, k, j - 1, res);
      if BegunBefore(events, j - 1, k) {
        NothingOutlivesErasure(events, k, j - 1, res);
      }
    }
  }

  /**
   * The guard does not cover a load begun while a save is in flight: it may store an
   * older answer over the value the save has just confirmed.
   */
  lemma LoadDuringSaveMayOverwrite(saved: Value, stale: Value)
    ensures var loaded := PerResource(stale, stale, stale);
      var events := [SaveBegin(User), LoadBegin, SaveEnd(0, User, Some(saved)), LoadEnd(1, Some(loaded))];
      && WellFormed(events)
      && After(events, 3).values.user == Some(saved)
      && After(events, 4).values.user == Some(stale)
  {
    var loaded := PerResource(stale, stale, stale);
    var events := [SaveBegin(User), LoadBegin, SaveEnd(0, User, Some(saved)), LoadEnd(1, Some(loaded))];
    assert After(events, 0) == START;
    assert After(events, 1) == SaveBegun(START, User);
    assert After(events, 2) == LoadBegun(After(events, 1));
    assert After(events, 3) == SaveEnded(After(events, 2), After(events, 1), User, Some(saved));
    assert After(events, 4) == LoadEnded(After(events, 3), After(events, 2), Some(loaded));
  }
}
