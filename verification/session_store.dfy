/**
 * The session store: refresh, callback, sign-out and expiry under one revision counter,
 * over every interleaving of their steps.
 */
module SessionStore {
  import opened Prelude

  type UserId = string
  type Path = string

  const SIGN_IN_PATH: Path := "/auth/sign-in"

  datatype Status = Loading | Anonymous | Authenticated | Expired | Unavailable

  /** The server's answer to a probe or callback. */
  datatype Answer = SignedIn(user: UserId) | SignedOut | SessionGone

  /**
   * Store fields, the persisted return path, the revision counter, and what left the
   * store: navigations, and replayed actions.
   */
  datatype State = State(
    status: Status, user: Option<UserId>, redirectTo: Option<Path>, resume: Option<string>,
    persisted: Option<Path>, revision: nat, visited: seq<Path>, replayed: seq<string>)

  const START := State(Loading, None, None, None, None, 0, [], [])

  /** Return-path normalisation and the recognition of paths under "/auth/" are parameters. */
  datatype Paths = Paths(normalize: Option<Path> -> Path, underAuth: Path -> bool)

  function FirstOf(a: Option<Path>, b: Option<Path>): Option<Path> {
    if a.Some? then a else b
  }

  // ------------------------------------------------------------- single steps

  function AuthBegun(p: Paths, s: State, fromPath: Path, resume: Option<string>): State {
    var target := p.normalize(Some(fromPath));
    s.(persisted := Some(target), redirectTo := Some(target), resume := resume)
  }

  function RefreshBegun(s: State): State {
    s.(revision := s.revision + 1, status := Loading)
  }

  function RevisionTaken(s: State): State {
    s.(revision := s.revision + 1)
  }

  /** `reportExpired`. */
  function ExpiryReported(p: Paths, s: State, currentPath: Path): State {
    var current := p.normalize(Some(currentPath));
    var target := if p.underAuth(current) then p.normalize(FirstOf(s.redirectTo, s.persisted)) else current;
    s.(revision := s.revision + 1, persisted := Some(target), status := Expired, user := None,
       redirectTo := Some(target), visited := s.visited + [SIGN_IN_PATH])
  }

  function RefreshEnded(p: Paths, s: State, revision: nat, answer: Option<Answer>, currentPath: Path): State {
    if s.revision != revision || answer.None? then s
    else match answer.value
      case SignedIn(user) => s.(status := Authenticated, user := Some(user))
      case SessionGone => ExpiryReported(p, s, currentPath)
      case SignedOut => s.(status := Anonymous, user := None)
  }

  function CallbackEnded(p: Paths, s: State, revision: nat, answer: Option<Answer>, currentPath: Path): State {
    if answer.None? || s.revision != revision then s
    else match answer.value
      case SignedIn(user) =>
        var target := p.normalize(FirstOf(s.redirectTo, s.persisted));
        s.(persisted := None, status := Authenticated, user := Some(user), redirectTo := None, resume := None,
           visited := s.visited + [target],
           replayed := if s.resume.Some? then s.replayed + [s.resume.value] else s.replayed)
      case _ => ExpiryReported(p, s, currentPath)
  }

  function SignOutEnded(s: State, revision: nat, revoked: bool): State {
    if !revoked || s.revision != revision then s
    else s.(persisted := None, status := Anonymous, user := None, redirectTo := None, resume := None)
  }

  /** The mount-time recovery from a failed probe; it is not guarded. */
  function Recovered(s: State): State {
    s.(status := Unavailable, user := None)
  }

  // ------------------------------------------------------------- the store

  class Store {
    const paths: Paths
    var status: Status
    var user: Option<UserId>
    var redirectTo: Option<Path>
    var resume: Option<string>
    var persisted: Option<Path>
    var sessionRevision: nat
    var visited: seq<Path>
    var replayed: seq<string>

    ghost function Now(): State
      reads this
    {
      State(status, user, redirectTo, resume, persisted, sessionRevision, visited, replayed)
    }

    constructor (paths: Paths)
      ensures Now() == START && this.paths == paths
    {
      this.paths := paths;
      status, user, redirectTo, resume, persisted := Loading, None, None, None, None;
      sessionRevision, visited, replayed := 0, [], [];
    }

    method BeginAuth(fromPath: Path, resume: Option<string>)
      modifies this
      ensures Now() == AuthBegun(paths, old(Now()), fromPath, resume)
    {
      var target := paths.normalize(Some(fromPath));
      persisted := Some(target);
      redirectTo := Some(target);
      this.resume := resume;
    }

    /** `refresh` up to its await. */
    method BeginRefresh() returns (revision: nat)
      modifies this
      ensures Now() == RefreshBegun(old(Now())) && revision == Now().revision
    {
      sessionRevision := sessionRevision + 1;
      revision := sessionRevision;
      status := Loading;
    }

    method EndRefresh(revision: nat, answer: Option<Answer>, currentPath: Path)
      modifies this
      ensures Now() == RefreshEnded(paths, old(Now()), revision, answer, currentPath)
    {
      if answer.None? || revision != sessionRevision {
        return;
      }
      match answer.value {
        case SignedIn(u) => status, user := Authenticated, Some(u);
        case SessionGone => ReportExpired(currentPath);
        case SignedOut => status, user := Anonymous, None;
      }
    }

    /** `completeAuth` or `signOut` up to its await. */
    method TakeRevision() returns (revision: nat)
      modifies this
      ensures Now() == RevisionTaken(old(Now())) && revision == Now().revision
    {
      sessionRevision := sessionRevision + 1;
      revision := sessionRevision;
    }

    method EndCallback(revision: nat, answer: Option<Answer>, currentPath: Path)
      modifies this
      ensures Now() == CallbackEnded(paths, old(Now()), revision, answer, currentPath)
    {
      if answer.None? || revision != sessionRevision {
        return;
      }
      if !answer.value.SignedIn? {
        ReportExpired(currentPath);
        return;
      }
      var target := paths.normalize(FirstOf(redirectTo, persisted));
      var pending := resume;
      persisted := None;
      status, user, redirectTo, resume := Authenticated, Some(answer.value.user), None, None;
      visited := visited + [target];
      if pending.Some? {
        replayed := replayed + [pending.value];
      }
    }

    method EndSignOut(revision: nat, revoked: bool)
      modifies this
      ensures Now() == SignOutEnded(old(Now()), revision, revoked)
    {
      if !revoked || revision != sessionRevision {
        return;
      }
      persisted := None;
      status, user, redirectTo, resume := Anonymous, None, None, None;
    }

    method ReportExpired(currentPath: Path)
      modifies this
      ensures Now() == ExpiryReported(paths, old(Now()), currentPath)
    {
      sessionRevision := sessionRevision + 1;
      var current := paths.normalize(Some(currentPath));
      var target := if paths.underAuth(current) then paths.normalize(FirstOf(redirectTo, persisted)) else current;
      persisted := Some(target);
      status, user, redirectTo := Expired, None, Some(target);
      visited := visited + [SIGN_IN_PATH];
    }

    method Recover()
      modifies this
      ensures Now() == Recovered(old(Now()))
    {
      status, user := Unavailable, None;
    }
  }

  // ------------------------------------------------------------- interleavings

  /** One step of a run; an end names the position of its begin. */
  datatype Event =
    | AuthBegin(fromPath: Path, resume: Option<string>)
    | RefreshBegin
    | RefreshEnd(from: nat, answer: Option<Answer>, currentPath: Path)
    | CallbackBegin
    | CallbackEnd(from: nat, answer: Option<Answer>, currentPath: Path)
    | SignOutBegin
    | SignOutEnd(from: nat, revoked: bool)
    | ExpiryReport(currentPath: Path)
    | Recovery

  ghost predicate WellFormed(events: seq<Event>) {
    forall j | 0 <= j < |events| ::
      match events[j]
      case RefreshEnd(i, _, _) => i < j && events[i].RefreshBegin?
      case CallbackEnd(i, _, _) => i < j && events[i].CallbackBegin?
      case SignOutEnd(i, _) => i < j && events[i].SignOutBegin?
      case _ => true
  }

  ghost function Step(p: Paths, s: State, e: Event, revision: nat): State {
    match e
    case AuthBegin(path, resume) => AuthBegun(p, s, path, resume)
    case RefreshBegin => RefreshBegun(s)
    case RefreshEnd(_, answer, path) => RefreshEnded(p, s, revision, answer, path)
    case CallbackBegin => RevisionTaken(s)
    case CallbackEnd(_, answer, path) => CallbackEnded(p, s, revision, answer, path)
    case SignOutBegin => RevisionTaken(s)
    case SignOutEnd(_, revoked) => SignOutEnded(s, revision, revoked)
    case ExpiryReport(path) => ExpiryReported(p, s, path)
    case Recovery => Recovered(s)
  }

  predicate IsEnd(e: Event) {
    e.RefreshEnd? || e.CallbackEnd? || e.SignOutEnd?
  }

  ghost function After(p: Paths, events: seq<Event>, k: nat): State
    requires WellFormed(events) && k <= |events|
  {
    if k == 0 then START
    else
      var e := events[k - 1];
      Step(p, After(p, events, k - 1), e, if IsEnd(e) then After(p, events, e.from + 1).revision else 0)
  }

  /** Step `k` takes or passes a revision: a newer operation begins, or an expiry is reported. */
  ghost predicate TakesOver(p: Paths, events: seq<Event>, k: nat)
    requires WellFormed(events) && k < |events|
  {
    After(p, events, k + 1).revision != After(p, events, k).revision
  }

  /** Beginning any session operation, or reporting expiry, always takes over. */
  lemma BeginsTakeOver(p: Paths, events: seq<Event>, k: nat)
    requires WellFormed(events) && k < |events|
    ensures var e := events[k];
      e.RefreshBegin? || e.CallbackBegin? || e.SignOutBegin? || e.ExpiryReport? ==> TakesOver(p, events, k)
    ensures After(p, events, k).revision <= After(p, events, k + 1).revision
  {}

  lemma {:induction false} RevisionTellsTakeover(p: Paths, events: seq<Event>, i: nat, j: nat)
    requires WellFormed(events) && i <= j <= |events|
    ensures After(p, events, i).revision <= After(p, events, j).revision
    ensures After(p, events, i).revision == After(p, events, j).revision <==>
      forall k | i <= k < j :: !TakesOver(p, events, k)
    decreases j
  {
    hide After;
    if i >= j {
    } else {
      var last := j - 1;
      RevisionTellsTakeover(p, events, i, last);
      BeginsTakeOver(p, events, last);
      assert TakesOver(p, events, last) <==> After(p, events, j).revision != After(p, events, last).revision;
      assert (forall k | i <= k < j :: !TakesOver(p, events, k)) <==>
        (forall k | i <= k < last :: !TakesOver(p, events, k)) && !TakesOver(p, events, last);
    }
  }

  /** Only the operation begun last applies its answer: an end after a takeover changes nothing at all. */
  lemma StaleAnswersAreDropped(p: Paths, events: seq<Event>, k: nat, j: nat)
    requires WellFormed(events) && j < |events| && IsEnd(events[j]) && events[j].from < k < j
    requires events[k].RefreshBegin? || events[k].CallbackBegin? || events[k].SignOutBegin? || events[k].ExpiryReport?
    ensures After(p, events, j + 1) == After(p, events, j)
  {
    BeginsTakeOver(p, events, k);
    RevisionTellsTakeover(p, events, events[j].from + 1, j);
  }

  /** And an end with nothing newer applies its answer. */
  lemma CurrentAnswersApply(p: Paths, events: seq<Event>, j: nat)
    requires WellFormed(events) && j < |events| && (events[j].RefreshEnd? || events[j].CallbackEnd?)
    requires events[j].answer.Some?
    requires forall k | events[j].from < k < j :: !TakesOver(p, events, k)
    ensures var s := After(p, events, j + 1);
      match events[j].answer.value
      case SignedIn(user) => s.status.Authenticated? && s.user == Some(user)
      case SessionGone => s.status.Expired? && s.user.None?
      case SignedOut => s.user.None? && (if events[j].RefreshEnd? then s.status.Anonymous? else s.status.Expired?)
  {
    RevisionTellsTakeover(p, events, events[j].from + 1, j);
  }

  /** In every reachable state an authenticated session has a user. */
  lemma {:induction false} AuthenticatedHasUser(p: Paths, events: seq<Event>, k: nat)
    requires WellFormed(events) && k <= |events|
    ensures After(p, events, k).status.Authenticated? ==> After(p, events, k).user.Some?
  {
    if k == 0 {
    } else {
      AuthenticatedHasUser(p, events, k - 1);
    }
  }

  /** The actions stashed by the first `k` steps, each as often as it was stashed. */
  ghost function Gated(events: seq<Event>, k: nat): multiset<string>
    requires k <= |events|
  {
    if k == 0 then multiset{}
    else
      var before := Gated(events, k - 1);
      match events[k - 1]
      case AuthBegin(_, Some(action)) => before + multiset{action}
      case _ => before
  }

  ghost function Pending(s: State): multiset<string> {
    multiset(s.replayed) + (if s.resume.Some? then multiset{s.resume.value} else multiset{})
  }

  /**
   * In every reachable state each gated action was replayed, or is still pending, at most as
   * often as it was stashed: a replay consumes the stash, and nothing else is ever replayed.
   */
  lemma {:induction false} EachActionReplaysOnce(p: Paths, events: seq<Event>, k: nat)
    requires WellFormed(events) && k <= |events|
    ensures Pending(After(p, events, k)) <= Gated(events, k)
  {
    hide Pending, Gated, After;
    if k == 0 {
      NothingPendingAtStart(p, events);
    } else {
      EachActionReplaysOnce(p, events, k - 1);
      PendingFollowsGating(p, events, k - 1);
    }
  }

  lemma NothingPendingAtStart(p: Paths, events: seq<Event>)
    requires WellFormed(events)
    ensures Pending(After(p, events, 0)) <= Gated(events, 0)
  {}

  lemma PendingFollowsGating(p: Paths, events: seq<Event>, k: nat)
    requires WellFormed(events) && k < |events| && Pending(After(p, events, k)) <= Gated(events, k)
    ensures Pending(After(p, events, k + 1)) <= Gated(events, k + 1)
  {
    hide Pending, Step;
    var e := events[k];
    PendingOnlyGrowsByGating(p, After(p, events, k), e, if IsEnd(e) then After(p, events, e.from + 1).revision else 0);
    GatedNow(events, k);
  }

  lemma GatedNow(events: seq<Event>, k: nat)
    requires k < |events|
    ensures var e := events[k];
      Gated(events, k + 1) == Gated(events, k)
          + (if e.AuthBegin? && e.resume.Some? then multiset{e.resume.value} else multiset{})
  {}

  lemma PendingOnlyGrowsByGating(p: Paths, s: State, e: Event, revision: nat)
    ensures var gated := if e.AuthBegin? && e.resume.Some? then multiset{e.resume.value} else multiset{};
      Pending(Step(p, s, e, revision)) <= Pending(s) + gated
  {
    hide CallbackEnded, RefreshEnded, ExpiryReported, AuthBegun;
    match e {
      case AuthBegin(path, action) => GatingAdds(p, s, path, action);
      case CallbackEnd(_, answer, path) => CallbackConsumes(p, s, revision, answer, path);
      case RefreshEnd(_, answer, path) => RefreshKeepsPending(p, s, revision, answer, path);
      case ExpiryReport(path) => ExpiryKeepsPending(p, s, path);
      case _ =>
    }
  }

  lemma GatingAdds(p: Paths, s: State, path: Path, action: Option<string>)
    ensures Pending(AuthBegun(p, s, path, action)) <= Pending(s)
        + (if action.Some? then multiset{action.value} else multiset{})
  {}

  lemma RefreshKeepsPending(p: Paths, s: State, revision: nat, answer: Option<Answer>, path: Path)
    ensures Pending(RefreshEnded(p, s, revision, answer, path)) == Pending(s)
  {}

  lemma CallbackConsumes(p: Paths, s: State, revision: nat, answer: Option<Answer>, path: Path)
    ensures Pending(CallbackEnded(p, s, revision, answer, path)) <= Pending(s)
  {
    hide ExpiryReported;
    ExpiryKeepsPending(p, s, path);
    if s.resume.Some? {
      assert multiset(s.replayed + [s.resume.value]) == multiset(s.replayed) + multiset{s.resume.value};
    }
  }

  lemma ExpiryKeepsPending(p: Paths, s: State, path: Path)
    ensures Pending(ExpiryReported(p, s, path)) == Pending(s)
  {}

  // ------------------------------------------------------------- what answers bring about

  /** No newer operation took over between the begin of step `j` and its end. */
  ghost predicate Current(p: Paths, events: seq<Event>, j: nat)
    requires WellFormed(events) && j < |events| && IsEnd(events[j])
  {
    forall k | events[j].from < k < j :: !TakesOver(p, events, k)
  }

  /** A current, confirmed sign-out forgets the user, the way back and the stashed action, and nothing else happens. */
  lemma SignOutForgets(p: Paths, events: seq<Event>, j: nat)
    requires WellFormed(events) && j < |events| && events[j].SignOutEnd?
    requires Current(p, events, j) && events[j].revoked
    ensures var before, s := After(p, events, j), After(p, events, j + 1);
      && s.status.Anonymous? && s.user.None? && s.redirectTo.None? && s.persisted.None? && s.resume.None?
      && s.visited == before.visited && s.replayed == before.replayed
  {
    RevisionTellsTakeover(p, events, events[j].from + 1, j);
  }

  /**
   * A current callback that finds a session goes to the remembered path, then runs the stashed
   * action once, and forgets both.
   */
  lemma CallbackResumes(p: Paths, events: seq<Event>, j: nat)
    requires WellFormed(events) && j < |events| && events[j].CallbackEnd? && Current(p, events, j)
    requires events[j].answer.Some? && events[j].answer.value.SignedIn?
    ensures var before, s := After(p, events, j), After(p, events, j + 1);
      var back := if before.redirectTo.Some? then before.redirectTo else before.persisted;
      && s.visited == before.visited + [p.normalize(back)]
      && s.replayed == before.replayed + (if before.resume.Some? then [before.resume.value] else [])
      && s.resume.None? && s.redirectTo.None? && s.persisted.None?
  {
    RevisionTellsTakeover(p, events, events[j].from + 1, j);
  }

  /** A callback without a session, and a refresh that finds it gone, report the expiry. */
  lemma LostSessionsExpire(p: Paths, events: seq<Event>, j: nat)
    requires WellFormed(events) && j < |events| && (events[j].CallbackEnd? || events[j].RefreshEnd?)
    requires Current(p, events, j) && events[j].answer.Some?
    requires if events[j].CallbackEnd? then !events[j].answer.value.SignedIn? else events[j].answer.value.SessionGone?
    ensures After(p, events, j + 1) == ExpiryReported(p, After(p, events, j), events[j].currentPath)
  {
    RevisionTellsTakeover(p, events, events[j].from + 1, j);
  }

  /** The way back and the stashed action are as captured at `path`. */
  ghost predicate Remembers(p: Paths, s: State, path: Path, action: Option<string>) {
    s.redirectTo == s.persisted == Some(p.normalize(Some(path))) && s.resume == action
  }

  /** Steps that leave the way back and the stash alone. */
  predicate Unrelated(e: Event) {
    e.RefreshBegin? || e.CallbackBegin? || e.SignOutBegin? || e.Recovery?
    || (e.RefreshEnd? && (e.answer.None? || !e.answer.value.SessionGone?)) || (e.SignOutEnd? && !e.revoked)
  }

  /** Where an expiry is reported, that place is where to come back to; on a sign-in page it is the earlier one. */
  lemma ExpiryRemembers(p: Paths, events: seq<Event>, i: nat)
    requires WellFormed(events) && i < |events| && events[i].ExpiryReport?
    ensures var before, s := After(p, events, i), After(p, events, i + 1);
      var here := p.normalize(Some(events[i].currentPath));
      var back := if before.redirectTo.Some? then before.redirectTo else before.persisted;
      && s.status.Expired? && s.user.None? && s.visited == before.visited + ["/auth/sign-in"]
      && s.redirectTo == s.persisted == Some(if p.underAuth(here) then p.normalize(back) else here)
      && s.resume == before.resume && s.replayed == before.replayed
  {}

  lemma {:induction false} StaysRemembered(p: Paths, events: seq<Event>, i: nat, j: nat, path: Path,
                                           action: Option<string>)
    requires WellFormed(events) && i <= j <= |events| && Remembers(p, After(p, events, i), path, action)
    requires forall k | i <= k < j :: Unrelated(events[k])
    ensures Remembers(p, After(p, events, j), path, action)
    decreases j
  {
    if i == j {
    } else {
      StaysRemembered(p, events, i, j - 1, path, action);
    }
  }

  /**
   * The round trip: an action gated at `path` is run once the callback succeeds, after going
   * back to `path`, whatever probes, sign-in attempts and failed sign-outs lie between.
   */
  lemma GatedActionComesBack(p: Paths, events: seq<Event>, i: nat, j: nat)
    requires WellFormed(events) && i < j < |events| && events[i].AuthBegin?
    requires forall k | i < k < j :: Unrelated(events[k])
    requires events[j].CallbackEnd? && Current(p, events, j)
    requires events[j].answer.Some? && events[j].answer.value.SignedIn?
    ensures var before, s := After(p, events, j), After(p, events, j + 1);
      && s.visited == before.visited + [p.normalize(Some(p.normalize(Some(events[i].fromPath))))]
      && s.replayed == before.replayed + (if events[i].resume.Some? then [events[i].resume.value] else [])
  {
    hide After;
    assert Remembers(p, After(p, events, i + 1), events[i].fromPath, events[i].resume) by {
      GateRemembers(p, events, i);
    }
    StaysRemembered(p, events, i + 1, j, events[i].fromPath, events[i].resume);
    CallbackResumes(p, events, j);
  }

  lemma GateRemembers(p: Paths, events: seq<Event>, i: nat)
    requires WellFormed(events) && i < |events| && events[i].AuthBegin?
    ensures Remembers(p, After(p, events, i + 1), events[i].fromPath, events[i].resume)
  {}

  /** A probe shows as loading from its begin; a failed mount-time probe as unavailable, without a user. */
  lemma ProbesShow(p: Paths, events: seq<Event>, i: nat)
    requires WellFormed(events) && i < |events|
    ensures events[i].RefreshBegin? ==> After(p, events, i + 1).status.Loading?
    ensures events[i].Recovery? ==> After(p, events, i + 1).status.Unavailable? && After(p, events, i + 1).user.None?
  {}
}
