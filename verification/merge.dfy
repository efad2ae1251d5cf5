/**
 * The preference-merge engine: hard vetoes, averaged soft scores, and the misery
 * threshold, stated over the panel of (member, vote) pairs so that nobody's place in the
 * list can matter.
 */
module Merge {
  import opened Prelude
  import opened Sorting

  datatype Vote = Up | Down

  datatype BudgetTier = Budget | Moderate | Comfort | Luxury

  datatype Mobility = Full | Limited | Stroller | Wheelchair

  datatype Member = Member(
    interests: seq<string>, antiPreferences: seq<string>, hardExclusions: seq<string>, dietary: seq<string>,
    budgetTier: BudgetTier, mobility: Mobility)

  datatype Candidate = Candidate(
    poiId: string, category: string, tags: Option<seq<string>>, priceTier: Option<BudgetTier>, votes: seq<Option<Vote>>)

  datatype Flag = HardExclusion | Dietary | OverBudget | NoAccess | Misery

  datatype Score = Score(poiId: string, score: real, excluded: bool, flags: seq<Flag>, up: nat, down: nat,
                         memberCount: nat)

  function BudgetRank(t: BudgetTier): nat {
    match t case Budget => 0 case Moderate => 1 case Comfort => 2 case Luxury => 3
  }

  function MobilityRank(m: Mobility): nat {
    match m case Full => 0 case Limited => 1 case Stroller => 2 case Wheelchair => 3
  }

  function RequiredTag(m: Mobility): Option<string> {
    match m
    case Full => None
    case Limited => Some("step_free")
    case Stroller => Some("stroller_friendly")
    case Wheelchair => Some("wheelchair_accessible")
  }

  function Clamp(x: real): real {
    if x < -1.0 then -1.0 else if x > 1.0 then 1.0 else x
  }

  // ------------------------------------------------------------- the panel

  /** A member with the vote at the same index; a missing vote is no vote. */
  datatype Seat = Seat(member: Member, vote: Option<Vote>)

  function VoteAt(c: Candidate, i: nat): Option<Vote> {
    if i < |c.votes| then c.votes[i] else None
  }

  function Panel(members: seq<Member>, c: Candidate): (p: seq<Seat>)
    ensures |p| == |members| && forall i | 0 <= i < |members| :: p[i] == Seat(members[i], VoteAt(c, i))
  {
    seq(|members|, i requires 0 <= i < |members| => Seat(members[i], VoteAt(c, i)))
  }

  predicate Describes(c: Candidate, token: string) {
    token == c.category || HasTag(c, token)
  }

  predicate HasTag(c: Candidate, tag: string) {
    c.tags.Some? && tag in c.tags.value
  }

  predicate Matches(c: Candidate, tokens: seq<string>) {
    exists t | t in tokens :: Describes(c, t)
  }

  function MemberScore(c: Candidate, s: Seat): real {
    var liked := if Matches(c, s.member.interests) then 1.0 else 0.0;
    var disliked := if Matches(c, s.member.antiPreferences) then -0.5 else 0.0;
    var voted := match s.vote case Some(Up) => 1.0 case Some(Down) => -1.0 case None => 0.0;
    Clamp(liked + disliked + voted)
  }

  predicate Miserable(c: Candidate, s: Seat) {
    MemberScore(c, s) <= -0.6 || s.vote == Some(Down)
  }

  function Sum(c: Candidate, p: seq<Seat>): real {
    if p == [] then 0.0 else Sum(c, p[..|p| - 1]) + MemberScore(c, p[|p| - 1])
  }

  function GroupScore(c: Candidate, p: seq<Seat>): real {
    if p == [] then 0.0 else Clamp(Sum(c, p) / |p| as real)
  }

  // ------------------------------------------------------------- vetoes, person by person

  predicate IsMeal(c: Candidate) {
    c.category == "RESTAURANT" || c.category == "CAFE"
  }

  ghost predicate VetoHard(c: Candidate, m: Member) {
    Matches(c, m.hardExclusions)
  }

  ghost predicate VetoDiet(c: Candidate, m: Member) {
    c.tags.Some? && IsMeal(c) && exists d | d in m.dietary :: !HasTag(c, d)
  }

  ghost predicate VetoBudget(c: Candidate, m: Member) {
    c.priceTier.Some? && BudgetRank(c.priceTier.value) > BudgetRank(m.budgetTier)
  }

  function Strictest(members: seq<Member>): Mobility {
    if members == [] then Full
    else
      var before, last := Strictest(members[..|members| - 1]), members[|members| - 1].mobility;
      if MobilityRank(last) > MobilityRank(before) then last else before
  }

  function MembersOf(p: seq<Seat>): (ms: seq<Member>)
    ensures |ms| == |p| && forall i | 0 <= i < |p| :: ms[i] == p[i].member
  {
    seq(|p|, i requires 0 <= i < |p| => p[i].member)
  }

  /** Only the strictest member's tag is required. */
  predicate AccessUnmet(c: Candidate, strictest: Mobility) {
    RequiredTag(strictest).Some? && c.tags.Some? && !HasTag(c, RequiredTag(strictest).value)
  }

  ghost predicate Raised(c: Candidate, p: seq<Seat>, f: Flag) {
    match f
    case HardExclusion => exists s | s in p :: VetoHard(c, s.member)
    case Dietary => exists s | s in p :: VetoDiet(c, s.member)
    case OverBudget => exists s | s in p :: VetoBudget(c, s.member)
    case NoAccess => AccessUnmet(c, Strictest(MembersOf(p)))
    case Misery => exists s | s in p :: Miserable(c, s)
  }

  /** Excluded by any veto, or by misery the group does not outweigh. */
  ghost predicate Excluded(c: Candidate, p: seq<Seat>) {
    || Raised(c, p, HardExclusion) || Raised(c, p, Dietary) || Raised(c, p, OverBudget) || Raised(c, p, NoAccess)
    || (Raised(c, p, Misery) && GroupScore(c, p) < 0.34)
  }

  function IsUp(): Seat -> bool {
    (s: Seat) => s.vote == Some(Up)
  }

  function IsDown(): Seat -> bool {
    (s: Seat) => s.vote == Some(Down)
  }

  /** The row the engine must produce for a panel. */
  ghost predicate IsScore(c: Candidate, p: seq<Seat>, row: Score) {
    && row.poiId == c.poiId && row.score == GroupScore(c, p) && row.memberCount == |p|
    && row.up == Count(p, IsUp()) && row.down == Count(p, IsDown())
    && (row.excluded <==> Excluded(c, p))
    && row.flags == When(Raised(c, p, HardExclusion), HardExclusion) + When(Raised(c, p, Dietary), Dietary)
                    + When(Raised(c, p, OverBudget), OverBudget) + When(Raised(c, p, NoAccess), NoAccess)
                    + When(Raised(c, p, Misery), Misery)
  }

  function When(b: bool, f: Flag): seq<Flag> {
    if b then [f] else []
  }

  // ------------------------------------------------------------- the loops

  /** Group-level aggregates: the unions, the cap and the strictest need. */
  datatype Limits = Limits(hard: set<string>, dietary: set<string>, budgetCap: Option<nat>, strictest: Mobility)

  /** `cap` is the least budget rank of the members, if there are any. */
  ghost predicate IsCap(members: seq<Member>, cap: Option<nat>) {
    if cap.None? then members == []
    else
      && (forall m | m in members :: cap.value <= BudgetRank(m.budgetTier))
      && (exists m | m in members :: cap.value == BudgetRank(m.budgetTier))
  }

  ghost predicate AreLimits(members: seq<Member>, g: Limits) {
    && (forall t :: t in g.hard <==> exists m | m in members :: t in m.hardExclusions)
    && (forall t :: t in g.dietary <==> exists m | m in members :: t in m.dietary)
    && IsCap(members, g.budgetCap) && g.strictest == Strictest(members)
  }

  lemma LimitsExtend(members: seq<Member>, g: Limits, m: Member, h: Limits)
    requires AreLimits(members, g)
    requires h.hard == g.hard + (set t | t in m.hardExclusions) && h.dietary == g.dietary + (set t | t in m.dietary)
    requires h.budgetCap
          == Some(if g.budgetCap.None? || BudgetRank(m.budgetTier) < g.budgetCap.value then BudgetRank(m.budgetTier)
                  else g.budgetCap.value)
    requires h.strictest == if MobilityRank(m.mobility) > MobilityRank(g.strictest) then m.mobility else g.strictest
    ensures AreLimits(members + [m], h)
  {
    var all := members + [m];
    assert m in all && all[..|members|] == members;
    assert forall x :: x in all <==> x in members || x == m;
    assert IsCap(all, h.budgetCap) by {
      if g.budgetCap.Some? && BudgetRank(m.budgetTier) >= g.budgetCap.value {
        var x :| x in members && g.budgetCap.value == BudgetRank(x.budgetTier);
        assert x in all;
      }
    }
  }

  method GroupLimits(members: seq<Member>) returns (g: Limits)
    ensures AreLimits(members, g)
  {
    hide AreLimits;
    g := Limits({}, {}, None, Full);
    assert members[..|members|] == members;
    NoLimits();
    for n := 0 to |members|
      invariant AreLimits(members[..n], g)
    {
      var m := members[n];
      var rank := BudgetRank(m.budgetTier);
      var next := Limits(g.hard + (set t | t in m.hardExclusions), g.dietary + (set t | t in m.dietary),
                         Some(if g.budgetCap.None? || rank < g.budgetCap.value then rank else g.budgetCap.value),
                         if MobilityRank(m.mobility) > MobilityRank(g.strictest) then m.mobility else g.strictest);
      LimitsExtend(members[..n], g, m, next);
      assert members[..n + 1] == members[..n] + [m];
      g := next;
    }
  }

  lemma NoLimits()
    ensures AreLimits([], Limits({}, {}, None, Full))
  {}

  lemma MiseryOfNobody(c: Candidate)
    ensures !Raised(c, [], Misery)
  {}

  lemma MiseryExtends(c: Candidate, p: seq<Seat>, seat: Seat)
    ensures Raised(c, p + [seat], Misery) <==> Raised(c, p, Misery) || Miserable(c, seat)
  {
    hide Miserable;
    assert forall s :: s in p + [seat] <==> s in p || s == seat;
  }

  /** The soft scores of one candidate. */
  method ScorePanel(c: Candidate, p: seq<Seat>) returns (sum: real, up: nat, down: nat, anyMiserable: bool)
    ensures sum == Sum(c, p) && up == Count(p, IsUp()) && down == Count(p, IsDown())
    ensures anyMiserable <==> Raised(c, p, Misery)
  {
    hide MemberScore, Matches, Raised;
    sum, up, down, anyMiserable := 0.0, 0, 0, false;
    MiseryOfNobody(c);
    assert p[..|p|] == p;
    for i := 0 to |p|
      invariant sum == Sum(c, p[..i]) && up == Count(p[..i], IsUp()) && down == Count(p[..i], IsDown())
      invariant anyMiserable <==> Raised(c, p[..i], Misery)
    {
      var seat := p[i];
      assert p[..i + 1] == p[..i] + [seat] && p[..i + 1][..i] == p[..i];
      MiseryExtends(c, p[..i], seat);
      CountConcat(p[..i], [seat], IsUp());
      CountConcat(p[..i], [seat], IsDown());
      CountOne(seat, IsUp());
      CountOne(seat, IsDown());
      if seat.vote == Some(Up) {
        up := up + 1;
      } else if seat.vote == Some(Down) {
        down := down + 1;
      }
      var s := MemberScore(c, seat);
      if s <= -0.6 || seat.vote == Some(Down) {
        anyMiserable := true;
      }
      sum := sum + s;
    }
  }

  /** The filters of one candidate, from the group's limits. */
  lemma LimitsDecide(c: Candidate, members: seq<Member>, g: Limits)
    requires AreLimits(members, g)
    ensures var p := Panel(members, c);
      && (Raised(c, p, HardExclusion) <==> exists t | t in g.hard :: Describes(c, t))
      && (Raised(c, p, Dietary) <==> c.tags.Some? && IsMeal(c) && exists d | d in g.dietary :: !HasTag(c, d))
      && (Raised(c, p, OverBudget) <==>
          c.priceTier.Some? && g.budgetCap.Some? && BudgetRank(c.priceTier.value) > g.budgetCap.value)
      && (Raised(c, p, NoAccess) <==> AccessUnmet(c, g.strictest))
  {
    var p := Panel(members, c);
    assert MembersOf(p) == members;
    PanelHasMembers(c, members);
  }

  /** A member sits on the panel exactly if they are in the group. */
  lemma PanelHasMembers(c: Candidate, members: seq<Member>)
    ensures forall m :: m in members <==> exists s | s in Panel(members, c) :: s.member == m
  {
    forall m | m in members
      ensures exists s | s in Panel(members, c) :: s.member == m
    {
      var i :| 0 <= i < |members| && members[i] == m;
      assert Panel(members, c)[i] in Panel(members, c);
    }
  }

  /** The hard filters of one candidate, in the order their flags are raised. */
  method HardFilters(c: Candidate, g: Limits) returns (flags: seq<Flag>, excluded: bool)
    ensures excluded <==> flags != []
    ensures flags == When(exists t | t in g.hard :: Describes(c, t), HardExclusion)
                     + When(c.tags.Some? && IsMeal(c) && exists d | d in g.dietary :: !HasTag(c, d), Dietary)
                     + When(c.priceTier.Some? && g.budgetCap.Some? && BudgetRank(c.priceTier.value) > g.budgetCap.value,
                            OverBudget)
                     + When(AccessUnmet(c, g.strictest), NoAccess)
  {
    hide Describes, HasTag, BudgetRank, RequiredTag;
    flags, excluded := [], false;
    if exists t | t in g.hard :: Describes(c, t) {
      excluded, flags := true, flags + [HardExclusion];
    }
    if c.tags.Some? && IsMeal(c) {
      var unmet := exists d | d in g.dietary :: !HasTag(c, d);
      if unmet {
        excluded, flags := true, flags + [Dietary];
      }
    }
    if c.priceTier.Some? && g.budgetCap.Some? && BudgetRank(c.priceTier.value) > g.budgetCap.value {
      excluded, flags := true, flags + [OverBudget];
    }
    var required := RequiredTag(g.strictest);
    if required.Some? && c.tags.Some? && !HasTag(c, required.value) {
      excluded, flags := true, flags + [NoAccess];
    }
  }

  method ScoreOne(members: seq<Member>, g: Limits, c: Candidate) returns (row: Score)
    requires AreLimits(members, g)
    ensures IsScore(c, Panel(members, c), row)
  {
    hide AreLimits, Raised, Sum, Describes, HasTag, AccessUnmet, BudgetRank, Count, IsMeal;
    LimitsDecide(c, members, g);
    var flags, excluded := HardFilters(c, g);
    var p := Panel(members, c);
    var sum, up, down, anyMiserable := ScorePanel(c, p);
    var group := if |members| == 0 then 0.0 else Clamp(sum / |members| as real);
    if anyMiserable {
      flags := flags + [Misery];
      if group < 0.34 {
        excluded := true;
      }
    }
    row := Score(c.poiId, group, excluded, flags, up, down, |members|);
  }

  /** One correct row per candidate, in the order of the candidates. */
  ghost predicate IsScoring(members: seq<Member>, candidates: seq<Candidate>, rows: seq<Score>) {
    && |rows| == |candidates|
    && forall i | 0 <= i < |rows| :: IsScore(candidates[i], Panel(members, candidates[i]), rows[i])
  }

  /** `scoreCandidates`. */
  method ScoreCandidates(members: seq<Member>, candidates: seq<Candidate>) returns (rows: seq<Score>)
    ensures IsScoring(members, candidates, rows)
  {
    hide IsScore, AreLimits;
    var g := GroupLimits(members);
    rows := [];
    for i := 0 to |candidates|
      invariant |rows| == i
      invariant forall k | 0 <= k < i :: IsScore(candidates[k], Panel(members, candidates[k]), rows[k])
    {
      var row := ScoreOne(members, g, candidates[i]);
      rows := rows + [row];
    }
  }

  // ------------------------------------------------------------- anonymity

  lemma {:induction false} SumConcat(c: Candidate, a: seq<Seat>, b: seq<Seat>)
    ensures Sum(c, a + b) == Sum(c, a) + Sum(c, b)
  {
    if b == [] {
      assert a + b == a;
    } else {
      SumConcat(c, a, b[..|b| - 1]);
      assert (a + b)[..|a + b| - 1] == a + b[..|b| - 1];
    }
  }

  lemma {:induction false} SumPermuted(c: Candidate, a: seq<Seat>, b: seq<Seat>)
    requires multiset(a) == multiset(b)
    ensures Sum(c, a) == Sum(c, b)
    decreases |a|
  {
    hide MemberScore;
    if a == [] {
      assert |multiset(b)| == 0;
    } else {
      var n := |a| - 1;
      var x := a[n];
      assert a == a[..n] + [x];
      assert x in multiset(b);
      var i: nat :| i < |b| && b[i] == x;
      assert b == b[..i] + [x] + b[i + 1..];
      assert multiset(a[..n]) == multiset(a) - multiset{x};
      assert multiset(b[..i] + b[i + 1..]) == multiset(b) - multiset{x};
      SumPermuted(c, a[..n], b[..i] + b[i + 1..]);
      SumConcat(c, b[..i], b[i + 1..]);
      SumConcat(c, b[..i] + [x], b[i + 1..]);
      SumConcat(c, b[..i], [x]);
      assert Sum(c, [x]) == MemberScore(c, x);
    }
  }

  lemma {:induction false} StrictestIsGreatest(members: seq<Member>)
    ensures forall m | m in members :: MobilityRank(m.mobility) <= MobilityRank(Strictest(members))
    ensures Strictest(members) == Full || exists m | m in members :: m.mobility == Strictest(members)
  {
    if members == [] {
    } else {
      var n := |members| - 1;
      StrictestIsGreatest(members[..n]);
      assert members == members[..n] + [members[n]];
      if Strictest(members) != Full && Strictest(members) == Strictest(members[..n]) {
        var m :| m in members[..n] && m.mobility == Strictest(members);
        assert m in members;
      }
    }
  }

  lemma StrictestDependsOnMembers(a: seq<Member>, b: seq<Member>)
    requires forall m :: m in a <==> m in b
    ensures Strictest(a) == Strictest(b)
  {
    StrictestIsGreatest(a);
    StrictestIsGreatest(b);
  }

  /** The same place up to the votes cast on it, which belong to the members. */
  predicate SamePlace(c: Candidate, d: Candidate) {
    d == c.(votes := d.votes)
  }

  lemma {:induction false} SumIgnoresVotes(c: Candidate, d: Candidate, p: seq<Seat>)
    requires SamePlace(c, d)
    ensures Sum(c, p) == Sum(d, p)
  {
    if p == [] {
    } else {
      SumIgnoresVotes(c, d, p[..|p| - 1]);
      MemberScoreIgnoresVotes(c, d, p[|p| - 1]);
    }
  }

  lemma MatchesIgnoreVotes(c: Candidate, d: Candidate, tokens: seq<string>)
    requires SamePlace(c, d)
    ensures Matches(c, tokens) == Matches(d, tokens)
  {
    assert forall t :: Describes(c, t) == Describes(d, t);
  }

  lemma MemberScoreIgnoresVotes(c: Candidate, d: Candidate, s: Seat)
    requires SamePlace(c, d)
    ensures MemberScore(c, s) == MemberScore(d, s)
  {
    MatchesIgnoreVotes(c, d, s.member.interests);
    MatchesIgnoreVotes(c, d, s.member.antiPreferences);
  }

  lemma RaisedIgnoresVotes(c: Candidate, d: Candidate, p: seq<Seat>, f: Flag)
    requires SamePlace(c, d)
    ensures Raised(c, p, f) == Raised(d, p, f)
  {
    hide MemberScore, Matches, Strictest, RequiredTag;
    forall s: Seat
      ensures VetoHard(c, s.member) == VetoHard(d, s.member) && Miserable(c, s) == Miserable(d, s)
    {
      MatchesIgnoreVotes(c, d, s.member.hardExclusions);
      MemberScoreIgnoresVotes(c, d, s);
    }
  }

  /** Only a panel carries votes into a row. */
  lemma IsScoreIgnoresVotes(c: Candidate, d: Candidate, p: seq<Seat>, row: Score)
    requires SamePlace(c, d) && IsScore(c, p, row)
    ensures IsScore(d, p, row)
  {
    hide Raised, Sum;
    SumIgnoresVotes(c, d, p);
    forall f: Flag
      ensures Raised(c, p, f) == Raised(d, p, f)
    {
      RaisedIgnoresVotes(c, d, p, f);
    }
  }

  /**
   * Two runs of the engine that seat the same people with the same votes, in whatever
   * order, return the same rows.
   */
  lemma ScoresAreAnonymous(members: seq<Member>, candidates: seq<Candidate>, xs: seq<Score>,
                           others: seq<Member>, ballots: seq<Candidate>, ys: seq<Score>)
    requires IsScoring(members, candidates, xs) && IsScoring(others, ballots, ys)
    requires |candidates| == |ballots|
    requires forall i | 0 <= i < |candidates| :: SameBallot(members, candidates[i], others, ballots[i])
    ensures xs == ys
  {
    hide IsScore;
    forall i | 0 <= i < |xs|
      ensures xs[i] == ys[i]
    {
      var c, d := candidates[i], ballots[i];
      assert SameBallot(members, c, others, d);
      IsScoreIgnoresVotes(d, c, Panel(others, d), ys[i]);
      PermutedRow(c, Panel(others, d), Panel(members, c), ys[i]);
      RowsAreUnique(c, Panel(members, c), xs[i], ys[i]);
    }
  }

  /** The same place, with the same people casting the same votes on it. */
  ghost predicate SameBallot(members: seq<Member>, c: Candidate, others: seq<Member>, d: Candidate) {
    SamePlace(c, d) && multiset(Panel(members, c)) == multiset(Panel(others, d))
  }

  /** Permuting the members, and every candidate's votes alike, is such a pair of runs. */
  lemma PermutedIsSameBallot(members: seq<Member>, c: Candidate, others: seq<Member>, d: Candidate, order: seq<nat>)
    requires SamePlace(c, d) && |others| == |order| && multiset(order) == multiset(Upto(|members|))
    requires forall i | 0 <= i < |order| :: order[i] < |members|
    requires forall i | 0 <= i < |order| :: others[i] == members[order[i]] && VoteAt(d, i) == VoteAt(c, order[i])
    ensures SameBallot(members, c, others, d)
  {
    var p := Panel(members, c);
    PickPermutes(p, order, Upto(|p|));
    assert Pick(p, Upto(|p|)) == p;
    assert Panel(others, d) == Pick(p, order);
  }

  /** A panel has one row. */
  lemma RowsAreUnique(c: Candidate, p: seq<Seat>, x: Score, y: Score)
    requires IsScore(c, p, x) && IsScore(c, p, y)
    ensures x == y
  {
    hide Raised, GroupScore;
  }

  /** The row of a panel is the row of any permutation of it. */
  lemma PermutedRow(c: Candidate, a: seq<Seat>, b: seq<Seat>, row: Score)
    requires multiset(a) == multiset(b) && IsScore(c, a, row)
    ensures IsScore(c, b, row)
  {
    hide Sum, MemberScore, Matches, AccessUnmet, Strictest, VetoDiet, VetoBudget;
    assert |a| == |b| by { assert |multiset(a)| == |multiset(b)|; }
    forall s
      ensures s in a <==> s in b
    {
      assert s in multiset(a) <==> s in multiset(b);
    }
    SumPermuted(c, a, b);
    CountPermuted(a, b, IsUp());
    CountPermuted(a, b, IsDown());
    SameMembersSeated(a, b);
    StrictestDependsOnMembers(MembersOf(a), MembersOf(b));
  }

  lemma SameMembersSeated(a: seq<Seat>, b: seq<Seat>)
    requires forall s :: s in a <==> s in b
    ensures forall m :: m in MembersOf(a) <==> m in MembersOf(b)
  {
    forall m
      ensures m in MembersOf(a) <==> m in MembersOf(b)
    {
      SeatedIn(a, b, m);
      SeatedIn(b, a, m);
    }
  }

  lemma SeatedIn(a: seq<Seat>, b: seq<Seat>, m: Member)
    requires forall s | s in a :: s in b
    ensures m in MembersOf(a) ==> m in MembersOf(b)
  {
    if m in MembersOf(a) {
      var i :| 0 <= i < |a| && MembersOf(a)[i] == m;
      assert a[i] in b;
      var j :| 0 <= j < |b| && b[j] == a[i];
      assert MembersOf(b)[j] == m;
    }
  }

  // ------------------------------------------------------------- vetoes

  lemma FlagsAreRaised(c: Candidate, p: seq<Seat>, row: Score, f: Flag)
    requires IsScore(c, p, row)
    ensures f in row.flags <==> Raised(c, p, f)
  {
    hide Raised, GroupScore, When;
    FlagsListed(Raised(c, p, HardExclusion), Raised(c, p, Dietary), Raised(c, p, OverBudget), Raised(c, p, NoAccess),
                Raised(c, p, Misery));
  }

  lemma FlagsListed(hard: bool, diet: bool, budget: bool, access: bool, misery: bool)
    ensures var flags := When(hard, HardExclusion) + When(diet, Dietary) + When(budget, OverBudget)
        + When(access, NoAccess)
                         + When(misery, Misery);
      && (HardExclusion in flags <==> hard) && (Dietary in flags <==> diet) && (OverBudget in flags <==> budget)
      && (NoAccess in flags <==> access) && (Misery in flags <==> misery)
  {}

  lemma VetoExcludes(c: Candidate, p: seq<Seat>, row: Score, f: Flag)
    requires IsScore(c, p, row) && Raised(c, p, f) && f != Misery
    ensures row.excluded
  {
    hide Raised, GroupScore;
  }

  /** A second run in which one more person votes; the others keep their votes and may move. */
  ghost predicate Joined(members: seq<Member>, c: Candidate, others: seq<Member>, d: Candidate, newcomer: Seat) {
    SamePlace(c, d) && multiset(Panel(others, d)) == multiset(Panel(members, c) + [newcomer])
  }

  /** The usual way to join: at the end of the list, with a vote appended for each seat. */
  lemma JoiningAtTheEnd(members: seq<Member>, c: Candidate, m: Member, votes: seq<Option<Vote>>)
    requires forall i | 0 <= i < |members| :: VoteAt(c.(votes := votes), i) == VoteAt(c, i)
    ensures var d := c.(votes := votes);
      Joined(members, c, members + [m], d, Seat(m, VoteAt(d, |members|)))
  {
    var d := c.(votes := votes);
    assert Panel(members + [m], d) == Panel(members, c) + [Seat(m, VoteAt(d, |members|))];
  }

  /** The newcomer's run raises what the old panel and the newcomer raise together. */
  lemma JoinedRow(members: seq<Member>, c: Candidate, others: seq<Member>, d: Candidate, newcomer: Seat, y: Score)
    requires Joined(members, c, others, d, newcomer) && IsScore(d, Panel(others, d), y)
    ensures IsScore(c, Panel(members, c) + [newcomer], y)
  {
    hide Raised, Sum;
    var p, q := Panel(members, c) + [newcomer], Panel(others, d);
    IsScoreIgnoresVotes(d, c, q, y);
    PermutedRow(c, q, p, y);
  }

  /**
   * When someone joins, the flags for a hard exclusion, a dietary need, a budget or
   * someone's misery stay, and so does an exclusion by any of the first three.
   */
  lemma VetoesStand(members: seq<Member>, c: Candidate, x: Score, others: seq<Member>, d: Candidate, y: Score,
                    newcomer: Seat)
    requires Joined(members, c, others, d, newcomer)
    requires IsScore(c, Panel(members, c), x) && IsScore(d, Panel(others, d), y)
    ensures forall f | f in x.flags && f != NoAccess :: f in y.flags
    ensures (exists f | f in x.flags :: f != NoAccess && f != Misery) ==> y.excluded
  {
    hide IsScore, Panel, Raised;
    var p := Panel(members, c);
    JoinedRow(members, c, others, d, newcomer, y);
    forall f | f in x.flags && f != NoAccess
      ensures f in y.flags && (f != Misery ==> y.excluded)
    {
      FlagsAreRaised(c, p, x, f);
      RaisedStays(c, p, newcomer, f);
      FlagsAreRaised(c, p + [newcomer], y, f);
      if f != Misery {
        VetoExcludes(c, p + [newcomer], y, f);
      }
    }
  }

  lemma RaisedStays(c: Candidate, p: seq<Seat>, newcomer: Seat, f: Flag)
    requires f != NoAccess && Raised(c, p, f)
    ensures Raised(c, p + [newcomer], f)
  {
    assert forall s | s in p :: s in p + [newcomer];
  }

  /**
   * Accessibility is different: only the strictest need counts, so a newcomer lifts the
   * flag exactly when stricter than everyone and satisfied.
   */
  lemma AccessLiftedExactly(members: seq<Member>, c: Candidate, x: Score, others: seq<Member>, d: Candidate, y: Score,
                            newcomer: Seat)
    requires Joined(members, c, others, d, newcomer)
    requires IsScore(c, Panel(members, c), x) && IsScore(d, Panel(others, d), y) && NoAccess in x.flags
    ensures NoAccess !in y.flags <==>
      && MobilityRank(newcomer.member.mobility) > MobilityRank(Strictest(members))
      && !AccessUnmet(c, newcomer.member.mobility)
  {
    hide IsScore, AccessUnmet;
    var p := Panel(members, c);
    JoinedRow(members, c, others, d, newcomer, y);
    FlagsAreRaised(c, p, x, NoAccess);
    FlagsAreRaised(c, p + [newcomer], y, NoAccess);
    assert MembersOf(p) == members;
    assert MembersOf(p + [newcomer]) == members + [newcomer.member];
    assert (members + [newcomer.member])[..|members|] == members;
  }

  /** It does happen: a wheelchair user joins a member of limited mobility, and the place is in again. */
  lemma AccessCanBeLifted(x: Score, y: Score)
    requires IsScore(Gallery(), Panel([Visitor(Limited)], Gallery()), x)
    requires IsScore(Gallery(), Panel([Visitor(Limited), Visitor(Wheelchair)], Gallery()), y)
    ensures x.excluded && x.flags == [NoAccess] && !y.excluded && y.flags == []
  {
    hide MemberScore, Raised, GroupScore;
    forall f: Flag
      ensures Raised(Gallery(), Panel([Visitor(Limited)], Gallery()), f)
        <==> f == NoAccess && AccessUnmet(Gallery(), Strictest([Visitor(Limited)]))
      ensures Raised(Gallery(), Panel([Visitor(Limited), Visitor(Wheelchair)], Gallery()), f)
        <==> f == NoAccess && AccessUnmet(Gallery(), Strictest([Visitor(Limited), Visitor(Wheelchair)]))
    {
      GalleryRaisesAccessOnly([Visitor(Limited)], f);
      GalleryRaisesAccessOnly([Visitor(Limited), Visitor(Wheelchair)], f);
    }
    assert [Visitor(Limited)][..0] == [];
    assert [Visitor(Limited), Visitor(Wheelchair)][..1] == [Visitor(Limited)];
    assert "step_free" != "wheelchair_accessible" by { assert |"step_free"| != |"wheelchair_accessible"|; }
  }

  /** A place with a ramp and no further promises. */
  function Gallery(): Candidate {
    Candidate("x", "MUSEUM", Some(["wheelchair_accessible"]), None, [])
  }

  function Visitor(m: Mobility): Member {
    Member([], [], [], [], Luxury, m)
  }

  lemma GalleryRaisesAccessOnly(members: seq<Member>, f: Flag)
    requires forall m | m in members :: m == Visitor(m.mobility)
    ensures var p := Panel(members, Gallery());
      Raised(Gallery(), p, f) <==> f == NoAccess && AccessUnmet(Gallery(), Strictest(members))
  {
    hide AccessUnmet, Strictest, MemberScore;
    var c := Gallery();
    var p := Panel(members, c);
    assert MembersOf(p) == members;
    assert forall s | s in p :: s.member in members && s.vote == None;
    forall s | s in p
      ensures VisitorIsAtEase(s)
    {
      VisitorsAreAtEase(s);
    }
  }

  /** No wish, no vote, no limit. */
  ghost predicate VisitorIsAtEase(s: Seat)
  {
    && !VetoHard(Gallery(), s.member) && !VetoDiet(Gallery(), s.member) && !VetoBudget(Gallery(), s.member)
    && !Miserable(Gallery(), s)
  }

  lemma VisitorsAreAtEase(s: Seat)
    requires s.member == Visitor(s.member.mobility) && s.vote == None
    ensures VisitorIsAtEase(s)
  {
    assert !Matches(Gallery(), []);
  }

  // ------------------------------------------------------------- rows, in the members' own terms

  lemma RanksAscend()
    ensures BudgetRank(Budget) < BudgetRank(Moderate) < BudgetRank(Comfort) < BudgetRank(Luxury)
    ensures MobilityRank(Full) < MobilityRank(Limited) < MobilityRank(Stroller) < MobilityRank(Wheelchair)
  {}

  /** The tag that the group needs: that of a wheelchair, else a stroller, else limited mobility. */
  ghost predicate NeedsTag(members: seq<Member>, tag: string) {
    if exists m | m in members :: m.mobility.Wheelchair? then tag == "wheelchair_accessible"
    else if exists m | m in members :: m.mobility.Stroller? then tag == "stroller_friendly"
    else tag == "step_free" && exists m | m in members :: m.mobility.Limited?
  }

  lemma StrictestNeeds(members: seq<Member>, tag: string)
    ensures NeedsTag(members, tag) <==> RequiredTag(Strictest(members)) == Some(tag)
  {
    StrictestIsGreatest(members);
  }

  /** The member excludes the place's category or one of its tags. */
  ghost predicate Objects(m: Member, c: Candidate) {
    c.category in m.hardExclusions || (c.tags.Some? && exists t | t in m.hardExclusions :: t in c.tags.value)
  }

  /**
   * Why a row carries a flag: someone excludes the category or a tag; someone at a restaurant
   * or cafe cannot be served; it is too dear for someone; the needed tag is missing; someone
   * voted it down.  Unknown tags and prices raise nothing.
   */
  lemma FlagsSayWhy(members: seq<Member>, c: Candidate, x: Score)
    requires IsScore(c, Panel(members, c), x)
    ensures HardExclusion in x.flags <==>
      exists m | m in members :: Objects(m, c)
    ensures Dietary in x.flags <==>
      && c.category in ["RESTAURANT", "CAFE"] && c.tags.Some?
      && exists m, d | m in members && d in m.dietary :: d !in c.tags.value
    ensures OverBudget in x.flags <==>
      c.priceTier.Some? && exists m | m in members :: BudgetRank(m.budgetTier) < BudgetRank(c.priceTier.value)
    ensures NoAccess in x.flags <==>
      c.tags.Some? && exists tag :: NeedsTag(members, tag) && tag !in c.tags.value
    ensures Misery in x.flags <==> exists i | 0 <= i < |members| :: VoteAt(c, i) == Some(Down)
  {
    hide IsScore, Raised, NeedsTag, BudgetRank;
    var p := Panel(members, c);
    forall f: Flag
      ensures f in x.flags <==> Raised(c, p, f)
    {
      FlagsAreRaised(c, p, x, f);
    }
    HardExclusionMeans(members, c);
    DietMeans(members, c);
    BudgetMeans(members, c);
    AccessMeans(members, c);
    MiseryMeans(members, c);
  }

  lemma HardExclusionMeans(members: seq<Member>, c: Candidate)
    ensures Raised(c, Panel(members, c), HardExclusion) <==>
      exists m | m in members :: Objects(m, c)
  {
    PanelHasMembers(c, members);
    forall m: Member
      ensures VetoHard(c, m) <==> Objects(m, c)
    {
      if c.category in m.hardExclusions {
        assert Describes(c, c.category);
      }
      if t :| t in m.hardExclusions && c.tags.Some? && t in c.tags.value {
        assert Describes(c, t);
      }
    }
  }

  lemma DietMeans(members: seq<Member>, c: Candidate)
    ensures Raised(c, Panel(members, c), Dietary) <==>
      && c.category in ["RESTAURANT", "CAFE"] && c.tags.Some?
      && exists m, d | m in members && d in m.dietary :: d !in c.tags.value
  {
    var p := Panel(members, c);
    PanelHasMembers(c, members);
    if Raised(c, p, Dietary) {
      var s :| s in p && VetoDiet(c, s.member);
      var d :| d in s.member.dietary && !HasTag(c, d);
      assert s.member in members && d !in c.tags.value;
    } else if IsMeal(c) && c.tags.Some? {
      forall m, d | m in members && d in m.dietary
        ensures d in c.tags.value
      {
        var s :| s in p && s.member == m;
        assert !VetoDiet(c, s.member) && (HasTag(c, d) || d !in s.member.dietary);
      }
    }
  }

  lemma BudgetMeans(members: seq<Member>, c: Candidate)
    ensures Raised(c, Panel(members, c), OverBudget) <==>
      c.priceTier.Some? && exists m | m in members :: BudgetRank(m.budgetTier) < BudgetRank(c.priceTier.value)
  {
    hide BudgetRank;
    PanelHasMembers(c, members);
  }

  lemma AccessMeans(members: seq<Member>, c: Candidate)
    ensures Raised(c, Panel(members, c), NoAccess) <==>
      c.tags.Some? && exists tag :: NeedsTag(members, tag) && tag !in c.tags.value
  {
    hide Strictest, RequiredTag, NeedsTag;
    assert MembersOf(Panel(members, c)) == members;
    var need := RequiredTag(Strictest(members));
    forall tag
      ensures NeedsTag(members, tag) <==> need == Some(tag)
    {
      StrictestNeeds(members, tag);
    }
    if need.Some? {
      assert NeedsTag(members, need.value);
    }
  }

  lemma MiseryMeans(members: seq<Member>, c: Candidate)
    ensures Raised(c, Panel(members, c), Misery) <==> exists i | 0 <= i < |members| :: VoteAt(c, i) == Some(Down)
  {
    hide Miserable;
    var p := Panel(members, c);
    forall s: Seat
      ensures Miserable(c, s) <==> s.vote == Some(Down)
    {
      MiseryIsADownVote(c, s);
    }
    if i :| 0 <= i < |members| && VoteAt(c, i) == Some(Down) {
      assert p[i] in p;
    }
  }

  /** Who cast this vote, by their places in the group. */
  ghost function VotersFor(members: seq<Member>, c: Candidate, vote: Vote): set<int> {
    set i | 0 <= i < |members| && VoteAt(c, i) == Some(vote)
  }

  /** How a row is decided: by the first four flags, or by misery under a mean of 0.34; the score is the plain mean. */
  lemma RowsAreDecided(members: seq<Member>, c: Candidate, x: Score)
    requires IsScore(c, Panel(members, c), x)
    ensures x.excluded <==>
      || HardExclusion in x.flags || Dietary in x.flags || OverBudget in x.flags || NoAccess in x.flags
      || (Misery in x.flags && x.score < 0.34)
    ensures if members == [] then x.score == 0.0 else x.score * |members| as real == Sum(c, Panel(members, c))
    ensures x.up == |VotersFor(members, c, Up)| && x.down == |VotersFor(members, c, Down)|
    ensures x.memberCount == |members| && x.poiId == c.poiId
  {
    hide IsScore, Sum, Raised, GroupScore;
    RowFields(c, Panel(members, c), x);
    MeanIsWithin(c, Panel(members, c));
    VotesCounted(members, c);
  }

  lemma RowFields(c: Candidate, p: seq<Seat>, x: Score)
    requires IsScore(c, p, x)
    ensures x.score == GroupScore(c, p) && x.memberCount == |p| && x.poiId == c.poiId
    ensures x.up == Count(p, IsUp()) && x.down == Count(p, IsDown())
    ensures x.excluded <==>
      || HardExclusion in x.flags || Dietary in x.flags || OverBudget in x.flags || NoAccess in x.flags
      || (Misery in x.flags && x.score < 0.34)
  {
    hide Raised, GroupScore, When;
    FlagsListed(Raised(c, p, HardExclusion), Raised(c, p, Dietary), Raised(c, p, OverBudget), Raised(c, p, NoAccess),
                Raised(c, p, Misery));
  }

  lemma VotesCounted(members: seq<Member>, c: Candidate)
    ensures var p := Panel(members, c);
      Count(p, IsUp()) == |VotersFor(members, c, Up)| && Count(p, IsDown()) == |VotersFor(members, c, Down)|
  {
    hide Count;
    var p := Panel(members, c);
    CountIsCardinality(p, IsUp());
    CountIsCardinality(p, IsDown());
    assert Hits(p, IsUp()) == VotersFor(members, c, Up);
    assert Hits(p, IsDown()) == VotersFor(members, c, Down);
  }

  /** The mean needs no clamping. */
  lemma MeanIsWithin(c: Candidate, p: seq<Seat>)
    ensures p == [] ==> GroupScore(c, p) == 0.0
    ensures p != [] ==> GroupScore(c, p) * |p| as real == Sum(c, p)
  {
    hide Sum;
    SumWithin(c, p);
    if p != [] {
      var mean, n := Sum(c, p) / |p| as real, |p| as real;
      assert mean * n == Sum(c, p);
      assert (mean + 1.0) * n >= 0.0 && (1.0 - mean) * n >= 0.0;
      assert -1.0 <= mean <= 1.0;
    }
  }

  lemma {:induction false} SumWithin(c: Candidate, p: seq<Seat>)
    ensures 0.0 - |p| as real <= Sum(c, p) <= |p| as real
  {
    hide MemberScore;
    if p == [] {
    } else {
      SumWithin(c, p[..|p| - 1]);
      AtMostOne(c, p[|p| - 1]);
    }
  }

  // ------------------------------------------------------------- votes

  /** What a member contributes, without clamping: the vote decides unless a wish softens it. */
  lemma MemberScoreIs(c: Candidate, s: Seat)
    ensures var liked, disliked := Matches(c, s.member.interests), Matches(c, s.member.antiPreferences);
      MemberScore(c, s) ==
        match s.vote
        case Some(Up) => if disliked && !liked then 0.5 else 1.0
        case Some(Down) => if !liked then -1.0 else if disliked then -0.5 else 0.0
        case None => (if liked then 1.0 else 0.0) - (if disliked then 0.5 else 0.0)
  {}

  /** A member is miserable exactly if they voted down: the score threshold never decides. */
  lemma MiseryIsADownVote(c: Candidate, s: Seat)
    ensures Miserable(c, s) <==> s.vote == Some(Down)
  {
    MemberScoreIs(c, s);
  }

  /** The second vote is at least as kind as the first. */
  predicate AsKind(a: Option<Vote>, b: Option<Vote>) {
    a == b || a == Some(Down) || b == Some(Up)
  }

  /** Two ballots of the same people, the second kinder. */
  ghost predicate KinderPanel(p: seq<Seat>, q: seq<Seat>) {
    |p| == |q| && forall i | 0 <= i < |p| :: p[i].member == q[i].member && AsKind(p[i].vote, q[i].vote)
  }

  lemma {:induction false} KinderSum(c: Candidate, p: seq<Seat>, q: seq<Seat>)
    requires KinderPanel(p, q)
    ensures Sum(c, p) <= Sum(c, q)
  {
    hide Matches;
    if p == [] {
    } else {
      var n := |p| - 1;
      KinderSum(c, p[..n], q[..n]);
      MemberScoreIs(c, p[n]);
      MemberScoreIs(c, q[n]);
    }
  }

  /**
   * Between two runs of the engine that differ only by kinder votes, a place keeps or raises
   * its score, gains no flag, and is not newly excluded.
   */
  lemma KinderVotesHelp(members: seq<Member>, c: Candidate, x: Score, d: Candidate, y: Score)
    requires SamePlace(c, d) && KinderPanel(Panel(members, c), Panel(members, d))
    requires IsScore(c, Panel(members, c), x) && IsScore(d, Panel(members, d), y)
    ensures x.score <= y.score && (y.excluded ==> x.excluded)
    ensures forall f | f in y.flags :: f in x.flags
  {
    hide Sum, MemberScore, IsScore;
    var p, q := Panel(members, c), Panel(members, d);
    IsScoreIgnoresVotes(d, c, q, y);
    KinderSum(c, p, q);
    MeanGrows(Sum(c, p), Sum(c, q), |p|);
    forall f
      ensures Raised(c, q, f) ==> Raised(c, p, f)
    {
      if Raised(c, q, f) {
        KinderRaises(c, p, q, f);
      }
    }
    forall f | f in y.flags
      ensures f in x.flags
    {
      FlagsAreRaised(c, q, y, f);
      FlagsAreRaised(c, p, x, f);
    }
    KinderRow(c, p, x, q, y);
  }

  lemma KinderRow(c: Candidate, p: seq<Seat>, x: Score, q: seq<Seat>, y: Score)
    requires |p| == |q| && IsScore(c, p, x) && IsScore(c, q, y) && GroupScore(c, p) <= GroupScore(c, q)
    requires forall f :: Raised(c, q, f) ==> Raised(c, p, f)
    ensures x.score <= y.score && (y.excluded ==> x.excluded)
  {
    hide Raised, GroupScore;
  }

  lemma KinderRaises(c: Candidate, p: seq<Seat>, q: seq<Seat>, f: Flag)
    requires KinderPanel(p, q) && Raised(c, q, f)
    ensures Raised(c, p, f)
  {
    hide Strictest, RequiredTag, MemberScore, Matches;
    assert MembersOf(p) == MembersOf(q);
    forall s | s in q
      ensures exists t :: t in p && t.member == s.member && AsKind(t.vote, s.vote)
    {
      var i :| 0 <= i < |q| && q[i] == s;
      assert p[i] in p;
    }
    if f.Misery? {
      var s :| s in q && Miserable(c, s);
      MiseryIsADownVote(c, s);
      var t :| t in p && t.member == s.member && AsKind(t.vote, s.vote);
      MiseryIsADownVote(c, t);
    }
  }

  lemma MeanGrows(a: real, b: real, n: nat)
    requires a <= b
    ensures n > 0 ==> a / n as real <= b / n as real
  {
    if n > 0 {
      var x, y, m := a / n as real, b / n as real, n as real;
      assert x * m == a && y * m == b;
      assert (y - x) * m >= 0.0;
    }
  }

  // ------------------------------------------------------------- misery

  function ScoredMinusOne(c: Candidate): Seat -> bool {
    (s: Seat) => MemberScore(c, s) == -1.0
  }

  /** Each -1 costs the sum two points against the best case. */
  lemma {:induction false} SumBound(c: Candidate, p: seq<Seat>)
    ensures Sum(c, p) <= |p| as real - 2.0 * Count(p, ScoredMinusOne(c)) as real
  {
    hide MemberScore;
    if p == [] {
    } else {
      var n := |p| - 1;
      SumBound(c, p[..n]);
      assert p == p[..n] + [p[n]];
      CountConcat(p[..n], [p[n]], ScoredMinusOne(c));
      CountOne(p[n], ScoredMinusOne(c));
      AtMostOne(c, p[n]);
    }
  }

  lemma AtMostOne(c: Candidate, s: Seat)
    ensures -1.0 <= MemberScore(c, s) <= 1.0
  {}

  /** A candidate that at least a third of the members score -1 is always excluded. */
  lemma AThirdIsEnough(c: Candidate, p: seq<Seat>)
    requires p != [] && 3 * Count(p, ScoredMinusOne(c)) >= |p|
    ensures Excluded(c, p)
  {
    var k, n := Count(p, ScoredMinusOne(c)), |p|;
    SumBound(c, p);
    CountPositive(p, ScoredMinusOne(c));
    var i :| 0 <= i < |p| && ScoredMinusOne(c)(p[i]);
    assert p[i] in p && Miserable(c, p[i]);
    assert Raised(c, p, Misery);
    assert 3.0 * k as real >= n as real;
    assert Sum(c, p) <= n as real / 3.0;
    MeanBound(Sum(c, p), n);
  }

  /**
   * One member at -1 against all the others at +1, with no veto: the place is excluded
   * exactly in groups of up to three.
   */
  lemma OneAgainstTheRest(c: Candidate, p: seq<Seat>)
    requires p != [] && Sum(c, p) == |p| as real - 2.0 && Raised(c, p, Misery)
    requires forall f | f != Misery :: !Raised(c, p, f)
    ensures Excluded(c, p) <==> |p| <= 3
  {
    hide Raised, Sum;
    var n, sum := |p| as real, Sum(c, p);
    var mean := sum / n;
    assert mean * n == n - 2.0;
    if |p| <= 3 {
      assert (3.0 * mean - 1.0) * n <= 0.0;
      assert mean <= 1.0 / 3.0;
    } else {
      assert (2.0 * mean - 1.0) * n >= 0.0;
      assert mean >= 0.5;
    }
  }

  lemma MeanBound(sum: real, n: nat)
    requires n > 0 && sum <= n as real / 3.0
    ensures sum / n as real <= 1.0 / 3.0
  {
    var x, m := sum / n as real, n as real;
    assert x * m == sum;
    assert (3.0 * x - 1.0) * m <= 0.0;
  }
}
