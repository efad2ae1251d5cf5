/**
 * The fact conflict resolver: which of several observations of one attribute wins, and
 * why the answer does not depend on the order they are listed in.
 */
module Conflict {
  import opened Prelude
  import opened Keys
  import opened Sorting

  datatype Source = LlmResearch | Osm | Wikidata | OfficialSite | OpenData | Advisory | WebReview | UserCorrection

  datatype Status = Active | Superseded | Disputed | Rejected

  datatype Fact = Fact(
    id: string, attribute: string, value: string, source: Source,
    observedMs: int, confidence: real, corroboration: nat, status: Status)

  datatype Rule = OfficialOperational | NewestTimeSensitive | RecencyTolerantExperiential | VerifiedVisitorCorrection

  datatype Selection = Selection(fact: Fact, rule: Rule)

  datatype AttributeClass = Operational | TimeSensitive | Experiential

  datatype MixedAttributes = MixedAttributes

  const USER_CORRECTION_MIN_CORROBORATION := 2
  const STALE_MS := 365 * 86400000

  function ClassOf(attribute: string): AttributeClass {
    if attribute in {"hours", "opening_hours", "price", "admission_price", "ticket_price", "pass_price",
        "booking_required"} then Operational
    else if attribute in {"crowd_level", "wait_time", "temporary_closure", "construction_status"} then TimeSensitive
    else Experiential
  }

  // ------------------------------------------------------------- the two orders

  /** `cmpNewest(a, b) <= 0`. */
  predicate NewestFirst(a: Fact, b: Fact) {
    if a.observedMs != b.observedMs then a.observedMs > b.observedMs
    else if a.confidence != b.confidence then a.confidence > b.confidence
    else if a.corroboration != b.corroboration then a.corroboration > b.corroboration
    else AtMost(a.id, b.id)
  }

  /** `cmpConfidence(a, b) <= 0`. */
  predicate ConfidentFirst(a: Fact, b: Fact) {
    if a.confidence != b.confidence then a.confidence > b.confidence
    else if a.corroboration != b.corroboration then a.corroboration > b.corroboration
    else if a.observedMs != b.observedMs then a.observedMs > b.observedMs
    else AtMost(a.id, b.id)
  }

  /** `[...facts].sort(cmp)[0]`. */
  function First(facts: seq<Fact>, before: (Fact, Fact) -> bool): (f: Fact)
    requires facts != []
    ensures f in facts
  {
    var sorted := SortBy(facts, before);
    assert |sorted| == |facts| by { assert |multiset(sorted)| == |multiset(facts)|; }
    assert sorted[0] in multiset(facts);
    sorted[0]
  }

  // ------------------------------------------------------------- selection

  function Keep<T(!new)>(s: seq<T>, wanted: T -> bool): (r: seq<T>)
    ensures forall x :: x in r <==> x in s && wanted(x)
  {
    if s == [] then []
    else if wanted(s[0]) then [s[0]] + Keep(s[1..], wanted)
    else Keep(s[1..], wanted)
  }

  predicate IsOfficial(f: Fact) {
    f.source.OfficialSite? || f.source.OpenData?
  }

  predicate IsCorroboratedCorrection(f: Fact) {
    f.source.UserCorrection? && f.corroboration >= USER_CORRECTION_MIN_CORROBORATION
  }

  /** `selectBase`: rules 1 to 3. */
  function SelectBase(active: seq<Fact>, cls: AttributeClass): (s: Selection)
    requires active != []
    ensures s.fact in active
  {
    match cls
    case Operational =>
      var official := Keep(active, IsOfficial);
      if official != [] then Selection(First(official, NewestFirst), OfficialOperational)
      else Selection(First(active, NewestFirst), NewestTimeSensitive)
    case TimeSensitive => Selection(First(active, NewestFirst), NewestTimeSensitive)
    case Experiential => Selection(First(active, ConfidentFirst), RecencyTolerantExperiential)
  }

  /** Rule 4 on top of the base winner. */
  function Override(active: seq<Fact>, base: Selection, now: int): Selection {
    var corroborated := Keep(active, IsCorroboratedCorrection);
    if corroborated == [] then base
    else
      var correction := First(corroborated, NewestFirst);
      if correction.observedMs > base.fact.observedMs || base.fact.observedMs < now - STALE_MS
      then Selection(correction, VerifiedVisitorCorrection)
      else base
  }

  function ActiveOnly(facts: seq<Fact>): seq<Fact> {
    Keep(facts, (f: Fact) => f.status.Active?)
  }

  /** `selectFact`. */
  function SelectFact(facts: seq<Fact>, now: int): Result<Option<Selection>, MixedAttributes> {
    var active := ActiveOnly(facts);
    if active == [] then Ok(None)
    else if exists f | f in active :: f.attribute != active[0].attribute then Err(MixedAttributes)
    else Ok(Some(Override(active, SelectBase(active, ClassOf(active[0].attribute)), now)))
  }

  // ------------------------------------------------------------- order independence

  lemma NewestIsTotal()
    ensures Total(NewestFirst)
  {
    forall a: Fact, b: Fact
      ensures NewestFirst(a, b) || NewestFirst(b, a)
    {
      LessAsymmetric(a.id, b.id);
    }
    forall a: Fact, b: Fact, c: Fact | NewestFirst(a, b) && NewestFirst(b, c)
      ensures NewestFirst(a, c)
    {
      AtMostTransitive(a.id, b.id, c.id);
    }
  }

  lemma ConfidentIsTotal()
    ensures Total(ConfidentFirst)
  {
    forall a: Fact, b: Fact
      ensures ConfidentFirst(a, b) || ConfidentFirst(b, a)
    {
      LessAsymmetric(a.id, b.id);
    }
    forall a: Fact, b: Fact, c: Fact | ConfidentFirst(a, b) && ConfidentFirst(b, c)
      ensures ConfidentFirst(a, c)
    {
      AtMostTransitive(a.id, b.id, c.id);
    }
  }

  ghost predicate SameMembers<T(!new)>(a: seq<T>, b: seq<T>) {
    forall x :: x in a <==> x in b
  }

  ghost predicate DistinctIds(facts: seq<Fact>) {
    forall f, g | f in facts && g in facts && f.id == g.id :: f == g
  }

  /** The order leaves no tie between facts with different ids. */
  ghost predicate Decisive(before: (Fact, Fact) -> bool) {
    Total(before) && forall a, b :: before(a, b) && before(b, a) ==> a.id == b.id
  }

  lemma BothAreDecisive()
    ensures Decisive(NewestFirst) && Decisive(ConfidentFirst)
  {
    NewestIsTotal();
    ConfidentIsTotal();
    forall a: Fact, b: Fact
      ensures NewestFirst(a, b) && NewestFirst(b, a) ==> a.id == b.id
      ensures ConfidentFirst(a, b) && ConfidentFirst(b, a) ==> a.id == b.id
    {
      LessTotal(a.id, b.id);
    }
  }

  /** The winner of a sort depends only on which facts there are. */
  lemma FirstIsOrderFree(a: seq<Fact>, b: seq<Fact>, before: (Fact, Fact) -> bool)
    requires Decisive(before) && a != [] && b != [] && SameMembers(a, b) && DistinctIds(a)
    ensures First(a, before) == First(b, before)
  {
    SortByHead(a, before);
    SortByHead(b, before);
    assert before(First(a, before), First(b, before)) && before(First(b, before), First(a, before));
  }

  lemma KeepSameMembers<T(!new)>(a: seq<T>, b: seq<T>, wanted: T -> bool)
    requires SameMembers(a, b)
    ensures SameMembers(Keep(a, wanted), Keep(b, wanted))
    ensures Keep(a, wanted) == [] <==> Keep(b, wanted) == []
  {
    SameMembersEmpty(Keep(a, wanted), Keep(b, wanted));
  }

  lemma SameMembersEmpty<T(!new)>(a: seq<T>, b: seq<T>)
    requires SameMembers(a, b)
    ensures a == [] <==> b == []
  {
    if a != [] { assert a[0] in b; }
    if b != [] { assert b[0] in a; }
  }

  lemma BaseIsOrderFree(a: seq<Fact>, b: seq<Fact>, cls: AttributeClass)
    requires a != [] && b != [] && SameMembers(a, b) && DistinctIds(a)
    ensures SelectBase(a, cls) == SelectBase(b, cls)
  {
    hide First, Decisive, SameMembers;
    BothAreDecisive();
    FirstIsOrderFree(a, b, NewestFirst);
    FirstIsOrderFree(a, b, ConfidentFirst);
    KeepSameMembers(a, b, IsOfficial);
    if Keep(a, IsOfficial) != [] {
      FirstIsOrderFree(Keep(a, IsOfficial), Keep(b, IsOfficial), NewestFirst);
    }
  }

  lemma OverrideIsOrderFree(a: seq<Fact>, b: seq<Fact>, base: Selection, now: int)
    requires SameMembers(a, b) && DistinctIds(a)
    ensures Override(a, base, now) == Override(b, base, now)
  {
    hide First, Decisive, SameMembers;
    BothAreDecisive();
    KeepSameMembers(a, b, IsCorroboratedCorrection);
    if Keep(a, IsCorroboratedCorrection) != [] {
      FirstIsOrderFree(Keep(a, IsCorroboratedCorrection), Keep(b, IsCorroboratedCorrection), NewestFirst);
    }
  }

  /** Same facts in any order, with any repetition: same outcome, winner and rule alike. */
  lemma SelectionIsOrderFree(a: seq<Fact>, b: seq<Fact>, now: int)
    requires SameMembers(a, b) && DistinctIds(a)
    ensures SelectFact(a, now) == SelectFact(b, now)
  {
    var x, y := ActiveOnly(a), ActiveOnly(b);
    KeepSameMembers(a, b, (f: Fact) => f.status.Active?);
    if x != [] && forall f | f in x :: f.attribute == x[0].attribute {
      assert y[0] in x;
      BaseIsOrderFree(x, y, ClassOf(x[0].attribute));
      OverrideIsOrderFree(x, y, SelectBase(x, ClassOf(x[0].attribute)), now);
    } else if x != [] {
      var f :| f in x && f.attribute != x[0].attribute;
      assert f in y && x[0] in y;
    }
  }

  // ------------------------------------------------------------- corrections win

  lemma StrictlyNewestIsFirst(facts: seq<Fact>, c: Fact)
    requires c in facts && forall f | f in facts && f != c :: f.observedMs < c.observedMs
    ensures First(facts, NewestFirst) == c
  {
    NewestIsTotal();
    SortByHead(facts, NewestFirst);
    assert NewestFirst(First(facts, NewestFirst), c);
  }

  /**
   * A corroborated user correction strictly newer than every other active fact wins,
   * whatever the class of the attribute.
   */
  lemma FreshCorrectionWins(facts: seq<Fact>, c: Fact, now: int)
    requires c in facts && c.status.Active? && IsCorroboratedCorrection(c)
    requires forall f | f in facts && f.status.Active? && f != c ::
      f.observedMs < c.observedMs && f.attribute == c.attribute
    ensures var outcome := SelectFact(facts, now); outcome.Ok? && outcome.value.Some? && outcome.value.value.fact == c
  {
    hide First;
    var active := ActiveOnly(facts);
    assert c in active;
    var base := SelectBase(active, ClassOf(active[0].attribute));
    StrictlyNewestIsFirst(Keep(active, IsCorroboratedCorrection), c);
  }

  // ------------------------------------------------------------- the rules, independently

  /** The newest; among equally new ones the surest, then the best corroborated, then the smallest id. */
  predicate NewestOf(facts: seq<Fact>, f: Fact) {
    f in facts && forall g | g in facts ::
      && g.observedMs <= f.observedMs
      && (g.observedMs == f.observedMs ==> g.confidence <= f.confidence)
      && (g.observedMs == f.observedMs && g.confidence == f.confidence ==> g.corroboration <= f.corroboration)
      && (g.observedMs == f.observedMs && g.confidence == f.confidence && g.corroboration == f.corroboration ==>
            !Less(g.id, f.id))
  }

  /** The surest; among equally sure ones the best corroborated, then the newest, then the smallest id. */
  predicate SurestOf(facts: seq<Fact>, f: Fact) {
    f in facts && forall g | g in facts ::
      && g.confidence <= f.confidence
      && (g.confidence == f.confidence ==> g.corroboration <= f.corroboration)
      && (g.confidence == f.confidence && g.corroboration == f.corroboration ==> g.observedMs <= f.observedMs)
      && (g.confidence == f.confidence && g.corroboration == f.corroboration && g.observedMs == f.observedMs ==>
            !Less(g.id, f.id))
  }

  lemma FirstIsBest(facts: seq<Fact>)
    requires facts != []
    ensures NewestOf(facts, First(facts, NewestFirst)) && SurestOf(facts, First(facts, ConfidentFirst))
  {
    hide First;
    NewestIsTotal();
    ConfidentIsTotal();
    FirstStandsBeforeAll(facts, NewestFirst);
    FirstStandsBeforeAll(facts, ConfidentFirst);
  }

  lemma FirstStandsBeforeAll(facts: seq<Fact>, before: (Fact, Fact) -> bool)
    requires facts != [] && Total(before)
    ensures forall f | f in facts :: before(First(facts, before), f)
  {
    SortByHead(facts, before);
  }

  /** Rules 1 to 3, in terms of the facts: official first, else newest, or the surest. */
  lemma BaseFollowsRules(active: seq<Fact>, cls: AttributeClass)
    requires active != []
    ensures var base, official := SelectBase(active, cls), exists f | f in active :: IsOfficial(f);
      match base.rule
      case OfficialOperational => cls.Operational? && official && IsOfficial(base.fact)
          && NewestOf(Keep(active, IsOfficial), base.fact)
      case NewestTimeSensitive => (cls.TimeSensitive? || (cls.Operational? && !official)) && NewestOf(active, base.fact)
      case RecencyTolerantExperiential => cls.Experiential? && SurestOf(active, base.fact)
      case VerifiedVisitorCorrection => false
  {
    hide First;
    FirstIsBest(active);
    if Keep(active, IsOfficial) != [] {
      assert IsOfficial(Keep(active, IsOfficial)[0]);
      FirstIsBest(Keep(active, IsOfficial));
    } else {
      assert forall f | f in active :: !IsOfficial(f) by {
        assert forall f :: f in Keep(active, IsOfficial) <==> f in active && IsOfficial(f);
      }
    }
  }

  /**
   * Rule 4 decides exactly if some corroborated correction is newer than the winner of
   * rules 1 to 3, or that winner is stale and there is a correction at all; then the newest
   * correction wins, and otherwise the earlier winner stands.
   */
  lemma OverrideFiresExactly(active: seq<Fact>, base: Selection, now: int)
    requires !base.rule.VerifiedVisitorCorrection?
    ensures var s := Override(active, base, now);
      && (s.rule.VerifiedVisitorCorrection? <==>
            exists c | c in active && IsCorroboratedCorrection(c) :: c.observedMs > base.fact.observedMs
                || base.fact.observedMs < now - STALE_MS)
      && (if s.rule.VerifiedVisitorCorrection? then NewestOf(Keep(active, IsCorroboratedCorrection), s.fact)
          else s == base)
  {
    hide First;
    var corroborated := Keep(active, IsCorroboratedCorrection);
    if corroborated != [] {
      FirstIsBest(corroborated);
      assert First(corroborated, NewestFirst) in active;
    } else {
      assert forall c | c in active :: !IsCorroboratedCorrection(c) by {
        assert forall c :: c in corroborated <==> c in active && IsCorroboratedCorrection(c);
      }
    }
  }

  /** Operators publish these; the freshest reading governs those; on anything else confidence leads. */
  predicate OperatorsKnow(attribute: string) {
    attribute in ["hours", "opening_hours", "price", "admission_price", "ticket_price", "pass_price",
        "booking_required"]
  }

  predicate ChangesFast(attribute: string) {
    attribute in ["crowd_level", "wait_time", "temporary_closure", "construction_status"]
  }

  lemma ClassesOfAttributes(attribute: string)
    ensures ClassOf(attribute).Operational? <==> OperatorsKnow(attribute)
    ensures ClassOf(attribute).TimeSensitive? <==> !OperatorsKnow(attribute) && ChangesFast(attribute)
  {}

  /** From a web site of the operator or from open data. */
  predicate FromOperator(f: Fact) {
    f.source in {OfficialSite, OpenData}
  }

  /** A visitor's correction that at least two others confirmed. */
  predicate Confirmed(f: Fact) {
    f.source == UserCorrection && f.corroboration >= 2
  }

  /** The winner before corrections count, for facts about one attribute. */
  ghost predicate WinsByRules(active: seq<Fact>, attribute: string, f: Fact) {
    if OperatorsKnow(attribute) && (exists g | g in active :: FromOperator(g))
    then NewestOf(Keep(active, FromOperator), f)
    else if OperatorsKnow(attribute) || ChangesFast(attribute) then NewestOf(active, f)
    else SurestOf(active, f)
  }

  lemma BaseWinsByRules(active: seq<Fact>)
    requires active != []
    ensures WinsByRules(active, active[0].attribute, SelectBase(active, ClassOf(active[0].attribute)).fact)
  {
    hide NewestOf, SurestOf, First;
    ClassesOfAttributes(active[0].attribute);
    FirstIsBest(active);
    KeepAgrees(active, IsOfficial, FromOperator);
    if Keep(active, IsOfficial) != [] {
      assert Keep(active, IsOfficial)[0] in Keep(active, IsOfficial);
      FirstIsBest(Keep(active, IsOfficial));
    } else {
      assert forall f | f in active :: !FromOperator(f) by {
        assert forall f :: f in Keep(active, FromOperator) <==> f in active && FromOperator(f);
      }
    }
  }

  lemma {:induction false} KeepAgrees<T(!new)>(s: seq<T>, f: T -> bool, g: T -> bool)
    requires forall x | x in s :: f(x) == g(x)
    ensures Keep(s, f) == Keep(s, g)
  {
    if s == [] {
    } else {
      KeepAgrees(s[1..], f, g);
    }
  }

  /**
   * The whole resolver: of facts about one attribute the rules pick a winner; the newest
   * confirmed correction replaces it exactly if it is newer, or the winner is older than 365
   * days.
   */
  lemma SelectionFollowsRules(facts: seq<Fact>, now: int) returns (base: Fact)
    requires SelectFact(facts, now).Ok? && SelectFact(facts, now).value.Some?
    ensures var active := ActiveOnly(facts); var confirmed := Keep(active, Confirmed);
      var winner := SelectFact(facts, now).value.value.fact;
      && active != [] && WinsByRules(active, active[0].attribute, base)
      && if confirmed != [] && (base.observedMs < now - 31536000000
                                || exists c | c in confirmed :: c.observedMs > base.observedMs)
         then NewestOf(confirmed, winner)
         else winner == base
  {
    hide NewestOf, SurestOf, First, SelectBase;
    var active := ActiveOnly(facts);
    var selection := SelectBase(active, ClassOf(active[0].attribute));
    base := selection.fact;
    BaseWinsByRules(active);
    KeepAgrees(active, IsCorroboratedCorrection, Confirmed);
    var confirmed := Keep(active, Confirmed);
    if confirmed != [] {
      FirstIsBest(confirmed);
      NewestIsNewest(confirmed, First(confirmed, NewestFirst));
    }
  }

  lemma NewestIsNewest(facts: seq<Fact>, f: Fact)
    requires NewestOf(facts, f)
    ensures f in facts && forall g | g in facts :: g.observedMs <= f.observedMs
  {}

  /**
   * Only an active fact is ever selected, and there is a selection exactly if the active
   * facts agree on an attribute.
   */
  lemma WinnerIsActive(facts: seq<Fact>, now: int)
    ensures var outcome := SelectFact(facts, now);
      && (outcome.Err? <==>
          exists f, g | f in facts && g in facts :: f.status.Active? && g.status.Active? && f.attribute != g.attribute)
      && (outcome == Ok(None) <==> forall f | f in facts :: !f.status.Active?)
      && (outcome.Ok? && outcome.value.Some? ==>
          outcome.value.value.fact in facts && outcome.value.value.fact.status.Active?)
  {
    hide SelectBase, Override;
    var active := ActiveOnly(facts);
    assert forall f :: f in active <==> f in facts && f.status.Active?;
    if active != [] {
      assert active[0] in active;
      SelectedIsAmong(active, now);
    }
  }

  lemma SelectedIsAmong(active: seq<Fact>, now: int)
    requires active != []
    ensures Override(active, SelectBase(active, ClassOf(active[0].attribute)), now).fact in active
  {}

  // ------------------------------------------------------------- per attribute

  function OfAttribute(facts: seq<Fact>, attribute: string): seq<Fact> {
    if facts == [] then []
    else
      var before := OfAttribute(facts[..|facts| - 1], attribute);
      if facts[|facts| - 1].attribute == attribute then before + [facts[|facts| - 1]] else before
  }

  lemma {:induction false} OfAttributeMembers(facts: seq<Fact>, attribute: string)
    ensures forall f :: f in OfAttribute(facts, attribute) <==> f in facts && f.attribute == attribute
  {
    if facts == [] {
    } else {
      OfAttributeMembers(facts[..|facts| - 1], attribute);
      assert facts == facts[..|facts| - 1] + [facts[|facts| - 1]];
    }
  }

  /** A group of one attribute never raises the mixed-attribute error. */
  lemma GroupIsNeverMixed(facts: seq<Fact>, attribute: string, now: int)
    ensures SelectFact(OfAttribute(facts, attribute), now).Ok?
  {
    OfAttributeMembers(facts, attribute);
  }

  /** `selectFactsByAttribute`. */
  method SelectFactsByAttribute(facts: seq<Fact>, now: int) returns (out: map<string, Selection>)
    ensures forall a: string ::
      var selected := SelectFact(OfAttribute(facts, a), now);
      selected.Ok? && (if selected.value.Some? then a in out && out[a] == selected.value.value else a !in out)
  {
    hide SelectFact;
    var groups: map<string, seq<Fact>> := map[];
    assert facts[..|facts|] == facts;
    for i := 0 to |facts|
      invariant forall a: string :: (if a in groups then groups[a] else []) == OfAttribute(facts[..i], a)
      invariant forall a: string | a in groups :: groups[a] != []
    {
      var f := facts[i];
      assert facts[..i + 1][..i] == facts[..i];
      if f.attribute in groups {
        groups := groups[f.attribute := groups[f.attribute] + [f]];
      } else {
        groups := groups[f.attribute := [f]];
      }
    }
    out := map[];
    var pending := groups.Keys;
    while pending != {}
      invariant pending <= groups.Keys
      invariant forall a: string | a in groups.Keys - pending :: Decided(groups[a], now, a, out)
      invariant forall a: string | a !in groups || a in pending :: a !in out
      decreases |pending|
    {
      var attribute :| attribute in pending;
      GroupIsNeverMixed(facts, attribute, now);
      var selected := SelectFact(groups[attribute], now);
      if selected.value.Some? {
        out := out[attribute := selected.value.value];
      }
      pending := pending - {attribute};
    }
    forall a: string
      ensures Decided(OfAttribute(facts, a), now, a, out)
    {
      GroupIsNeverMixed(facts, a, now);
      NothingSelectedFromNothing(now);
    }
  }

  ghost predicate Decided(group: seq<Fact>, now: int, attribute: string, out: map<string, Selection>) {
    var selected := SelectFact(group, now);
    selected.Ok? && (if selected.value.Some? then attribute in out && out[attribute] == selected.value.value
        else attribute !in out)
  }

  lemma NothingSelectedFromNothing(now: int)
    ensures SelectFact([], now) == Ok(None)
  {}
}
