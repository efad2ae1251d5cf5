/**
 * The curation list of one city stay as a table under two UNIQUE indexes, with the
 * transactions that write it: add, patch and rebalance.
 *
 * `rows` is what the running transaction sees, `committed` what a rollback returns
 * to.  Other requests may commit inserts between any two statements; each such
 * batch arrives through `Interleave`.
 */
module Places {
  import opened Prelude
  import opened Keys
  import opened Rebalance

  type Id = string

  datatype PlaceState = Suggested | Kept | Removed | MustDo

  datatype Row = Row(poi: string, position: string, state: PlaceState)

  type Table = map<Id, Row>

  const REBALANCE_THRESHOLD := 40
  const MAX_POSITION := 42

  /** `needsRebalance`. */
  predicate NeedsRebalance(key: string) {
    |key| > REBALANCE_THRESHOLD
  }

  // ------------------------------------------------------------- table invariants

  /** The index on (trip_city_id, position). */
  predicate UniquePositions(t: Table) {
    forall x, y | x in t && y in t && x != y :: t[x].position != t[y].position
  }

  /** The index on (trip_city_id, poi_id). */
  predicate UniquePois(t: Table) {
    forall x, y | x in t && y in t && x != y :: t[x].poi != t[y].poi
  }

  predicate ValidPositions(t: Table) {
    forall x | x in t :: IsValidKey(t[x].position)
  }

  predicate ListInv(t: Table) {
    UniquePositions(t) && UniquePois(t) && ValidPositions(t)
  }

  ghost predicate Bounded(t: Table, n: nat) {
    forall x | x in t :: |t[x].position| <= n
  }

  /** Rows `ids` appear in the same relative order in both tables. */
  ghost predicate SameOrder(before: Table, after: Table, ids: set<Id>) {
    && ids <= before.Keys && ids <= after.Keys
    && forall x, y | x in ids && y in ids ::
         Less(before[x].position, before[y].position) <==> Less(after[x].position, after[y].position)
  }

  /** Only positions may differ between the two tables on `ids`. */
  ghost predicate SameContent(before: Table, after: Table, ids: set<Id>) {
    && ids <= before.Keys && ids <= after.Keys
    && forall x | x in ids :: after[x].poi == before[x].poi && after[x].state == before[x].state
  }

  ghost predicate IsLast(t: Table, id: Id) {
    id in t && forall x | x in t && x != id :: Less(t[x].position, t[id].position)
  }

  // ------------------------------------------------------------- list order

  /** ORDER BY position COLLATE "C", id. */
  predicate Before(t: Table, x: Id, y: Id)
    requires x in t && y in t
  {
    Less(t[x].position, t[y].position) || (t[x].position == t[y].position && Less(x, y))
  }

  predicate IsListing(t: Table, ids: seq<Id>) {
    && (forall i | 0 <= i < |ids| :: ids[i] in t)
    && (forall x | x in t :: x in ids)
    && (forall i, j | 0 <= i < j < |ids| :: Before(t, ids[i], ids[j]))
  }

  lemma BeforeIrreflexive(t: Table, x: Id)
    requires x in t
    ensures !Before(t, x, x)
  {
    LessIrreflexive(t[x].position);
    LessIrreflexive(x);
  }

  lemma ListingHasNoDuplicates(t: Table, ids: seq<Id>)
    requires IsListing(t, ids)
    ensures forall i, j | 0 <= i < j < |ids| :: ids[i] != ids[j]
    ensures |ids| == |t|
  {
    forall i, j | 0 <= i < j < |ids|
      ensures ids[i] != ids[j]
    {
      BeforeIrreflexive(t, ids[i]);
    }
    var s := set x | x in ids;
    assert s == t.Keys;
    DistinctCount(ids);
  }

  lemma {:induction false} DistinctCount<T>(s: seq<T>)
    requires forall i, j | 0 <= i < j < |s| :: s[i] != s[j]
    ensures |set x | x in s| == |s|
  {
    if s == [] {
    } else {
      var n := |s| - 1;
      DistinctCount(s[..n]);
      assert (set x | x in s) == (set x | x in s[..n]) + {s[n]};
    }
  }

  lemma ListingExtends(t: Table, last: Id, ids: seq<Id>)
    requires last in t && forall x | x in t && x != last :: Before(t, x, last)
    requires IsListing(t - {last}, ids)
    ensures IsListing(t, ids + [last])
  {
    hide Less;
    var rest := t - {last};
    assert forall x | x in rest :: x in t && x != last && rest[x] == t[x];
    assert forall x | x in t && x != last :: x in rest;
    forall i, j | 0 <= i < j < |ids|
      ensures Before(t, ids[i], ids[j])
    {
      assert Before(rest, ids[i], ids[j]);
    }
  }

  /** A table can always be listed. */
  lemma {:induction false} ListingExists(t: Table)
    ensures exists ids :: IsListing(t, ids)
    decreases |t|
  {
    if t == map[] {
      assert IsListing(t, []);
    } else {
      var last := LastRow(t, t.Keys);
      var rest := t - {last};
      assert |rest| < |t| by {
        assert rest.Keys == t.Keys - {last};
      }
      ListingExists(rest);
      var ids :| IsListing(rest, ids);
      ListingExtends(t, last, ids);
    }
  }

  lemma {:induction false} LastRow(t: Table, ids: set<Id>) returns (last: Id)
    requires ids <= t.Keys && ids != {}
    ensures last in ids && forall x | x in ids && x != last :: Before(t, x, last)
    decreases |ids|
  {
    var y :| y in ids;
    if ids == {y} {
      last := y;
    } else {
      var z := LastRow(t, ids - {y});
      LessTotal(t[y].position, t[z].position);
      LessTotal(y, z);
      last := if Before(t, y, z) then z else y;
      forall x | x in ids && x != last
        ensures Before(t, x, last)
      {
        if x != y && x != z {
          if last == y {
            BeforeTransitive(t, x, z, y);
          }
        }
      }
    }
  }

  lemma BeforeTransitive(t: Table, x: Id, y: Id, z: Id)
    requires x in t && y in t && z in t && Before(t, x, y) && Before(t, y, z)
    ensures Before(t, x, z)
  {
    if Less(t[x].position, t[y].position) && Less(t[y].position, t[z].position) {
      LessTransitive(t[x].position, t[y].position, t[z].position);
    }
    if Less(x, y) && Less(y, z) {
      LessTransitive(x, y, z);
    }
  }

  // ------------------------------------------------------------- key rewrites

  /** `after` is `before` with `keys[k]` written to row `ids[k]` and nothing else changed. */
  ghost predicate IsRekeyed(before: Table, after: Table, ids: seq<Id>, keys: seq<string>)
    requires |ids| == |keys|
  {
    && after.Keys == before.Keys
    && (forall k | 0 <= k < |ids| :: ids[k] in before && after[ids[k]] == before[ids[k]].(position := keys[k]))
    && (forall x | x in before && x !in ids :: after[x] == before[x])
  }

  ghost predicate Distinct<T>(s: seq<T>) {
    forall i, j | 0 <= i < j < |s| :: s[i] != s[j]
  }

  /** Another row already holds `position`. */
  predicate PositionTaken(t: Table, id: Id, position: string) {
    exists y | y in t :: y != id && t[y].position == position
  }

  /** Another row holds a jittered form of `position`. */
  ghost predicate JitterTaken(t: Table, id: Id, position: string) {
    exists again :: IsJitterOf(position, again) && PositionTaken(t, id, again)
  }

  /** Both a key and a jittered form of it are held by other rows. */
  ghost predicate Crowded(t: Table, id: Id, position: string) {
    PositionTaken(t, id, position) && JitterTaken(t, id, position)
  }

  predicate PoiTaken(t: Table, poi: string) {
    exists y | y in t :: t[y].poi == poi
  }

  /** A parked position is outside the alphabet, hence no key. */
  function Parked(id: Id): (p: string)
    ensures !IsValidKey(p)
  {
    var p := "~" + id;
    assert p[0] == '~';
    p
  }

  /** No row outside `ids` holds one of the fresh keys. */
  ghost predicate FreshKeysFree(t: Table, ids: seq<Id>, keys: seq<string>) {
    forall x | x in t && x !in ids :: t[x].position !in keys
  }

  ghost predicate AscendingKeys(keys: seq<string>) {
    && (forall k | 0 <= k < |keys| :: IsValidKey(keys[k]))
    && (forall j, k | 0 <= j < k < |keys| :: Less(keys[j], keys[k]))
  }

  /** Laying down ascending keys in list order keeps the list invariant and the order. */
  lemma RekeyKeepsList(listed: Table, before: Table, after: Table, ids: seq<Id>, keys: seq<string>)
    requires ListInv(listed) && IsListing(listed, ids)
    requires ListInv(before) && Extends(listed, before)
    requires |keys| == |ids| && AscendingKeys(keys)
    requires IsRekeyed(before, after, ids, keys) && FreshKeysFree(before, ids, keys)
    ensures ListInv(after)
    ensures SameOrder(listed, after, listed.Keys) && SameContent(listed, after, listed.Keys)
  {
    forall x, y | x in after && y in after && x != y
      ensures after[x].position != after[y].position && after[x].poi != after[y].poi
    {
      assert after[x].poi == before[x].poi && after[y].poi == before[y].poi;
      RekeyedApart(before, after, ids, keys, x, y);
    }
    forall x | x in after
      ensures IsValidKey(after[x].position)
    {
      if x in ids {
        var i :| 0 <= i < |ids| && ids[i] == x;
        assert after[x].position == keys[i];
      }
    }
    forall x, y | x in listed && y in listed
      ensures Less(listed[x].position, listed[y].position) <==> Less(after[x].position, after[y].position)
    {
      RekeyedInOrder(listed, before, after, ids, keys, x, y);
    }
  }

  lemma RekeyedApart(before: Table, after: Table, ids: seq<Id>, keys: seq<string>, x: Id, y: Id)
    requires x in before && y in before && x != y && before[x].position != before[y].position
    requires |keys| == |ids| && AscendingKeys(keys)
    requires IsRekeyed(before, after, ids, keys) && FreshKeysFree(before, ids, keys)
    ensures after[x].position != after[y].position
  {
    if x in ids {
      var i :| 0 <= i < |ids| && ids[i] == x;
      assert after[x].position == keys[i];
      if y in ids {
        var j :| 0 <= j < |ids| && ids[j] == y;
        assert after[y].position == keys[j];
        if i < j { LessAsymmetric(keys[i], keys[j]); } else { LessAsymmetric(keys[j], keys[i]); }
      }
    } else if y in ids {
      var j :| 0 <= j < |ids| && ids[j] == y;
      assert after[y].position == keys[j];
    }
  }

  /** Earlier in the listing means a smaller position. */
  lemma ListedInOrder(listed: Table, ids: seq<Id>, i: nat, j: nat)
    requires UniquePositions(listed) && IsListing(listed, ids) && i < j < |ids|
    ensures Less(listed[ids[i]].position, listed[ids[j]].position)
  {
    hide Less;
    assert Before(listed, ids[i], ids[j]);
    BeforeIrreflexive(listed, ids[i]);
  }

  /** Two rows, the first earlier in the listing: both comparisons agree before and after. */
  lemma RekeyedPair(listed: Table, after: Table, ids: seq<Id>, keys: seq<string>, i: nat, j: nat)
    requires UniquePositions(listed) && IsListing(listed, ids) && i < j < |ids|
    requires |keys| == |ids| && AscendingKeys(keys) && ids[i] in after && ids[j] in after
    requires after[ids[i]].position == keys[i] && after[ids[j]].position == keys[j]
    ensures Less(listed[ids[i]].position, listed[ids[j]].position)
        && Less(after[ids[i]].position, after[ids[j]].position)
    ensures !Less(listed[ids[j]].position, listed[ids[i]].position)
        && !Less(after[ids[j]].position, after[ids[i]].position)
  {
    hide Less, UniquePositions, IsValidKey;
    ListedInOrder(listed, ids, i, j);
    LessAsymmetric(listed[ids[i]].position, listed[ids[j]].position);
    LessAsymmetric(keys[i], keys[j]);
  }

  lemma ListedAt(t: Table, ids: seq<Id>, x: Id) returns (i: nat)
    requires IsListing(t, ids) && x in t
    ensures i < |ids| && ids[i] == x
  {
    i :| i < |ids| && ids[i] == x;
  }

  lemma RekeyedAt(before: Table, after: Table, ids: seq<Id>, keys: seq<string>, i: nat)
    requires |keys| == |ids| && IsRekeyed(before, after, ids, keys) && i < |ids|
    ensures ids[i] in after && after[ids[i]].position == keys[i]
  {
    assert after[ids[i]] == before[ids[i]].(position := keys[i]);
  }

  lemma RekeyedInOrder(listed: Table, before: Table, after: Table, ids: seq<Id>, keys: seq<string>, x: Id, y: Id)
    requires UniquePositions(listed) && IsListing(listed, ids) && x in listed && y in listed
    requires |keys| == |ids| && AscendingKeys(keys) && IsRekeyed(before, after, ids, keys)
    ensures x in after && y in after
    ensures Less(listed[x].position, listed[y].position) <==> Less(after[x].position, after[y].position)
  {
    hide Less, UniquePositions, IsListing, AscendingKeys, IsRekeyed;
    var i := ListedAt(listed, ids, x);
    var j := ListedAt(listed, ids, y);
    RekeyedAt(before, after, ids, keys, i);
    RekeyedAt(before, after, ids, keys, j);
    if i < j {
      RekeyedPair(listed, after, ids, keys, i, j);
    } else if j < i {
      RekeyedPair(listed, after, ids, keys, j, i);
    } else {
      LessIrreflexive(listed[x].position);
      LessIrreflexive(after[x].position);
    }
  }

  /** `larger` holds every row of `smaller` unchanged. */
  ghost predicate Extends(smaller: Table, larger: Table) {
    forall x | x in smaller :: x in larger && larger[x] == smaller[x]
  }

  function Indices(n: nat): (s: set<nat>)
    ensures forall k: nat :: k in s <==> k < n
  {
    if n == 0 then {} else Indices(n - 1) + {n - 1}
  }

  /** The statement has written every row but those in `todo`, and met no outside holder yet. */
  ghost predicate PartlyRekeyed(start: Table, t: Table, ids: seq<Id>, keys: seq<string>, todo: set<nat>)
    requires |ids| == |keys|
  {
    && t.Keys == start.Keys
    && (forall k: nat | k < |ids| ::
          && ids[k] in start
          && t[ids[k]] == if k in todo then start[ids[k]] else start[ids[k]].(position := keys[k]))
    && (forall x | x in start && x !in ids :: t[x] == start[x])
    && (forall k: nat | k < |ids| && k !in todo :: forall x | x in start && x !in ids :: start[x].position != keys[k])
  }

  lemma RekeyOne(start: Table, t: Table, ids: seq<Id>, keys: seq<string>, todo: set<nat>, k: nat)
    requires |ids| == |keys| && Distinct(ids) && Distinct(keys)
    requires forall n | 0 <= n < |ids| :: ids[n] in start && start[ids[n]].position !in keys
    requires PartlyRekeyed(start, t, ids, keys, todo) && k in todo && k < |ids|
    ensures PositionTaken(t, ids[k], keys[k]) ==> !FreshKeysFree(start, ids, keys)
    ensures !PositionTaken(t, ids[k], keys[k]) ==>
      PartlyRekeyed(start, t[ids[k] := t[ids[k]].(position := keys[k])], ids, keys, todo - {k})
  {
    if PositionTaken(t, ids[k], keys[k]) {
      var y :| y in t && y != ids[k] && t[y].position == keys[k];
      assert forall n: nat | n < |ids| && n != k :: t[ids[n]].position != keys[k];
      assert y !in ids && start[y].position in keys;
    } else {
      forall x | x in start && x !in ids
        ensures start[x].position != keys[k]
      {
        assert t[x] == start[x];
      }
    }
  }

  function ParkedKeys(ids: seq<Id>): (parks: seq<string>)
    ensures |parks| == |ids| && forall k | 0 <= k < |ids| :: parks[k] == Parked(ids[k])
  {
    seq(|ids|, k requires 0 <= k < |ids| => Parked(ids[k]))
  }

  /** Parking never collides: a parked value is no key, and each names its row. */
  lemma ParkingIsFree(t: Table, ids: seq<Id>)
    requires ValidPositions(t) && Distinct(ids)
    requires forall k | 0 <= k < |ids| :: ids[k] in t
    ensures Distinct(ParkedKeys(ids))
    ensures forall x | x in t :: t[x].position !in ParkedKeys(ids)
  {
    var parks := ParkedKeys(ids);
    forall i, j | 0 <= i < j < |parks|
      ensures parks[i] != parks[j]
    {
      assert parks[i][1..] == ids[i] && parks[j][1..] == ids[j];
    }
  }

  /** What the transaction sees while its rows are parked, beside the committed table. */
  ghost predicate ParkedView(committed: Table, view: Table, ids: seq<Id>) {
    && view.Keys == committed.Keys
    && (forall x | x in view :: view[x] == if x in ids then committed[x].(position := Parked(x)) else committed[x])
  }

  lemma ParkedAre(before: Table, committed: Table, view: Table, ids: seq<Id>)
    requires ParkedView(committed, view, ids) && forall x :: x in ids <==> x in before
    ensures view == WithParked(committed, before.Keys)
  {}

  lemma ParkedViewExtends(committed: Table, view: Table, added: Table, ids: seq<Id>)
    requires ParkedView(committed, view, ids) && added.Keys !! committed.Keys
    requires forall x | x in ids :: x in committed
    ensures ParkedView(committed + added, view + added, ids)
  {}

  ghost predicate FreshKeys(keys: seq<string>, count: nat) {
    keys == SlotKeys(count) && AscendingKeys(keys) && forall k | 0 <= k < count :: |keys[k]| <= KeyWidth(count)
  }

  lemma FreshKeysAscend(count: nat)
    ensures FreshKeys(SlotKeys(count), count)
  {
    SlotKeysAscend(count);
  }

  lemma KeysAreDistinct(keys: seq<string>)
    requires AscendingKeys(keys)
    ensures Distinct(keys)
  {
    forall i, j | 0 <= i < j < |keys|
      ensures keys[i] != keys[j]
    {
      LessAsymmetric(keys[i], keys[j]);
    }
  }

  predicate HoldsLast(t: Table, id: Id)
    requires id in t
  {
    forall x | x in t :: t[x].position == t[id].position || Less(t[x].position, t[id].position)
  }

  ghost predicate IsLastPosition(t: Table, last: Option<string>) {
    if last.None? then t == map[]
    else exists id :: id in t && t[id].position == last.value && HoldsLast(t, id)
  }

  ghost predicate SortsLast(t: Table, key: string) {
    forall x | x in t :: Less(t[x].position, key)
  }

  /** `keyAfter(lastPosition)` never throws and lies beyond every row. */
  lemma AppendSortsLast(t: Table, last: Option<string>)
    requires ListInv(t) && IsLastPosition(t, last)
    ensures KeyAfter(last).Ok? && IsValidKey(KeyAfter(last).value) && SortsLast(t, KeyAfter(last).value)
    ensures forall n: nat | Bounded(t, n) :: |KeyAfter(last).value| <= n + 1
  {
    KeyBetweenContract(last, None);
    if last.Some? {
      var id :| id in t && t[id].position == last.value && HoldsLast(t, id);
      assert forall n: nat | Bounded(t, n) :: |t[id].position| <= n;
      AfterGreatest(t, id, KeyAfter(last).value);
    }
  }

  lemma AfterGreatest(t: Table, id: Id, key: string)
    requires id in t && HoldsLast(t, id) && Less(t[id].position, key)
    ensures SortsLast(t, key)
  {
    forall x | x in t
      ensures Less(t[x].position, key)
    {
      if t[x].position != t[id].position {
        LessTransitive(t[x].position, t[id].position, key);
      }
    }
  }

  lemma SortsLastExtends(t: Table, key: string, later: string)
    requires SortsLast(t, key) && Less(key, later)
    ensures SortsLast(t, later)
  {
    forall x | x in t
      ensures Less(t[x].position, later)
    {
      LessTransitive(t[x].position, key, later);
    }
  }

  /** A row after a patch. */
  function Moved(row: Row, position: string, state: Option<PlaceState>): Row {
    row.(position := position, state := if state.Some? then state.value else row.state)
  }

  /** The rows of `before` are on keys as short as a rebalance makes them. */
  ghost predicate KeyedShort(before: Table, after: Table) {
    forall x | x in before :: x in after && |after[x].position| <= KeyWidth(|before|)
  }

  /** The rows that `after` has beyond `before` come from the batches. */
  ghost predicate Sourced(before: Table, after: Table, a: Table, b: Table, c: Table) {
    forall x | x in after && x !in before ::
      (x in a && a[x] == after[x]) || (x in b && b[x] == after[x]) || (x in c && c[x] == after[x])
  }

  // ------------------------------------------------------------- how long a key can get

  /** No position starts with more than `n` last digits. */
  ghost predicate LeadsAtMost(t: Table, n: nat) {
    forall x | x in t :: Lead(t[x].position) <= n
  }

  /** A key that `jitter(keyAfter(lastPosition))` can produce. */
  ghost predicate IsNextKey(t: Table, key: string) {
    exists last :: IsLastPosition(t, last) && KeyAfter(last).Ok? && IsJitterOf(KeyAfter(last).value, key)
  }

  lemma NextKeyIsShort(t: Table, key: string, n: nat)
    requires ListInv(t) && IsNextKey(t, key) && LeadsAtMost(t, n)
    ensures |key| <= n + 3
  {
    var last :| IsLastPosition(t, last) && KeyAfter(last).Ok? && IsJitterOf(KeyAfter(last).value, key);
    AppendLength(if last.Some? then last.value else "");
  }

  /** The greatest position has the longest run of last digits. */
  lemma GreatestLeads(t: Table, id: Id, x: Id)
    requires ValidPositions(t) && id in t && HoldsLast(t, id) && x in t
    ensures Lead(t[x].position) <= Lead(t[id].position)
  {
    if Lead(t[x].position) > Lead(t[id].position) {
      LeadFollowsOrder(t[x].position, t[id].position);
      LessAsymmetric(t[id].position, t[x].position);
    }
  }

  /** Over a tail of many last digits the next key, and its retry, are as long as this. */
  lemma TallTail(t: Table, n: nat) returns (key: string, again: string)
    requires ListInv(t) && !LeadsAtMost(t, n)
    ensures IsNextKey(t, key) && |key| > n + 3
    ensures IsJitterOf(key, again) && |again| > n + 5
  {
    hide Less, Lead, IsJitterOf;
    var x :| x in t && Lead(t[x].position) > n;
    var id := LastRow(t, t.Keys);
    assert HoldsLast(t, id);
    var last := Some(t[id].position);
    GreatestLeads(t, id, x);
    AppendSortsLast(t, last);
    AppendLength(t[id].position);
    key := WithOnes(KeyAfter(last).value);
    again := WithOnes(key);
  }

  /** One of the jittered forms of a key. */
  function WithOnes(key: string): (out: string)
    ensures IsJitterOf(key, out) && |out| == |key| + 2
  {
    key + "11"
  }

  /**
   * Exactly when the appended key is sure to stay within the bound: when no position
   * starts with forty last digits.
   */
  lemma NextKeyFits(t: Table)
    requires ListInv(t)
    ensures (forall key | IsNextKey(t, key) :: |key| <= MAX_POSITION) <==> LeadsAtMost(t, MAX_POSITION - 3)
  {
    hide ListInv, IsNextKey;
    if LeadsAtMost(t, MAX_POSITION - 3) {
      forall key | IsNextKey(t, key)
        ensures |key| <= MAX_POSITION
      {
        NextKeyIsShort(t, key, MAX_POSITION - 3);
      }
    } else {
      var key, again := TallTail(t, MAX_POSITION - 3);
    }
  }

  /** And exactly when the jittered retry is, too. */
  lemma RetriedKeyFits(t: Table)
    requires ListInv(t)
    ensures (forall key, again | IsNextKey(t, key) && IsJitterOf(key, again) :: |again| <= MAX_POSITION) <==>
            LeadsAtMost(t, MAX_POSITION - 5)
  {
    hide ListInv, IsNextKey;
    if LeadsAtMost(t, MAX_POSITION - 5) {
      forall key, again | IsNextKey(t, key) && IsJitterOf(key, again)
        ensures |again| <= MAX_POSITION
      {
        NextKeyIsShort(t, key, MAX_POSITION - 5);
      }
    } else {
      var key, again := TallTail(t, MAX_POSITION - 5);
    }
  }

  /** After a rebalance of a list with room, only rows committed meanwhile can be tall. */
  lemma OnlyNewcomersAreTall(before: Table, after: Table, n: nat)
    requires Roomy(before) && KeyedShort(before, after) && n >= REBALANCE_THRESHOLD - 3
    ensures LeadsAtMost(after, n) <==> forall x | x in after && x !in before :: Lead(after[x].position) <= n
  {
    hide Pow62;
    RoomAfterRebalance(before);
  }

  /** Rows that other requests may commit without ever pushing a key past the bound. */
  ghost predicate ModestBatch(batch: Table) {
    Bounded(batch, MAX_POSITION) && LeadsAtMost(batch, MAX_POSITION - 5)
  }

  lemma ModestNewcomers(before: Table, after: Table, late: Late)
    requires Roomy(before) && KeyedShort(before, after) && late.Modest()
    requires Sourced(before, after, late.afterListing, late.afterParking, late.afterKeying)
    ensures Bounded(after, MAX_POSITION) && LeadsAtMost(after, MAX_POSITION - 5)
  {
    hide Pow62, Lead;
    RoomAfterRebalance(before);
    OnlyNewcomersAreTall(before, after, MAX_POSITION - 5);
  }

  lemma StepExtends(before: Table, mid: Table, after: Table, moved: set<Id>)
    requires ListStep(before, mid, moved) && Extends(mid, after) && ListInv(after)
    ensures ListStep(before, after, moved)
  {}

  datatype KeyChoice = Chosen(key: string) | Illegal | Failed

  /** A client key is used as given when it is short enough. */
  predicate ClientDecides(position: Option<string>) {
    position.Some? && !NeedsRebalance(position.value)
  }

  /** Positions within the bound, and few enough rows that a rebalance can restore it. */
  ghost predicate Roomy(t: Table) {
    Bounded(t, MAX_POSITION) && |t| < Pow62(36)
  }

  ghost predicate KeepsRoom(before: Table, after: Table) {
    Roomy(before) ==> Bounded(after, MAX_POSITION)
  }

  lemma StepStays(t: Table)
    requires ListInv(t)
    ensures ListStep(t, t, {})
  {}

  lemma StepKeepsList(before: Table, after: Table, moved: set<Id>)
    requires ListStep(before, after, moved)
    ensures ListInv(after)
  {}

  lemma RoomAfterRebalance(t: Table)
    ensures Roomy(t) ==> KeyWidth(|t|) + 3 <= REBALANCE_THRESHOLD
  {
    if Roomy(t) {
      KeyWidthBound(|t|, 36);
    }
  }

  /** What an add leaves behind when no other request commits meanwhile. */
  ghost predicate AddedAlone(before: Table, after: Table, id: Id, poi: string, position: Option<string>, reply: Reply) {
    && !reply.ServerError?
    && after.Keys <= before.Keys + {id}
    && (reply.AlreadyListed? <==> PoiTaken(before, poi))
    && (reply.NoUniquePosition? ==> ClientDecides(position))
    && (reply.Created? && !ClientDecides(position) ==> IsLast(after, id))
    && (ClientDecides(position) && !PoiTaken(before, poi) && !PositionTaken(before, id, position.value) ==>
          reply.Created? && id in after && after[id].position == position.value)
    && (ClientDecides(position) && !PoiTaken(before, poi) && PositionTaken(before, id, position.value)
        && !JitterTaken(before, id, position.value) ==>
          reply.Created? && id in after && IsJitterOf(position.value, after[id].position))
  }

  lemma AddedAloneHolds(before: Table, mid: Table, after: Table, id: Id, row: Row, position: Option<string>,
                        reply: Reply)
    requires ListStep(before, mid, {}) && mid.Keys == before.Keys && id !in before
    requires InsertedAlone(mid, after, id, row, reply) && Extends(mid, after)
    requires reply in {Created, AlreadyListed, NoUniquePosition}
    requires reply.AlreadyListed? ==> PoiTaken(after, row.poi)
    requires if reply.Created? then id in after && SameOrJittered(row, after[id]) else id !in after
    requires if ClientDecides(position) then mid == before && row.position == position.value
        else SortsLast(mid, row.position)
    ensures AddedAlone(before, after, id, row.poi, position, reply)
  {
    hide ListInv, Less, Pow62, ListStep, SameOrder, IsLast, Bounded, SortsLast, PositionTaken, PoiTaken, IsJitterOf,
         JitterTaken;
    SamePoisTaken(before, mid, row.poi);
    if !reply.Created? {
      assert after == mid;
    }
    if !ClientDecides(position) && !PoiTaken(mid, row.poi) {
      NothingAtTheEnd(mid, id, row.position);
      LastAfterAppend(mid, id, row);
    }
  }

  lemma SamePoisTaken(before: Table, mid: Table, poi: string)
    requires ListStep(before, mid, {}) && mid.Keys == before.Keys
    ensures PoiTaken(mid, poi) <==> PoiTaken(before, poi)
  {
    assert forall x | x in before :: mid[x].poi == before[x].poi;
  }

  lemma LastAfterAppend(t: Table, id: Id, row: Row)
    requires SortsLast(t, row.position)
    ensures IsLast(t[id := row], id)
  {}

  lemma FailedIsBounded(before: Table, after: Table, late: Late)
    requires Bounded(before, MAX_POSITION) && late.Modest()
    requires Extends(before, after) && Sourced(before, after, late.afterListing, late.afterParking, map[])
    ensures Bounded(after, MAX_POSITION)
  {
    hide Lead;
  }

  lemma KeyedShortExtends(before: Table, mid: Table, after: Table)
    requires KeyedShort(before, mid) && Extends(mid, after)
    ensures KeyedShort(before, after)
  {}

  /** A client key so long that it forces a rebalance. */
  predicate MustRebalance(position: Option<string>) {
    position.Some? && IsValidKey(position.value) && NeedsRebalance(position.value)
  }

  /** Rows committed after a calm rebalance, and acceptable beside it, are in the table. */
  ghost predicate LateRowsJoin(before: Table, after: Table, late: Late) {
    late.CalmRebalance() ==>
      exists keyed: Table :: keyed.Keys == before.Keys && LateRowsJoinAt(keyed, before, after, late)
  }

  ghost predicate LateRowsJoinAt(keyed: Table, before: Table, after: Table, late: Late) {
    Admissible(keyed, before, late.afterKeying) ==> Extends(late.afterKeying, after)
  }

  lemma LateRowsJoined(before: Table, keyed: Table, after: Table, late: Late)
    requires late.CalmRebalance() ==> keyed.Keys == before.Keys
    requires late.CalmRebalance() && Admissible(keyed, before, late.afterKeying) ==> after == keyed + late.afterKeying
    ensures LateRowsJoin(before, after, late)
  {
    hide Admissible;
    assert LateRowsJoinAt(keyed, before, after, late) || !late.CalmRebalance();
  }

  lemma LateRowsStay(before: Table, mid: Table, after: Table, late: Late)
    requires LateRowsJoin(before, mid, late) && Extends(mid, after)
    ensures LateRowsJoin(before, after, late)
  {
    hide Admissible;
    if late.CalmRebalance() {
      var keyed: Table :| keyed.Keys == before.Keys && LateRowsJoinAt(keyed, before, mid, late);
      assert LateRowsJoinAt(keyed, before, after, late);
    }
  }

  /** The key that was to be written and a jittered form of it are both held by others. */
  ghost predicate NoRoom(t: Table, id: Id, position: Option<string>) {
    exists key :: (ClientDecides(position) ==> key == position.value) && Crowded(t, id, key)
  }

  /** An undisturbed insert at the end goes through, and ends up last. */
  lemma AppendedLast(mid: Table, after: Table, id: Id, row: Row, reply: Reply)
    requires SortsLast(mid, row.position) && InsertedAtOnce(mid, after, id, row, reply)
    ensures reply.Created? ==> IsLast(after, id)
    ensures !reply.NoUniquePosition?
  {
    NothingAtTheEnd(mid, id, row.position);
    LastAfterAppend(mid, id, row);
  }

  /** An add, once its key is chosen: from what was listed, over the table when it wrote, to the end. */
  lemma AddFollows(before: Table, keyed: Table, after: Table, id: Id, row: Row, position: Option<string>, reply: Reply,
                   late: Late)
    requires ListStep(before, keyed, {}) && ListInv(after) && Extends(keyed, after) && id !in keyed
    requires Sourced(before, keyed, late.afterListing, late.afterParking, late.afterKeying)
        && Arrivals(keyed, after, id, late)
    requires reply in {Created, AlreadyListed, NoUniquePosition}
    requires reply.AlreadyListed? ==> PoiTaken(after, row.poi)
    requires reply.NoUniquePosition? ==> Crowded(after, id, row.position)
    requires if reply.Created? then id in after && SameOrJittered(row, after[id]) else id !in after
    requires late.beforeWrite == map[] ==> InsertedAtOnce(keyed, after, id, row, reply)
    requires late.Quiet() ==> InsertedAlone(keyed, after, id, row, reply) && keyed.Keys == before.Keys
    requires if ClientDecides(position) then keyed == before && row.position == position.value
        else SortsLast(keyed, row.position)
    requires late.Modest() && Roomy(before) ==> Bounded(keyed, MAX_POSITION) && |row.position| <= REBALANCE_THRESHOLD
    requires late.Modest() && Bounded(keyed, MAX_POSITION) && |row.position| <= REBALANCE_THRESHOLD ==>
      Bounded(after, MAX_POSITION)
    requires MustRebalance(position) ==> LateRowsJoin(before, keyed, late)
    ensures ListStep(before, after, {}) && Arrivals(before, after, id, late)
    ensures reply.NoUniquePosition? ==> NoRoom(after, id, position)
    ensures ClientDecides(position) ==> Extends(before, after)
    ensures !ClientDecides(position) && late.beforeWrite == map[] ==>
      !reply.NoUniquePosition? && (reply.Created? ==> IsLast(after, id))
    ensures late.Modest() ==> KeepsRoom(before, after)
    ensures MustRebalance(position) ==> LateRowsJoin(before, after, late)
    ensures late.Quiet() ==> AddedAlone(before, after, id, row.poi, position, reply)
  {
    hide SortsLast, IsValidKey, SameOrder, SameContent, ListInv, Extends, ListStep, Bounded, Pow62, Roomy, AddedAlone,
         InsertedAlone, InsertedAtOnce, PoiTaken, PositionTaken, LateRowsJoin, Sourced, IsLast, ModestBatch, IsJitterOf,
         Arrivals, Crowded;
    StepExtends(before, keyed, after, {});
    ExtendsIsExtendsBut(keyed, after, id);
    ArrivalsInSteps(before, keyed, after, id, late);
    if MustRebalance(position) {
      LateRowsStay(before, keyed, after, late);
    }
    if !ClientDecides(position) && late.beforeWrite == map[] {
      AppendedLast(keyed, after, id, row, reply);
    }
    if late.Quiet() {
      AddedAloneHolds(before, keyed, after, id, row, position, reply);
    }
  }

  lemma PatchFollows(before: Table, keyed: Table, after: Table, id: Id, position: Option<string>, key: string,
                     state: Option<PlaceState>, reply: Reply, late: Late)
    requires position.Some? && ListStep(before, keyed, {}) && ListInv(after) && id in before && id in keyed
        && id in after
    requires ExtendsBut(keyed, after, id) && keyed[id].poi == before[id].poi
    requires Sourced(before, keyed, late.afterListing, late.afterParking, late.afterKeying)
        && Arrivals(keyed, after, id, late)
    requires reply in {Patched, NoUniquePosition}
    requires reply.Patched? ==> SameOrJittered(Moved(keyed[id], key, state), after[id])
    requires reply.NoUniquePosition? ==> after[id] == keyed[id] && Crowded(after, id, key)
    requires late.Quiet() ==> after.Keys == keyed.Keys == before.Keys
    requires late.Quiet() && !PositionTaken(keyed, id, key) ==> reply.Patched? && after[id].position == key
    requires late.Quiet() && PositionTaken(keyed, id, key) && !JitterTaken(keyed, id, key) ==>
      reply.Patched? && IsJitterOf(key, after[id].position)
    requires if ClientDecides(position) then keyed == before && key == position.value else SortsLast(keyed, key)
    requires late.Modest() && Roomy(before) ==> Bounded(keyed, MAX_POSITION) && |key| <= REBALANCE_THRESHOLD
    requires late.Modest() && Bounded(keyed, MAX_POSITION) && |key| <= REBALANCE_THRESHOLD ==>
      Bounded(after, MAX_POSITION)
    ensures ListStep(before, after, {id}) && Arrivals(before, after, id, late)
    ensures !reply.Patched? ==> ListStep(before, after, {})
    ensures reply.NoUniquePosition? ==> NoRoom(after, id, position)
    ensures reply.Patched? ==>
      && after[id].poi == before[id].poi && (state.Some? ==> after[id].state == state.value)
      && (ClientDecides(position) ==>
          after[id].position == position.value || IsJitterOf(position.value, after[id].position))
    ensures ClientDecides(position) ==> ExtendsBut(before, after, id)
    ensures late.Modest() ==> KeepsRoom(before, after)
    ensures late.Quiet() ==> PatchedAlone(before, after, id, position.value, reply)
  {
    hide SortsLast, IsValidKey, SameOrder, SameContent, ListInv, ExtendsBut, ListStep, Bounded, Pow62, Roomy,
         PatchedAlone, PositionTaken, Sourced, ModestBatch, IsJitterOf, Arrivals, JitterTaken, Crowded;
    StepMoves(before, keyed, after, id);
    ArrivalsInSteps(before, keyed, after, id, late);
    if late.Quiet() {
      PatchedAloneHolds(before, keyed, after, id, position.value, key, state, reply);
    }
  }

  lemma AddIsBounded(mid: Table, after: Table, id: Id, row: Row, between: Table)
    requires Bounded(mid, MAX_POSITION) && Bounded(between, MAX_POSITION) && |row.position| <= REBALANCE_THRESHOLD
    requires id !in mid && Extends(mid, after) && Sourced(mid[id := row], after, between, map[], map[])
    requires id in after ==> SameOrJittered(row, after[id])
    ensures Bounded(after, MAX_POSITION)
  {
  }

  lemma PatchIsBounded(mid: Table, after: Table, id: Id, key: string, state: Option<PlaceState>, between: Table)
    requires Bounded(mid, MAX_POSITION) && Bounded(between, MAX_POSITION) && |key| <= REBALANCE_THRESHOLD
    requires id in mid && id in after && ExtendsBut(mid, after, id) && Sourced(mid, after, between, map[], map[])
    requires after[id] == mid[id] || SameOrJittered(Moved(mid[id], key, state), after[id])
    ensures Bounded(after, MAX_POSITION)
  {
  }

  lemma StaysBounded(t: Table)
    ensures KeepsRoom(t, t)
  {}

  lemma StateKeepsRoom(t: Table, id: Id, state: Option<PlaceState>)
    requires id in t
    ensures KeepsRoom(t, t[id := Moved(t[id], t[id].position, state)])
  {
    hide Pow62;
  }

  lemma JoinedIsBounded(t: Table, added: Table, batch: Table)
    requires Bounded(t, MAX_POSITION) && Bounded(batch, MAX_POSITION) && (added == batch || added == map[])
    ensures Bounded(t + added, MAX_POSITION)
  {}

  /** What a position patch leaves behind when no other request commits meanwhile. */
  ghost predicate PatchedAlone(before: Table, after: Table, id: Id, position: string, reply: Reply) {
    && !reply.ServerError?
    && after.Keys == before.Keys
    && (reply.NoUniquePosition? ==> ClientDecides(Some(position)))
    && (!ClientDecides(Some(position)) ==> IsLast(after, id))
    && (ClientDecides(Some(position)) && !PositionTaken(before, id, position) ==>
          reply.Patched? && id in after && after[id].position == position)
    && (ClientDecides(Some(position)) && PositionTaken(before, id, position) && !JitterTaken(before, id, position) ==>
          reply.Patched? && id in after && IsJitterOf(position, after[id].position))
  }

  lemma PatchedAloneHolds(before: Table, mid: Table, after: Table, id: Id, position: string, key: string,
                          state: Option<PlaceState>, reply: Reply)
    requires id in mid && id in after && mid.Keys == before.Keys == after.Keys && ExtendsBut(mid, after, id)
    requires reply in {Patched, NoUniquePosition}
    requires reply.Patched? ==> SameOrJittered(Moved(mid[id], key, state), after[id])
    requires reply.NoUniquePosition? ==> after[id] == mid[id]
    requires !PositionTaken(mid, id, key) ==> reply.Patched? && after[id].position == key
    requires PositionTaken(mid, id, key) && !JitterTaken(mid, id, key) ==>
      reply.Patched? && IsJitterOf(key, after[id].position)
    requires if ClientDecides(Some(position)) then mid == before && key == position else SortsLast(mid, key)
    ensures PatchedAlone(before, after, id, position, reply)
  {
    hide Less, Pow62, PositionTaken, JitterTaken, IsJitterOf;
    if !ClientDecides(Some(position)) {
      NothingAtTheEnd(mid, id, key);
    }
  }

  /** Rows left as they are keep their order and their content. */
  lemma UnmovedKeep(before: Table, mid: Table, after: Table, ids: set<Id>)
    requires SameOrder(before, mid, before.Keys) && SameContent(before, mid, before.Keys)
    requires ids <= before.Keys && forall x | x in ids :: x in after && after[x] == mid[x]
    ensures SameOrder(before, after, ids) && SameContent(before, after, ids)
  {
    hide Less;
  }

  lemma StepMoves(before: Table, mid: Table, after: Table, id: Id)
    requires ListStep(before, mid, {}) && ListInv(after) && id in before
    requires ExtendsBut(mid, after, id) && id in after
    ensures ListStep(before, after, {id})
    ensures after[id] == mid[id] ==> ListStep(before, after, {})
  {
    hide ListInv, SameOrder, SameContent;
    assert before.Keys - {} == before.Keys;
    UnmovedKeep(before, mid, after, before.Keys - {id});
    if after[id] == mid[id] {
      UnmovedKeep(before, mid, after, before.Keys);
    }
  }

  lemma StepKeepsRows(before: Table, after: Table, id: Id)
    requires ListStep(before, after, {}) && id in before
    ensures id in after && after[id].poi == before[id].poi
  {}

  lemma StateKeepsList(t: Table, id: Id, state: Option<PlaceState>)
    requires ListInv(t) && id in t
    ensures ListStep(t, t[id := Moved(t[id], t[id].position, state)], {id})
    ensures ListInv(t[id := Moved(t[id], t[id].position, state)])
  {
    hide Less, IsValidKey;
  }

  lemma StepWidens(before: Table, after: Table, id: Id)
    requires ListStep(before, after, {})
    ensures ListStep(before, after, {id})
  {}

  lemma NothingAtTheEnd(t: Table, id: Id, key: string)
    requires SortsLast(t, key)
    ensures !PositionTaken(t, id, key)
  {
    LessIrreflexive(key);
  }

  lemma ExtendsAdded(t: Table, added: Table)
    requires added.Keys !! t.Keys
    ensures Extends(t, t + added)
  {}

  lemma UntouchedStep(listed: Table, committed: Table)
    requires ListInv(committed) && Extends(listed, committed)
    ensures ListStep(listed, committed, {})
  {
    hide Less;
  }

  lemma RekeyedStep(listed: Table, committed: Table, rows: Table, ids: seq<Id>, keys: seq<string>)
    requires ListInv(listed) && ListInv(committed) && Extends(listed, committed)
    requires IsListing(listed, ids) && |keys| == |ids| && AscendingKeys(keys)
    requires FreshKeysFree(committed, ids, keys) && IsRekeyed(committed, rows, ids, keys)
    ensures ListInv(rows) && ListStep(listed, rows, {}) && rows.Keys == committed.Keys
  {
    hide ListInv, IsListing, AscendingKeys, FreshKeysFree, SameOrder, SameContent;
    RekeyKeepsList(listed, committed, rows, ids, keys);
    assert listed.Keys - {} == listed.Keys;
  }

  /** What one rebalance makes of the list it read, whether the keying succeeded or not. */
  lemma RebalancedStep(listed: Table, committed: Table, rows: Table, ids: seq<Id>, keys: seq<string>)
    requires ListInv(listed) && ListInv(committed) && Extends(listed, committed)
    requires IsListing(listed, ids) && FreshKeys(keys, |ids|)
    ensures ListStep(listed, committed, {})
    ensures FreshKeysFree(committed, ids, keys) && IsRekeyed(committed, rows, ids, keys) ==>
      ListInv(rows) && ListStep(listed, rows, {}) && rows.Keys == committed.Keys
    ensures committed == listed ==> FreshKeysFree(committed, ids, keys)
    ensures IsRekeyed(committed, rows, ids, keys) ==> KeyedShort(listed, rows)
  {
    hide ListInv, ListStep, AscendingKeys, IsRekeyed, Before, KeyWidth, SlotKeys, Extends;
    UntouchedStep(listed, committed);
    ListingHasNoDuplicates(listed, ids);
    if IsRekeyed(committed, rows, ids, keys) {
      RekeyedIsShort(listed, committed, rows, ids, keys, KeyWidth(|ids|));
      if FreshKeysFree(committed, ids, keys) {
        RekeyedStep(listed, committed, rows, ids, keys);
      }
    }
  }

  lemma RekeyedIsShort(listed: Table, before: Table, after: Table, ids: seq<Id>, keys: seq<string>, n: nat)
    requires |keys| == |ids| && IsRekeyed(before, after, ids, keys) && IsListing(listed, ids)
    requires forall k | 0 <= k < |keys| :: |keys[k]| <= n
    ensures forall x | x in listed :: x in after && |after[x].position| <= n
  {
    hide Less;
    forall x | x in listed
      ensures x in after && |after[x].position| <= n
    {
      var k := ListedAt(listed, ids, x);
      RekeyedAt(before, after, ids, keys, k);
    }
  }

  /** An insert, or none, on top of what others committed. */
  lemma RetriedInsert(before: Table, added: Table, id: Id, row: Row, after: Table, batch: Table)
    requires (added == batch || added == map[]) && added.Keys !! before.Keys && id !in before && id !in added
    requires after == before + added || (id in after && after == (before + added)[id := after[id]])
    ensures Extends(before, after) && Sourced(before[id := row], after, batch, map[], map[])
  {}

  /** An update, or none, on top of what others committed. */
  lemma RetriedUpdate(before: Table, added: Table, id: Id, after: Table, batch: Table)
    requires (added == batch || added == map[]) && added.Keys !! before.Keys && id in before
    requires after == before + added || (id in after && after == (before + added)[id := after[id]])
    ensures ExtendsBut(before, after, id) && Sourced(before, after, batch, map[], map[])
  {}

  lemma SourcedByRekeying(listed: Table, committed: Table, rows: Table, ids: seq<Id>, keys: seq<string>, a: Table,
                          b: Table)
    requires IsListing(listed, ids) && |keys| == |ids| && IsRekeyed(committed, rows, ids, keys)
    requires Sourced(listed, committed, a, b, map[])
    ensures Sourced(listed, rows, a, b, map[])
  {
    hide Less;
  }

  lemma SourcedWithLast(before: Table, mid: Table, added: Table, a: Table, b: Table, c: Table)
    requires Sourced(before, mid, a, b, map[]) && (added == c || added == map[]) && added.Keys !! mid.Keys
    ensures Sourced(before, mid + added, a, b, c)
  {}

  lemma NothingNew(t: Table, a: Table, b: Table, c: Table)
    ensures Sourced(t, t, a, b, c)
  {}

  lemma SourcedAnyway(before: Table, after: Table, a: Table, b: Table, c: Table)
    requires Sourced(before, after, a, b, map[])
    ensures Sourced(before, after, a, b, c)
  {}

  /** Rows beyond those listed before, other than `id`, were committed by others. */
  ghost predicate Arrivals(before: Table, after: Table, id: Id, late: Late) {
    forall x | x in after && x !in before && x != id :: late.Brings(x, after[x])
  }

  lemma NoArrivals(before: Table, after: Table, id: Id, late: Late)
    requires Sourced(before, after, late.afterListing, late.afterParking, late.afterKeying) || after.Keys <= before.Keys
    ensures Arrivals(before, after, id, late)
  {}

  lemma SourcedBesides(mid: Table, after: Table, id: Id, batch: Table)
    requires id in mid && Sourced(mid, after, batch, map[], map[])
    ensures Sourced(mid[id := mid[id]], after, batch, map[], map[])
  {
    assert mid[id := mid[id]] == mid;
  }

  lemma ExtendsIsExtendsBut(smaller: Table, larger: Table, id: Id)
    requires Extends(smaller, larger)
    ensures ExtendsBut(smaller, larger, id)
  {}

  lemma ArrivalsAre(before: Table, added: Table, after: Table, id: Id, row: Row, late: Late)
    requires (added == late.beforeWrite || added == map[]) && added.Keys !! before.Keys
    requires ExtendsBut(before + added, after, id)
    requires Sourced((before + added)[id := row], after, late.beforeRetry, map[], map[])
    ensures Arrivals(before, after, id, late)
  {
    forall x | x in after && x !in before && x != id
      ensures late.Brings(x, after[x])
    {
      var mid := before + added;
      assert x in mid ==> after[x] == mid[x] && x in added;
    }
  }

  lemma ArrivalsInSteps(before: Table, mid: Table, after: Table, id: Id, late: Late)
    requires Sourced(before, mid, late.afterListing, late.afterParking, late.afterKeying)
    requires ExtendsBut(mid, after, id) && Arrivals(mid, after, id, late)
    ensures Arrivals(before, after, id, late)
  {}

  lemma InsertKeepsList(t: Table, id: Id, row: Row)
    requires ListInv(t) && id !in t && IsValidKey(row.position)
    requires !PoiTaken(t, row.poi) && !PositionTaken(t, id, row.position)
    ensures ListInv(t[id := row]) && Extends(t, t[id := row])
  {}

  lemma MoveKeepsList(t: Table, id: Id, position: string, state: Option<PlaceState>)
    requires ListInv(t) && id in t && IsValidKey(position) && !PositionTaken(t, id, position)
    ensures ListInv(t[id := Moved(t[id], position, state)])
  {}

  lemma StillTaken(t: Table, added: Table, id: Id, position: string)
    requires PositionTaken(t, id, position) && added.Keys !! t.Keys
    ensures PositionTaken(t + added, id, position)
  {
    var y :| y in t && y != id && t[y].position == position;
    assert (t + added)[y] == t[y];
  }

  /** Every row but `id` is kept unchanged. */
  ghost predicate ExtendsBut(smaller: Table, larger: Table, id: Id) {
    forall x | x in smaller && x != id :: x in larger && larger[x] == smaller[x]
  }

  lemma ExtendsItself(t: Table)
    ensures Extends(t, t)
  {}

  lemma ExtendsInSteps(a: Table, b: Table, c: Table)
    requires Extends(a, b) && Extends(b, c)
    ensures Extends(a, c)
  {}

  lemma ExtendsButItself(t: Table, id: Id, state: Option<PlaceState>)
    ensures ExtendsBut(t, t, id)
    ensures id in t ==> ExtendsBut(t, t[id := Moved(t[id], t[id].position, state)], id)
  {}

  lemma ExtendsButInSteps(a: Table, b: Table, c: Table, id: Id)
    requires Extends(a, b) && ExtendsBut(b, c, id)
    ensures ExtendsBut(a, c, id)
  {}

  /** What the first attempt of an insert decides. */
  ghost predicate InsertedAtOnce(before: Table, after: Table, id: Id, row: Row, reply: Reply) {
    && (PoiTaken(before, row.poi) ==> reply.AlreadyListed?)
    && (!PoiTaken(before, row.poi) && !PositionTaken(before, id, row.position) ==>
          reply.Created? && after == before[id := row])
  }

  /** An insert while no other request commits. */
  ghost predicate InsertedAlone(before: Table, after: Table, id: Id, row: Row, reply: Reply) {
    && after.Keys <= before.Keys + {id} && InsertedAtOnce(before, after, id, row, reply)
    && (!PoiTaken(before, row.poi) && PositionTaken(before, id, row.position)
        && !JitterTaken(before, id, row.position) ==>
          reply.Created? && id in after && IsJitterOf(row.position, after[id].position))
  }

  /** The row that was asked for, up to jitter on its key. */
  ghost predicate SameOrJittered(wanted: Row, got: Row) {
    got == wanted || (got == wanted.(position := got.position) && IsJitterOf(wanted.position, got.position))
  }

  /** Batches that other requests commit between the statements of one request. */
  datatype Late = Late(afterListing: Table, afterParking: Table, afterKeying: Table, beforeWrite: Table,
                       beforeRetry: Table) {
    ghost predicate Quiet() {
      afterListing == afterParking == afterKeying == beforeWrite == beforeRetry == map[]
    }
    /** Nothing is committed between the statements of a rebalance. */
    ghost predicate CalmRebalance() {
      afterListing == afterParking == map[]
    }
    /** Committed rows are within the bound, and none met by a rebalance starts with 38 last digits. */
    ghost predicate Modest() {
      && ModestBatch(afterListing) && ModestBatch(afterParking) && ModestBatch(afterKeying)
      && Bounded(beforeWrite, MAX_POSITION) && Bounded(beforeRetry, MAX_POSITION)
    }
    /** Some batch holds this row. */
    predicate Brings(id: Id, row: Row) {
      || (id in afterListing && afterListing[id] == row) || (id in afterParking && afterParking[id] == row)
      || (id in afterKeying && afterKeying[id] == row) || (id in beforeWrite && beforeWrite[id] == row)
      || (id in beforeRetry && beforeRetry[id] == row)
    }
    /** Row ids that the rebalance may find added. */
    ghost function Ids(): set<Id> {
      afterListing.Keys + afterParking.Keys + afterKeying.Keys
    }
    function AllIds(): set<Id> {
      afterListing.Keys + afterParking.Keys + afterKeying.Keys + beforeWrite.Keys + beforeRetry.Keys
    }
    ghost predicate Avoids(id: Id) {
      id !in AllIds()
    }
  }

  /**
   * One request: the list invariant holds afterwards, no row disappears, and rows
   * outside `moved` keep their content and their relative order.
   */
  ghost predicate ListStep(before: Table, after: Table, moved: set<Id>) {
    && ListInv(after) && before.Keys <= after.Keys
    && SameOrder(before, after, before.Keys - moved)
    && SameContent(before, after, before.Keys - moved)
  }

  // ------------------------------------------------------------- transactions

  /** Inserts another request can commit now: the indexes accept them beside both views. */
  predicate Admissible(rows: Table, committed: Table, batch: Table) {
    && batch.Keys !! rows.Keys && batch.Keys !! committed.Keys
    && ValidPositions(batch)
    && UniquePositions(rows + batch) && UniquePois(rows + batch)
    && UniquePositions(committed + batch) && UniquePois(committed + batch)
  }

  /** The part of a batch that other requests get to commit: all of it, or nothing. */
  ghost function Accepted(rows: Table, committed: Table, batch: Table): Table {
    if Admissible(rows, committed, batch) then batch else map[]
  }

  /** What a rebalance sees once the rows it listed are parked. */
  ghost function WithParked(t: Table, listed: set<Id>): Table {
    map x | x in t :: if x in listed then t[x].(position := Parked(x)) else t[x]
  }

  /** The committed table that the keying of a rebalance meets. */
  ghost function Met(before: Table, late1: Table, late2: Table): Table {
    var mid := before + Accepted(before, before, late1);
    mid + Accepted(WithParked(mid, before.Keys), mid, late2)
  }

  /** A row committed since the listing holds one of the keys about to be laid down. */
  ghost predicate Collides(before: Table, late: Late) {
    MeetsFreshKey(before, late.afterListing, late.afterParking)
  }

  ghost predicate MeetsFreshKey(before: Table, late1: Table, late2: Table) {
    var met := Met(before, late1, late2);
    exists x :: x in met && x !in before && met[x].position in SlotKeys(|before|)
  }

  /** A list that nobody adds to meanwhile is rebalanced without a collision. */
  lemma CalmNeverCollides(before: Table, late: Late)
    requires late.CalmRebalance()
    ensures Met(before, late.afterListing, late.afterParking) == before && !Collides(before, late)
  {
    hide Admissible, WithParked;
    assert before + map[] == before;
  }

  /** The fresh keys are free exactly when none of them is met. */
  lemma FreeIfNotMet(before: Table, late1: Table, late2: Table, ids: seq<Id>, keys: seq<string>)
    requires IsListing(before, ids) && FreshKeys(keys, |before|)
    ensures FreshKeysFree(Met(before, late1, late2), ids, keys) <==> !MeetsFreshKey(before, late1, late2)
  {
    hide Before, SlotKeys, AscendingKeys, KeyWidth, Met;
  }

  /** The next key at the end of the list is sure to need a rebalance first. */
  ghost predicate NextKeyIsLong(t: Table) {
    forall key | IsNextKey(t, key) :: NeedsRebalance(key)
  }

  /** A position in a request for which the list may be, or is sure to be, rebalanced. */
  ghost predicate MayRebalance(position: Option<string>) {
    position.None? || MustRebalance(position)
  }

  ghost predicate WillRebalance(t: Table, position: Option<string>) {
    MustRebalance(position) || (position.None? && NextKeyIsLong(t))
  }

  /** A request after which no row but its own can have a new key. */
  ghost predicate SparesOthers(t: Table, position: Option<string>) {
    ClientDecides(position) || (position.None? && forall key | IsNextKey(t, key) :: !NeedsRebalance(key))
  }

  /** Client keys are used as given up to forty digits. */
  lemma ShortKeysDecide(position: string)
    ensures ClientDecides(Some(position)) <==> |position| <= 40
    ensures MustRebalance(Some(position)) <==> IsValidKey(position) && |position| > 40
  {}

  datatype WriteOutcome = Wrote | PositionClash | OtherClash

  datatype Reply = Created | Patched | BadRequest | NotFound | AlreadyListed | NoUniquePosition | ServerError

  class TripCityTable {
    var rows: Table
    var committed: Table

    /** Between requests: nothing uncommitted, and the list invariant holds. */
    ghost predicate Settled()
      reads this
    {
      rows == committed && ListInv(rows)
    }

    constructor ()
      ensures Settled() && rows == map[]
    {
      rows, committed := map[], map[];
    }

    /** Another request commits `batch`, unless an index would have refused it. */
    method Interleave(batch: Table) returns (ghost added: Table)
      modifies this
      ensures added == Accepted(old(rows), old(committed), batch)
      ensures added.Keys !! old(rows).Keys && added.Keys !! old(committed).Keys
      ensures rows == old(rows) + added && committed == old(committed) + added
      ensures batch == map[] ==> rows == old(rows) && committed == old(committed)
      ensures ListInv(old(rows)) ==> ListInv(rows)
      ensures ListInv(old(committed)) ==> ListInv(committed)
    {
      added := map[];
      if Admissible(rows, committed, batch) {
        added := batch;
        rows := rows + batch;
        committed := committed + batch;
      }
    }

    method Commit()
      modifies this
      ensures rows == committed == old(rows)
    {
      committed := rows;
    }

    method Rollback()
      modifies this
      ensures rows == committed == old(committed)
    {
      rows := committed;
    }

    /** SELECT id ... ORDER BY position COLLATE "C", id. */
    method SelectListing() returns (ids: seq<Id>)
      ensures IsListing(rows, ids)
    {
      ListingExists(rows);
      ids :| IsListing(rows, ids);
    }

    /**
     * One UPDATE over many rows, checked against the position index row by row in an
     * arbitrary order.  When the targets are distinct and none is still held by a row
     * of the same statement, it fails exactly if a row outside it holds a target.
     */
    method UpdatePositions(ids: seq<Id>, keys: seq<string>) returns (ok: bool)
      requires |ids| == |keys| && Distinct(ids) && Distinct(keys)
      requires forall k | 0 <= k < |ids| :: ids[k] in rows && rows[ids[k]].position !in keys
      modifies this`rows
      ensures ok <==> FreshKeysFree(old(rows), ids, keys)
      ensures ok ==> IsRekeyed(old(rows), rows, ids, keys)
    {
      ghost var start := rows;
      var todo := Indices(|ids|);
      while todo != {}
        invariant todo <= Indices(|ids|)
        invariant PartlyRekeyed(start, rows, ids, keys, todo)
        decreases |todo|
      {
        var k :| k in todo;
        RekeyOne(start, rows, ids, keys, todo, k);
        if PositionTaken(rows, ids[k], keys[k]) {
          return false;
        }
        rows := rows[ids[k] := rows[ids[k]].(position := keys[k])];
        todo := todo - {k};
      }
      ok := true;
    }

    /** The parking statement; it cannot fail. */
    method Park(ids: seq<Id>)
      requires ListInv(rows) && Distinct(ids) && forall k | 0 <= k < |ids| :: ids[k] in rows
      modifies this`rows
      ensures ParkedView(old(rows), rows, ids)
    {
      ParkingIsFree(rows, ids);
      var parked := UpdatePositions(ids, ParkedKeys(ids));
      assert parked;
    }

    /** Inserts that other requests commit leave the parked view a parked view. */
    method InterleaveParked(batch: Table, ids: seq<Id>)
      requires ListInv(committed) && ParkedView(committed, rows, ids)
      requires forall x | x in ids :: x in committed
      modifies this
      ensures ListInv(committed) && ParkedView(committed, rows, ids)
      ensures Extends(old(committed), committed)
      ensures batch == map[] ==> committed == old(committed)
      ensures committed == old(committed) + Accepted(old(rows), old(committed), batch)
      ensures Sourced(old(committed), committed, batch, map[], map[])
      ensures committed.Keys <= old(committed).Keys + batch.Keys
    {
      ghost var added := Interleave(batch);
      ParkedViewExtends(old(committed), old(rows), added, ids);
    }

    /** The keying statement over the parked view. */
    method LayKeys(ids: seq<Id>, keys: seq<string>) returns (ok: bool)
      requires ParkedView(committed, rows, ids) && |keys| == |ids| && AscendingKeys(keys)
      requires Distinct(ids) && forall k | 0 <= k < |ids| :: ids[k] in committed
      modifies this`rows
      ensures ok <==> FreshKeysFree(committed, ids, keys)
      ensures ok ==> IsRekeyed(committed, rows, ids, keys)
    {
      KeysAreDistinct(keys);
      ok := UpdatePositions(ids, keys);
    }

    /** Everything after the listing: park, then lay down `keys`. */
    method RewriteKeys(ids: seq<Id>, keys: seq<string>, late1: Table, late2: Table) returns (ok: bool)
      requires Settled() && |keys| == |ids| && AscendingKeys(keys)
      requires Distinct(ids) && forall k | 0 <= k < |ids| :: ids[k] in rows
      requires forall x | x in rows :: x in ids
      modifies this
      ensures committed == Met(old(rows), late1, late2)
      ensures ListInv(committed) && Extends(old(rows), committed)
      ensures late1 == map[] && late2 == map[] ==> committed == old(rows)
      ensures Sourced(old(rows), committed, late1, late2, map[])
      ensures committed.Keys <= old(rows).Keys + late1.Keys + late2.Keys
      ensures ok <==> FreshKeysFree(committed, ids, keys)
      ensures ok ==> IsRekeyed(committed, rows, ids, keys)
    {
      ghost var added := Interleave(late1);
      Park(ids);
      ParkedAre(old(rows), committed, rows, ids);
      InterleaveParked(late2, ids);
      ok := LayKeys(ids, keys);
    }

    /**
     * `rebalanceTripCity`: list, park every listed row on a value outside the
     * alphabet, lay down the fresh keys.  Other requests may commit inserts after the
     * listing (`late1`) and after the parking (`late2`).  The keying statement fails
     * exactly when one of those inserts holds a fresh key.
     */
    method RebalanceTripCity(late1: Table, late2: Table) returns (ok: bool, ghost ids: seq<Id>, ghost keys: seq<string>)
      requires Settled()
      modifies this
      ensures IsListing(old(rows), ids) && FreshKeys(keys, |ids|)
      ensures ListInv(committed) && Extends(old(rows), committed)
      ensures late1 == map[] && late2 == map[] ==> committed == old(rows)
      ensures Sourced(old(rows), committed, late1, late2, map[])
      ensures committed.Keys <= old(rows).Keys + late1.Keys + late2.Keys
      ensures ok <==> FreshKeysFree(committed, ids, keys)
      ensures ok <==> !MeetsFreshKey(old(rows), late1, late2)
      ensures ok ==> IsRekeyed(committed, rows, ids, keys)
    {
      hide Met, MeetsFreshKey;
      var listing := SelectListing();
      ids := listing;
      ListingHasNoDuplicates(rows, ids);
      FreshKeysAscend(|ids|);
      if listing == [] {
        keys := [];
        FreeIfNotMet(rows, late1, late2, ids, keys);
        return true, ids, keys;
      }
      var minted := RebalanceKeys(|listing|);
      keys := minted;
      FreeIfNotMet(rows, late1, late2, ids, keys);
      ok := RewriteKeys(listing, minted, late1, late2);
    }

    /**
     * A rebalance as one transaction.  It ends with every row on a valid key in the
     * old order, or with every earlier row exactly as it was; it always succeeds when
     * no insert was committed meanwhile.
     */
    method RebalanceTransaction(late1: Table, late2: Table) returns (ok: bool)
      requires Settled()
      modifies this
      ensures Settled() && ListStep(old(rows), rows, {})
      ensures !ok ==> Extends(old(rows), rows)
      ensures ok ==> KeyedShort(old(rows), rows) && Sourced(old(rows), rows, late1, late2, map[])
      ensures ok <==> !MeetsFreshKey(old(rows), late1, late2)
      ensures late1 == map[] && late2 == map[] ==> ok && rows.Keys == old(rows).Keys
    {
      hide SortsLast, IsValidKey, SameOrder, SameContent, ListInv, IsListing, IsRekeyed, FreshKeysFree, Extends,
           ListStep, Bounded, MeetsFreshKey;
      ghost var ids, keys;
      ok, ids, keys := RebalanceTripCity(late1, late2);
      RebalancedStep(old(rows), committed, rows, ids, keys);
      if ok {
        SourcedByRekeying(old(rows), committed, rows, ids, keys, late1, late2);
      }
      if ok {
        Commit();
      } else {
        Rollback();
      }
    }

    /** `lastPosition`: the greatest key, or none in an empty list. */
    method LastPosition() returns (last: Option<string>)
      ensures IsLastPosition(rows, last)
    {
      if rows == map[] {
        return None;
      }
      ghost var greatest := LastRow(rows, rows.Keys);
      assert HoldsLast(rows, greatest);
      var id :| id in rows && HoldsLast(rows, id);
      last := Some(rows[id].position);
    }

    /** `jitter(keyAfter(lastPosition))`: never throws, and sorts after every row. */
    method AppendKey() returns (key: string)
      requires ListInv(rows)
      ensures IsValidKey(key) && SortsLast(rows, key) && IsNextKey(rows, key)
      ensures forall n: nat | Bounded(rows, n) :: |key| <= n + 3
    {
      var last := LastPosition();
      AppendSortsLast(rows, last);
      var after := KeyAfter(last);
      key := Jitter(after.value);
      JitterSortsAfter(after.value, key);
      SortsLastExtends(rows, after.value, key);
    }

    /** INSERT inside a savepoint; the older index on the place is checked first. */
    method GuardedInsert(id: Id, row: Row) returns (outcome: WriteOutcome)
      requires id !in rows
      modifies this`rows
      ensures outcome.OtherClash? <==> PoiTaken(old(rows), row.poi)
      ensures outcome.PositionClash? ==> PositionTaken(old(rows), id, row.position)
      ensures outcome.Wrote? ==> !PoiTaken(old(rows), row.poi) && !PositionTaken(old(rows), id, row.position)
      ensures rows == if outcome.Wrote? then old(rows)[id := row] else old(rows)
    {
      var savepoint := rows;
      rows := rows[id := row];
      if PoiTaken(savepoint, row.poi) {
        rows := savepoint;
        return OtherClash;
      }
      if PositionTaken(savepoint, id, row.position) {
        rows := savepoint;
        return PositionClash;
      }
      outcome := Wrote;
    }

    /** UPDATE of one row inside a savepoint; only the position index can refuse it. */
    method GuardedUpdate(id: Id, position: string, state: Option<PlaceState>) returns (outcome: WriteOutcome)
      requires id in rows
      modifies this`rows
      ensures !outcome.OtherClash?
      ensures outcome.PositionClash? <==> PositionTaken(old(rows), id, position)
      ensures rows == if outcome.Wrote? then old(rows)[id := Moved(old(rows)[id], position, state)] else old(rows)
    {
      var savepoint := rows;
      rows := rows[id := Moved(rows[id], position, state)];
      if PositionTaken(savepoint, id, position) {
        rows := savepoint;
        return PositionClash;
      }
      outcome := Wrote;
    }

    /** First the given key, then once more with jitter after a clash on the position index. */
    method InsertRetrying(id: Id, row: Row, between: Table) returns (reply: Reply)
      requires ListInv(rows) && id !in rows && id !in between && IsValidKey(row.position)
      modifies this
      ensures ListInv(rows) && Extends(old(rows), rows)
      ensures reply in {Created, AlreadyListed, NoUniquePosition}
      ensures if reply.Created? then id in rows && SameOrJittered(row, rows[id]) else id !in rows
      ensures reply.AlreadyListed? ==> PoiTaken(rows, row.poi)
      ensures reply.NoUniquePosition? ==> Crowded(rows, id, row.position)
      ensures Sourced(old(rows)[id := row], rows, between, map[], map[])
      ensures InsertedAtOnce(old(rows), rows, id, row, reply)
      ensures between == map[] ==> InsertedAlone(old(rows), rows, id, row, reply)
    {
      hide ListInv, Less, IsValidKey, Extends, Sourced, PoiTaken, PositionTaken, IsJitterOf;
      ExtendsItself(rows);
      NothingNew(rows, between, map[], map[]);
      var first := GuardedInsert(id, row);
      if first.Wrote? {
        InsertKeepsList(old(rows), id, row);
        NothingNew(rows, between, map[], map[]);
        return Created;
      }
      if first.OtherClash? {
        RetriedInsert(old(rows), map[], id, row, rows, between);
        return AlreadyListed;
      }
      ghost var added := Interleave(between);
      ghost var mid := rows;
      StillTaken(old(rows), added, id, row.position);
      var again := Jitter(row.position);
      JitterSortsAfter(row.position, again);
      var second := GuardedInsert(id, row.(position := again));
      RetriedInsert(old(rows), added, id, row, rows, between);
      if second.Wrote? {
        InsertKeepsList(mid, id, row.(position := again));
      }
      reply := match second
        case Wrote => Created
        case OtherClash => AlreadyListed
        case PositionClash => NoUniquePosition;
    }

    method UpdateRetrying(id: Id, position: string, state: Option<PlaceState>, between: Table) returns (reply: Reply)
      requires ListInv(rows) && id in rows && IsValidKey(position)
      modifies this
      ensures ListInv(rows) && id in rows && ExtendsBut(old(rows), rows, id)
      ensures reply in {Patched, NoUniquePosition}
      ensures reply.Patched? ==> SameOrJittered(Moved(old(rows)[id], position, state), rows[id])
      ensures reply.NoUniquePosition? ==> rows[id] == old(rows)[id] && Crowded(rows, id, position)
      ensures Sourced(old(rows), rows, between, map[], map[])
      ensures between == map[] ==> rows.Keys == old(rows).Keys
      ensures between == map[] && !PositionTaken(old(rows), id, position) ==>
        reply.Patched? && rows[id].position == position
      ensures between == map[] && PositionTaken(old(rows), id, position) && !JitterTaken(old(rows), id, position) ==>
        reply.Patched? && IsJitterOf(position, rows[id].position)
    {
      hide Less, IsValidKey, ListInv, PositionTaken, Sourced, ExtendsBut, IsJitterOf;
      ExtendsButItself(rows, id, state);
      var first := GuardedUpdate(id, position, state);
      if first.Wrote? {
        MoveKeepsList(old(rows), id, position, state);
        RetriedUpdate(old(rows), map[], id, rows, between);
        return Patched;
      }
      ghost var added := Interleave(between);
      ghost var mid := rows;
      StillTaken(old(rows), added, id, position);
      var again := Jitter(position);
      JitterSortsAfter(position, again);
      var second := GuardedUpdate(id, again, state);
      RetriedUpdate(old(rows), added, id, rows, between);
      if second.Wrote? {
        MoveKeepsList(mid, id, again, state);
      }
      reply := if second.Wrote? then Patched else NoUniquePosition;
    }

    /**
     * The long-key backstop: rebalance, then a key at the end.  It fails only when a
     * concurrent insert holds a fresh key, and then rolls back.  `keyed` is the table
     * between the rebalance and the inserts committed after it.
     */
    method RebalanceAndAppend(late: Late) returns (ok: bool, key: string, ghost keyed: Table)
      requires Settled()
      modifies this
      ensures ok <==> !Collides(old(rows), late)
      ensures ok || (Settled() && !late.CalmRebalance())
      ensures !ok ==> Extends(old(rows), rows) && Sourced(old(rows), rows, late.afterListing, late.afterParking, map[])
      ensures ListStep(old(rows), rows, {})
      ensures ok ==> IsValidKey(key) && SortsLast(rows, key) && IsNextKey(rows, key)
      ensures ok ==>
        KeyedShort(old(rows), rows) && Sourced(old(rows), rows, late.afterListing, late.afterParking, late.afterKeying)
      ensures ok ==> Extends(keyed, rows) && (late.CalmRebalance() ==> keyed.Keys == old(rows).Keys)
      ensures ok && late.CalmRebalance() && Admissible(keyed, old(rows), late.afterKeying) ==>
        rows == keyed + late.afterKeying
      ensures ok && Roomy(old(rows)) ==>
        ((forall next | IsNextKey(rows, next) :: |next| <= MAX_POSITION) <==>
         forall x | x in rows && x !in old(rows) :: Lead(rows[x].position) <= MAX_POSITION - 3)
      ensures late.Quiet() ==> rows.Keys == old(rows).Keys
      ensures rows.Keys <= old(rows).Keys + late.Ids()
    {
      hide SortsLast, IsValidKey, SameOrder, SameContent, ListInv, IsListing, IsRekeyed, FreshKeysFree, Extends,
           ListStep, Bounded, IsNextKey, Roomy, KeyedShort, Sourced, Lead, LeadsAtMost, MeetsFreshKey;
      ghost var ids, keys;
      ok, ids, keys := RebalanceTripCity(late.afterListing, late.afterParking);
      RebalancedStep(old(rows), committed, rows, ids, keys);
      key, keyed := "", rows;
      if !ok {
        Rollback();
        return;
      }
      SourcedByRekeying(old(rows), committed, rows, ids, keys, late.afterListing, late.afterParking);
      ghost var added := Interleave(late.afterKeying);
      SourcedWithLast(old(rows), keyed, added, late.afterListing, late.afterParking, late.afterKeying);
      ExtendsAdded(keyed, added);
      KeyedShortExtends(old(rows), keyed, rows);
      StepExtends(old(rows), keyed, rows, {});
      StepKeepsList(old(rows), rows, {});
      key := AppendKey();
      NextKeyFits(rows);
      if Roomy(old(rows)) {
        OnlyNewcomersAreTall(old(rows), rows, MAX_POSITION - 3);
      }
    }

    /**
     * The key an add or a position patch will write: the client's own, unless it is
     * absent or too long; then one at the end, after a rebalance when that is long too.
     */
    method ChooseKey(position: Option<string>, late: Late) returns (choice: KeyChoice)
      requires Settled()
      modifies this
      ensures choice.Illegal? <==> position.Some? && !IsValidKey(position.value)
      ensures choice.Illegal? ==> rows == committed == old(rows)
      ensures choice.Failed? ==> Settled() && !late.CalmRebalance()
      ensures choice.Failed? ==> MayRebalance(position) && Collides(old(rows), late)
      ensures WillRebalance(old(rows), position) && Collides(old(rows), late) ==> choice.Failed?
      ensures ListStep(old(rows), rows, {}) && rows.Keys <= old(rows).Keys + late.Ids()
      ensures choice.Chosen? ==> IsValidKey(choice.key)
      ensures SparesOthers(old(rows), position) ==> !choice.Failed? && rows == old(rows)
      ensures choice.Chosen? && ClientDecides(position) ==> choice.key == position.value
      ensures choice.Chosen? && !ClientDecides(position) ==> SortsLast(rows, choice.key) && IsNextKey(rows, choice.key)
      ensures late.Quiet() ==> rows.Keys == old(rows).Keys
      ensures Sourced(old(rows), rows, late.afterListing, late.afterParking, late.afterKeying)
      ensures late.Modest() && Roomy(old(rows)) ==> Bounded(rows, MAX_POSITION)
      ensures late.Modest() && Roomy(old(rows)) && choice.Chosen? ==> |choice.key| <= REBALANCE_THRESHOLD
      ensures choice.Chosen? && MustRebalance(position) ==> LateRowsJoin(old(rows), rows, late)
    {
      hide SortsLast, IsValidKey, SameOrder, SameContent, ListInv, Extends, ListStep, Bounded, Pow62, KeyWidth,
           KeyedShort, Sourced, IsNextKey, Lead, LeadsAtMost, Admissible, Collides;
      StepStays(rows);
      NothingNew(rows, late.afterListing, late.afterParking, late.afterKeying);
      var key;
      if position.Some? {
        if !IsValidKey(position.value) {
          return Illegal;
        }
        key := position.value;
      } else {
        key := AppendKey();
      }
      if NeedsRebalance(key) {
        var ok;
        ghost var keyed;
        ok, key, keyed := RebalanceAndAppend(late);
        if !ok {
          SourcedAnyway(old(rows), rows, late.afterListing, late.afterParking, late.afterKeying);
          if late.Modest() && Roomy(old(rows)) {
            FailedIsBounded(old(rows), rows, late);
          }
          return Failed;
        }
        StepKeepsList(old(rows), rows, {});
        LateRowsJoined(old(rows), keyed, rows, late);
        if late.Modest() && Roomy(old(rows)) {
          ModestNewcomers(old(rows), rows, late);
          NextKeyIsShort(rows, key, MAX_POSITION - 5);
        }
      }
      choice := Chosen(key);
    }

    /** The guarded insert of a chosen row, and the commit. */
    method InsertChosen(id: Id, row: Row, late: Late) returns (reply: Reply)
      requires ListInv(rows) && id !in rows && late.Avoids(id) && IsValidKey(row.position)
      modifies this
      ensures Settled() && Extends(old(rows), rows) && Arrivals(old(rows), rows, id, late)
      ensures reply in {Created, AlreadyListed, NoUniquePosition}
      ensures if reply.Created? then id in rows && SameOrJittered(row, rows[id]) else id !in rows
      ensures reply.AlreadyListed? ==> PoiTaken(rows, row.poi)
      ensures reply.NoUniquePosition? ==> Crowded(rows, id, row.position)
      ensures late.beforeWrite == map[] ==> InsertedAtOnce(old(rows), rows, id, row, reply)
      ensures late.Quiet() ==> InsertedAlone(old(rows), rows, id, row, reply)
      ensures late.Modest() && Bounded(old(rows), MAX_POSITION) && |row.position| <= REBALANCE_THRESHOLD ==>
        Bounded(rows, MAX_POSITION)
    {
      hide ListInv, IsValidKey, InsertedAtOnce, InsertedAlone, Extends, Sourced, PoiTaken, IsJitterOf, Arrivals,
           Bounded, ModestBatch, Admissible;
      ghost var added := Interleave(late.beforeWrite);
      ghost var mid := rows;
      ExtendsAdded(old(rows), added);
      reply := InsertRetrying(id, row, late.beforeRetry);
      ExtendsInSteps(old(rows), mid, rows);
      ExtendsIsExtendsBut(mid, rows, id);
      ArrivalsAre(old(rows), added, rows, id, row, late);
      if late.Modest() && Bounded(old(rows), MAX_POSITION) && |row.position| <= REBALANCE_THRESHOLD {
        JoinedIsBounded(old(rows), added, late.beforeWrite);
        AddIsBounded(mid, rows, id, row, late.beforeRetry);
      }
      Commit();
    }

    /** The guarded update of one row to a chosen key, and the commit. */
    method UpdateChosen(id: Id, key: string, state: Option<PlaceState>, late: Late) returns (reply: Reply)
      requires ListInv(rows) && id in rows && IsValidKey(key)
      modifies this
      ensures Settled() && id in rows && ExtendsBut(old(rows), rows, id) && Arrivals(old(rows), rows, id, late)
      ensures reply in {Patched, NoUniquePosition}
      ensures reply.Patched? ==> SameOrJittered(Moved(old(rows)[id], key, state), rows[id])
      ensures reply.NoUniquePosition? ==> rows[id] == old(rows)[id] && Crowded(rows, id, key)
      ensures late.Quiet() ==> rows.Keys == old(rows).Keys
      ensures late.Quiet() && !PositionTaken(old(rows), id, key) ==> reply.Patched? && rows[id].position == key
      ensures late.Quiet() && PositionTaken(old(rows), id, key) && !JitterTaken(old(rows), id, key) ==>
        reply.Patched? && IsJitterOf(key, rows[id].position)
      ensures late.Modest() && Bounded(old(rows), MAX_POSITION) && |key| <= REBALANCE_THRESHOLD ==>
        Bounded(rows, MAX_POSITION)
    {
      hide ListInv, IsValidKey, Extends, ExtendsBut, Sourced, IsJitterOf, Arrivals, Bounded, ModestBatch, Admissible,
           PositionTaken;
      ghost var added := Interleave(late.beforeWrite);
      ghost var mid := rows;
      ExtendsAdded(old(rows), added);
      reply := UpdateRetrying(id, key, state, late.beforeRetry);
      ExtendsButInSteps(old(rows), mid, rows, id);
      SourcedBesides(mid, rows, id, late.beforeRetry);
      ArrivalsAre(old(rows), added, rows, id, mid[id], late);
      if late.Modest() && Bounded(old(rows), MAX_POSITION) && |key| <= REBALANCE_THRESHOLD {
        JoinedIsBounded(old(rows), added, late.beforeWrite);
        PatchIsBounded(mid, rows, id, key, state, late.beforeRetry);
      }
      Commit();
    }

    /** `addPlaceHandler`; `id` is the fresh row id the database would choose. */
    method AddPlace(id: Id, onTrip: bool, poi: string, state: Option<PlaceState>, position: Option<string>, late: Late)
      returns (reply: Reply)
      requires Settled() && id !in rows && late.Avoids(id)
      modifies this
      ensures Settled() && ListStep(old(rows), rows, {})
      ensures !reply.Patched? && (reply.NotFound? <==> !onTrip)
      ensures reply.BadRequest? <==> onTrip && position.Some? && !IsValidKey(position.value)
      ensures reply.NotFound? || reply.BadRequest? ==> rows == old(rows)
      ensures if reply.Created?
              then id in rows && rows[id].poi == poi
                   && rows[id].state == (if state.Some? then state.value else Suggested)
              else id !in rows
      ensures reply.Created? && ClientDecides(position) ==>
        rows[id].position == position.value || IsJitterOf(position.value, rows[id].position)
      ensures reply.AlreadyListed? ==> PoiTaken(rows, poi)
      ensures reply.NoUniquePosition? ==> NoRoom(rows, id, position)
      ensures SparesOthers(old(rows), position) ==> Extends(old(rows), rows)
      ensures reply.ServerError? ==>
        !late.CalmRebalance() && onTrip && MayRebalance(position) && Collides(old(rows), late)
      ensures onTrip && WillRebalance(old(rows), position) && Collides(old(rows), late) ==> reply.ServerError?
      ensures Arrivals(old(rows), rows, id, late)
      ensures !ClientDecides(position) && late.beforeWrite == map[] ==>
        !reply.NoUniquePosition? && (reply.Created? ==> IsLast(rows, id))
      ensures late.Modest() ==> KeepsRoom(old(rows), rows)
      ensures onTrip && MustRebalance(position) && !reply.ServerError? ==> LateRowsJoin(old(rows), rows, late)
      ensures late.Quiet() && !reply.NotFound? && !reply.BadRequest? ==>
        AddedAlone(old(rows), rows, id, poi, position, reply)
    {
      hide SortsLast, IsValidKey, SameOrder, SameContent, ListInv, Extends, ListStep, Bounded, Pow62, Roomy, AddedAlone,
           InsertedAlone, InsertedAtOnce, PoiTaken, PositionTaken, IsNextKey, LateRowsJoin, Sourced, IsLast,
           ModestBatch, IsJitterOf, Arrivals, Collides, NextKeyIsLong;
      StepStays(rows);
      ExtendsItself(rows);
      StaysBounded(rows);
      NoArrivals(rows, rows, id, late);
      if !onTrip {
        return NotFound;
      }
      var choice := ChooseKey(position, late);
      NoArrivals(old(rows), rows, id, late);
      match choice {
        case Illegal => return BadRequest;
        case Failed => return ServerError;
        case Chosen(key) =>
          ghost var keyed := rows;
          StepKeepsList(old(rows), keyed, {});
          var row := Row(poi, key, if state.Some? then state.value else Suggested);
          reply := InsertChosen(id, row, late);
          AddFollows(old(rows), keyed, rows, id, row, position, reply, late);
      }
    }

    /** `patchPlaceHandler`. */
    method PatchPlace(id: Id, position: Option<string>, state: Option<PlaceState>, late: Late) returns (reply: Reply)
      requires Settled()
      modifies this
      ensures Settled() && ListStep(old(rows), rows, {id})
      ensures reply !in {Created, AlreadyListed} && (reply.NotFound? <==> id !in old(rows))
      ensures reply.BadRequest? <==> id in old(rows) && position.Some? && !IsValidKey(position.value)
      ensures !reply.Patched? ==> ListStep(old(rows), rows, {})
      ensures reply.NoUniquePosition? ==> NoRoom(rows, id, position)
      ensures reply.NotFound? || reply.BadRequest? ==> rows == old(rows)
      ensures id in old(rows) && position.None? ==>
        reply.Patched? && rows == old(rows)[id := Moved(old(rows)[id], old(rows)[id].position, state)]
      ensures reply.Patched? && position.Some? ==>
        && rows[id].poi == old(rows)[id].poi && (state.Some? ==> rows[id].state == state.value)
        && (ClientDecides(position) ==>
              rows[id].position == position.value || IsJitterOf(position.value, rows[id].position))
      ensures position.None? || ClientDecides(position) ==> ExtendsBut(old(rows), rows, id)
      ensures reply.ServerError? ==> !late.CalmRebalance()
      ensures reply.ServerError? <==> id in old(rows) && MustRebalance(position) && Collides(old(rows), late)
      ensures Arrivals(old(rows), rows, id, late)
      ensures late.Modest() ==> KeepsRoom(old(rows), rows)
      ensures late.Quiet() && id in old(rows) && position.Some? && IsValidKey(position.value) ==>
        PatchedAlone(old(rows), rows, id, position.value, reply)
    {
      hide SortsLast, IsValidKey, SameOrder, SameContent, ListInv, Extends, ExtendsBut, ListStep, Bounded, Pow62, Roomy,
           PatchedAlone, PositionTaken, IsJitterOf, IsNextKey, LateRowsJoin, Sourced, ModestBatch, Arrivals, Collides,
           NextKeyIsLong;
      StepStays(rows);
      StepWidens(rows, rows, id);
      ExtendsButItself(rows, id, state);
      StaysBounded(rows);
      NoArrivals(rows, rows, id, late);
      if id !in rows {
        return NotFound;
      }
      if position.None? {
        if state.Some? {
          StateKeepsList(rows, id, state);
          StateKeepsRoom(rows, id, state);
          NoArrivals(rows, rows[id := rows[id].(state := state.value)], id, late);
          rows := rows[id := rows[id].(state := state.value)];
          Commit();
        }
        assert old(rows)[id := old(rows)[id]] == old(rows);
        return Patched;
      }
      var choice := ChooseKey(position, late);
      StepWidens(old(rows), rows, id);
      NoArrivals(old(rows), rows, id, late);
      match choice {
        case Illegal => return BadRequest;
        case Failed => return ServerError;
        case Chosen(key) =>
          ghost var keyed := rows;
          StepKeepsList(old(rows), keyed, {});
          StepKeepsRows(old(rows), keyed, id);
          reply := UpdateChosen(id, key, state, late);
          PatchFollows(old(rows), keyed, rows, id, position, key, state, reply, late);
      }
    }
  }

  // ------------------------------------------------------------- runs

  /** A request, with what other requests commit while it runs. */
  datatype ListRequest =
    | Add(onTrip: bool, poi: string, state: Option<PlaceState>, position: Option<string>, late: Late)
    | Patch(id: Id, position: Option<string>, state: Option<PlaceState>, late: Late)
  {
    /** The rows it may move among those already listed. */
    function Moves(): set<Id> {
      match this
      case Add(_, _, _, _, _) => {}
      case Patch(id, _, _, _) => {id}
    }
  }

  lemma {:induction false} IdLengthsAreBounded(ids: set<Id>) returns (n: nat)
    ensures forall x | x in ids :: |x| <= n
    decreases |ids|
  {
    if ids == {} {
      n := 0;
    } else {
      var x :| x in ids;
      var m := IdLengthsAreBounded(ids - {x});
      n := if |x| > m then |x| else m;
      assert forall y | y in ids :: y == x || y in ids - {x};
    }
  }

  /** There is always an unused row id. */
  lemma UnusedIdExists(ids: set<Id>)
    ensures exists id: Id :: id !in ids
  {
    var n := IdLengthsAreBounded(ids);
    var id := seq(n + 1, i => 'x');
    assert id !in ids;
  }

  /** Rows that some request between states `i` and `j` moves. */
  ghost function MovedBetween(requests: seq<ListRequest>, i: nat, j: nat): set<Id>
    requires i <= j <= |requests|
    decreases j
  {
    if i == j then {} else MovedBetween(requests, i, j - 1) + requests[j - 1].Moves()
  }

  /** States after each request served so far. */
  ghost predicate Stepwise(requests: seq<ListRequest>, trace: seq<Table>) {
    && 0 < |trace| <= |requests| + 1 && trace[0] == map[]
    && forall i, n | 0 <= i < |trace| - 1 && n == i + 1 :: ListStep(trace[i], trace[n], requests[i].Moves())
  }

  /** The list is sound: valid unique keys, and an append finds its key beyond every row. */
  ghost predicate Sound(t: Table) {
    ListInv(t) && forall last | IsLastPosition(t, last) :: KeyAfter(last).Ok? && SortsLast(t, KeyAfter(last).value)
  }

  lemma StatesAreSound(requests: seq<ListRequest>, trace: seq<Table>, i: nat)
    requires Stepwise(requests, trace) && i < |trace|
    ensures Sound(trace[i])
  {
    hide Less, SameOrder, SameContent;
    if i > 0 {
      var before := i - 1;
      assert ListStep(trace[before], trace[i], requests[before].Moves());
    }
    forall last | IsLastPosition(trace[i], last)
      ensures KeyAfter(last).Ok? && SortsLast(trace[i], KeyAfter(last).value)
    {
      AppendSortsLast(trace[i], last);
    }
  }

  /** Over any stretch of a run, the rows that no request moves keep their relative order. */
  lemma {:induction false} OrderSurvives(requests: seq<ListRequest>, trace: seq<Table>, i: nat, j: nat)
    requires Stepwise(requests, trace) && i <= j < |trace|
    ensures SameOrder(trace[i], trace[j], trace[i].Keys - MovedBetween(requests, i, j))
    decreases j
  {
    if i == j {
    } else {
      var last := j - 1;
      OrderSurvives(requests, trace, i, last);
      assert ListStep(trace[last], trace[j], requests[last].Moves());
    }
  }

  lemma StepwiseExtends(requests: seq<ListRequest>, trace: seq<Table>, after: Table)
    requires Stepwise(requests, trace) && |trace| <= |requests|
    requires ListStep(trace[|trace| - 1], after, requests[|trace| - 1].Moves())
    ensures Stepwise(requests, trace + [after])
  {
    hide ListStep;
  }

  /** While no state so far has too many rows, and all committed rows are modest, keys stay short. */
  ghost predicate ShortSoFar(requests: seq<ListRequest>, trace: seq<Table>) {
    forall k | 0 <= k < |trace| ::
      (forall i | 0 <= i < k :: i < |requests| && requests[i].late.Modest() && |trace[i]| < Pow62(36)) ==>
        Bounded(trace[k], MAX_POSITION)
  }

  lemma ShortSoFarExtends(requests: seq<ListRequest>, trace: seq<Table>, after: Table)
    requires 0 < |trace| <= |requests| && ShortSoFar(requests, trace)
    requires requests[|trace| - 1].late.Modest() ==> KeepsRoom(trace[|trace| - 1], after)
    ensures ShortSoFar(requests, trace + [after])
  {
    hide Pow62, Bounded, ModestBatch;
    var n := |trace|;
    var last := n - 1;
    var longer := trace + [after];
    if forall i | 0 <= i < n :: i < |requests| && requests[i].late.Modest() && |longer[i]| < Pow62(36) {
      assert longer[last] == trace[last];
      assert forall i | 0 <= i < last :: longer[i] == trace[i];
      assert Bounded(trace[last], MAX_POSITION);
    }
    forall k | 0 <= k < n &&
               forall i | 0 <= i < k :: i < |requests| && requests[i].late.Modest() && |longer[i]| < Pow62(36)
      ensures Bounded(longer[k], MAX_POSITION)
    {
      assert forall i | 0 <= i < k :: longer[i] == trace[i];
      assert longer[k] == trace[k];
    }
  }

  /**
   * Any run of adds and patches on a new list, with other requests committing inserts at
   * any statement: every state is sound, rows that no request moves keep their order over
   * any stretch, and as long as the committed rows are modest and there are fewer than
   * 62^36 of them, no position exceeds 42 digits.
   */
  method Serve(requests: seq<ListRequest>) returns (replies: seq<Reply>, trace: seq<Table>)
    ensures |replies| == |requests| && |trace| == |requests| + 1 && trace[0] == map[]
    ensures forall k | 0 <= k < |trace| :: Sound(trace[k])
    ensures forall i, j | 0 <= i <= j < |trace| ::
      SameOrder(trace[i], trace[j], trace[i].Keys - MovedBetween(requests, i, j))
    ensures forall i, n | 0 <= i < |requests| && n == i + 1 ::
      SameContent(trace[i], trace[n], trace[i].Keys - requests[i].Moves())
    ensures (forall k | 0 <= k < |requests| :: requests[k].late.Modest() && |trace[k]| < Pow62(36)) ==>
      forall k | 0 <= k < |trace| :: Bounded(trace[k], MAX_POSITION)
    ensures forall k | 0 <= k < |requests| && replies[k].ServerError? :: Collides(trace[k], requests[k].late)
    ensures forall k | 0 <= k < |requests| && requests[k].late.CalmRebalance() :: !replies[k].ServerError?
  {
    hide Collides, ListInv, ListStep, SameOrder, SameContent, Bounded, Pow62, Stepwise, ShortSoFar, KeepsRoom,
         ModestBatch, AddedAlone, PatchedAlone, IsLast, IsLastPosition, Extends, ExtendsBut, PoiTaken, IsValidKey,
         LateRowsJoin, IsJitterOf;
    var table := new TripCityTable();
    replies, trace := [], [table.rows];
    NothingServed(requests);
    for n := 0 to |requests|
      invariant table.Settled() && |replies| == n && |trace| == n + 1 && trace[n] == table.rows
      invariant Stepwise(requests, trace) && ShortSoFar(requests, trace) && trace[0] == map[]
      invariant forall k | 0 <= k < n && replies[k].ServerError? :: Collides(trace[k], requests[k].late)
      invariant forall k | 0 <= k < n && requests[k].late.CalmRebalance() :: !replies[k].ServerError?
    {
      var reply;
      match requests[n] {
        case Add(onTrip, poi, state, position, late) =>
          UnusedIdExists(table.rows.Keys + late.AllIds());
          var id: Id :| id !in table.rows.Keys + late.AllIds();
          reply := table.AddPlace(id, onTrip, poi, state, position, late);
        case Patch(id, position, state, late) =>
          reply := table.PatchPlace(id, position, state, late);
      }
      StepwiseExtends(requests, trace, table.rows);
      ShortSoFarExtends(requests, trace, table.rows);
      replies, trace := replies + [reply], trace + [table.rows];
    }
    RunIsSound(requests, trace);
  }

  lemma NothingServed(requests: seq<ListRequest>)
    ensures Stepwise(requests, [map[]]) && ShortSoFar(requests, [map[]])
  {
    hide Pow62;
  }

  lemma RunIsSound(requests: seq<ListRequest>, trace: seq<Table>)
    requires Stepwise(requests, trace) && ShortSoFar(requests, trace) && |trace| == |requests| + 1
    ensures forall k | 0 <= k < |trace| :: Sound(trace[k])
    ensures forall i, j | 0 <= i <= j < |trace| ::
      SameOrder(trace[i], trace[j], trace[i].Keys - MovedBetween(requests, i, j))
    ensures forall i, n | 0 <= i < |requests| && n == i + 1 ::
      SameContent(trace[i], trace[n], trace[i].Keys - requests[i].Moves())
    ensures (forall k | 0 <= k < |requests| :: requests[k].late.Modest() && |trace[k]| < Pow62(36)) ==>
      forall k | 0 <= k < |trace| :: Bounded(trace[k], MAX_POSITION)
  {
    hide Sound, Bounded, Pow62, SameOrder, SameContent, ListInv, ModestBatch;
    forall k | 0 <= k < |trace|
      ensures Sound(trace[k])
    {
      StatesAreSound(requests, trace, k);
    }
    forall i, j | 0 <= i <= j < |trace|
      ensures SameOrder(trace[i], trace[j], trace[i].Keys - MovedBetween(requests, i, j))
    {
      OrderSurvives(requests, trace, i, j);
    }
    forall i, n | 0 <= i < |requests| && n == i + 1
      ensures SameContent(trace[i], trace[n], trace[i].Keys - requests[i].Moves())
    {
      assert ListStep(trace[i], trace[n], requests[i].Moves());
    }
  }

  // ------------------------------------------------------------- a tall tail

  function LastDigits(n: nat): (s: string)
    ensures |s| == n && AllLast(s) && (n > 0 ==> IsValidKey(s))
  {
    seq(n, i => DigitChar(BASE - 1))
  }

  /**
   * What two other requests leave that both ask for the same key of forty last digits: the
   * second is retried with two more.
   */
  function TwoTallRows(): Table {
    map["b" := Row("tower", LastDigits(40), Suggested), "c" := Row("bridge", LastDigits(42), Suggested)]
  }

  /**
   * The bound fails without modesty: an add with a 41-digit key finds an empty list, the
   * two rows are committed right after its rebalance, and its own row gets more than 42
   * digits.
   */
  method LateTailBreaksBound() returns (reply: Reply, before: Table, after: Table)
    ensures before == map[] && Bounded(TwoTallRows(), MAX_POSITION)
    ensures reply.Created? && "a" in after && |after["a"].position| > MAX_POSITION
  {
    hide ListInv, ListStep, IsValidKey, Lead, LateRowsJoin, IsLast, LastDigits;
    var table := new TripCityTable();
    before := table.rows;
    var late := Late(map[], map[], TwoTallRows(), map[], map[]);
    reply := table.AddPlace("a", true, "inn", None, Some(LastDigits(41)), late);
    after := table.rows;
    TallRowsJoin(after, late);
    TallRowsForce(after, "a");
  }

  lemma TallRowsJoin(after: Table, late: Late)
    requires late.CalmRebalance() && late.afterKeying == TwoTallRows() && LateRowsJoin(map[], after, late)
    ensures Extends(TwoTallRows(), after) && Bounded(TwoTallRows(), MAX_POSITION)
  {
    hide Admissible, LastDigits;
    var none: Table := map[];
    var keyed: Table :| keyed.Keys == none.Keys && LateRowsJoinAt(keyed, none, after, late);
    assert keyed == none;
    TallRowsAdmissible();
  }

  lemma TallRowsAdmissible()
    ensures Admissible(map[], map[], TwoTallRows())
  {
    hide LastDigits, IsValidKey;
    var none: Table := map[];
    assert none + TwoTallRows() == TwoTallRows();
    assert |"tower"| != |"bridge"|;
  }

  lemma TallRowsForce(after: Table, id: Id)
    requires Extends(TwoTallRows(), after) && IsLast(after, id) && id != "c" && ListInv(after)
    ensures |after[id].position| > MAX_POSITION
  {
    hide Less;
    assert after["c"] == TwoTallRows()["c"];
    AboveLastDigits(LastDigits(42), after[id].position);
  }

  // ------------------------------------------------------------- a collision

  /** The one key that a rebalance of a single row lays down. */
  function OnlyKey(): (key: string)
    ensures IsValidKey(key) && SlotKeys(1) == [key]
  {
    SlotKeysAscend(1);
    SlotKeys(1)[0]
  }

  function OneRow(): Table {
    map["a" := Row("tower", WithOnes(OnlyKey()), Suggested)]
  }

  function Rival(): Table {
    map["b" := Row("bridge", OnlyKey(), Suggested)]
  }

  /**
   * A rebalance does fail: while an add with a 41-digit key rebalances a list of one row,
   * another request commits a row on the very key that the statement is about to lay down.
   */
  method RivalBreaksRebalance() returns (reply: Reply)
    ensures reply.ServerError?
  {
    hide ListInv, ListStep, IsValidKey, LastDigits, OneRow, Rival, Collides, Admissible;
    OneRowIsSound();
    var table := new TripCityTable();
    table.rows, table.committed := OneRow(), OneRow();
    var late := Late(Rival(), map[], map[], map[], map[]);
    RivalCollides(late);
    reply := table.AddPlace("c", true, "inn", None, Some(LastDigits(41)), late);
  }

  lemma OneRowIsSound()
    ensures ListInv(OneRow()) && OneRow().Keys == {"a"} && Rival().Keys == {"b"}
  {
    hide IsJitterOf;
    JitterSortsAfter(OnlyKey(), WithOnes(OnlyKey()));
  }

  lemma RivalIsAdmissible()
    ensures Admissible(OneRow(), OneRow(), Rival())
  {
    hide IsJitterOf, IsValidKey;
    assert |OnlyKey()| != |WithOnes(OnlyKey())| && |"tower"| != |"bridge"|;
  }

  lemma RivalCollides(late: Late)
    requires late == Late(Rival(), map[], map[], map[], map[])
    ensures Collides(OneRow(), late)
  {
    hide Admissible, WithParked, IsValidKey;
    RivalIsAdmissible();
    var met := Met(OneRow(), Rival(), map[]);
    assert met["b"].position in SlotKeys(|OneRow()|);
  }
}
