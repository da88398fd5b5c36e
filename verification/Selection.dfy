/** One sweep's choice of the preferred member, and the order in which members are offered. */
module Selection {
  import opened Prelude
  import opened Sorting

  datatype SelectionPolicy = SelectionPolicy(
    failThreshold: int,
    successThreshold: int,
    scoreSwitchMargin: real,
    switchHoldSweeps: int)
  {
    /** The number of consecutive sweeps a lead must last. */
    function Hold(): (h: int)
      ensures h >= 1 && h >= switchHoldSweeps && (h == 1 || h == switchHoldSweeps)
    {
      Max(1, switchHoldSweeps)
    }
  }

  datatype RankedMember = RankedMember(id: string, healthy: bool, score: real, latency: Option<real>)

  datatype SelectionState = SelectionState(preferred: Option<string>, pending: Option<string>, pendingSweeps: nat)

  const NOTHING_CHOSEN := SelectionState(None, None, 0)

  /** A missing latency sorts as this many milliseconds. */
  const UNKNOWN_LATENCY: real := 1000000000000000000.0

  function LatencyKey(m: RankedMember): real {
    if m.latency.Some? then m.latency.value else UNKNOWN_LATENCY
  }

  predicate IsHealthy(m: RankedMember) {
    m.healthy
  }

  predicate IsUnhealthy(m: RankedMember) {
    !m.healthy
  }

  predicate IsNamed(id: Option<string>, m: RankedMember) {
    Some(m.id) == id
  }

  function Named(id: Option<string>): RankedMember -> bool {
    (m: RankedMember) => IsNamed(id, m)
  }

  /** Score descending, then latency, then id. */
  predicate BestFirst(a: RankedMember, b: RankedMember) {
    a.score > b.score
    || (a.score == b.score
        && (LatencyKey(a) < LatencyKey(b)
            || (LatencyKey(a) == LatencyKey(b) && NameLe(a.id, b.id))))
  }

  /** Score descending, then id. */
  predicate ScoreFirst(a: RankedMember, b: RankedMember) {
    a.score > b.score || (a.score == b.score && NameLe(a.id, b.id))
  }

  /** The feeder's order: the preferred member, then ScoreFirst. */
  predicate FeederFirst(preferred: Option<string>, a: RankedMember, b: RankedMember) {
    (IsNamed(preferred, a) && !IsNamed(preferred, b))
    || (IsNamed(preferred, a) == IsNamed(preferred, b) && ScoreFirst(a, b))
  }

  function FeederOrder(preferred: Option<string>): (RankedMember, RankedMember) -> bool {
    (a: RankedMember, b: RankedMember) => FeederFirst(preferred, a, b)
  }

  /** The listing's order: preferred rows, then healthy rows, then ScoreFirst. */
  predicate ListedFirst(preferred: Option<string>, a: RankedMember, b: RankedMember) {
    (IsNamed(preferred, a) && !IsNamed(preferred, b))
    || (IsNamed(preferred, a) == IsNamed(preferred, b)
        && ((a.healthy && !b.healthy) || (a.healthy == b.healthy && ScoreFirst(a, b))))
  }

  function ListingOrder(preferred: Option<string>): (RankedMember, RankedMember) -> bool {
    (a: RankedMember, b: RankedMember) => ListedFirst(preferred, a, b)
  }

  ghost predicate DistinctIds(members: seq<RankedMember>) {
    forall i, j | 0 <= i < j < |members| :: members[i].id != members[j].id
  }

  /** The healthy members, best first. */
  function Ranking(members: seq<RankedMember>): seq<RankedMember> {
    Sort(BestFirst, Filter(IsHealthy, members))
  }

  function ChoosePreferred(members: seq<RankedMember>, state: SelectionState, policy: SelectionPolicy): SelectionState {
    var healthy := Ranking(members);
    if healthy == [] then
      var still := First((m: RankedMember) => IsNamed(state.preferred, m) && m.healthy, members);
      SelectionState(if still.None? then None else state.preferred, None, 0)
    else
      Decide(healthy[0], First(Named(state.preferred), healthy), state, policy)
  }

  /** The choice between the top member and the incumbent, if it is still healthy. */
  function Decide(best: RankedMember, current: Option<RankedMember>, state: SelectionState, policy: SelectionPolicy): SelectionState {
    var margin := policy.scoreSwitchMargin;
    if margin <= 0.0 || current.None? then
      SelectionState(Some(best.id), None, 0)
    else if best.id != current.value.id && best.score - current.value.score >= margin then
      var pending := if state.pending == Some(best.id) then state.pendingSweeps + 1 else 1;
      if pending >= policy.Hold() then
        SelectionState(Some(best.id), None, 0)
      else
        SelectionState(Some(current.value.id), Some(best.id), pending)
    else
      SelectionState(Some(current.value.id), None, 0)
  }

  function Ids(members: seq<RankedMember>): (ids: seq<string>)
    ensures |ids| == |members|
    ensures forall i | 0 <= i < |ids| :: ids[i] == members[i].id
  {
    seq(|members|, i requires 0 <= i < |members| => members[i].id)
  }

  function HealthyOrder(members: seq<RankedMember>, preferred: Option<string>): seq<string> {
    Ids(Sort(FeederOrder(preferred), Filter(IsHealthy, members)))
  }

  /** The rows of the members endpoint, in the order it returns them. */
  function Listing(members: seq<RankedMember>, preferred: Option<string>): seq<RankedMember> {
    Sort(ListingOrder(preferred), members)
  }

  // ---- The orders are total, and ties need equal ids.

  lemma NameLeOrder()
    ensures forall a, b :: NameLe(a, b) || NameLe(b, a)
    ensures forall a, b, c :: NameLe(a, b) && NameLe(b, c) ==> NameLe(a, c)
    ensures forall a, b :: NameLe(a, b) && NameLe(b, a) ==> a == b
  {
    forall a, b ensures NameLe(a, b) || NameLe(b, a) { NameLeTotal(a, b); }
    forall a, b, c | NameLe(a, b) && NameLe(b, c) ensures NameLe(a, c) { NameLeTransitive(a, b, c); }
    forall a, b | NameLe(a, b) && NameLe(b, a) ensures a == b { NameLeAntisymmetric(a, b); }
  }

  lemma OrdersAreTotal(preferred: Option<string>)
    ensures TotalPreorder(BestFirst)
    ensures TotalPreorder(FeederOrder(preferred))
    ensures TotalPreorder(ListingOrder(preferred))
  {
    NameLeOrder();
    var f, l := FeederOrder(preferred), ListingOrder(preferred);
    assert forall a, b :: f(a, b) == FeederFirst(preferred, a, b);
    assert forall a, b :: l(a, b) == ListedFirst(preferred, a, b);
  }

  lemma DistinctIdsNoTies(members: seq<RankedMember>, preferred: Option<string>)
    requires DistinctIds(members)
    ensures Antisymmetric(BestFirst, members)
    ensures Antisymmetric(FeederOrder(preferred), members)
    ensures Antisymmetric(ListingOrder(preferred), members)
  {
    NameLeOrder();
    assert forall a, b | a in members && b in members && a.id == b.id :: a == b;
    var f, l := FeederOrder(preferred), ListingOrder(preferred);
    assert forall a, b :: f(a, b) == FeederFirst(preferred, a, b);
    assert forall a, b :: l(a, b) == ListedFirst(preferred, a, b);
  }

  lemma DistinctMeansUnique(members: seq<RankedMember>, a: RankedMember, b: RankedMember)
    requires DistinctIds(members) && a in members && b in members && a.id == b.id
    ensures a == b
  {
  }

  lemma {:induction false} FilterKeepsDistinct(p: RankedMember -> bool, members: seq<RankedMember>)
    requires DistinctIds(members)
    ensures DistinctIds(Filter(p, members))
  {
    if members != [] {
      var n := |members| - 1;
      FilterKeepsDistinct(p, members[..n]);
      var ys := Filter(p, members[..n]);
      forall i | 0 <= i < |ys| ensures ys[i].id != members[n].id {
        assert ys[i] in members[..n];
      }
    }
  }

  // ---- What the choice says, without sorting.

  /** m is a healthy member that no healthy member precedes. */
  ghost predicate IsTop(members: seq<RankedMember>, m: RankedMember) {
    m in members && m.healthy && forall x | x in members && x.healthy :: BestFirst(m, x)
  }

  function Top(members: seq<RankedMember>): Option<RankedMember> {
    if Ranking(members) == [] then None else Some(Ranking(members)[0])
  }

  function HealthyMember(members: seq<RankedMember>, id: Option<string>): Option<RankedMember> {
    First((m: RankedMember) => IsNamed(id, m) && m.healthy, members)
  }

  lemma TopIsTop(members: seq<RankedMember>)
    ensures Top(members).None? <==> forall m | m in members :: !m.healthy
    ensures Top(members).Some? ==> IsTop(members, Top(members).value)
  {
    OrdersAreTotal(None);
    var healthy := Filter(IsHealthy, members);
    SortSorts(BestFirst, healthy);
    var ranking := Sort(BestFirst, healthy);
    if ranking != [] {
      forall x | x in members && x.healthy ensures BestFirst(ranking[0], x) {
        assert x in ranking;
        assert BestFirst(x, x);
      }
      assert ranking[0] in healthy;
    } else {
      forall m | m in members ensures !m.healthy {
        assert m.healthy ==> m in ranking;
      }
    }
  }

  /** The ranking on its keys: a higher score, else a lower latency, where none counts as 1e18, else a smaller id. */
  lemma TopIsBest(members: seq<RankedMember>, x: RankedMember)
    requires x in members && x.healthy
    ensures Top(members).Some?
    ensures var m := Top(members).value;
            var lm := if m.latency.Some? then m.latency.value else 1000000000000000000.0;
            var lx := if x.latency.Some? then x.latency.value else 1000000000000000000.0;
            && m in members && m.healthy && m.score >= x.score
            && (m.score == x.score ==> lm < lx || (lm == lx && NameLe(m.id, x.id)))
  {
    TopIsTop(members);
    assert BestFirst(Top(members).value, x);
  }

  lemma TopUnique(members: seq<RankedMember>, m: RankedMember)
    requires DistinctIds(members) && IsTop(members, m)
    ensures Top(members) == Some(m)
  {
    TopIsTop(members);
    DistinctIdsNoTies(members, None);
  }

  // ---- Standings: all a choice depends on.

  /** The member that heads the ranking, and the healthy members by id. */
  datatype Standing = Standing(top: Option<RankedMember>, healthy: map<string, RankedMember>) {
    /** The top member is the best of the healthy ones, and exists if any does. */
    ghost predicate Valid() {
      && (top.None? <==> healthy == map[])
      && (forall id | id in healthy :: healthy[id].id == id)
      && (top.Some? ==> top.value.id in healthy && healthy[top.value.id] == top.value
                        && forall id | id in healthy :: BestFirst(top.value, healthy[id]))
    }

    /** b heads the ranking and is ahead of the healthy member c by at least the margin. */
    predicate Leads(c: string, b: string, margin: real) {
      top.Some? && c in healthy && top.value.id == b && b != c && top.value.score - healthy[c].score >= margin
    }
  }

  function HealthyIds(members: seq<RankedMember>): set<string> {
    set m | m in members && m.healthy :: m.id
  }

  function StandingOf(members: seq<RankedMember>): Standing {
    Standing(Top(members),
             map id | id in HealthyIds(members) && HealthyMember(members, Some(id)).Some? :: HealthyMember(members, Some(id)).value)
  }

  /** The rule of the choice: follow the top, hold on to the incumbent, or count a lead that lasts. */
  function Choose(st: Standing, s: SelectionState, policy: SelectionPolicy): SelectionState {
    if st.top.None? then NOTHING_CHOSEN
    else
      var b := st.top.value.id;
      if policy.scoreSwitchMargin <= 0.0 || s.preferred.None? || s.preferred.value !in st.healthy then
        SelectionState(Some(b), None, 0)
      else if !st.Leads(s.preferred.value, b, policy.scoreSwitchMargin) then
        SelectionState(s.preferred, None, 0)
      else
        var pending := if s.pending == Some(b) then s.pendingSweeps + 1 else 1;
        if pending >= policy.Hold() then SelectionState(Some(b), None, 0)
        else SelectionState(s.preferred, Some(b), pending)
  }

  lemma HealthyIdsMeaning(members: seq<RankedMember>, id: string)
    ensures id in HealthyIds(members) <==> HealthyMember(members, Some(id)).Some?
  {
    if id in HealthyIds(members) {
      var m :| m in members && m.healthy && m.id == id;
      assert IsNamed(Some(id), m);
    }
  }

  /** The healthy ids of a standing are those of its members. */
  lemma StandingHealthy(members: seq<RankedMember>)
    ensures StandingOf(members).healthy.Keys == HealthyIds(members)
    ensures forall id | id in HealthyIds(members) ::
              HealthyMember(members, Some(id)).Some? && StandingOf(members).healthy[id] == HealthyMember(members, Some(id)).value
  {
    forall id ensures id in HealthyIds(members) <==> HealthyMember(members, Some(id)).Some? {
      HealthyIdsMeaning(members, id);
    }
  }

  lemma StandingValid(members: seq<RankedMember>)
    requires DistinctIds(members)
    ensures StandingOf(members).Valid()
  {
    TopIsTop(members);
    StandingHealthy(members);
    var st := StandingOf(members);
    if st.top.Some? {
      var m := st.top.value;
      assert m.id in HealthyIds(members);
      DistinctMeansUnique(members, m, HealthyMember(members, Some(m.id)).value);
    } else {
      assert HealthyIds(members) == {};
    }
  }

  /** Looking an id up among the sorted healthy members or among all members finds the same one. */
  lemma SameIncumbent(members: seq<RankedMember>, id: Option<string>)
    requires DistinctIds(members)
    ensures First(Named(id), Ranking(members)) == HealthyMember(members, id)
  {
    var ranking := Ranking(members);
    var sorted, listed := First(Named(id), ranking), HealthyMember(members, id);
    assert forall m :: m in ranking <==> m in members && m.healthy;
    if sorted.Some? && listed.Some? {
      DistinctMeansUnique(members, sorted.value, listed.value);
    }
  }

  lemma StandingLookup(members: seq<RankedMember>, id: string)
    ensures id in StandingOf(members).healthy <==> HealthyMember(members, Some(id)).Some?
    ensures id in StandingOf(members).healthy ==> StandingOf(members).healthy[id] == HealthyMember(members, Some(id)).value
  {
    HealthyIdsMeaning(members, id);
  }

  /** The program's sorting and searching implement the rule. */
  lemma ChoiceFollowsRule(members: seq<RankedMember>, state: SelectionState, policy: SelectionPolicy)
    requires DistinctIds(members)
    ensures ChoosePreferred(members, state, policy) == Choose(StandingOf(members), state, policy)
  {
    var ranking := Ranking(members);
    if ranking == [] {
      TopIsTop(members);
    } else {
      SameIncumbent(members, state.preferred);
      if state.preferred.Some? {
        StandingLookup(members, state.preferred.value);
      } else {
        assert First(Named(state.preferred), ranking).None?;
      }
      DecisionFollowsRule(ranking[0], First(Named(state.preferred), ranking), StandingOf(members), state, policy);
    }
  }

  /** Deciding between the top and the incumbent is the rule on any standing that has these two. */
  lemma DecisionFollowsRule(best: RankedMember, current: Option<RankedMember>, st: Standing, state: SelectionState, policy: SelectionPolicy)
    requires st.top == Some(best)
    requires current.Some? <==> state.preferred.Some? && state.preferred.value in st.healthy
    requires current.Some? ==> st.healthy[state.preferred.value] == current.value && current.value.id == state.preferred.value
    ensures Decide(best, current, state, policy) == Choose(st, state, policy)
  {
  }

  /** The choice and the feeder's order do not depend on the order of the members. */
  lemma ChoiceIgnoresOrder(xs: seq<RankedMember>, ys: seq<RankedMember>, state: SelectionState, policy: SelectionPolicy)
    requires DistinctIds(xs) && DistinctIds(ys) && multiset(xs) == multiset(ys)
    ensures ChoosePreferred(xs, state, policy) == ChoosePreferred(ys, state, policy)
    ensures HealthyOrder(xs, state.preferred) == HealthyOrder(ys, state.preferred)
    ensures Listing(xs, state.preferred) == Listing(ys, state.preferred)
  {
    forall m ensures m in xs <==> m in ys {
      assert m in multiset(xs) <==> m in multiset(ys);
    }
    SameStanding(xs, ys);
    ChoiceFollowsRule(xs, state, policy);
    ChoiceFollowsRule(ys, state, policy);

    OrdersAreTotal(state.preferred);
    DistinctIdsNoTies(xs, state.preferred);
    SortCanonical(ListingOrder(state.preferred), xs, ys);
    FilterIgnoresOrder(IsHealthy, xs, ys);
    SortCanonical(FeederOrder(state.preferred), Filter(IsHealthy, xs), Filter(IsHealthy, ys));
  }

  lemma FilterIgnoresOrder(p: RankedMember -> bool, xs: seq<RankedMember>, ys: seq<RankedMember>)
    requires multiset(xs) == multiset(ys)
    ensures multiset(Filter(p, xs)) == multiset(Filter(p, ys))
  {
    forall v ensures multiset(Filter(p, xs))[v] == multiset(Filter(p, ys))[v] {
      FilterMultiset(p, xs, v);
      FilterMultiset(p, ys, v);
    }
  }

  lemma SameTop(xs: seq<RankedMember>, ys: seq<RankedMember>)
    requires DistinctIds(ys) && forall m :: m in xs <==> m in ys
    ensures Top(xs) == Top(ys)
  {
    TopIsTop(xs);
    TopIsTop(ys);
    if Top(xs).Some? {
      TopUnique(ys, Top(xs).value);
    }
  }

  lemma SameHealthyMember(xs: seq<RankedMember>, ys: seq<RankedMember>, id: Option<string>)
    requires DistinctIds(ys) && forall m :: m in xs <==> m in ys
    ensures HealthyMember(xs, id) == HealthyMember(ys, id)
  {
    var a, b := HealthyMember(xs, id), HealthyMember(ys, id);
    if a.Some? && b.Some? {
      DistinctMeansUnique(ys, a.value, b.value);
    }
  }

  lemma SameStanding(xs: seq<RankedMember>, ys: seq<RankedMember>)
    requires DistinctIds(ys) && forall m :: m in xs <==> m in ys
    ensures StandingOf(xs) == StandingOf(ys)
  {
    SameTop(xs, ys);
    forall id: string ensures SameAt(StandingOf(xs).healthy, StandingOf(ys).healthy, id) {
      SameHealthyMember(xs, ys, Some(id));
      StandingLookup(xs, id);
      StandingLookup(ys, id);
    }
    SameMaps(StandingOf(xs).healthy, StandingOf(ys).healthy);
  }

  ghost predicate SameAt(a: map<string, RankedMember>, b: map<string, RankedMember>, id: string) {
    (id in a <==> id in b) && (id in a && id in b ==> a[id] == b[id])
  }

  lemma SameMaps(a: map<string, RankedMember>, b: map<string, RankedMember>)
    requires forall id :: SameAt(a, b, id)
    ensures a == b
  {
    forall id ensures (id in a <==> id in b) && (id in a ==> a[id] == b[id]) {
      assert SameAt(a, b, id);
    }
  }

  /** The feeder's list holds each healthy id exactly once. */
  lemma HealthyOrderPermutes(members: seq<RankedMember>, preferred: Option<string>)
    requires DistinctIds(members)
    ensures forall id :: id in HealthyOrder(members, preferred) <==> exists m :: m in members && m.healthy && m.id == id
    ensures forall i, j | 0 <= i < j < |HealthyOrder(members, preferred)| ::
              HealthyOrder(members, preferred)[i] != HealthyOrder(members, preferred)[j]
  {
    var healthy := Filter(IsHealthy, members);
    var sorted := Sort(FeederOrder(preferred), healthy);
    FilterKeepsDistinct(IsHealthy, members);
    PermutationKeepsDistinct(healthy, sorted);
    var order := HealthyOrder(members, preferred);
    forall id | exists m :: m in members && m.healthy && m.id == id ensures id in order {
      var m :| m in members && m.healthy && m.id == id;
      assert m in sorted;
      var i :| 0 <= i < |sorted| && sorted[i] == m;
      assert order[i] == id;
    }
    forall id | id in order ensures exists m :: m in members && m.healthy && m.id == id {
      var i :| 0 <= i < |order| && order[i] == id;
      assert sorted[i] in healthy;
    }
  }

  lemma PermutationKeepsDistinct(xs: seq<RankedMember>, ys: seq<RankedMember>)
    requires DistinctIds(xs) && multiset(xs) == multiset(ys)
    ensures DistinctIds(ys)
  {
    PermutationNoDuplicates(xs, ys);
    forall a, b | a in ys && b in ys && a.id == b.id ensures a == b {
      assert a in multiset(xs) && b in multiset(xs);
    }
  }

  /** Behind the preferred member the feeder's list goes by score, and by id among equal scores. */
  lemma FeederListByScore(members: seq<RankedMember>, preferred: Option<string>, i: nat, j: nat, a: RankedMember, b: RankedMember)
    requires DistinctIds(members) && i < j < |HealthyOrder(members, preferred)|
    requires a in members && a.id == HealthyOrder(members, preferred)[i]
    requires b in members && b.id == HealthyOrder(members, preferred)[j]
    ensures a.healthy && b.healthy && Some(b.id) != preferred
    ensures Some(a.id) == preferred || a.score > b.score || (a.score == b.score && NameLe(a.id, b.id))
  {
    var healthy := Filter(IsHealthy, members);
    var sorted := Sort(FeederOrder(preferred), healthy);
    OrdersAreTotal(preferred);
    SortSorts(FeederOrder(preferred), healthy);
    FilterKeepsDistinct(IsHealthy, members);
    PermutationKeepsDistinct(healthy, sorted);
    assert sorted[i] in healthy && sorted[j] in healthy;
    DistinctMeansUnique(members, a, sorted[i]);
    DistinctMeansUnique(members, b, sorted[j]);
    assert FeederOrder(preferred)(sorted[i], sorted[j]);
  }

  /** The listing: preferred rows, then healthy ones, then the rest, each part by score, and by id among equal scores. */
  lemma ListingByScore(members: seq<RankedMember>, preferred: Option<string>, i: nat, j: nat)
    requires i < j < |members|
    ensures multiset(Listing(members, preferred)) == multiset(members) && |Listing(members, preferred)| == |members|
    ensures var a, b := Listing(members, preferred)[i], Listing(members, preferred)[j];
            && (Some(b.id) == preferred ==> Some(a.id) == preferred)
            && (Some(a.id) != preferred && b.healthy ==> a.healthy)
            && ((Some(a.id) == preferred <==> Some(b.id) == preferred) && a.healthy == b.healthy ==>
                  a.score > b.score || (a.score == b.score && NameLe(a.id, b.id)))
  {
    OrdersAreTotal(preferred);
    SortSorts(ListingOrder(preferred), members);
    var listing := Listing(members, preferred);
    assert ListingOrder(preferred)(listing[i], listing[j]);
  }

  lemma PreferredHeadsFeederList(members: seq<RankedMember>, preferred: string)
    requires DistinctIds(members) && preferred in HealthyIds(members)
    ensures HealthyOrder(members, Some(preferred)) != [] && HealthyOrder(members, Some(preferred))[0] == preferred
  {
    var m :| m in members && m.healthy && m.id == preferred;
    var healthy := Filter(IsHealthy, members);
    var sorted := Sort(FeederOrder(Some(preferred)), healthy);
    OrdersAreTotal(Some(preferred));
    SortSorts(FeederOrder(Some(preferred)), healthy);
    assert m in sorted;
    var i :| 0 <= i < |sorted| && sorted[i] == m;
    assert i > 0 ==> FeederOrder(Some(preferred))(sorted[0], sorted[i]);
  }

  /**
   * When the preferred member is healthy or absent, the listing is the feeder's list
   * followed by the unhealthy rows, although the two sorts use different keys.
   */
  lemma ListingStartsWithFeederList(members: seq<RankedMember>, preferred: Option<string>)
    requires DistinctIds(members)
    requires preferred.Some? ==> preferred.value in HealthyIds(members)
    ensures var n := |Filter(IsHealthy, members)|;
            && n <= |members|
            && Ids(Listing(members, preferred)[..n]) == HealthyOrder(members, preferred)
            && (forall i | 0 <= i < n :: Listing(members, preferred)[i].healthy)
            && (forall i | n <= i < |members| :: !Listing(members, preferred)[i].healthy)
  {
    var up, down := Filter(IsHealthy, members), Filter(IsUnhealthy, members);
    var feeder, rest := Sort(FeederOrder(preferred), up), Sort(ListingOrder(preferred), down);
    var listing := Listing(members, preferred);
    ListingSplits(members, preferred);
    assert listing == feeder + rest && |feeder| == |up|;
    assert listing[..|up|] == feeder;
    forall i | 0 <= i < |feeder| ensures listing[i].healthy { assert feeder[i] in feeder; }
    forall i | |feeder| <= i < |listing| ensures !listing[i].healthy { assert rest[i - |feeder|] in rest; }
  }

  lemma ListingSplits(members: seq<RankedMember>, preferred: Option<string>)
    requires DistinctIds(members)
    requires preferred.Some? ==> preferred.value in HealthyIds(members)
    ensures Listing(members, preferred)
            == Sort(FeederOrder(preferred), Filter(IsHealthy, members)) + Sort(ListingOrder(preferred), Filter(IsUnhealthy, members))
  {
    var le, listing := ListingOrder(preferred), Listing(members, preferred);
    var feeder := Sort(FeederOrder(preferred), Filter(IsHealthy, members));
    var rest := Sort(le, Filter(IsUnhealthy, members));
    HealthyThenUnhealthySorted(members, preferred);
    OrdersAreTotal(preferred);
    DistinctIdsNoTies(members, preferred);
    SortSorts(le, members);
    SplitMultiset(members);
    assert multiset(feeder + rest) == multiset(members);
    assert Antisymmetric(le, listing);
    SortedUnique(le, listing, feeder + rest);
  }

  lemma SplitMultiset(members: seq<RankedMember>)
    ensures multiset(Filter(IsHealthy, members)) + multiset(Filter(IsUnhealthy, members)) == multiset(members)
  {
    forall v ensures (multiset(Filter(IsHealthy, members)) + multiset(Filter(IsUnhealthy, members)))[v] == multiset(members)[v] {
      FilterMultiset(IsHealthy, members, v);
      FilterMultiset(IsUnhealthy, members, v);
    }
  }

  lemma PreferredIsHealthy(members: seq<RankedMember>, preferred: Option<string>, m: RankedMember)
    requires DistinctIds(members) && m in members && IsNamed(preferred, m)
    requires preferred.Some? ==> preferred.value in HealthyIds(members)
    ensures m.healthy
  {
    var up :| up in members && up.healthy && up.id == preferred.value;
    DistinctMeansUnique(members, m, up);
  }

  lemma HealthyThenUnhealthySorted(members: seq<RankedMember>, preferred: Option<string>)
    requires DistinctIds(members)
    requires preferred.Some? ==> preferred.value in HealthyIds(members)
    ensures SortedBy(ListingOrder(preferred),
                     Sort(FeederOrder(preferred), Filter(IsHealthy, members))
                     + Sort(ListingOrder(preferred), Filter(IsUnhealthy, members)))
  {
    var feeder := Sort(FeederOrder(preferred), Filter(IsHealthy, members));
    var rest := Sort(ListingOrder(preferred), Filter(IsUnhealthy, members));
    OrdersAreTotal(preferred);
    SortSorts(FeederOrder(preferred), Filter(IsHealthy, members));
    SortSorts(ListingOrder(preferred), Filter(IsUnhealthy, members));
    forall m | m in members && IsNamed(preferred, m) ensures m.healthy {
      PreferredIsHealthy(members, preferred, m);
    }
    assert forall m | m in rest :: m in members && !m.healthy;
    var all := feeder + rest;
    forall i, j | 0 <= i < j < |all| ensures ListedFirst(preferred, all[i], all[j]) {
      if j < |feeder| {
        assert FeederOrder(preferred)(feeder[i], feeder[j]);
        assert feeder[i] in feeder && feeder[j] in feeder;
      } else if i < |feeder| {
        assert feeder[i] in feeder && rest[j - |feeder|] in rest;
      } else {
        assert ListingOrder(preferred)(rest[i - |feeder|], rest[j - |feeder|]);
      }
    }
  }

  /**
   * The feeder's list starts with the preferred member when there is one and is empty otherwise;
   * the listing is the feeder's list followed by the unhealthy members.
   */
  ghost predicate OrdersAgree(members: seq<RankedMember>, preferred: Option<string>) {
    var order, listing := HealthyOrder(members, preferred), Listing(members, preferred);
    && (preferred.None? <==> order == [])
    && (preferred.Some? ==> order[0] == preferred.value)
    && |order| <= |listing| && Ids(listing[..|order|]) == order
    && (forall i | 0 <= i < |listing| :: listing[i].healthy <==> i < |order|)
  }

  lemma OrdersFit(members: seq<RankedMember>, preferred: Option<string>)
    requires DistinctIds(members)
    requires preferred.None? <==> HealthyIds(members) == {}
    requires preferred.Some? ==> preferred.value in HealthyIds(members)
    ensures OrdersAgree(members, preferred)
  {
    ListingStartsWithFeederList(members, preferred);
    if preferred.Some? {
      PreferredHeadsFeederList(members, preferred.value);
    } else {
      NobodyHealthy(members);
    }
  }

  lemma {:induction false} NobodyHealthy(members: seq<RankedMember>)
    requires HealthyIds(members) == {}
    ensures Filter(IsHealthy, members) == []
  {
    if members != [] {
      forall m | m in members ensures !m.healthy {
        assert m.healthy ==> m.id in HealthyIds(members);
      }
      assert HealthyIds(members[..|members| - 1]) == {};
      NobodyHealthy(members[..|members| - 1]);
      assert members[|members| - 1] in members;
    }
  }
}
