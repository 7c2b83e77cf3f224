/**
 The two greedy deciders of the attention report (harness_watcher_implementation/attention.py):
 does an unbroken chain of manager activity explain a delay, and do committed scans cover
 the time between a signal and its deadline.  Time is dense: instants are reals.
 */
module Coverage {
  import opened Common
  import opened Sorting

  /******* Causal intervals *******/

  // The manager session and invocation; absence carries neither.
  type ManagerIdentity = Option<(string, string)>

  datatype Interval = Interval(start: real, end: real, manager: ManagerIdentity, busy: bool)

  datatype Cause = BusyManagerDelay | IdleOrAbsentManagerDelay

  function IntervalKey(i: Interval): Key {
    (i.start, i.end)
  }

  ghost predicate At(intervals: seq<Interval>, t: real) {
    exists k :: 0 <= k < |intervals| && intervals[k].start <= t <= intervals[k].end
  }

  // Every instant of the closed window lies in some interval.
  ghost predicate Covers(intervals: seq<Interval>, start: real, end: real) {
    forall t: real | start <= t <= end :: At(intervals, t)
  }

  ghost predicate Apart(a: Interval, b: Interval) {
    a.end <= b.start || b.end <= a.start
  }

  ghost predicate PairwiseApart(intervals: seq<Interval>) {
    forall i, j | 0 <= i < j < |intervals| :: Apart(intervals[i], intervals[j])
  }

  ghost predicate Forward(intervals: seq<Interval>) {
    forall i | 0 <= i < |intervals| :: intervals[i].start <= intervals[i].end
  }

  // The adjacent test of the source.
  predicate NextOverlaps(ordered: seq<Interval>) {
    exists i | 0 < i < |ordered| :: ordered[i].start < ordered[i - 1].end
  }

  // On sorted intervals, comparing neighbours decides whether any two overlap.
  lemma NeighboursDecide(ordered: seq<Interval>)
    requires SortedBy(ordered, IntervalKey) && Forward(ordered)
    ensures !NextOverlaps(ordered) <==> PairwiseApart(ordered)
    ensures !NextOverlaps(ordered) ==> forall i, j | 0 <= i < j < |ordered| :: ordered[i].end <= ordered[j].start
  {
    if !NextOverlaps(ordered) {
      forall i, j | 0 <= i < j < |ordered|
        ensures ordered[i].end <= ordered[j].start
      {
        EndsBefore(ordered, i, j);
      }
    }
    if PairwiseApart(ordered) {
      forall i | 0 < i < |ordered|
        ensures ordered[i].start >= ordered[i - 1].end
      {
        assert Precedes(IntervalKey(ordered[i - 1]), IntervalKey(ordered[i]));
        assert Apart(ordered[i - 1], ordered[i]);
      }
    }
  }

  lemma EndsBefore(ordered: seq<Interval>, i: nat, j: nat)
    requires Forward(ordered) && !NextOverlaps(ordered) && i < j < |ordered|
    ensures ordered[i].end <= ordered[j].start
    decreases j - i
  {
    assert !(ordered[j].start < ordered[j - 1].end);
    if i < j - 1 {
      EndsBefore(ordered, i, j - 1);
    }
  }

  // If no interval reaches from the cursor beyond it, some instant just after the cursor is bare.
  lemma GapAbove(intervals: seq<Interval>, cursor: real, end: real) returns (t: real)
    requires cursor < end
    requires forall i | 0 <= i < |intervals| :: intervals[i].end <= cursor || intervals[i].start > cursor
    ensures cursor < t <= end && !At(intervals, t)
  {
    var bound := end;
    for i := 0 to |intervals|
      invariant cursor < bound <= end
      invariant forall j | 0 <= j < i :: intervals[j].end <= cursor || intervals[j].start >= bound
    {
      if intervals[i].end > cursor && intervals[i].start < bound {
        bound := intervals[i].start;
      }
    }
    t := (cursor + bound) / 2.0;
  }

  // Some busy interval of the chain: one that ends in the window or behind it, and before which none reaches the end.
  ghost predicate BusyChain(ordered: seq<Interval>, start: real, end: real) {
    exists k :: 0 <= k < |ordered| && ordered[k].busy && ordered[k].end >= start && forall j | 0 <= j < k :: ordered[j].end < end
  }

  // In a window with an inside, these are the busy intervals that begin before its end.
  lemma BusyInside(ordered: seq<Interval>, start: real, end: real)
    requires start < end && SortedBy(ordered, IntervalKey) && Forward(ordered) && !NextOverlaps(ordered)
    ensures BusyChain(ordered, start, end) && Covers(ordered, start, end) ==>
              exists k :: 0 <= k < |ordered| && ordered[k].busy && ordered[k].end >= start && ordered[k].start < end
    ensures (exists k :: 0 <= k < |ordered| && ordered[k].busy && ordered[k].end >= start && ordered[k].start < end) ==>
              BusyChain(ordered, start, end)
  {
    NeighboursDecide(ordered);
    if k :| 0 <= k < |ordered| && ordered[k].busy && ordered[k].end >= start && ordered[k].start < end {
      assert forall j | 0 <= j < k :: ordered[j].end <= ordered[k].start < end;
    }
    if BusyChain(ordered, start, end) && Covers(ordered, start, end) {
      var k :| 0 <= k < |ordered| && ordered[k].busy && ordered[k].end >= start && forall j | 0 <= j < k :: ordered[j].end < end;
      if ordered[k].start >= end {
        var t := GapBefore(ordered, k, start, end);
      }
    }
  }

  // If everything before k ends before the window does, and k begins behind it, an instant of the window is bare.
  lemma GapBefore(ordered: seq<Interval>, k: nat, start: real, end: real) returns (t: real)
    requires start < end && k < |ordered| && SortedBy(ordered, IntervalKey)
    requires ordered[k].start >= end && forall j | 0 <= j < k :: ordered[j].end < end
    ensures start <= t <= end && !At(ordered, t)
  {
    var bound := start;
    for i := 0 to k
      invariant start <= bound < end
      invariant forall j | 0 <= j < i :: ordered[j].end <= bound
    {
      if ordered[i].end > bound {
        bound := ordered[i].end;
      }
    }
    t := (bound + end) / 2.0;
    forall j | k <= j < |ordered|
      ensures ordered[j].start >= end
    {
      if k < j {
        assert Precedes(IntervalKey(ordered[k]), IntervalKey(ordered[j]));
      }
    }
  }

  lemma ReachGrows(ordered: seq<Interval>, i: nat, start: real, cursor: real, selected: bool)
    requires i < |ordered| && ordered[i].start <= cursor <= ordered[i].end
    requires if selected then Covers(ordered, start, cursor) else cursor == start
    ensures Covers(ordered, start, ordered[i].end)
  {
    forall t: real | start <= t <= ordered[i].end
      ensures At(ordered, t)
    {
      if t >= cursor {
        assert ordered[i].start <= t <= ordered[i].end;
      }
    }
  }

  lemma WindowReached(ordered: seq<Interval>, start: real, cursor: real, end: real)
    requires Covers(ordered, start, cursor) && end <= cursor
    ensures Covers(ordered, start, end)
  {
  }

  lemma NotCovered(ordered: seq<Interval>, t: real, start: real, end: real)
    requires start <= t <= end
    requires !At(ordered, t) || forall j | 0 <= j < |ordered| :: ordered[j].end < t || ordered[j].start > t
    ensures !Covers(ordered, start, end)
  {
    assert !At(ordered, t);
  }

  // The chain walks the sorted intervals with a cursor.
  method Chain(ordered: seq<Interval>, start: real, end: real) returns (covered: bool, busy: bool)
    requires start <= end && SortedBy(ordered, IntervalKey) && Forward(ordered) && !NextOverlaps(ordered)
    ensures covered <==> Covers(ordered, start, end)
    ensures covered ==> (busy <==> BusyChain(ordered, start, end))
  {
    hide NextOverlaps, Covers, At;
    NeighboursDecide(ordered);
    var cursor := start;
    busy := false;
    ghost var selected := false;
    for i := 0 to |ordered|
      invariant start <= cursor && (selected ==> cursor < end) && (!selected ==> cursor == start)
      invariant selected ==> Covers(ordered, start, cursor)
      invariant forall j | 0 <= j < i :: ordered[j].end <= cursor || ordered[j].start > cursor
      invariant !selected ==> forall j | 0 <= j < i :: ordered[j].end < cursor || ordered[j].start > cursor
      invariant selected ==> cursor == start || exists m :: 0 <= m < i && cursor == ordered[m].end
      invariant busy ==> exists j :: 0 <= j < i && ordered[j].busy && ordered[j].end >= start && ordered[j].start <= end
      invariant forall j | 0 <= j < i && ordered[j].busy && ordered[j].end >= start && ordered[j].start <= cursor :: busy
    {
      var interval := ordered[i];
      if interval.end < cursor || interval.start > cursor {
        continue;
      }
      assert forall j | 0 <= j < i :: Precedes(IntervalKey(ordered[j]), IntervalKey(interval));
      ghost var before := cursor;
      if interval.busy {
        busy := true;
      }
      if interval.end > cursor {
        cursor := interval.end;
      }
      ReachGrows(ordered, i, start, before, selected);
      selected := true;
      if cursor >= end {
        WindowReached(ordered, start, cursor, end);
        return true, busy;
      }
    }
    covered := false;
    if selected {
      var t := GapAbove(ordered, cursor, end);
      NotCovered(ordered, t, start, end);
    } else {
      NotCovered(ordered, start, start, end);
    }
  }

  lemma ApartAppend(s: seq<Interval>, x: Interval)
    ensures PairwiseApart(s + [x]) <==> PairwiseApart(s) && forall y | y in s :: Apart(y, x)
  {
    var t := s + [x];
    if PairwiseApart(t) {
      forall i, j | 0 <= i < j < |s|
        ensures Apart(s[i], s[j])
      {
        assert Apart(t[i], t[j]);
      }
      forall y | y in s
        ensures Apart(y, x)
      {
        var i :| 0 <= i < |s| && s[i] == y;
        assert Apart(t[i], t[|s|]);
      }
    }
  }

  lemma {:induction false} ApartInsert(s: seq<Interval>, x: Interval)
    ensures PairwiseApart(Insert(s, x, IntervalKey)) <==> PairwiseApart(s) && forall y | y in s :: Apart(y, x)
    ensures forall y :: y in Insert(s, x, IntervalKey) <==> y in s || y == x
  {
    if s != [] {
      var init, last := s[..|s| - 1], s[|s| - 1];
      assert s == init + [last];
      ApartAppend(init, last);
      if Precedes(IntervalKey(last), IntervalKey(x)) {
        ApartAppend(s, x);
      } else {
        ApartInsert(init, x);
        ApartAppend(Insert(init, x, IntervalKey), last);
        assert (forall y | y in Insert(init, x, IntervalKey) :: Apart(y, last))
          <==> Apart(x, last) && forall y | y in init :: Apart(y, last);
        assert (forall y | y in s :: Apart(y, x)) <==> Apart(last, x) && forall y | y in init :: Apart(y, x);
      }
    }
  }

  // Whether any two intervals overlap does not depend on their order.
  lemma {:induction false} ApartSort(s: seq<Interval>)
    ensures PairwiseApart(Sort(s, IntervalKey)) <==> PairwiseApart(s)
    ensures forall y :: y in Sort(s, IntervalKey) <==> y in s
  {
    if s != [] {
      var init, last := s[..|s| - 1], s[|s| - 1];
      assert s == init + [last];
      ApartSort(init);
      ApartAppend(init, last);
      ApartInsert(Sort(init, IntervalKey), last);
    }
  }

  lemma SameMembersSameCover(a: seq<Interval>, b: seq<Interval>, start: real, end: real)
    requires forall y :: y in a <==> y in b
    ensures Covers(a, start, end) <==> Covers(b, start, end)
  {
    MembersCover(a, b, start, end);
    MembersCover(b, a, start, end);
  }

  lemma MembersCover(a: seq<Interval>, b: seq<Interval>, start: real, end: real)
    requires forall y :: y in a ==> y in b
    ensures Covers(a, start, end) ==> Covers(b, start, end)
  {
    if Covers(a, start, end) {
      forall t: real | start <= t <= end
        ensures At(b, t)
      {
        assert At(a, t);
        var k :| 0 <= k < |a| && a[k].start <= t <= a[k].end;
        assert a[k] in b;
        var j :| 0 <= j < |b| && b[j] == a[k];
      }
    }
  }

  function GroupOf(intervals: seq<Interval>, manager: ManagerIdentity): (g: seq<Interval>)
    ensures forall y :: y in g <==> y in intervals && y.manager == manager
    ensures Forward(intervals) ==> Forward(g)
  {
    if intervals == [] then []
    else
      var rest := GroupOf(intervals[..|intervals| - 1], manager);
      var last := intervals[|intervals| - 1];
      assert intervals == intervals[..|intervals| - 1] + [last];
      if last.manager == manager then rest + [last] else rest
  }

  // The managers in the order of their first interval.
  function Managers(intervals: seq<Interval>): (m: seq<ManagerIdentity>)
    ensures forall x :: x in m <==> exists i :: 0 <= i < |intervals| && intervals[i].manager == x
  {
    if intervals == [] then []
    else
      var rest := Managers(intervals[..|intervals| - 1]);
      var last := intervals[|intervals| - 1].manager;
      assert intervals == intervals[..|intervals| - 1] + [intervals[|intervals| - 1]];
      if last in rest then rest else rest + [last]
  }

  // With a named endpoint only its own activity explains anything.
  predicate Eligible(manager: ManagerIdentity, endpoint: ManagerIdentity) {
    endpoint.None? || manager == endpoint
  }

  // One manager's own intervals explain the whole window without overlapping.
  ghost predicate Explains(intervals: seq<Interval>, manager: ManagerIdentity, start: real, end: real) {
    PairwiseApart(GroupOf(intervals, manager)) && Covers(GroupOf(intervals, manager), start, end)
  }

  ghost predicate OwnAt(intervals: seq<Interval>, m: ManagerIdentity, t: real) {
    exists k :: 0 <= k < |intervals| && intervals[k].manager == m && intervals[k].start <= t <= intervals[k].end
  }

  // The same, written out on all the intervals.
  ghost predicate OwnChain(intervals: seq<Interval>, m: ManagerIdentity, start: real, end: real) {
    && (forall i, j | 0 <= i < j < |intervals| && intervals[i].manager == m && intervals[j].manager == m ::
          intervals[i].end <= intervals[j].start || intervals[j].end <= intervals[i].start)
    && (forall t: real | start <= t <= end :: OwnAt(intervals, m, t))
  }

  lemma {:induction false} GroupApart(intervals: seq<Interval>, m: ManagerIdentity)
    ensures PairwiseApart(GroupOf(intervals, m)) <==>
            forall i, j | 0 <= i < j < |intervals| && intervals[i].manager == m && intervals[j].manager == m ::
              Apart(intervals[i], intervals[j])
  {
    if intervals != [] {
      var init, last := intervals[..|intervals| - 1], intervals[|intervals| - 1];
      assert intervals == init + [last];
      GroupApart(init, m);
      var group := GroupOf(init, m);
      ApartAppend(group, last);
      if last.manager == m {
        assert (forall y | y in group :: Apart(y, last)) <==>
               forall i | 0 <= i < |init| && init[i].manager == m :: Apart(init[i], last);
      }
    }
  }

  lemma OwnAtExactly(intervals: seq<Interval>, m: ManagerIdentity, t: real)
    ensures At(GroupOf(intervals, m), t) <==> OwnAt(intervals, m, t)
  {
    var group := GroupOf(intervals, m);
    if At(group, t) {
      var k :| 0 <= k < |group| && group[k].start <= t <= group[k].end;
      assert group[k] in intervals;
    }
    if OwnAt(intervals, m, t) {
      var k :| 0 <= k < |intervals| && intervals[k].manager == m && intervals[k].start <= t <= intervals[k].end;
      assert intervals[k] in group;
    }
  }

  lemma OwnChainExactly(intervals: seq<Interval>, m: ManagerIdentity, start: real, end: real)
    ensures Explains(intervals, m, start, end) <==> OwnChain(intervals, m, start, end)
  {
    hide At, OwnAt;
    GroupApart(intervals, m);
    forall t: real
      ensures At(GroupOf(intervals, m), t) <==> OwnAt(intervals, m, t)
    {
      OwnAtExactly(intervals, m, t);
    }
  }

  // No eligible manager whose own intervals explain the window has an interval before the first one of m.
  ghost predicate FirstExplains(intervals: seq<Interval>, m: ManagerIdentity, start: real, end: real, endpoint: ManagerIdentity) {
    forall j | 0 <= j < |intervals| && (endpoint.None? || intervals[j].manager == endpoint)
               && OwnChain(intervals, intervals[j].manager, start, end) ::
      exists i :: 0 <= i <= j && intervals[i].manager == m
  }

  lemma {:induction false} ManagersInOrder(intervals: seq<Interval>, a: nat, b: nat, j: nat)
    requires a < b < |Managers(intervals)| && j < |intervals| && intervals[j].manager == Managers(intervals)[b]
    ensures exists i :: 0 <= i < j && intervals[i].manager == Managers(intervals)[a]
    decreases |intervals|
  {
    var init := intervals[..|intervals| - 1];
    var rest := Managers(init);
    if j < |init| && b < |rest| {
      ManagersInOrder(init, a, b, j);
      var i :| 0 <= i < j && init[i].manager == rest[a];
      assert intervals[i] == init[i];
    } else if b < |rest| {
      assert rest[b] in rest;
      var i :| 0 <= i < |init| && init[i].manager == rest[b];
      ManagersInOrder(init, a, b, i);
      var h :| 0 <= h < i && init[h].manager == rest[a];
      assert intervals[h] == init[h];
    } else {
      assert rest[a] in rest;
      var i :| 0 <= i < |init| && init[i].manager == rest[a];
      assert intervals[i] == init[i];
    }
  }

  lemma FirstOfManagers(intervals: seq<Interval>, k: nat, start: real, end: real, endpoint: ManagerIdentity)
    requires k < |Managers(intervals)|
    requires forall j | 0 <= j < k && Eligible(Managers(intervals)[j], endpoint) :: !Explains(intervals, Managers(intervals)[j], start, end)
    ensures FirstExplains(intervals, Managers(intervals)[k], start, end, endpoint)
  {
    hide Explains, OwnChain;
    var managers := Managers(intervals);
    forall j | 0 <= j < |intervals| && (endpoint.None? || intervals[j].manager == endpoint)
               && OwnChain(intervals, intervals[j].manager, start, end)
      ensures exists i :: 0 <= i <= j && intervals[i].manager == managers[k]
    {
      OwnChainExactly(intervals, intervals[j].manager, start, end);
      assert intervals[j].manager in managers;
      var b :| 0 <= b < |managers| && managers[b] == intervals[j].manager;
      if k < b {
        ManagersInOrder(intervals, k, b, j);
      }
    }
  }

  // The first of the manager's intervals at an instant, by start, end, and place.
  ghost predicate LeadsAt(intervals: seq<Interval>, m: ManagerIdentity, t: real, i: int) {
    && 0 <= i < |intervals| && intervals[i].manager == m && intervals[i].start <= t <= intervals[i].end
    && forall j | 0 <= j < |intervals| && j != i && intervals[j].manager == m && intervals[j].start <= t <= intervals[j].end ::
         || intervals[i].start < intervals[j].start
         || (intervals[i].start == intervals[j].start && intervals[i].end < intervals[j].end)
         || (intervals[i].start == intervals[j].start && intervals[i].end == intervals[j].end && i < j)
  }

  lemma {:induction false} ThoseOfGroup(intervals: seq<Interval>, m: ManagerIdentity, p: Interval -> bool)
    requires forall y | p(y) :: y.manager == m
    ensures Those(GroupOf(intervals, m), p) == Those(intervals, p)
  {
    if intervals != [] {
      var init, last := intervals[..|intervals| - 1], intervals[|intervals| - 1];
      ThoseOfGroup(init, m, p);
      var group := GroupOf(init, m);
      assert (group + [last])[..|group|] == group;
    }
  }

  // An interval of the ordered group stands at the place of the first of m's intervals that looks like it.
  lemma PlaceOf(intervals: seq<Interval>, m: ManagerIdentity, k: nat) returns (i: nat)
    requires var ordered := Sort(GroupOf(intervals, m), IntervalKey);
             k < |ordered| && forall l | 0 <= l < k :: IntervalKey(ordered[l]) != IntervalKey(ordered[k])
    ensures i < |intervals| && intervals[i].manager == m && intervals[i] == Sort(GroupOf(intervals, m), IntervalKey)[k]
    ensures forall j | 0 <= j < i && intervals[j].manager == m :: IntervalKey(intervals[j]) != IntervalKey(intervals[i])
  {
    var group := GroupOf(intervals, m);
    var ordered := Sort(group, IntervalKey);
    var K := IntervalKey(ordered[k]);
    var p := (y: Interval) => y.manager == m && IntervalKey(y) == K;
    SortIsOrdered(group, IntervalKey);
    assert ordered[k] in group;
    SortIsStable(group, IntervalKey, p, K);
    ThoseOfGroup(intervals, m, p);
    i := FirstAgrees(ordered, intervals, p, k);
  }

  // The first of the ordered group that reaches the instant is the leader there.
  lemma FirstReaching(intervals: seq<Interval>, m: ManagerIdentity, t: real, k: nat) returns (i: nat)
    requires var ordered := Sort(GroupOf(intervals, m), IntervalKey);
             k < |ordered| && ordered[k].start <= t <= ordered[k].end && forall l | 0 <= l < k :: ordered[l].end < t
    ensures LeadsAt(intervals, m, t, i) && intervals[i] == Sort(GroupOf(intervals, m), IntervalKey)[k]
  {
    var group := GroupOf(intervals, m);
    var ordered := Sort(group, IntervalKey);
    SortIsOrdered(group, IntervalKey);
    i := PlaceOf(intervals, m, k);
    forall j | 0 <= j < |intervals| && j != i && intervals[j].manager == m && intervals[j].start <= t <= intervals[j].end
      ensures Precedes(IntervalKey(ordered[k]), IntervalKey(intervals[j]))
    {
      assert intervals[j] in ordered;
      var l :| 0 <= l < |ordered| && ordered[l] == intervals[j];
      assert k <= l;
    }
  }

  // The chain of a single instant is the first interval that reaches it.
  lemma ChainOfInstant(ordered: seq<Interval>, t: real) returns (k: nat)
    requires SortedBy(ordered, IntervalKey) && At(ordered, t)
    ensures k < |ordered| && ordered[k].start <= t <= ordered[k].end && forall l | 0 <= l < k :: ordered[l].end < t
    ensures BusyChain(ordered, t, t) <==> ordered[k].busy
  {
    var h :| 0 <= h < |ordered| && ordered[h].start <= t <= ordered[h].end;
    k := 0;
    while ordered[k].end < t
      invariant k <= h
      invariant forall l | 0 <= l < k :: ordered[l].end < t
      decreases h - k
    {
      k := k + 1;
    }
    if k < h {
      assert Precedes(IntervalKey(ordered[k]), IntervalKey(ordered[h]));
    }
  }

  // At a single instant the chain is its leader.
  lemma BusyAtInstant(intervals: seq<Interval>, m: ManagerIdentity, t: real)
    requires Forward(intervals) && Explains(intervals, m, t, t)
    ensures exists i :: LeadsAt(intervals, m, t, i)
                        && (intervals[i].busy <==> BusyChain(Sort(GroupOf(intervals, m), IntervalKey), t, t))
  {
    hide LeadsAt, NextOverlaps, PairwiseApart, SortedBy, BusyChain, At;
    OrderedGroup(intervals, m, t, t);
    var k := ChainOfInstant(Sort(GroupOf(intervals, m), IntervalKey), t);
    var i := FirstReaching(intervals, m, t, k);
  }

  // The busy intervals of the window, counted in the group or among all intervals.
  lemma BusyOfManager(intervals: seq<Interval>, manager: ManagerIdentity, start: real, end: real)
    requires Forward(intervals) && start < end && Explains(intervals, manager, start, end)
    ensures BusyChain(Sort(GroupOf(intervals, manager), IntervalKey), start, end) <==>
            exists y :: y in intervals && y.manager == manager && y.busy && y.end >= start && y.start < end
  {
    hide Explains, BusyChain, Covers, NextOverlaps, SortedBy, PairwiseApart;
    OrderedGroup(intervals, manager, start, end);
    var ordered := Sort(GroupOf(intervals, manager), IntervalKey);
    BusyInside(ordered, start, end);
    if y :| y in intervals && y.manager == manager && y.busy && y.end >= start && y.start < end {
      assert y in ordered;
      var k :| 0 <= k < |ordered| && ordered[k] == y;
    }
    if k :| 0 <= k < |ordered| && ordered[k].busy && ordered[k].end >= start && ordered[k].start < end {
      assert ordered[k] in ordered;
    }
  }

  lemma OrderedGroup(intervals: seq<Interval>, manager: ManagerIdentity, start: real, end: real)
    requires Forward(intervals)
    ensures var ordered := Sort(GroupOf(intervals, manager), IntervalKey);
            && SortedBy(ordered, IntervalKey) && Forward(ordered)
            && (forall y :: y in ordered <==> y in intervals && y.manager == manager)
            && (Explains(intervals, manager, start, end) <==> !NextOverlaps(ordered) && Covers(ordered, start, end))
  {
    var group := GroupOf(intervals, manager);
    var ordered := Sort(group, IntervalKey);
    SortIsOrdered(group, IntervalKey);
    ApartSort(group);
    forall i | 0 <= i < |ordered|
      ensures ordered[i].start <= ordered[i].end
    {
      assert ordered[i] in group;
    }
    NeighboursDecide(ordered);
    SameMembersSameCover(group, ordered, start, end);
  }

  lemma ExplainerIsListed(intervals: seq<Interval>, m: ManagerIdentity, start: real, end: real)
    requires start <= end && Explains(intervals, m, start, end)
    ensures m in Managers(intervals)
  {
    var group := GroupOf(intervals, m);
    assert At(group, start);
    var k :| 0 <= k < |group| && group[k].start <= start <= group[k].end;
    assert group[k] in intervals;
  }

  // Prove one gap-free causal chain over the window, else return nothing.
  method CausalIntervalCause(intervals: seq<Interval>, start: real, end: real, endpoint: ManagerIdentity)
    returns (cause: Option<Cause>, ghost manager: ManagerIdentity)
    requires Forward(intervals)
    ensures cause.Some? <==> start <= end && exists m :: (endpoint.None? || m == endpoint) && OwnChain(intervals, m, start, end)
    ensures cause.Some? ==> (endpoint.None? || manager == endpoint) && OwnChain(intervals, manager, start, end)
    // it is the cause of the first eligible manager whose own intervals explain the window
    ensures cause.Some? ==> FirstExplains(intervals, manager, start, end, endpoint)
    // at a single instant, busy exactly if the first interval there is
    ensures cause.Some? && start == end ==>
              exists i :: LeadsAt(intervals, manager, start, i) && (cause == Some(BusyManagerDelay) <==> intervals[i].busy)
    // in a window with an inside, busy exactly if any interval of it is that begins before the end
    ensures cause.Some? && start < end ==>
              (cause == Some(BusyManagerDelay) <==>
                 exists y :: y in intervals && y.manager == manager && y.busy && y.end >= start && y.start < end)
  {
    hide Explains, PairwiseApart, Covers, SortedBy, At, NextOverlaps, BusyChain, OwnChain, FirstExplains, LeadsAt;
    manager := None;
    if end < start {
      return None, manager;
    }
    var managers := Managers(intervals);
    for k := 0 to |managers|
      invariant forall j | 0 <= j < k && Eligible(managers[j], endpoint) :: !Explains(intervals, managers[j], start, end)
    {
      var identity := managers[k];
      manager := identity;
      if !Eligible(identity, endpoint) {
        continue;
      }
      var group := GroupOf(intervals, identity);
      var ordered := Sort(group, IntervalKey);
      OrderedGroup(intervals, identity, start, end);
      if NextOverlaps(ordered) {
        continue;
      }
      var covered, busy := Chain(ordered, start, end);
      if covered {
        OwnChainExactly(intervals, identity, start, end);
        FirstOfManagers(intervals, k, start, end, endpoint);
        if start < end {
          BusyOfManager(intervals, identity, start, end);
        } else {
          BusyAtInstant(intervals, identity, start);
        }
        cause := Some(if busy then BusyManagerDelay else IdleOrAbsentManagerDelay);
        return;
      }
    }
    forall m | (endpoint.None? || m == endpoint) && OwnChain(intervals, m, start, end)
      ensures false
    {
      OwnChainExactly(intervals, m, start, end);
      ExplainerIsListed(intervals, m, start, end);
    }
    cause := None;
  }

  /******* Delivery coverage *******/

  // A committed scan record; a field that is missing or of the wrong type is None.
  datatype Scan = Scan(recordId: string, observed: real, begin: Option<real>, end: Option<real>, sequence: Option<int>,
                       pid: Option<int>, created: Option<string>, output: Option<string>,
                       cursorComplete: bool, sourceComplete: bool, integrityError: bool,
                       sourcePath: string, sourceGeneration: string, byteEnd: int, previous: Option<string>)

  // What the watcher's own cursor says of a source.
  datatype Drained = Drained(generation: string, partialBytes: int, error: bool, offset: int)

  function ScanKey(s: Scan): Key {
    (if s.begin.Some? then s.begin.value else s.observed, 0.0)
  }

  predicate Sourced(s: Scan, trusted: Option<map<string, Drained>>) {
    && trusted.Some?
    && s.sourcePath in trusted.value
    && var d := trusted.value[s.sourcePath];
       d.generation == s.sourceGeneration && d.partialBytes == 0 && !d.error && d.offset >= s.byteEnd
  }

  predicate ValidScan(s: Scan, trusted: Option<map<string, Drained>>) {
    && s.begin.Some? && s.end.Some? && s.begin.value <= s.end.value <= s.observed
    && s.sequence.Some? && s.pid.Some? && s.created.Some? && s.output.Some?
    && s.cursorComplete && s.sourceComplete && !s.integrityError
    && Sourced(s, trusted)
  }

  // Two successive scans of one process, one output root, and one source generation.
  predicate Linked(a: Scan, b: Scan) {
    && a.sequence.Some? && b.sequence == Some(a.sequence.value + 1)
    && b.previous == Some(a.recordId)
    && a.pid == b.pid && a.created == b.created && a.output == b.output
    && a.sourcePath == b.sourcePath && a.sourceGeneration == b.sourceGeneration
  }

  // The scans form one chain.
  ghost predicate Chained(scans: seq<Scan>, trusted: Option<map<string, Drained>>) {
    && (forall k | 0 <= k < |scans| :: ValidScan(scans[k], trusted))
    && (forall k | 0 < k < |scans| :: Linked(scans[k - 1], scans[k]))
  }

  ghost predicate ScannedBy(s: Scan, t: real) {
    s.begin.Some? && s.end.Some? && s.begin.value <= t <= s.end.value
  }

  ghost predicate Scanned(scans: seq<Scan>, t: real) {
    exists k :: 0 <= k < |scans| && ScannedBy(scans[k], t)
  }

  // Every instant from the signal's observation to the deadline was scanned.
  ghost predicate WindowScanned(scans: seq<Scan>, from: real, to: real) {
    forall t: real | from <= t <= to :: Scanned(scans, t)
  }

  // What a proof of complete delivery coverage is.
  ghost predicate CoverageProof(scans: seq<Scan>, trusted: Option<map<string, Drained>>, n: nat, from: real, deadline: real) {
    && 0 < n <= |scans|
    && Chained(scans[..n], trusted)
    && WindowScanned(scans[..n], from, if deadline < from then from else deadline)
  }

  // A scan that counts: whole, ordered in time, and drained by the watcher's own cursor.
  ghost predicate Sound(s: Scan, trusted: Option<map<string, Drained>>) {
    && (match (s.begin, s.end) case (Some(b), Some(e)) => b <= e && e <= s.observed case _ => false)
    && s.sequence.Some? && s.pid.Some? && s.created.Some? && s.output.Some?
    && s.cursorComplete && s.sourceComplete && !s.integrityError
    && (match trusted
        case None => false
        case Some(cursors) =>
          && s.sourcePath in cursors.Keys
          && cursors[s.sourcePath].generation == s.sourceGeneration && s.byteEnd <= cursors[s.sourcePath].offset
          && cursors[s.sourcePath].partialBytes == 0 && !cursors[s.sourcePath].error)
  }

  // The k-th scan after the first one of the same process into the same output from the same source.
  ghost predicate OneRun(first: Scan, s: Scan, k: int) {
    && s.pid == first.pid && s.created == first.created && s.output == first.output
    && s.sourcePath == first.sourcePath && s.sourceGeneration == first.sourceGeneration
    && first.sequence.Some? && s.sequence == Some(first.sequence.value + k)
  }

  // One run of sound scans, each naming the one before it.
  ghost predicate AllOneRun(scans: seq<Scan>, trusted: Option<map<string, Drained>>)
    requires scans != []
  {
    && (forall k | 0 <= k < |scans| :: Sound(scans[k], trusted) && OneRun(scans[0], scans[k], k))
    && (forall k | 0 < k < |scans| :: scans[k].previous == Some(scans[k - 1].recordId))
  }

  // The first n scans are one run and cover every instant of the window.
  ghost predicate Covering(scans: seq<Scan>, trusted: Option<map<string, Drained>>, n: int, from: real, deadline: real) {
    && 0 < n <= |scans|
    && AllOneRun(scans[..n], trusted)
    && (forall t: real | from <= t && (t <= deadline || t == from) :: Scanned(scans[..n], t))
  }

  lemma {:induction false} ChainedIsOneRun(scans: seq<Scan>, trusted: Option<map<string, Drained>>)
    requires scans != []
    ensures Chained(scans, trusted) <==> AllOneRun(scans, trusted)
  {
    var init, n := scans[..|scans| - 1], |scans| - 1;
    if n > 0 {
      ChainedIsOneRun(init, trusted);
      ValidIsSound(scans[n], trusted);
      if Chained(scans, trusted) {
        assert forall k | 0 <= k < n :: init[k] == scans[k];
        assert Chained(init, trusted);
        assert Linked(scans[n - 1], scans[n]) && OneRun(scans[0], init[n - 1], n - 1);
      }
      if AllOneRun(scans, trusted) {
        assert AllOneRun(init, trusted);
        assert OneRun(scans[0], scans[n - 1], n - 1) && OneRun(scans[0], scans[n], n);
        assert forall k | 0 <= k < n :: scans[k] == init[k];
      }
    } else {
      ValidIsSound(scans[0], trusted);
    }
  }

  lemma ValidIsSound(s: Scan, trusted: Option<map<string, Drained>>)
    ensures ValidScan(s, trusted) <==> Sound(s, trusted)
  {
  }

  // What the loop establishes is what a covering chain of scans is.
  lemma ProofIsCovering(scans: seq<Scan>, trusted: Option<map<string, Drained>>, n: nat, from: real, deadline: real)
    ensures CoverageProof(scans, trusted, n, from, deadline) <==> Covering(scans, trusted, n, from, deadline)
  {
    if 0 < n <= |scans| {
      ChainedIsOneRun(scans[..n], trusted);
    }
  }

  // The order of the scans: by begin, else by observation, and by their place among those of one moment.
  lemma ScansInOrder(items: seq<Scan>, p: Scan -> bool, moment: real)
    requires forall s | p(s) :: (match s.begin case Some(b) => b case None => s.observed) == moment
    ensures var scans := Sort(items, ScanKey);
            && multiset(scans) == multiset(items) && Those(scans, p) == Those(items, p)
            && forall i, j | 0 <= i < j < |scans| ::
                 (match scans[i].begin case Some(b) => b case None => scans[i].observed)
                 <= (match scans[j].begin case Some(b) => b case None => scans[j].observed)
  {
    SortIsOrdered(items, ScanKey);
    SortIsStable(items, ScanKey, p, (moment, 0.0));
    var scans := Sort(items, ScanKey);
    forall i, j | 0 <= i < j < |scans|
      ensures ScanKey(scans[i]).0 <= ScanKey(scans[j]).0
    {
      assert Precedes(ScanKey(scans[i]), ScanKey(scans[j]));
    }
  }

  // Everything before n reaches at most the cursor, and everything from n on starts after t.
  lemma BareInstant(scans: seq<Scan>, n: nat, k: nat, t: real)
    requires SortedBy(scans, ScanKey) && n <= k <= |scans|
    requires forall j | 0 <= j < n && scans[j].end.Some? :: scans[j].end.value < t
    requires n < k ==> scans[n].begin.Some? && t < scans[n].begin.value
    ensures !Scanned(scans[..k], t)
  {
    forall j | 0 <= j < k
      ensures !ScannedBy(scans[j], t)
    {
      if n < j {
        assert Precedes(ScanKey(scans[n]), ScanKey(scans[j]));
      }
    }
  }

  // The scans before n leave something of the window uncovered.
  ghost predicate Uncovered(scans: seq<Scan>, n: nat, cursor: real, from: real, deadline: real, consumed: bool)
    requires n <= |scans|
  {
    if consumed then cursor < deadline && from <= cursor && forall j | 0 <= j < n && scans[j].end.Some? :: scans[j].end.value <= cursor
    else cursor == from && forall j | 0 <= j < n && scans[j].end.Some? :: scans[j].end.value < from
  }

  lemma GapRefutes(scans: seq<Scan>, trusted: Option<map<string, Drained>>, n: nat, k: nat,
                   cursor: real, from: real, deadline: real, consumed: bool)
    requires SortedBy(scans, ScanKey) && n <= k <= |scans| && Uncovered(scans, n, cursor, from, deadline, consumed)
    requires n < k ==> scans[n].begin.Some? && scans[n].begin.value > cursor
    ensures !CoverageProof(scans, trusted, k, from, deadline)
  {
    var to := if deadline < from then from else deadline;
    var top := if n < k && scans[n].begin.value < to then scans[n].begin.value else to;
    var t := if consumed then (cursor + top) / 2.0 else from;
    BareInstant(scans, n, k, t);
    assert from <= t <= to;
  }

  lemma BrokenRefutes(scans: seq<Scan>, trusted: Option<map<string, Drained>>, n: nat, k: nat, from: real, deadline: real)
    requires n < k <= |scans|
    requires !ValidScan(scans[n], trusted) || (n > 0 && !Linked(scans[n - 1], scans[n]))
    ensures !CoverageProof(scans, trusted, k, from, deadline)
  {
    var part := scans[..k];
    assert part[n] == scans[n] && (n > 0 ==> part[n - 1] == scans[n - 1]);
  }

  lemma EarlierRefuted(scans: seq<Scan>, trusted: Option<map<string, Drained>>, n: nat,
                       cursor: real, from: real, deadline: real, consumed: bool)
    requires SortedBy(scans, ScanKey) && n <= |scans| && Uncovered(scans, n, cursor, from, deadline, consumed)
    ensures !CoverageProof(scans, trusted, n, from, deadline)
  {
    GapRefutes(scans, trusted, n, n, cursor, from, deadline, consumed);
  }

  // Do the committed scans cover the time from the signal to its deadline?
  method CompleteDeliveryCoverage(items: seq<Scan>, from: real, deadline: real, trusted: Option<map<string, Drained>>)
    returns (covered: bool)
    ensures covered <==> exists n :: Covering(Sort(items, ScanKey), trusted, n, from, deadline)
  {
    hide SortedBy, Sourced, Linked, Covering, CoverageProof, Uncovered, WindowScanned, Chained, ScanKey;
    var scans := Sort(items, ScanKey);
    SortIsOrdered(items, ScanKey);
    var cursor := from;
    ghost var consumed := false;
    ScanStarts(scans, trusted, from, deadline);
    for i := 0 to |scans|
      invariant from <= cursor && (!consumed ==> cursor == from)
      invariant Chained(scans[..i], trusted)
      invariant Uncovered(scans, i, cursor, from, deadline, consumed)
      invariant consumed ==> WindowScanned(scans[..i], from, cursor)
      invariant forall k | 0 <= k <= i :: !CoverageProof(scans, trusted, k, from, deadline)
    {
      var scan := scans[i];
      if !ValidScan(scan, trusted) || (i > 0 && !Linked(scans[i - 1], scan)) {
        forall k | i < k <= |scans|
          ensures !CoverageProof(scans, trusted, k, from, deadline)
        {
          BrokenRefutes(scans, trusted, i, k, from, deadline);
        }
        NothingCovers(scans, trusted, from, deadline);
        return false;
      }
      ChainGrows(scans, trusted, i);
      if scan.end.value < cursor {
        WindowKept(scans, i, from, cursor);
        StaysUncovered(scans, i, cursor, from, deadline, consumed);
        EarlierRefuted(scans, trusted, i + 1, cursor, from, deadline, consumed);
        continue;
      }
      if scan.begin.value > cursor {
        forall k | i < k <= |scans|
          ensures !CoverageProof(scans, trusted, k, from, deadline)
        {
          GapRefutes(scans, trusted, i, k, cursor, from, deadline, consumed);
        }
        NothingCovers(scans, trusted, from, deadline);
        return false;
      }
      WindowGrows(scans, i, from, cursor, consumed);
      ghost var before, already := cursor, consumed;
      cursor := if cursor < scan.end.value then scan.end.value else cursor;
      consumed := true;
      if cursor >= deadline {
        Proven(scans, trusted, i, from, deadline);
        return true;
      }
      UncoveredAdvances(scans, i, before, from, deadline, already);
      EarlierRefuted(scans, trusted, i + 1, cursor, from, deadline, consumed);
    }
    NothingCovers(scans, trusted, from, deadline);
    covered := false;
  }

  lemma ScanStarts(scans: seq<Scan>, trusted: Option<map<string, Drained>>, from: real, deadline: real)
    ensures Chained(scans[..0], trusted) && Uncovered(scans, 0, from, from, deadline, false)
    ensures !CoverageProof(scans, trusted, 0, from, deadline)
  {
  }

  lemma NothingCovers(scans: seq<Scan>, trusted: Option<map<string, Drained>>, from: real, deadline: real)
    requires forall k | 0 <= k <= |scans| :: !CoverageProof(scans, trusted, k, from, deadline)
    ensures forall n :: !Covering(scans, trusted, n, from, deadline)
  {
    forall n: nat
      ensures !Covering(scans, trusted, n, from, deadline)
    {
      ProofIsCovering(scans, trusted, n, from, deadline);
    }
  }

  lemma StaysUncovered(scans: seq<Scan>, i: nat, cursor: real, from: real, deadline: real, consumed: bool)
    requires i < |scans| && Uncovered(scans, i, cursor, from, deadline, consumed)
    requires scans[i].end.Some? && scans[i].end.value < cursor
    ensures Uncovered(scans, i + 1, cursor, from, deadline, consumed)
  {
  }

  lemma UncoveredAdvances(scans: seq<Scan>, i: nat, cursor: real, from: real, deadline: real, consumed: bool)
    requires i < |scans| && Uncovered(scans, i, cursor, from, deadline, consumed) && from <= cursor
    requires scans[i].end.Some? && cursor <= scans[i].end.value < deadline
    ensures Uncovered(scans, i + 1, scans[i].end.value, from, deadline, true)
  {
  }

  lemma Proven(scans: seq<Scan>, trusted: Option<map<string, Drained>>, i: nat, from: real, deadline: real)
    requires i < |scans| && Chained(scans[..i + 1], trusted)
    requires scans[i].end.Some? && from <= scans[i].end.value && deadline <= scans[i].end.value
    requires WindowScanned(scans[..i + 1], from, scans[i].end.value)
    ensures Covering(scans, trusted, i + 1, from, deadline)
  {
    ProofIsCovering(scans, trusted, i + 1, from, deadline);
  }

  lemma ChainGrows(scans: seq<Scan>, trusted: Option<map<string, Drained>>, i: nat)
    requires i < |scans| && Chained(scans[..i], trusted) && ValidScan(scans[i], trusted)
    requires i > 0 ==> Linked(scans[i - 1], scans[i])
    ensures Chained(scans[..i + 1], trusted)
  {
    var part, next := scans[..i], scans[..i + 1];
    assert forall k | 0 <= k < i :: next[k] == part[k];
  }

  lemma WindowKept(scans: seq<Scan>, i: nat, from: real, cursor: real)
    requires i < |scans|
    ensures WindowScanned(scans[..i], from, cursor) ==> WindowScanned(scans[..i + 1], from, cursor)
  {
    var part, next := scans[..i], scans[..i + 1];
    forall t: real | Scanned(part, t)
      ensures Scanned(next, t)
    {
      var k :| 0 <= k < i && ScannedBy(part[k], t);
      assert ScannedBy(next[k], t);
    }
  }

  lemma WindowGrows(scans: seq<Scan>, i: nat, from: real, cursor: real, consumed: bool)
    requires i < |scans| && scans[i].begin.Some? && scans[i].end.Some? && scans[i].begin.value <= cursor <= scans[i].end.value
    requires if consumed then WindowScanned(scans[..i], from, cursor) else cursor == from
    ensures WindowScanned(scans[..i + 1], from, scans[i].end.value)
  {
    var next := scans[..i + 1];
    forall t: real | from <= t <= scans[i].end.value
      ensures Scanned(next, t)
    {
      if t < cursor {
        var part := scans[..i];
        assert Scanned(part, t);
        var k :| 0 <= k < i && ScannedBy(part[k], t);
        assert ScannedBy(next[k], t);
      } else {
        assert ScannedBy(next[i], t);
      }
    }
  }
}
