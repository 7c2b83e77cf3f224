/**
 The ready-node scheduler of the live matrix (examples/v2_live_matrix.py).

 The clock, the order in which running coordinates finish, and what a coordinate
 reports are arbitrary functions of the step at which they are asked.
 */
module Scheduler {
  import opened Common
  import Coordinates = CoordinateGraph

  type Key = string

  type Resource = string

  datatype Work = Work(provider: string, exclusive: seq<Resource>, deps: seq<Key>, digest: Coordinates.Digest)

  datatype Verdict = Pass | GapNativeMacos | GapNativeLinux | Fail | Error | BlockedDependency | BudgetExhausted

  datatype Row = Row(verdict: Verdict, digest: Coordinates.Digest, failedDeps: set<Key>, missing: seq<Key>)

  const MAXIMUM := 2

  const MAXIMUM_BUDGET := 14400.0

  predicate Successful(v: Verdict) {
    v == Pass || v == GapNativeMacos || v == GapNativeLinux
  }

  // A verdict that only a coordinate that was run can have.
  ghost predicate Collected(v: Verdict) {
    v != BlockedDependency && v != BudgetExhausted
  }

  function ResourcesOf(w: Work): set<Resource> {
    {"provider-home:" + w.provider} + set i | 0 <= i < |w.exclusive| :: w.exclusive[i]
  }

  function DepSet(w: Work): set<Key> {
    set i | 0 <= i < |w.deps| :: w.deps[i]
  }

  /******* One state of the scheduler *******/

  datatype State = State(pending: set<Key>, running: map<Key, set<Resource>>, held: set<Resource>, rows: map<Key, Row>,
                         started: seq<Key>)

  ghost predicate Partitioned(work: map<Key, Work>, retained: map<Key, Row>, st: State) {
    && st.pending <= work.Keys && st.running.Keys <= work.Keys
    && st.pending !! st.running.Keys && st.pending !! st.rows.Keys && st.running.Keys !! st.rows.Keys
    && work.Keys <= st.pending + st.running.Keys + st.rows.Keys
    && st.rows.Keys <= retained.Keys + work.Keys
    && Kept(retained, st.rows)
  }

  ghost predicate Exclusive(work: map<Key, Work>, st: State) {
    && |st.running| <= MAXIMUM
    && (forall k | k in st.running :: k in work && st.running[k] == ResourcesOf(work[k]))
    && (forall j, k | j in st.running && k in st.running && j != k :: st.running[j] !! st.running[k])
    && (forall r :: r in st.held <==> exists k :: k in st.running && r in st.running[k])
  }

  // Whatever was started had a row for each of its dependencies by then.
  ghost predicate DepsFirst(work: map<Key, Work>, st: State) {
    forall k | k in st.started :: k in work && DepSet(work[k]) <= st.rows.Keys
  }

  // Each key was started at most once, and exactly the running and the collected ones were.
  ghost predicate StartedOnce(retained: map<Key, Row>, st: State) {
    && (forall i, j | 0 <= i < j < |st.started| :: st.started[i] != st.started[j])
    && (forall k :: k in st.started <==>
          k in st.running || (k in st.rows && k !in retained && Collected(st.rows[k].verdict)))
  }

  // The dependencies whose evidence did not succeed.
  ghost function FailedOf(work: map<Key, Work>, rows: map<Key, Row>, k: Key): set<Key>
    requires k in work
  {
    set d | d in DepSet(work[k]) && d in rows && !Successful(rows[d].verdict)
  }

  // A new row carries its coordinate's digest, and a collected one tells exactly which of its
  // dependencies failed.
  ghost predicate Labelled(work: map<Key, Work>, retained: map<Key, Row>, rows: map<Key, Row>) {
    forall k | k in rows && k !in retained ::
      && k in work && rows[k].digest == work[k].digest && Plain(rows[k])
      && (Collected(rows[k].verdict) ==> DepSet(work[k]) <= rows.Keys && rows[k].failedDeps == FailedOf(work, rows, k))
  }

  // Only a blocked row names missing dependencies, and only one of a coordinate that ran names failed ones.
  ghost predicate Plain(row: Row) {
    && (row.missing != [] ==> row.verdict == BlockedDependency)
    && (row.failedDeps != {} ==> row.verdict != BlockedDependency && row.verdict != BudgetExhausted)
  }

  lemma LabelledGrows(work: map<Key, Work>, retained: map<Key, Row>, rows: map<Key, Row>, k: Key, row: Row)
    requires Labelled(work, retained, rows) && k !in rows && k in work && row.digest == work[k].digest && Plain(row)
    requires Collected(row.verdict) ==> DepSet(work[k]) <= rows.Keys && row.failedDeps == FailedOf(work, rows, k)
    ensures Labelled(work, retained, rows[k := row])
  {
    hide DepSet, Collected, Successful;
    var after := rows[k := row];
    forall j | j in after && j !in retained && Collected(after[j].verdict)
      ensures DepSet(work[j]) <= after.Keys && after[j].failedDeps == FailedOf(work, after, j)
    {
      assert DepSet(work[j]) <= rows.Keys;
      assert FailedOf(work, after, j) == FailedOf(work, rows, j);
    }
  }

  ghost predicate Safe(work: map<Key, Work>, retained: map<Key, Row>, st: State) {
    && Partitioned(work, retained, st) && Exclusive(work, st) && DepsFirst(work, st)
    && StartedOnce(retained, st) && Labelled(work, retained, st.rows)
  }

  // Rows are only ever added.
  ghost predicate Kept(before: map<Key, Row>, after: map<Key, Row>) {
    before.Keys <= after.Keys && forall k | k in before :: after[k] == before[k]
  }

  function Started(st: State, work: map<Key, Work>, k: Key): State
    requires k in work
  {
    State(st.pending - {k}, st.running[k := ResourcesOf(work[k])], st.held + ResourcesOf(work[k]), st.rows, st.started + [k])
  }

  function Finished(st: State, k: Key, row: Row): State
    requires k in st.running
  {
    State(st.pending, st.running - {k}, st.held - st.running[k], st.rows[k := row], st.started)
  }

  function Dropped(st: State, k: Key, row: Row): State {
    State(st.pending - {k}, st.running, st.held, st.rows[k := row], st.started)
  }

  lemma StartKeepsExclusive(work: map<Key, Work>, st: State, k: Key)
    requires Exclusive(work, st) && k in work && k !in st.running && |st.running| < MAXIMUM
    requires ResourcesOf(work[k]) !! st.held
    ensures Exclusive(work, Started(st, work, k))
  {
    hide ResourcesOf;
    var after := Started(st, work, k);
    assert after.running.Keys == st.running.Keys + {k};
    assert |after.running.Keys| == |st.running.Keys| + 1;
    forall r
      ensures r in after.held <==> exists j :: j in after.running && r in after.running[j]
    {
      if r in ResourcesOf(work[k]) {
        assert k in after.running && r in after.running[k];
      } else if exists j :: j in st.running && r in st.running[j] {
        var j :| j in st.running && r in st.running[j];
        assert j in after.running && r in after.running[j];
      }
    }
    forall i | i in st.running
      ensures st.running[i] !! ResourcesOf(work[k])
    {
      assert forall r | r in st.running[i] :: r in st.held;
    }
  }

  lemma StartKeepsOnce(retained: map<Key, Row>, st: State, work: map<Key, Work>, k: Key)
    requires StartedOnce(retained, st) && k in work && k !in st.running && k !in st.rows
    ensures StartedOnce(retained, Started(st, work, k))
  {
    hide ResourcesOf;
    var after := Started(st, work, k);
    assert k !in st.started;
    assert forall j :: j in after.started <==> j in st.started || j == k;
  }

  lemma StartKeepsPartition(work: map<Key, Work>, retained: map<Key, Row>, st: State, k: Key)
    requires Partitioned(work, retained, st) && k in st.pending
    ensures Partitioned(work, retained, Started(st, work, k)) && k !in st.running && k !in st.rows
    ensures Started(st, work, k).rows == st.rows
  {
    hide ResourcesOf, Kept;
    assert Started(st, work, k).running.Keys == st.running.Keys + {k};
  }

  lemma StartKeepsDepsFirst(work: map<Key, Work>, st: State, k: Key)
    requires DepsFirst(work, st) && k in work && DepSet(work[k]) <= st.rows.Keys
    ensures DepsFirst(work, Started(st, work, k))
  {
    hide ResourcesOf, DepSet;
    assert forall j :: j in Started(st, work, k).started <==> j in st.started || j == k;
  }

  lemma StartIsSafe(work: map<Key, Work>, retained: map<Key, Row>, st: State, k: Key)
    requires Safe(work, retained, st) && k in st.pending && |st.running| < MAXIMUM
    requires k in work && DepSet(work[k]) <= st.rows.Keys && ResourcesOf(work[k]) !! st.held
    ensures Safe(work, retained, Started(st, work, k))
  {
    hide ResourcesOf, DepSet, Exclusive, StartedOnce, Partitioned, DepsFirst, Started;
    StartKeepsPartition(work, retained, st, k);
    StartKeepsExclusive(work, st, k);
    StartKeepsDepsFirst(work, st, k);
    StartKeepsOnce(retained, st, work, k);
  }

  lemma FinishKeepsExclusive(work: map<Key, Work>, st: State, k: Key, row: Row)
    requires Exclusive(work, st) && k in st.running
    ensures Exclusive(work, Finished(st, k, row))
  {
    hide ResourcesOf;
    var after := Finished(st, k, row);
    assert after.running.Keys == st.running.Keys - {k};
    assert |after.running.Keys| == |st.running.Keys| - 1;
    forall r
      ensures r in after.held <==> exists j :: j in after.running && r in after.running[j]
    {
      if r in after.held {
        var j :| j in st.running && r in st.running[j];
        assert j in after.running && r in after.running[j];
      }
      if exists j :: j in after.running && r in after.running[j] {
        var j :| j in after.running && r in after.running[j];
        assert j in st.running && r in st.running[j] && st.running[j] !! st.running[k];
      }
    }
  }

  lemma RowAddedKeepsRows(before: map<Key, Row>, k: Key, row: Row)
    requires k !in before
    ensures Kept(before, before[k := row])
    ensures before[k := row].Keys == before.Keys + {k}
  {
  }

  lemma FinishKeepsPartition(work: map<Key, Work>, retained: map<Key, Row>, st: State, k: Key, row: Row)
    requires Partitioned(work, retained, st) && k in st.running
    ensures Partitioned(work, retained, Finished(st, k, row)) && k !in st.rows && k !in retained
    ensures Kept(st.rows, Finished(st, k, row).rows)
  {
    RowAddedKeepsRows(st.rows, k, row);
    assert Finished(st, k, row).running.Keys == st.running.Keys - {k};
  }

  lemma FinishKeepsRest(work: map<Key, Work>, retained: map<Key, Row>, st: State, k: Key, row: Row)
    requires StartedOnce(retained, st) && DepsFirst(work, st) && Collected(row.verdict)
    requires k in st.running && k !in st.rows && k !in retained
    ensures StartedOnce(retained, Finished(st, k, row)) && DepsFirst(work, Finished(st, k, row))
  {
    hide DepSet, Collected;
    var after := Finished(st, k, row);
    forall j
      ensures j in after.started <==>
                j in after.running || (j in after.rows && j !in retained && Collected(after.rows[j].verdict))
    {
      assert j in st.started <==> j in st.running || (j in st.rows && j !in retained && Collected(st.rows[j].verdict));
    }
  }

  lemma FinishIsSafe(work: map<Key, Work>, retained: map<Key, Row>, st: State, k: Key, row: Row)
    requires Safe(work, retained, st) && k in st.running && Collected(row.verdict) && Plain(row)
    requires k in work && row.digest == work[k].digest && row.failedDeps == FailedOf(work, st.rows, k)
    ensures Safe(work, retained, Finished(st, k, row))
    ensures Kept(st.rows, Finished(st, k, row).rows)
  {
    hide ResourcesOf, DepSet, Exclusive, Partitioned, StartedOnce, DepsFirst, Kept, Collected, Labelled, FailedOf;
    RunningHasDeps(work, retained, st, k);
    FinishKeepsPartition(work, retained, st, k, row);
    LabelledGrows(work, retained, st.rows, k, row);
    FinishKeepsExclusive(work, st, k, row);
    FinishKeepsRest(work, retained, st, k, row);
  }

  lemma DropKeepsPartition(work: map<Key, Work>, retained: map<Key, Row>, st: State, k: Key, row: Row)
    requires Partitioned(work, retained, st) && k in st.pending
    ensures Partitioned(work, retained, Dropped(st, k, row)) && k !in st.rows
  {
    RowAddedKeepsRows(st.rows, k, row);
  }

  lemma DropKeepsRest(work: map<Key, Work>, retained: map<Key, Row>, st: State, k: Key, row: Row)
    requires StartedOnce(retained, st) && DepsFirst(work, st) && k !in st.rows && !Collected(row.verdict)
    ensures StartedOnce(retained, Dropped(st, k, row)) && DepsFirst(work, Dropped(st, k, row))
  {
    hide DepSet;
    var after := Dropped(st, k, row);
    forall j
      ensures j in after.started <==>
                j in after.running || (j in after.rows && j !in retained && Collected(after.rows[j].verdict))
    {
      assert j in st.started <==> j in st.running || (j in st.rows && j !in retained && Collected(st.rows[j].verdict));
    }
  }

  lemma DropIsSafe(work: map<Key, Work>, retained: map<Key, Row>, st: State, k: Key, row: Row)
    requires Safe(work, retained, st) && k in st.pending && !Collected(row.verdict) && Plain(row)
    requires k in work && row.digest == work[k].digest
    ensures Safe(work, retained, Dropped(st, k, row))
    ensures Kept(st.rows, Dropped(st, k, row).rows)
  {
    hide ResourcesOf, DepSet, Partitioned, Exclusive, Kept, StartedOnce, DepsFirst, Collected, Labelled, FailedOf;
    LabelledGrows(work, retained, st.rows, k, row) by {
      PendingHasNoRow(work, retained, st, k);
    }
    DropKeepsPartition(work, retained, st, k, row);
    DropKeepsRest(work, retained, st, k, row);
    RowAddedKeepsRows(st.rows, k, row);
    ExclusiveIgnoresRows(work, st, Dropped(st, k, row));
  }

  lemma ExclusiveIgnoresRows(work: map<Key, Work>, st: State, other: State)
    requires Exclusive(work, st) && other.running == st.running && other.held == st.held
    ensures Exclusive(work, other)
  {
  }

  /******* What can never start *******/

  predicate HasMissing(work: map<Key, Work>, rows: map<Key, Row>, k: Key)
    requires k in work
  {
    !(DepSet(work[k]) <= work.Keys + rows.Keys)
  }

  // Coordinates that wait for each other: each has a dependency in the set.
  ghost predicate Stuck(work: map<Key, Work>, retained: map<Key, Row>, s: set<Key>) {
    s <= work.Keys - retained.Keys
    && forall k | k in s :: DepSet(work[k]) * s != {} && !HasMissing(work, retained, k)
  }

  // The coordinate is in some set, and so in the greatest one, of coordinates that wait for each other.
  ghost predicate Waits(work: map<Key, Work>, retained: map<Key, Row>, k: Key) {
    exists s :: Stuck(work, retained, s) && k in s
  }

  ghost predicate StuckPending(work: map<Key, Work>, retained: map<Key, Row>, st: State) {
    forall k | Waits(work, retained, k) :: k in st.pending
  }

  lemma StuckNeverStarts(work: map<Key, Work>, retained: map<Key, Row>, st: State, k: Key)
    requires Safe(work, retained, st) && StuckPending(work, retained, st) && k in st.pending
    requires DepSet(work[k]) <= st.rows.Keys || HasMissing(work, st.rows, k)
    ensures !Waits(work, retained, k)
  {
    assert HasMissing(work, st.rows, k) ==> HasMissing(work, retained, k);
    assert DepSet(work[k]) <= st.rows.Keys ==> DepSet(work[k]) !! st.pending;
    forall s | Stuck(work, retained, s)
      ensures k !in s
    {
      assert forall j | j in s :: Waits(work, retained, j);
    }
  }

  /******* Histories *******/

  // Safe states in which rows are never rewritten from one to the next.
  ghost predicate History(work: map<Key, Work>, retained: map<Key, Row>, trace: seq<State>) {
    && trace != []
    && (forall i | 0 <= i < |trace| :: Safe(work, retained, trace[i]))
    && (forall i | 0 < i < |trace| :: Kept(trace[i - 1].rows, trace[i].rows))
  }

  ghost predicate EndsIn(trace: seq<State>, st: State) {
    trace != [] && trace[|trace| - 1] == st
  }

  lemma HistoryGrows(work: map<Key, Work>, retained: map<Key, Row>, trace: seq<State>, st: State, next: State)
    requires History(work, retained, trace) && EndsIn(trace, st)
    requires Safe(work, retained, next) && Kept(st.rows, next.rows)
    ensures History(work, retained, trace + [next]) && EndsIn(trace + [next], next)
  {
    hide Safe, Kept;
  }

  ghost predicate Lists(order: seq<Key>, work: map<Key, Work>) {
    && (forall i | 0 <= i < |order| :: order[i] in work)
    && (forall k | k in work :: k in order)
  }

  lemma MissingIsFixed(work: map<Key, Work>, retained: map<Key, Row>, st: State, k: Key)
    requires Safe(work, retained, st) && k in work
    ensures HasMissing(work, st.rows, k) <==> HasMissing(work, retained, k)
    ensures work.Keys + st.rows.Keys == work.Keys + retained.Keys
  {
    hide DepSet, Exclusive, DepsFirst, StartedOnce, Labelled, HasMissing;
    assert retained.Keys <= st.rows.Keys <= retained.Keys + work.Keys;
    SamePresence(work, st.rows, retained, k);
  }

  lemma SamePresence(work: map<Key, Work>, rows: map<Key, Row>, others: map<Key, Row>, k: Key)
    requires k in work && others.Keys <= rows.Keys <= others.Keys + work.Keys
    ensures work.Keys + rows.Keys == work.Keys + others.Keys
    ensures HasMissing(work, rows, k) <==> HasMissing(work, others, k)
  {
  }

  lemma ListedIsWork(order: seq<Key>, work: map<Key, Work>, i: nat)
    requires Lists(order, work) && i < |order|
    ensures order[i] in work
  {
  }

  // The state reached and the trail of safe states that led there.
  ghost predicate Reached(work: map<Key, Work>, retained: map<Key, Row>, st: State, trace: seq<State>) {
    Safe(work, retained, st) && History(work, retained, trace) && EndsIn(trace, st)
  }

  lemma DropReaches(work: map<Key, Work>, retained: map<Key, Row>, st: State, trace: seq<State>, k: Key, row: Row)
    requires Reached(work, retained, st, trace) && k in st.pending && !Collected(row.verdict) && Plain(row)
    requires k in work && row.digest == work[k].digest
    ensures Reached(work, retained, Dropped(st, k, row), trace + [Dropped(st, k, row)])
    ensures k !in retained && k !in st.rows && Kept(st.rows, Dropped(st, k, row).rows)
  {
    hide Safe, History, EndsIn, Kept;
    PendingHasNoRow(work, retained, st, k);
    DropIsSafe(work, retained, st, k, row);
    HistoryGrows(work, retained, trace, st, Dropped(st, k, row));
  }

  lemma PendingHasNoRow(work: map<Key, Work>, retained: map<Key, Row>, st: State, k: Key)
    requires Safe(work, retained, st) && k in st.pending
    ensures k !in st.rows && k !in retained && k in work && k !in st.running
  {
  }

  /******* Ending coordinates without running them *******/

  // The dependencies that are not there.
  function MissingOf(deps: seq<Key>, present: set<Key>): (missing: seq<Key>)
    ensures forall d :: d in missing <==> d in deps && d !in present
  {
    if deps == [] then []
    else (if deps[0] in present then [] else [deps[0]]) + MissingOf(deps[1..], present)
  }

  // In the order in which the coordinate lists them.
  lemma {:induction false} MissingInOrder(a: seq<Key>, b: seq<Key>, present: set<Key>)
    ensures MissingOf(a + b, present) == MissingOf(a, present) + MissingOf(b, present)
    ensures forall d :: MissingOf([d], present) == if d in present then [] else [d]
  {
    if a == [] {
      assert a + b == b;
    } else {
      assert (a + b)[1..] == a[1..] + b;
      MissingInOrder(a[1..], b, present);
    }
  }

  // Some rows were added and nothing was started.
  ghost predicate RowsAdded(before: State, after: State, added: set<Key>) {
    && after.rows.Keys == before.rows.Keys + added && Kept(before.rows, after.rows)
    && after.started == before.started
  }

  // These pending coordinates, and no others, were ended with this verdict.
  ghost predicate Ended(before: State, after: State, ended: set<Key>, verdict: Verdict) {
    && ended <= before.pending && after.pending == before.pending - ended
    && after.running == before.running && after.held == before.held
    && RowsAdded(before, after, ended)
    && forall k | k in ended :: k in after.rows && after.rows[k].verdict == verdict
  }

  lemma EndedNothing(st: State, verdict: Verdict)
    ensures Ended(st, st, {}, verdict)
  {
  }

  lemma EndedGrows(before: State, st: State, ended: set<Key>, verdict: Verdict, k: Key, row: Row)
    requires Ended(before, st, ended, verdict) && k in st.pending && k !in st.rows && row.verdict == verdict
    ensures Ended(before, Dropped(st, k, row), ended + {k}, verdict)
  {
  }

  ghost function MissingPending(work: map<Key, Work>, retained: map<Key, Row>, st: State): set<Key> {
    set k | k in st.pending && k in work && HasMissing(work, retained, k)
  }

  // A missing dependency is terminal evidence, and the row names every one of them.
  method ReportMissing(work: map<Key, Work>, ghost retained: map<Key, Row>, order: seq<Key>, st0: State, ghost trace0: seq<State>)
    returns (st: State, ghost trace: seq<State>)
    requires Lists(order, work) && Reached(work, retained, st0, trace0)
    ensures Reached(work, retained, st, trace) && trace0 <= trace
    ensures Ended(st0, st, MissingPending(work, retained, st0), BlockedDependency)
    ensures forall k | k in st0.pending && k !in st.pending ::
              k in work && k in st.rows && st.rows[k].missing == MissingOf(work[k].deps, work.Keys + retained.Keys)
  {
    hide Safe, History, EndsIn, HasMissing, Ended, Kept, DepSet;
    st, trace := st0, trace0;
    ghost var ended: set<Key> := {};
    EndedNothing(st, BlockedDependency);
    for i := 0 to |order|
      invariant Reached(work, retained, st, trace) && trace0 <= trace
      invariant Ended(st0, st, ended, BlockedDependency)
      invariant forall k | k in ended :: k in work && HasMissing(work, retained, k)
      invariant Named(work, retained, st, ended)
      invariant forall j | 0 <= j < i && order[j] in st.pending :: order[j] in work && !HasMissing(work, retained, order[j])
    {
      var k := order[i];
      ListedIsWork(order, work, i);
      MissingIsFixed(work, retained, st, k);
      if k in st.pending && HasMissing(work, st.rows, k) {
        var row := Row(BlockedDependency, work[k].digest, {}, MissingOf(work[k].deps, work.Keys + st.rows.Keys));
        DropReaches(work, retained, st, trace, k, row);
        EndedGrows(st0, st, ended, BlockedDependency, k, row);
        st := Dropped(st, k, row);
        trace := trace + [st];
        ended := ended + {k};
      }
    }
    AllMissingEnded(work, retained, order, st0, st, ended);
  }

  // The rows name exactly the dependencies that are neither coordinates nor retained.
  ghost predicate Named(work: map<Key, Work>, retained: map<Key, Row>, st: State, ended: set<Key>) {
    forall k | k in ended :: k in work && k in st.rows && st.rows[k].missing == MissingOf(work[k].deps, work.Keys + retained.Keys)
  }

  lemma PendingIsWork(work: map<Key, Work>, retained: map<Key, Row>, st: State)
    requires Safe(work, retained, st)
    ensures st.pending <= work.Keys
  {
  }

  lemma NamedAll(work: map<Key, Work>, retained: map<Key, Row>, st: State, ended: set<Key>)
    requires Named(work, retained, st, ended)
    ensures forall k | k in ended ::
              k in work && k in st.rows && st.rows[k].missing == MissingOf(work[k].deps, work.Keys + retained.Keys)
  {
  }

  lemma AllMissingEnded(work: map<Key, Work>, retained: map<Key, Row>, order: seq<Key>, before: State, st: State, ended: set<Key>)
    requires Lists(order, work) && Safe(work, retained, before) && Ended(before, st, ended, BlockedDependency)
    requires forall k | k in ended :: k in work && HasMissing(work, retained, k)
    requires Named(work, retained, st, ended)
    requires forall j | 0 <= j < |order| && order[j] in st.pending :: order[j] in work && !HasMissing(work, retained, order[j])
    ensures ended == MissingPending(work, retained, before)
    ensures forall k | k in before.pending && k !in st.pending ::
              k in work && k in st.rows && st.rows[k].missing == MissingOf(work[k].deps, work.Keys + retained.Keys)
  {
    hide HasMissing, RowsAdded, Safe, Named;
    PendingIsListed(work, retained, order, before);
    PendingIsWork(work, retained, before);
    forall k
      ensures k in ended <==> k in MissingPending(work, retained, before)
    {
    }
    NamedAll(work, retained, st, ended);
  }

  // What comes before the first occurrence of a key.
  ghost function Earlier(order: seq<Key>, k: Key): set<Key> {
    if order == [] || order[0] == k then {} else {order[0]} + Earlier(order[1..], k)
  }

  ghost function KeysIn(order: seq<Key>): set<Key> {
    set k | k in order
  }

  lemma {:induction false} EarlierIsPrefix(order: seq<Key>, i: nat)
    requires i < |order| && order[i] !in order[..i]
    ensures Earlier(order, order[i]) == KeysIn(order[..i])
  {
    if i > 0 {
      assert order[1..][..i - 1] == order[1..i] && order[..i] == [order[0]] + order[1..i];
      EarlierIsPrefix(order[1..], i - 1);
    }
  }

  // A leftover names what has no row yet when its turn comes.
  ghost predicate NamedAt(work: map<Key, Work>, order: seq<Key>, before: State, k: Key, row: Row) {
    k in work && row.missing == MissingOf(work[k].deps, before.rows.Keys + before.pending * Earlier(order, k))
  }

  ghost predicate NamedInTurn(work: map<Key, Work>, order: seq<Key>, before: State, st: State, ended: set<Key>) {
    forall k | k in ended :: k in st.rows && NamedAt(work, order, before, k, st.rows[k])
  }

  // Ends all that is still pending with one verdict.
  method DropPending(work: map<Key, Work>, ghost retained: map<Key, Row>, order: seq<Key>, verdict: Verdict,
                     st0: State, ghost trace0: seq<State>)
    returns (st: State, ghost trace: seq<State>)
    requires Lists(order, work) && Reached(work, retained, st0, trace0) && !Collected(verdict)
    ensures Reached(work, retained, st, trace) && trace0 <= trace
    ensures Ended(st0, st, st0.pending, verdict)
    ensures verdict == BlockedDependency ==> NamedInTurn(work, order, st0, st, st0.pending)
  {
    hide Safe, History, EndsIn, Kept, Ended, NamedInTurn;
    st, trace := st0, trace0;
    ghost var ended: set<Key> := {};
    EndedNothing(st, verdict);
    NoneNamed(work, order, st);
    for i := 0 to |order|
      invariant Reached(work, retained, st, trace) && trace0 <= trace
      invariant Ended(st0, st, ended, verdict)
      invariant ended == st0.pending * KeysIn(order[..i])
      invariant verdict == BlockedDependency ==> NamedInTurn(work, order, st0, st, ended)
    {
      var k := order[i];
      ListedIsWork(order, work, i);
      assert order[..i + 1] == order[..i] + [k];
      EndedFacts(st0, st, ended, verdict);
      if k in st.pending {
        var missing := if verdict == BlockedDependency then MissingOf(work[k].deps, st.rows.Keys) else [];
        var row := Row(verdict, work[k].digest, {}, missing);
        EarlierIsPrefix(order, i);
        DropReaches(work, retained, st, trace, k, row);
        EndedGrows(st0, st, ended, verdict, k, row);
        if verdict == BlockedDependency { NamedGrows(work, order, st0, st, ended, k, row); }
        st := Dropped(st, k, row);
        trace := trace + [st];
        ended := ended + {k};
      }
      assert ended == st0.pending * KeysIn(order[..i + 1]);
    }
    PendingIsListed(work, retained, order, st0);
    assert order[..|order|] == order;
    assert ended == st0.pending;
  }

  lemma NoneNamed(work: map<Key, Work>, order: seq<Key>, st: State)
    ensures NamedInTurn(work, order, st, st, {})
  {
  }

  lemma EndedFacts(before: State, st: State, ended: set<Key>, verdict: Verdict)
    requires Ended(before, st, ended, verdict)
    ensures st.pending == before.pending - ended && st.rows.Keys == before.rows.Keys + ended && ended <= before.pending
  {
  }

  lemma NamedGrows(work: map<Key, Work>, order: seq<Key>, before: State, st: State, ended: set<Key>, k: Key, row: Row)
    requires NamedInTurn(work, order, before, st, ended) && k in work && k !in ended
    requires row.missing == MissingOf(work[k].deps, before.rows.Keys + before.pending * Earlier(order, k))
    ensures NamedInTurn(work, order, before, Dropped(st, k, row), ended + {k})
  {
  }

  // A leftover is reported with nothing missing exactly if each of its dependencies has a row
  // already, or is itself a leftover that was reported before.
  lemma NamesNothingExactly(work: map<Key, Work>, order: seq<Key>, before: State, row: Row, k: Key)
    requires NamedAt(work, order, before, k, row)
    ensures row.missing == [] <==>
            forall d | d in work[k].deps :: d in before.rows || (d in before.pending && d in Earlier(order, k))
  {
    if row.missing != [] {
      assert row.missing[0] in row.missing;
    }
  }

  // The first leftover of a waiting set does name what it waits for.
  lemma FirstLeftoverMissesSomething(work: map<Key, Work>, retained: map<Key, Row>, order: seq<Key>, before: State, row: Row, k: Key)
    requires Safe(work, retained, before) && Stuck(work, retained, before.pending) && k in before.pending
    requires before.pending * Earlier(order, k) == {} && NamedAt(work, order, before, k, row)
    ensures row.missing != []
  {
    hide Exclusive, DepsFirst, StartedOnce, Labelled, HasMissing;
    var d :| d in DepSet(work[k]) * before.pending;
    assert d in work[k].deps && d !in before.rows;
    NamesNothingExactly(work, order, before, row, k);
    assert d !in before.pending * Earlier(order, k);
  }

  /******* What blocked rows name *******/

  // The row of a coordinate that is blocked for a dependency that is neither a coordinate nor retained.
  ghost predicate NamesMissing(work: map<Key, Work>, retained: map<Key, Row>, k: Key, row: Row) {
    k in work && HasMissing(work, retained, k) && row.missing == MissingOf(work[k].deps, work.Keys + retained.Keys)
  }

  // While the run goes on, every blocked row is of this kind.
  ghost predicate NamedSoFar(work: map<Key, Work>, retained: map<Key, Row>, st: State) {
    forall k | k in st.rows && k !in retained && st.rows[k].verdict == BlockedDependency :: NamesMissing(work, retained, k, st.rows[k])
  }

  // At its end every other one is of what was pending when the clock was last read.
  ghost predicate NamedFinally(work: map<Key, Work>, retained: map<Key, Row>, order: seq<Key>, st: State, log: seq<Moment>) {
    forall k | k in st.rows && k !in retained && st.rows[k].verdict == BlockedDependency ::
      || NamesMissing(work, retained, k, st.rows[k])
      || (log != [] && k in log[|log| - 1].st.pending && NamedAt(work, order, log[|log| - 1].st, k, st.rows[k]))
  }

  lemma NamedReports(work: map<Key, Work>, retained: map<Key, Row>, before: State, after: State)
    requires NamedSoFar(work, retained, before)
    requires Ended(before, after, MissingPending(work, retained, before), BlockedDependency)
    requires forall k | k in before.pending && k !in after.pending ::
               k in work && k in after.rows && after.rows[k].missing == MissingOf(work[k].deps, work.Keys + retained.Keys)
    ensures NamedSoFar(work, retained, after)
  {
    hide HasMissing;
  }

  // Rows of other verdicts do not matter.
  lemma NamedKeeps(work: map<Key, Work>, retained: map<Key, Row>, before: State, after: State, added: set<Key>)
    requires NamedSoFar(work, retained, before) && RowsAdded(before, after, added)
    requires forall k | k in added :: k in after.rows && after.rows[k].verdict != BlockedDependency
    ensures NamedSoFar(work, retained, after)
  {
    hide NamesMissing;
  }

  lemma NamedLeaves(work: map<Key, Work>, retained: map<Key, Row>, order: seq<Key>, before: State, after: State, log: seq<Moment>)
    requires NamedSoFar(work, retained, before) && Ended(before, after, before.pending, BlockedDependency)
    requires NamedInTurn(work, order, before, after, before.pending) && log != [] && log[|log| - 1].st == before
    ensures NamedFinally(work, retained, order, after, log)
  {
    hide NamesMissing, NamedAt;
  }

  lemma NamedEnds(work: map<Key, Work>, retained: map<Key, Row>, order: seq<Key>, st: State, log: seq<Moment>)
    requires NamedSoFar(work, retained, st)
    ensures NamedFinally(work, retained, order, st, log)
  {
    hide NamesMissing, NamedAt;
  }

  lemma PendingIsListed(work: map<Key, Work>, retained: map<Key, Row>, order: seq<Key>, st: State)
    requires Lists(order, work) && Safe(work, retained, st)
    ensures forall k | k in st.pending :: k in order
  {
  }

  lemma KeptIsReflexive(rows: map<Key, Row>)
    ensures Kept(rows, rows)
  {
  }

  /******* The clock *******/

  // The clock's successive readings and the deadline.
  datatype Clock = Clock(times: nat -> real, deadline: real) {
    predicate Late(i: nat) {
      times(i) >= deadline
    }
  }

  ghost predicate Undelayed(c: Clock) {
    forall i: nat :: !c.Late(i)
  }

  // What the scheduler reads the clock for, and its state then: the check at the head of a
  // turn, or an attempt to start a coordinate.  Moment i of a log is reading i + 1.
  datatype Moment = Checked(st: State) | Attempted(key: Key, st: State)

  ghost predicate StartedAt(log: seq<Moment>, c: Clock, k: Key) {
    exists i :: 0 <= i < |log| && log[i].Attempted? && log[i].key == k && !c.Late(i + 1)
  }

  ghost predicate ExhaustedAt(log: seq<Moment>, c: Clock, k: Key) {
    exists i :: 0 <= i < |log| && log[i].Checked? && k in log[i].st.pending && c.Late(i + 1)
  }

  // The check found the deadline ahead, the first attempt behind it found it reached, and nothing runs.
  ghost predicate LateFirstAttempt(log: seq<Moment>, c: Clock, i: nat)
    requires i < |log|
  {
    && i > 0 && log[i - 1].Checked? && !c.Late(i)
    && log[i].Attempted? && c.Late(i + 1) && log[i].st.running == map[]
  }

  ghost predicate CaughtAt(log: seq<Moment>, c: Clock, k: Key) {
    exists i :: 0 <= i < |log| && LateFirstAttempt(log, c, i) && k in log[i].st.pending
  }

  // The clock was read in states of the run.
  ghost predicate Witnessed(log: seq<Moment>, trace: seq<State>) {
    forall i | 0 <= i < |log| :: log[i].st in trace
  }

  lemma WitnessedGrows(log: seq<Moment>, trace: seq<State>, more: seq<State>)
    requires Witnessed(log, trace) && trace <= more
    ensures Witnessed(log, more)
    ensures forall m, st | EndsIn(more, st) && (m == Checked(st) || (m.Attempted? && m.st == st)) :: Witnessed(log + [m], more)
  {
    forall i | 0 <= i < |log|
      ensures log[i].st in more
    {
      var j :| 0 <= j < |trace| && trace[j] == log[i].st;
      assert more[j] == trace[j];
    }
  }

  lemma LogGrows(log: seq<Moment>, c: Clock, m: Moment, k: Key)
    ensures var n, next := |log|, log + [m];
            && (StartedAt(next, c, k) <==> StartedAt(log, c, k) || (m.Attempted? && m.key == k && !c.Late(n + 1)))
            && (ExhaustedAt(next, c, k) <==> ExhaustedAt(log, c, k) || (m.Checked? && k in m.st.pending && c.Late(n + 1)))
            && (CaughtAt(next, c, k) <==> CaughtAt(log, c, k) || (LateFirstAttempt(next, c, n) && k in m.st.pending))
  {
    hide CaughtAt, LateFirstAttempt;
    var n, next := |log|, log + [m];
    assert next[n] == m;
    if StartedAt(log, c, k) {
      var i :| 0 <= i < n && log[i].Attempted? && log[i].key == k && !c.Late(i + 1);
      assert next[i] == log[i];
    }
    if ExhaustedAt(log, c, k) {
      var i :| 0 <= i < n && log[i].Checked? && k in log[i].st.pending && c.Late(i + 1);
      assert next[i] == log[i];
    }
    CaughtGrows(log, c, m, k);
  }

  lemma LateStays(log: seq<Moment>, c: Clock, m: Moment, i: nat)
    requires i < |log|
    ensures LateFirstAttempt(log + [m], c, i) <==> LateFirstAttempt(log, c, i)
  {
  }

  lemma CaughtGrows(log: seq<Moment>, c: Clock, m: Moment, k: Key)
    ensures var next := log + [m];
            CaughtAt(next, c, k) <==> CaughtAt(log, c, k) || (LateFirstAttempt(next, c, |log|) && k in m.st.pending)
  {
    hide LateFirstAttempt;
    var n, next := |log|, log + [m];
    assert next[n] == m;
    forall i | 0 <= i < n
      ensures next[i] == log[i] && (LateFirstAttempt(next, c, i) <==> LateFirstAttempt(log, c, i))
    {
      LateStays(log, c, m, i);
    }
  }

  /******* What the clock explains *******/

  ghost predicate StartsExplained(st: State, c: Clock, log: seq<Moment>) {
    forall k :: k in st.started <==> StartedAt(log, c, k)
  }

  // Why a coordinate may have a row without having run.
  ghost predicate RowExplained(work: map<Key, Work>, retained: map<Key, Row>, c: Clock, log: seq<Moment>, k: Key, v: Verdict) {
    || (v == BudgetExhausted && ExhaustedAt(log, c, k))
    || (v == BlockedDependency && k in work
        && (HasMissing(work, retained, k) || Waits(work, retained, k) || CaughtAt(log, c, k)))
  }

  ghost predicate RowsExplained(work: map<Key, Work>, retained: map<Key, Row>, st: State, c: Clock, log: seq<Moment>) {
    forall k | k in st.rows && k !in retained && !Collected(st.rows[k].verdict) ::
      RowExplained(work, retained, c, log, k, st.rows[k].verdict)
  }

  // Whatever the clock ended has the verdict that says so.
  ghost predicate ClockObeyed(retained: map<Key, Row>, st: State, c: Clock, log: seq<Moment>) {
    && (forall k | ExhaustedAt(log, c, k) :: k in st.rows && k !in retained && st.rows[k].verdict == BudgetExhausted)
    && (forall k | CaughtAt(log, c, k) :: k in st.rows && k !in retained && st.rows[k].verdict == BlockedDependency)
  }

  ghost predicate WaitersHeld(work: map<Key, Work>, retained: map<Key, Row>, st: State) {
    && (StuckPending(work, retained, st) || st.pending == {})
    && forall k | Waits(work, retained, k) :: k !in st.started
  }

  // When the clock is read, whatever has a missing dependency has been reported.
  ghost predicate LogReported(work: map<Key, Work>, retained: map<Key, Row>, log: seq<Moment>) {
    forall i, k | 0 <= i < |log| && k in log[i].st.pending :: k in work && !HasMissing(work, retained, k)
  }

  ghost predicate Accounted(work: map<Key, Work>, retained: map<Key, Row>, st: State, c: Clock, log: seq<Moment>) {
    && StartsExplained(st, c, log) && RowsExplained(work, retained, st, c, log) && ClockObeyed(retained, st, c, log)
    && WaitersHeld(work, retained, st) && LogReported(work, retained, log)
  }

  // The log never forgets.
  lemma LogKeeps(work: map<Key, Work>, retained: map<Key, Row>, st: State, c: Clock, log: seq<Moment>, m: Moment)
    requires RowsExplained(work, retained, st, c, log)
    ensures RowsExplained(work, retained, st, c, log + [m])
  {
    hide HasMissing, Waits, StartedAt, ExhaustedAt, CaughtAt;
    forall k | k in st.rows && k !in retained && !Collected(st.rows[k].verdict)
      ensures RowExplained(work, retained, c, log + [m], k, st.rows[k].verdict)
    {
      assert RowExplained(work, retained, c, log, k, st.rows[k].verdict);
      LogGrows(log, c, m, k);
    }
  }

  lemma AccountedReports(work: map<Key, Work>, retained: map<Key, Row>, before: State, after: State, c: Clock, log: seq<Moment>)
    requires Safe(work, retained, before) && Accounted(work, retained, before, c, log)
    requires Ended(before, after, MissingPending(work, retained, before), BlockedDependency)
    ensures Accounted(work, retained, after, c, log)
    ensures forall k | k in after.pending :: k in work && !HasMissing(work, retained, k)
  {
    hide HasMissing, StartedAt, ExhaustedAt, CaughtAt, Exclusive, DepsFirst, StartedOnce, Labelled, Stuck, DepSet;
    forall k | Waits(work, retained, k)
      ensures k in work && !HasMissing(work, retained, k)
    {
      WaitersHaveAll(work, retained, k);
    }
  }

  lemma WaitersHaveAll(work: map<Key, Work>, retained: map<Key, Row>, k: Key)
    requires Waits(work, retained, k)
    ensures k in work && k !in retained && !HasMissing(work, retained, k)
  {
  }

  lemma AccountedChecks(work: map<Key, Work>, retained: map<Key, Row>, st: State, c: Clock, log: seq<Moment>)
    requires Accounted(work, retained, st, c, log) && (!c.Late(|log| + 1) || st.pending == {})
    requires forall k | k in st.pending :: k in work && !HasMissing(work, retained, k)
    ensures Accounted(work, retained, st, c, log + [Checked(st)])
  {
    hide HasMissing, StartedAt, ExhaustedAt, CaughtAt, StuckPending, Waits, RowExplained;
    LogKeeps(work, retained, st, c, log, Checked(st));
    forall k {
      LogGrows(log, c, Checked(st), k);
    }
  }

  lemma AccountedExhausts(work: map<Key, Work>, retained: map<Key, Row>, st: State, after: State, c: Clock, log: seq<Moment>)
    requires Safe(work, retained, st) && Accounted(work, retained, st, c, log) && c.Late(|log| + 1)
    requires forall k | k in st.pending :: k in work && !HasMissing(work, retained, k)
    requires Ended(st, after, st.pending, BudgetExhausted)
    ensures Accounted(work, retained, after, c, log + [Checked(st)])
  {
    hide HasMissing, StartedAt, ExhaustedAt, CaughtAt, StuckPending, Waits, Exclusive, DepsFirst, StartedOnce, Labelled;
    LogKeeps(work, retained, st, c, log, Checked(st));
    forall k {
      LogGrows(log, c, Checked(st), k);
    }
  }

  lemma AccountedStarts(work: map<Key, Work>, retained: map<Key, Row>, st: State, c: Clock, log: seq<Moment>, k: Key)
    requires Safe(work, retained, st) && Accounted(work, retained, st, c, log) && !c.Late(|log| + 1)
    requires k in st.pending && k in work && DepSet(work[k]) <= st.rows.Keys
    requires forall j | j in st.pending :: j in work && !HasMissing(work, retained, j)
    ensures Accounted(work, retained, Started(st, work, k), c, log + [Attempted(k, st)])
  {
    hide Safe, DepSet, HasMissing, StartedAt, ExhaustedAt, CaughtAt, Waits, RowExplained, ResourcesOf;
    StuckNeverStarts(work, retained, st, k);
    LogKeeps(work, retained, st, c, log, Attempted(k, st));
    forall j {
      LogGrows(log, c, Attempted(k, st), j);
    }
  }

  // An attempt that comes too late, but is not the first of its turn or finds something running.
  lemma AccountedLate(work: map<Key, Work>, retained: map<Key, Row>, st: State, c: Clock, log: seq<Moment>, k: Key)
    requires Accounted(work, retained, st, c, log) && c.Late(|log| + 1)
    requires !LateFirstAttempt(log + [Attempted(k, st)], c, |log|)
    requires forall j | j in st.pending :: j in work && !HasMissing(work, retained, j)
    ensures Accounted(work, retained, st, c, log + [Attempted(k, st)])
  {
    hide HasMissing, StartedAt, ExhaustedAt, CaughtAt, StuckPending, Waits, RowExplained, LateFirstAttempt;
    LogKeeps(work, retained, st, c, log, Attempted(k, st));
    forall j {
      LogGrows(log, c, Attempted(k, st), j);
    }
  }

  lemma AccountedCaught(work: map<Key, Work>, retained: map<Key, Row>, st: State, after: State, c: Clock, log: seq<Moment>, k: Key)
    requires Safe(work, retained, st) && Accounted(work, retained, st, c, log)
    requires LateFirstAttempt(log + [Attempted(k, st)], c, |log|)
    requires forall j | j in st.pending :: j in work && !HasMissing(work, retained, j)
    requires Ended(st, after, st.pending, BlockedDependency)
    ensures Accounted(work, retained, after, c, log + [Attempted(k, st)])
  {
    hide HasMissing, StartedAt, ExhaustedAt, CaughtAt, StuckPending, Waits, Exclusive, DepsFirst, StartedOnce, Labelled;
    LogKeeps(work, retained, st, c, log, Attempted(k, st));
    forall j {
      LogGrows(log, c, Attempted(k, st), j);
    }
  }

  // What is left when nothing runs and nothing is ready waits for itself.
  lemma LeftoversAreStuck(work: map<Key, Work>, retained: map<Key, Row>, st: State)
    requires Safe(work, retained, st) && NothingReady(work, st, st.pending)
    requires st.running == map[] && forall k | k in st.pending :: k in work && !HasMissing(work, retained, k)
    ensures Stuck(work, retained, st.pending)
    ensures forall k | k in st.pending :: Waits(work, retained, k)
  {
    hide Exclusive, DepsFirst, StartedOnce, Labelled, HasMissing;
    forall k | k in st.pending
      ensures DepSet(work[k]) * st.pending != {}
    {
      MissingIsFixed(work, retained, st, k);
      PresentDeps(work, st.rows, k);
      var d :| d in DepSet(work[k]) && d !in st.rows;
      assert d in DepSet(work[k]) * st.pending;
    }
    assert Stuck(work, retained, st.pending);
  }

  lemma PresentDeps(work: map<Key, Work>, rows: map<Key, Row>, k: Key)
    requires k in work && !HasMissing(work, rows, k)
    ensures DepSet(work[k]) <= work.Keys + rows.Keys
  {
  }

  lemma AccountedLeaves(work: map<Key, Work>, retained: map<Key, Row>, st: State, after: State, c: Clock, log: seq<Moment>)
    requires Safe(work, retained, st) && Accounted(work, retained, st, c, log)
    requires forall k | k in st.pending :: Waits(work, retained, k) && k in work
    requires Ended(st, after, st.pending, BlockedDependency)
    ensures Accounted(work, retained, after, c, log)
  {
    hide HasMissing, StartedAt, ExhaustedAt, CaughtAt, StuckPending, Waits, Exclusive, DepsFirst, StartedOnce, Labelled;
  }

  lemma AccountedCollects(work: map<Key, Work>, retained: map<Key, Row>, st: State, after: State, c: Clock, log: seq<Moment>,
                          done: set<Key>)
    requires Accounted(work, retained, st, c, log) && RowsAdded(st, after, done) && after.pending == st.pending
    requires forall k | k in done :: k in after.rows && Collected(after.rows[k].verdict)
    ensures Accounted(work, retained, after, c, log)
  {
    hide HasMissing, StartedAt, ExhaustedAt, CaughtAt, Waits, RowExplained;
  }

  /******* Starting what is ready *******/

  // With nothing running, no seen pending coordinate has all its dependencies' rows.
  ghost predicate NothingReady(work: map<Key, Work>, st: State, seen: set<Key>) {
    forall k | k in st.pending && k in seen && k in work :: !(DepSet(work[k]) <= st.rows.Keys)
  }

  // A pending coordinate that could be started: a slot is free, each of its dependencies has a row, and
  // with whatever runs it shares neither a provider nor an exclusive resource.
  ghost predicate Fits(work: map<Key, Work>, st: State, k: Key) {
    && k in work && |st.running| < 2
    && (forall d | d in work[k].deps :: d in st.rows)
    && (forall j | j in st.running :: j in work && Strangers(work[j], work[k]))
  }

  ghost predicate Strangers(a: Work, b: Work) {
    && a.provider != b.provider
    && (forall r | r in a.exclusive :: r !in b.exclusive && r != "provider-home:" + b.provider)
    && (forall r | r in b.exclusive :: r != "provider-home:" + a.provider)
  }

  ghost predicate Unfit(work: map<Key, Work>, st: State, k: Key) {
    k in work && (|st.running| >= MAXIMUM || !(DepSet(work[k]) <= st.rows.Keys) || !(ResourcesOf(work[k]) !! st.held))
  }

  ghost predicate AllUnfit(work: map<Key, Work>, st: State, seen: set<Key>) {
    forall k | k in seen && k in st.pending :: Unfit(work, st, k)
  }

  lemma UnfitStays(work: map<Key, Work>, st: State, k: Key, seen: set<Key>)
    requires AllUnfit(work, st, seen) && k in work && k in st.pending && k !in st.running
    ensures AllUnfit(work, Started(st, work, k), seen + {k})
  {
    hide DepSet, ResourcesOf;
    assert Started(st, work, k).running.Keys == st.running.Keys + {k};
    assert |st.running.Keys + {k}| == |st.running| + 1;
  }

  lemma NoneUnfitYet(work: map<Key, Work>, st: State)
    ensures AllUnfit(work, st, {})
  {
  }

  lemma UnfitGrows(work: map<Key, Work>, st: State, k: Key, seen: set<Key>)
    requires AllUnfit(work, st, seen) && k in work
    ensures k !in st.pending || |st.running| >= MAXIMUM || !(DepSet(work[k]) <= st.rows.Keys) || !(ResourcesOf(work[k]) !! st.held) ==>
              AllUnfit(work, st, seen + {k})
  {
  }

  lemma FullIsUnfit(work: map<Key, Work>, retained: map<Key, Row>, st: State)
    requires Safe(work, retained, st) && |st.running| >= MAXIMUM
    ensures AllUnfit(work, st, st.pending)
  {
  }

  lemma UnfitSubset(work: map<Key, Work>, st: State, seen: set<Key>)
    requires AllUnfit(work, st, seen) && st.pending <= seen
    ensures AllUnfit(work, st, st.pending)
  {
  }

  lemma UnfitMeans(work: map<Key, Work>, retained: map<Key, Row>, st: State)
    requires Safe(work, retained, st) && AllUnfit(work, st, st.pending)
    ensures forall k | k in st.pending :: !Fits(work, st, k)
    ensures st.running == map[] ==> NothingReady(work, st, st.pending)
  {
    hide ResourcesOf, DepsFirst, StartedOnce, Labelled, Partitioned, Strangers;
    forall k | k in st.pending && Unfit(work, st, k) && Fits(work, st, k)
      ensures false
    {
      var r :| r in ResourcesOf(work[k]) && r in st.held;
      var j :| j in st.running && r in st.running[j];
      DisjointResources(work[j], work[k]);
    }
    if st.running == map[] {
      assert st.held == {};
    }
  }

  lemma DisjointResources(a: Work, b: Work)
    ensures ResourcesOf(a) !! ResourcesOf(b) <==> Strangers(a, b)
  {
    var homeA, homeB := "provider-home:" + a.provider, "provider-home:" + b.provider;
    assert homeA in ResourcesOf(a) && homeB in ResourcesOf(b);
    ExclusiveAreResources(a);
    ExclusiveAreResources(b);
    assert homeA[|"provider-home:"|..] == a.provider && homeB[|"provider-home:"|..] == b.provider;
  }

  lemma ExclusiveAreResources(w: Work)
    ensures forall r :: r in ResourcesOf(w) <==> r == "provider-home:" + w.provider || r in w.exclusive
  {
    forall r | r in w.exclusive
      ensures r in ResourcesOf(w)
    {
      var i :| 0 <= i < |w.exclusive| && w.exclusive[i] == r;
    }
  }

  ghost function Weight(st: State): nat {
    2 * |st.pending| + |st.running|
  }

  lemma StartReaches(work: map<Key, Work>, retained: map<Key, Row>, st: State, trace: seq<State>, k: Key)
    requires Reached(work, retained, st, trace) && k in st.pending && |st.running| < MAXIMUM
    requires k in work && DepSet(work[k]) <= st.rows.Keys && ResourcesOf(work[k]) !! st.held
    ensures Reached(work, retained, Started(st, work, k), trace + [Started(st, work, k)])
    ensures Weight(Started(st, work, k)) == Weight(st) - 1
  {
    hide Safe, History, EndsIn, DepSet, ResourcesOf, Weight;
    PendingHasNoRow(work, retained, st, k);
    StartIsSafe(work, retained, st, k);
    KeptIsReflexive(st.rows);
    HistoryGrows(work, retained, trace, st, Started(st, work, k));
    StartLightens(work, st, k);
  }

  lemma StartLightens(work: map<Key, Work>, st: State, k: Key)
    requires k in st.pending && k !in st.running && k in work
    ensures Weight(Started(st, work, k)) == Weight(st) - 1
  {
    assert Started(st, work, k).running.Keys == st.running.Keys + {k};
    assert |st.running.Keys + {k}| == |st.running| + 1;
    assert |st.pending - {k}| == |st.pending| - 1;
  }

  // How a turn's attempts may have gone on from its check.
  ghost predicate Attempts(log0: seq<Moment>, log: seq<Moment>, c: Clock, st0: State, st: State, scheduled: bool) {
    && log0 <= log && (forall i | |log0| <= i < |log| :: log[i].Attempted?)
    && (|log| > |log0| ==> log[|log0|].st == st0 && st0.pending != {})
    && (if scheduled then |log| > |log0| && !c.Late(|log0| + 1)
        else st == st0 && (|log| > |log0| ==> |log| == |log0| + 1 && c.Late(|log|)))
  }

  lemma ReachedIsSafe(work: map<Key, Work>, retained: map<Key, Row>, st: State, trace: seq<State>)
    requires Reached(work, retained, st, trace)
    ensures Safe(work, retained, st) && EndsIn(trace, st)
  {
  }

  lemma NothingAttempted(log: seq<Moment>, c: Clock, st: State)
    ensures Attempts(log, log, c, st, st, false)
  {
  }

  // One attempt more: in time, whatever state it leads to, or too late.
  lemma AttemptsGrow(log0: seq<Moment>, log: seq<Moment>, c: Clock, st0: State, st: State, scheduled: bool, k: Key, after: State)
    requires Attempts(log0, log, c, st0, st, scheduled) && st0.pending != {} && (!scheduled ==> log == log0)
    ensures var next := log + [Attempted(k, st)];
            && (!c.Late(|next|) ==> Attempts(log0, next, c, st0, after, true))
            && (c.Late(|next|) ==> Attempts(log0, next, c, st0, st, scheduled))
            && (c.Late(|next|) && !scheduled ==> st == st0 && next == log0 + [Attempted(k, st0)])
  {
  }

  // A turn that could start nothing because its first attempt came too late, with nothing running.
  ghost predicate CaughtLate(log0: seq<Moment>, log: seq<Moment>, c: Clock, st0: State, st: State) {
    && st == st0 && |log| == |log0| + 1 && log[|log0|].Attempted? && log == log0 + [Attempted(log[|log0|].key, st0)]
    && LateFirstAttempt(log, c, |log0|)
  }

  method ScheduleReady(work: map<Key, Work>, ghost retained: map<Key, Row>, order: seq<Key>, c: Clock, tick0: nat,
                       st0: State, ghost trace0: seq<State>, ghost log0: seq<Moment>)
    returns (st: State, tick: nat, scheduled: bool, ghost trace: seq<State>, ghost log: seq<Moment>)
    requires Lists(order, work) && Reached(work, retained, st0, trace0) && Accounted(work, retained, st0, c, log0)
    requires forall k | k in st0.pending :: k in work && !HasMissing(work, retained, k)
    requires |log0| == tick0 > 0 && log0[tick0 - 1].Checked?
    requires st0.pending != {} ==> log0[tick0 - 1] == Checked(st0) && !c.Late(tick0)
    requires Witnessed(log0, trace0)
    ensures Reached(work, retained, st, trace) && trace0 <= trace && |log| == tick && Witnessed(log, trace)
    ensures Attempts(log0, log, c, st0, st, scheduled)
    ensures CaughtLate(log0, log, c, st0, st) || Accounted(work, retained, st, c, log)
    ensures st.rows == st0.rows && st.pending <= st0.pending && Weight(st) <= Weight(st0) - (if scheduled then 1 else 0)
    ensures CaughtLate(log0, log, c, st0, st) ==> !scheduled
    ensures !scheduled && st.running == map[] && tick > tick0 ==> CaughtLate(log0, log, c, st0, st)
    ensures scheduled ==> st.running != map[]
    ensures !scheduled && st.running == map[] && tick == tick0 ==> NothingReady(work, st, st.pending)
    // unless the deadline has passed, whatever could be started was
    ensures !c.Late(tick) ==> forall k | k in st.pending :: !Fits(work, st, k)
  {
    hide Safe, History, EndsIn, DepSet, ResourcesOf, Weight, Lists, Accounted, HasMissing, Witnessed, Fits, AllUnfit, Unfit, NothingReady,
         Attempts, Reached;
    st, tick, scheduled, trace, log := st0, tick0, false, trace0, log0;
    ghost var seen := {};
    NoneUnfitYet(work, st);
    NothingAttempted(log, c, st);
    for i := 0 to |order|
      invariant Reached(work, retained, st, trace) && trace0 <= trace && |log| == tick && Witnessed(log, trace)
      invariant Attempts(log0, log, c, st0, st, scheduled) && Accounted(work, retained, st, c, log)
      invariant st.rows == st0.rows && st.pending <= st0.pending && Weight(st) <= Weight(st0) - (if scheduled then 1 else 0)
      invariant scheduled ==> st.running != map[]
      invariant !scheduled ==> tick == tick0 && log == log0 && st == st0
      invariant scheduled ==> log[|log| - 1].Attempted?
      invariant AllUnfit(work, st, seen)
      invariant forall j | 0 <= j < i :: order[j] in seen
    {
      var k := order[i];
      ListedIsWork(order, work, i);
      UnfitGrows(work, st, k, seen);
      ReachedIsSafe(work, retained, st, trace);
      if k in st.pending {
        if |st.running| >= MAXIMUM {
          FullIsUnfit(work, retained, st);
          break;
        }
        if DepSet(work[k]) <= st.rows.Keys {
          if ResourcesOf(work[k]) !! st.held {
            ghost var before, trail := log, trace;
            WitnessedGrows(before, trace, trace);
            AttemptsGrow(log0, log, c, st0, st, scheduled, k, Started(st, work, k));
            tick, log := tick + 1, log + [Attempted(k, st)];
            if c.Late(tick) {
              if !LateFirstAttempt(log, c, |before|) {
                AccountedLate(work, retained, st, c, before, k);
              }
              break;
            }
            AccountedStarts(work, retained, st, c, before, k);
            StartReaches(work, retained, st, trace, k);
            PendingHasNoRow(work, retained, st, k);
            UnfitStays(work, st, k, seen);
            st := Started(st, work, k);
            trace := trace + [st];
            WitnessedGrows(log, trail, trace);
            scheduled := true;
            assert k in st.running;
          }
        }
      }
      seen := seen + {k};
    }
    ReachedIsSafe(work, retained, st, trace);
    PendingIsListed(work, retained, order, st);
    if !c.Late(tick) || st.pending == {} {
      if !AllUnfit(work, st, st.pending) {
        UnfitSubset(work, st, seen);
      }
      UnfitMeans(work, retained, st);
    }
  }

  /******* Collecting what finished *******/

  type RunVerdict = v: Verdict | Collected(v) witness Pass

  lemma FinishReaches(work: map<Key, Work>, retained: map<Key, Row>, st: State, trace: seq<State>, k: Key, row: Row)
    requires Reached(work, retained, st, trace) && k in st.running && Collected(row.verdict) && Plain(row)
    requires k in work && row.digest == work[k].digest && row.failedDeps == FailedOf(work, st.rows, k)
    ensures Reached(work, retained, Finished(st, k, row), trace + [Finished(st, k, row)])
    ensures Weight(Finished(st, k, row)) == Weight(st) - 1 && k !in st.rows
  {
    hide Safe, History, EndsIn, Kept, DepSet, FailedOf;
    RunningHasDeps(work, retained, st, k);
    FinishIsSafe(work, retained, st, k, row);
    HistoryGrows(work, retained, trace, st, Finished(st, k, row));
    assert Finished(st, k, row).running.Keys == st.running.Keys - {k};
    assert |st.running.Keys - {k}| == |st.running| - 1;
  }

  lemma RunningHasDeps(work: map<Key, Work>, retained: map<Key, Row>, st: State, k: Key)
    requires Safe(work, retained, st) && k in st.running
    ensures k in work && DepSet(work[k]) <= st.rows.Keys && k !in st.rows
  {
  }

  function Told(report: Key -> Option<RunVerdict>, k: Key): Verdict {
    match report(k) case Some(v) => v case None => Error
  }

  // The verdict a coordinate reported; one that raised is an error.
  ghost predicate Reports(report: Key -> Option<RunVerdict>, k: Key, v: Verdict) {
    (report(k).Some? ==> v == report(k).value) && (report(k).None? ==> v == Error)
  }

  // Every row of a coordinate that ran has the verdict it reported.
  ghost predicate AllReport(report: Key -> Option<RunVerdict>, retained: map<Key, Row>, rows: map<Key, Row>) {
    forall k | k in rows && k !in retained && Collected(rows[k].verdict) :: Reports(report, k, rows[k].verdict)
  }

  // Only rows of coordinates that never ran were added.
  ghost predicate NoneRan(before: map<Key, Row>, after: map<Key, Row>) {
    Kept(before, after) && forall k | k in after && k !in before :: !Collected(after[k].verdict)
  }

  lemma NoneRanJoin(a: map<Key, Row>, b: map<Key, Row>, c: map<Key, Row>)
    requires NoneRan(a, b) && NoneRan(b, c)
    ensures NoneRan(a, c)
  {
  }

  lemma EndedNeverRan(before: State, after: State, ended: set<Key>, verdict: Verdict)
    requires Ended(before, after, ended, verdict) && !Collected(verdict)
    ensures NoneRan(before.rows, after.rows)
  {
  }

  lemma ReportsStay(report: Key -> Option<RunVerdict>, retained: map<Key, Row>, before: map<Key, Row>, after: map<Key, Row>)
    requires AllReport(report, retained, before) && NoneRan(before, after)
    ensures AllReport(report, retained, after)
  {
    hide Collected, Reports;
  }

  lemma ReportsGather(report: Key -> Option<RunVerdict>, retained: map<Key, Row>, before: State, after: State, done: set<Key>)
    requires AllReport(report, retained, before.rows) && Gathered(report, before, after, done)
    ensures AllReport(report, retained, after.rows)
  {
    hide Collected, Reports;
  }

  lemma NothingReportedYet(report: Key -> Option<RunVerdict>, work: map<Key, Work>, retained: map<Key, Row>)
    ensures AllReport(report, retained, Initial(work, retained).rows)
  {
  }

  // The finished coordinates, and no others, got the verdict they reported; an exception is an error.
  ghost predicate Gathered(report: Key -> Option<RunVerdict>, before: State, st: State, done: set<Key>) {
    && st.pending == before.pending && st.running == before.running - done && RowsAdded(before, st, done)
    && forall k | k in done :: k in st.rows && Reports(report, k, st.rows[k].verdict)
  }

  lemma GatheredNothing(report: Key -> Option<RunVerdict>, st: State)
    ensures Gathered(report, st, st, {})
  {
    assert st.running - {} == st.running;
  }

  lemma GatheredGrows(report: Key -> Option<RunVerdict>, before: State, st: State, done: set<Key>, k: Key, row: Row)
    requires Gathered(report, before, st, done) && k in st.running && k !in st.rows && Reports(report, k, row.verdict)
    ensures Gathered(report, before, Finished(st, k, row), done + {k})
  {
    assert st.running - {k} == before.running - (done + {k});
  }

  lemma FailedAre(work: map<Key, Work>, rows: map<Key, Row>, k: Key)
    requires k in work && DepSet(work[k]) <= rows.Keys
    ensures FailedOf(work, rows, k) == set d | d in DepSet(work[k]) && !Successful(rows[d].verdict)
  {
  }

  method Collect(work: map<Key, Work>, ghost retained: map<Key, Row>, done: set<Key>, report: Key -> Option<RunVerdict>,
                 st0: State, ghost trace0: seq<State>)
    returns (st: State, ghost trace: seq<State>)
    requires Reached(work, retained, st0, trace0) && done <= st0.running.Keys
    ensures Reached(work, retained, st, trace) && trace0 <= trace
    ensures Gathered(report, st0, st, done) && Weight(st) + |done| == Weight(st0)
  {
    hide Safe, FailedOf, Successful, History, EndsIn, DepSet, Weight, Gathered;
    st, trace := st0, trace0;
    var left := done;
    assert done - done == {};
    GatheredNothing(report, st);
    while left != {}
      invariant left <= done && Reached(work, retained, st, trace) && trace0 <= trace
      invariant Weight(st) + |done| == Weight(st0) + |left|
      invariant Gathered(report, st0, st, done - left) && left <= st.running.Keys
      decreases left
    {
      var k :| k in left;
      RunningHasDeps(work, retained, st, k);
      var failed := set d | d in DepSet(work[k]) && !Successful(st.rows[d].verdict);
      var row := Row(Told(report, k), work[k].digest, failed, []);
      assert failed == FailedOf(work, st.rows, k) by { FailedAre(work, st.rows, k); }
      FinishReaches(work, retained, st, trace, k, row);
      GatheredGrows(report, st0, st, done - left, k, row);
      assert done - (left - {k}) == done - left + {k};
      st := Finished(st, k, row);
      trace := trace + [st];
      assert |left - {k}| == |left| - 1;
      left := left - {k};
    }
    assert done - {} == done;
  }

  /******* How every run ends *******/

  datatype BudgetError = UnreviewedMaximum | UnreviewedBudget

  // The end of a run with any clock.  A coordinate that was not retained
  //   was started exactly if an attempt read the clock before the deadline;
  //   is exhausted exactly if a check found it pending with the deadline reached;
  //   is blocked exactly if a dependency is missing, or it waits in a cycle and was not
  //   exhausted, or the deadline came between a check and the first attempt behind it.
  ghost predicate Verdicts(work: map<Key, Work>, retained: map<Key, Row>, last: State, c: Clock, log: seq<Moment>) {
    forall k | k in work && k !in retained ::
      && k in last.rows
      && (k in last.started <==> StartedAt(log, c, k))
      && (k in last.started <==> Collected(last.rows[k].verdict))
      && (last.rows[k].verdict == BudgetExhausted <==> ExhaustedAt(log, c, k))
      && (last.rows[k].verdict == BlockedDependency <==>
          || HasMissing(work, retained, k)
          || (Waits(work, retained, k) && !ExhaustedAt(log, c, k))
          || CaughtAt(log, c, k))
  }

  // The order of the readings: a check first; a turn's first attempt sees what its check saw;
  // a turn without an attempt has something running; after a late first attempt nothing follows.
  ghost predicate Readings(log: seq<Moment>, c: Clock) {
    && (log != [] ==> log[0].Checked? && log[0].st.running == map[])
    && (forall i | 0 < i < |log| && log[i - 1].Checked? ::
          if log[i].Attempted? then log[i].st == log[i - 1].st else log[i - 1].st.running != map[])
    && (forall i | 0 <= i < |log| - 1 :: !LateFirstAttempt(log, c, i))
  }

  // A turn may follow.
  ghost predicate GoesOn(log: seq<Moment>, c: Clock, st: State) {
    && Readings(log, c)
    && (log == [] ==> st.running == map[])
    && (log != [] ==> !LateFirstAttempt(log, c, |log| - 1))
    && (log != [] && log[|log| - 1].Checked? ==> log[|log| - 1].st.running != map[])
  }

  lemma ReadingsCheck(log: seq<Moment>, c: Clock, before: State, st: State)
    requires GoesOn(log, c, before) && st.running == before.running
    ensures Readings(log + [Checked(st)], c) && !LateFirstAttempt(log + [Checked(st)], c, |log|)
  {
    var next := log + [Checked(st)];
    forall i | 0 <= i < |log|
      ensures !LateFirstAttempt(next, c, i)
    {
      assert LateFirstAttempt(next, c, i) ==> LateFirstAttempt(log, c, i);
    }
  }

  lemma ReadingsAttempt(log0: seq<Moment>, log: seq<Moment>, c: Clock, st0: State, st: State, scheduled: bool)
    requires Readings(log0, c) && log0 != [] && log0[|log0| - 1].Checked? && log0[|log0| - 1].st.running == st0.running
    requires |log| > |log0| ==> log0[|log0| - 1].st == st0
    requires !LateFirstAttempt(log0, c, |log0| - 1)
    requires Attempts(log0, log, c, st0, st, scheduled)
    ensures Readings(log, c)
    ensures st.running != map[] ==> GoesOn(log, c, st)
  {
    forall i | 0 <= i < |log|
      ensures i != |log0| ==> !LateFirstAttempt(log, c, i)
      ensures i == |log0| && st.running != map[] ==> !LateFirstAttempt(log, c, i)
      ensures i == |log0| && scheduled ==> !LateFirstAttempt(log, c, i)
    {
      if i < |log0| {
        assert LateFirstAttempt(log, c, i) ==> LateFirstAttempt(log0, c, i);
      }
    }
  }

  lemma EndVerdicts(work: map<Key, Work>, retained: map<Key, Row>, st: State, c: Clock, log: seq<Moment>)
    requires Safe(work, retained, st) && Accounted(work, retained, st, c, log)
    requires st.pending == {} && st.running == map[]
    ensures Verdicts(work, retained, st, c, log)
  {
    hide HasMissing, StartedAt, ExhaustedAt, CaughtAt, Waits, Exclusive, DepSet, Stuck;
    forall k | k in work && k !in retained
      ensures HasMissing(work, retained, k) ==> k !in st.started && !ExhaustedAt(log, c, k)
    {
      StartedHasAll(work, retained, st, k);
      ExhaustedHasAll(work, retained, c, log, k);
    }
  }

  lemma StartedHasAll(work: map<Key, Work>, retained: map<Key, Row>, st: State, k: Key)
    requires Safe(work, retained, st) && k in work
    ensures HasMissing(work, retained, k) ==> k !in st.started
  {
    MissingIsFixed(work, retained, st, k);
  }

  lemma ExhaustedHasAll(work: map<Key, Work>, retained: map<Key, Row>, c: Clock, log: seq<Moment>, k: Key)
    requires LogReported(work, retained, log) && k in work
    ensures HasMissing(work, retained, k) ==> !ExhaustedAt(log, c, k)
  {
    hide HasMissing;
  }

  ghost function BlockedSet(work: map<Key, Work>, retained: map<Key, Row>, rows: map<Key, Row>): set<Key> {
    set k | k in work && k !in retained && k in rows && rows[k].verdict == BlockedDependency
  }

  ghost function MissingSet(work: map<Key, Work>, retained: map<Key, Row>): set<Key> {
    set k | k in work && k !in retained && HasMissing(work, retained, k)
  }

  // Blocked are exactly the coordinates with a missing dependency and, beyond them, the
  // greatest set of coordinates that wait for each other; every other one was started.
  ghost predicate BlockedExactly(work: map<Key, Work>, retained: map<Key, Row>, last: State) {
    var blocked, missing := BlockedSet(work, retained, last.rows), MissingSet(work, retained);
    && missing <= blocked
    && Stuck(work, retained, blocked - missing)
    && (forall s | Stuck(work, retained, s) :: s <= blocked - missing)
    && (forall k | k in work && k !in retained :: k in last.started <==> k !in blocked)
  }

  // The waiting coordinates are themselves a set that waits for itself.
  lemma WaitersAreStuck(work: map<Key, Work>, retained: map<Key, Row>, w: set<Key>)
    requires forall k :: k in w <==> Waits(work, retained, k)
    ensures Stuck(work, retained, w)
    ensures forall s | Stuck(work, retained, s) :: s <= w
  {
    hide HasMissing;
    forall k | k in w
      ensures k in work.Keys - retained.Keys && DepSet(work[k]) * w != {} && !HasMissing(work, retained, k)
    {
      var s :| Stuck(work, retained, s) && k in s;
      var d :| d in DepSet(work[k]) * s;
      assert Waits(work, retained, d);
      assert d in DepSet(work[k]) * w;
    }
    forall s | Stuck(work, retained, s)
      ensures s <= w
    {
      assert forall k | k in s :: Waits(work, retained, k);
    }
  }

  lemma UndelayedNeverLate(log: seq<Moment>, c: Clock, k: Key)
    requires Undelayed(c)
    ensures !ExhaustedAt(log, c, k) && !CaughtAt(log, c, k)
  {
  }

  // With no reading at or past the deadline, exactly the missing and the waiting are blocked.
  lemma UndelayedBlocksExactly(work: map<Key, Work>, retained: map<Key, Row>, last: State, c: Clock, log: seq<Moment>)
    requires Verdicts(work, retained, last, c, log) && Undelayed(c)
    ensures BlockedExactly(work, retained, last)
  {
    hide HasMissing, StartedAt, ExhaustedAt, CaughtAt, Waits, Undelayed, Stuck;
    var blocked, missing := BlockedSet(work, retained, last.rows), MissingSet(work, retained);
    forall k {
      UndelayedNeverLate(log, c, k);
    }
    forall k
      ensures k in blocked - missing <==> Waits(work, retained, k)
    {
      if Waits(work, retained, k) {
        WaitersHaveAll(work, retained, k);
      }
    }
    WaitersAreStuck(work, retained, blocked - missing);
  }

  // A coordinate that lacks nothing and waits in no cycle is blocked exactly if the deadline
  // caught it: reached between a turn's check and its first attempt, with nothing running.
  lemma BlockedOnlyIfCaught(work: map<Key, Work>, retained: map<Key, Row>, last: State, c: Clock, log: seq<Moment>, k: Key)
    requires Verdicts(work, retained, last, c, log) && k in work && k !in retained
    requires !HasMissing(work, retained, k) && !Waits(work, retained, k)
    ensures last.rows[k].verdict == BlockedDependency <==>
            exists i :: 0 < i < |log| && log[i - 1].Checked? && log[i].Attempted?
              && log[i].st.running == map[] && k in log[i].st.pending
              && c.times(i) < c.deadline <= c.times(i + 1)
  {
    if CaughtAt(log, c, k) {
      var i :| 0 <= i < |log| && LateFirstAttempt(log, c, i) && k in log[i].st.pending;
      assert 0 < i < |log| && log[i - 1].Checked?;
    }
    if i :| 0 < i < |log| && log[i - 1].Checked? && log[i].Attempted?
              && log[i].st.running == map[] && k in log[i].st.pending
              && c.times(i) < c.deadline <= c.times(i + 1) {
      assert LateFirstAttempt(log, c, i);
    }
  }

  /******* The scheduler *******/

  function Initial(work: map<Key, Work>, retained: map<Key, Row>): State {
    State(work.Keys - retained.Keys, map[], {}, retained, [])
  }

  lemma InitialIsPartitioned(work: map<Key, Work>, retained: map<Key, Row>)
    ensures Partitioned(work, retained, Initial(work, retained))
    ensures Labelled(work, retained, retained)
  {
    KeptIsReflexive(retained);
  }

  lemma InitialIsIdle(work: map<Key, Work>, retained: map<Key, Row>)
    ensures var st := Initial(work, retained);
            Exclusive(work, st) && DepsFirst(work, st) && StartedOnce(retained, st)
  {
  }

  lemma InitialIsSafe(work: map<Key, Work>, retained: map<Key, Row>)
    ensures Safe(work, retained, Initial(work, retained))
    ensures Reached(work, retained, Initial(work, retained), [Initial(work, retained)])
  {
    hide Partitioned, Labelled, Exclusive, DepsFirst, StartedOnce, Kept, Initial;
    InitialIsPartitioned(work, retained);
    InitialIsIdle(work, retained);
    InitialRows(work, retained);
  }

  lemma InitialRows(work: map<Key, Work>, retained: map<Key, Row>)
    ensures Initial(work, retained).rows == retained
  {
  }

  lemma InitialIsAccounted(work: map<Key, Work>, retained: map<Key, Row>, c: Clock)
    ensures Accounted(work, retained, Initial(work, retained), c, []) && GoesOn([], c, Initial(work, retained))
  {
    hide HasMissing;
    forall k | Waits(work, retained, k)
      ensures k in work.Keys - retained.Keys
    {
      WaitersHaveAll(work, retained, k);
    }
  }

  lemma EndIsComplete(work: map<Key, Work>, retained: map<Key, Row>, st: State)
    requires Safe(work, retained, st) && st.pending == {} && st.running == map[]
    ensures st.rows.Keys == retained.Keys + work.Keys && Kept(retained, st.rows)
  {
  }

  lemma EndingLightens(before: State, after: State, ended: set<Key>, verdict: Verdict)
    requires Ended(before, after, ended, verdict)
    ensures Weight(after) <= Weight(before) && (ended != {} ==> Weight(after) < Weight(before))
  {
    assert before.pending == after.pending + ended;
    assert |before.pending| == |after.pending| + |ended|;
  }

  lemma IdleIsWeightless(st: State, before: State)
    requires before.pending != {} || before.running != map[]
    ensures st.pending == {} && st.running == map[] ==> Weight(st) < Weight(before)
  {
  }

  // The head of a turn: report what is missing, read the clock, give up what is late.
  method BeginTurn(work: map<Key, Work>, ghost retained: map<Key, Row>, order: seq<Key>, c: Clock, tick0: nat,
                   st0: State, ghost trace0: seq<State>, ghost log0: seq<Moment>)
    returns (st: State, tick: nat, ghost trace: seq<State>, ghost log: seq<Moment>)
    requires Lists(order, work) && Reached(work, retained, st0, trace0) && Accounted(work, retained, st0, c, log0)
    requires |log0| == tick0 && GoesOn(log0, c, st0) && Witnessed(log0, trace0)
    ensures Reached(work, retained, st, trace) && trace0 <= trace && Accounted(work, retained, st, c, log)
    requires NamedSoFar(work, retained, st0)
    ensures Witnessed(log, trace) && NamedSoFar(work, retained, st) && NoneRan(st0.rows, st.rows)
    ensures tick == tick0 + 1 == |log| && log[..tick0] == log0 && log[tick0].Checked?
    ensures log[tick0].st.pending == st0.pending - MissingPending(work, retained, st0)
    ensures log[tick0].st.running == st.running == st0.running
    ensures Readings(log, c) && !LateFirstAttempt(log, c, tick0)
    ensures forall k | k in st.pending :: k in work && !HasMissing(work, retained, k)
    ensures c.Late(tick) ==> st.pending == {}
    ensures st.pending != {} ==> log[tick0].st == st
    ensures Weight(st) <= Weight(st0)
  {
    hide Safe, History, EndsIn, DepSet, Kept, HasMissing, Accounted, Lists, Weight, NamedInTurn, Readings, GoesOn, LateFirstAttempt, RowsAdded,
         Witnessed, NamedSoFar, NoneRan;
    st, trace := ReportMissing(work, retained, order, st0, trace0);
    EndedNeverRan(st0, st, MissingPending(work, retained, st0), BlockedDependency);
    WitnessedGrows(log0, trace0, trace);
    AccountedReports(work, retained, st0, st, c, log0);
    NamedReports(work, retained, st0, st);
    EndingLightens(st0, st, MissingPending(work, retained, st0), BlockedDependency);
    tick, log := tick0 + 1, log0 + [Checked(st)];
    ReadingsCheck(log0, c, st0, st);
    if c.Late(tick) && st.pending != {} {
      ghost var late, trail := st, trace;
      st, trace := DropPending(work, retained, order, BudgetExhausted, st, trace);
      WitnessedGrows(log, trail, trace);
      AccountedExhausts(work, retained, late, st, c, log0);
      NamedKeeps(work, retained, late, st, late.pending);
      EndedNeverRan(late, st, late.pending, BudgetExhausted);
      NoneRanJoin(st0.rows, late.rows, st.rows);
      EndingLightens(late, st, late.pending, BudgetExhausted);
    } else {
      AccountedChecks(work, retained, st, c, log0);
    }
  }

  // Nothing runs and nothing was started: all that is pending is reported as blocked, because it
  // waits for itself or because the deadline caught it.
  method LeaveIdle(work: map<Key, Work>, ghost retained: map<Key, Row>, order: seq<Key>, ghost c: Clock,
                   idle: State, ghost trace0: seq<State>, ghost beginning: seq<Moment>, ghost log: seq<Moment>)
    returns (st: State, ghost trace: seq<State>)
    requires Lists(order, work) && Reached(work, retained, idle, trace0) && idle.running == map[] && idle.pending != {}
    requires forall k | k in idle.pending :: k in work && !HasMissing(work, retained, k)
    requires Accounted(work, retained, idle, c, beginning)
    requires if log == beginning then NothingReady(work, idle, idle.pending) else CaughtLate(beginning, log, c, idle, idle)
    requires NamedSoFar(work, retained, idle) && log != [] && log[|log| - 1].st == idle
    ensures Reached(work, retained, st, trace) && trace0 <= trace && Accounted(work, retained, st, c, log)
    ensures st.pending == {} && st.running == map[] && Weight(st) < Weight(idle)
    ensures NamedFinally(work, retained, order, st, log) && NoneRan(idle.rows, st.rows)
  {
    hide Safe, History, EndsIn, DepSet, Kept, HasMissing, Accounted, Lists, Weight, NothingReady, NamedInTurn, LateFirstAttempt, RowsAdded,
         NamedSoFar, NamedFinally, NoneRan;
    if log == beginning { LeftoversAreStuck(work, retained, idle); }
    st, trace := DropPending(work, retained, order, BlockedDependency, idle, trace0);
    EndingLightens(idle, st, idle.pending, BlockedDependency);
    EndedNeverRan(idle, st, idle.pending, BlockedDependency);
    NamedLeaves(work, retained, order, idle, st, log);
    if log == beginning {
      AccountedLeaves(work, retained, idle, st, c, log);
    } else {
      AccountedCaught(work, retained, idle, st, c, beginning, log[|beginning|].key);
    }
  }

  lemma NamedRowsOnly(work: map<Key, Work>, retained: map<Key, Row>, before: State, after: State)
    requires NamedSoFar(work, retained, before) && after.rows == before.rows
    ensures NamedSoFar(work, retained, after)
  {
  }

  lemma NamedCollects(work: map<Key, Work>, retained: map<Key, Row>, order: seq<Key>, report: Key -> Option<RunVerdict>,
                      before: State, after: State, done: set<Key>, log: seq<Moment>)
    requires NamedSoFar(work, retained, before) && Gathered(report, before, after, done)
    ensures NamedSoFar(work, retained, after) && NamedFinally(work, retained, order, after, log)
  {
    hide RowsAdded, NamedSoFar, NamedFinally;
    NamedKeeps(work, retained, before, after, done);
    NamedEnds(work, retained, order, after, log);
  }

  lemma GoesOnAnyway(log: seq<Moment>, c: Clock, before: State, after: State)
    requires GoesOn(log, c, before) && log != []
    ensures GoesOn(log, c, after)
  {
  }

  // One turn of the scheduling loop.
  method Turn(work: map<Key, Work>, ghost retained: map<Key, Row>, order: seq<Key>, c: Clock, tick0: nat,
              finish: (nat, set<Key>) -> set<Key>, report: Key -> Option<RunVerdict>,
              st0: State, ghost trace0: seq<State>, ghost log0: seq<Moment>)
    returns (st: State, tick: nat, ghost trace: seq<State>, ghost log: seq<Moment>)
    requires Lists(order, work) && Reached(work, retained, st0, trace0) && Accounted(work, retained, st0, c, log0)
    requires |log0| == tick0 && GoesOn(log0, c, st0) && Witnessed(log0, trace0) && NamedSoFar(work, retained, st0)
    requires AllReport(report, retained, st0.rows)
    requires forall t, s | s != {} :: finish(t, s) != {} && finish(t, s) <= s
    requires st0.pending != {} || st0.running != map[]
    ensures Reached(work, retained, st, trace) && trace0 <= trace && Accounted(work, retained, st, c, log)
    ensures |log| == tick && log0 <= log && Readings(log, c) && Witnessed(log, trace)
    ensures |log| > |log0| && log[|log0|].Checked? && log[|log0|].st.pending == st0.pending - MissingPending(work, retained, st0)
    ensures (st.pending == {} && st.running == map[]) || (GoesOn(log, c, st) && NamedSoFar(work, retained, st))
    ensures NamedFinally(work, retained, order, st, log) && AllReport(report, retained, st.rows)
    ensures Weight(st) < Weight(st0)
  {
    hide Safe, History, EndsIn, DepSet, Kept, HasMissing, Accounted, Lists, Weight, NothingReady, NamedInTurn,
         Readings, LateFirstAttempt, RowsAdded, Witnessed, NamedSoFar, NamedFinally, GoesOn, AllReport, NoneRan;
    var begun;
    ghost var beginning;
    begun, tick, trace, beginning := BeginTurn(work, retained, order, c, tick0, st0, trace0, log0);
    ReportsStay(report, retained, st0.rows, begun.rows);
    var scheduled;
    st, tick, scheduled, trace, log := ScheduleReady(work, retained, order, c, tick, begun, trace, beginning);
    ReadingsAttempt(beginning, log, c, begun, st, scheduled);
    NamedRowsOnly(work, retained, begun, st);
    ghost var trail := trace;
    if st.running != map[] {
      var done := finish(tick, st.running.Keys);
      ghost var running := st;
      st, trace := Collect(work, retained, done, report, st, trace);
      WitnessedGrows(log, trail, trace);
      AccountedCollects(work, retained, running, st, c, log, done);
      NamedCollects(work, retained, order, report, running, st, done, log);
      ReportsGather(report, retained, running, st, done);
      GoesOnAnyway(log, c, running, st);
    } else if st.pending != {} && !scheduled {
      st, trace := LeaveIdle(work, retained, order, c, st, trace, beginning, log);
      ReportsStay(report, retained, begun.rows, st.rows);
      WitnessedGrows(log, trail, trace);
    } else {
      IdleIsWeightless(st, st0);
      NamedEnds(work, retained, order, st, log);
    }
  }

  // The first check of the clock sees everything that lacks nothing pending.
  ghost predicate FirstCheck(work: map<Key, Work>, retained: map<Key, Row>, log: seq<Moment>) {
    log != [] && log[0].Checked? && log[0].st.pending == work.Keys - retained.Keys - MissingSet(work, retained)
  }

  lemma FirstTurnChecks(work: map<Key, Work>, retained: map<Key, Row>, log: seq<Moment>)
    requires log != [] && log[0].Checked?
    requires log[0].st.pending == Initial(work, retained).pending - MissingPending(work, retained, Initial(work, retained))
    ensures FirstCheck(work, retained, log)
  {
    hide HasMissing;
  }

  // Whoever was started has the verdict it reported, or an error if it raised, and its row names
  // exactly the dependencies that neither passed nor met a native gap.
  ghost predicate RunReports(work: map<Key, Work>, rows: map<Key, Row>, started: seq<Key>, report: Key -> Option<RunVerdict>) {
    forall k | k in started ::
      && k in work && k in rows
      && (report(k).Some? ==> rows[k].verdict == report(k).value)
      && (report(k).None? ==> rows[k].verdict == Error)
      && forall d :: d in rows[k].failedDeps <==>
           d in work[k].deps && d in rows
           && rows[d].verdict != Pass && rows[d].verdict != GapNativeMacos && rows[d].verdict != GapNativeLinux
  }

  // Every new row has its coordinate's input digest, and only the lists that its verdict has.
  ghost predicate RowsAreTheirs(work: map<Key, Work>, retained: map<Key, Row>, rows: map<Key, Row>) {
    forall k | k in rows && k !in retained :: k in work && rows[k].digest == work[k].digest && Plain(rows[k])
  }

  lemma StartedReports(work: map<Key, Work>, retained: map<Key, Row>, st: State, report: Key -> Option<RunVerdict>)
    requires Safe(work, retained, st) && st.running == map[] && AllReport(report, retained, st.rows)
    ensures RunReports(work, st.rows, st.started, report) && RowsAreTheirs(work, retained, st.rows)
  {
    hide Partitioned, Exclusive, DepsFirst;
  }

  // At most two of them, and any two are strangers.
  ghost predicate Apart(work: map<Key, Work>, keys: set<Key>) {
    && |keys| <= 2
    && forall j, k | j in keys && k in keys && j != k :: j in work && k in work && Strangers(work[j], work[k])
  }

  lemma RunsApart(work: map<Key, Work>, retained: map<Key, Row>, trace: seq<State>)
    requires History(work, retained, trace)
    ensures forall i | 0 <= i < |trace| :: Apart(work, trace[i].running.Keys)
  {
    hide Apart, Exclusive;
    forall i | 0 <= i < |trace|
      ensures Apart(work, trace[i].running.Keys)
    {
      assert Safe(work, retained, trace[i]);
      ExclusiveRunsApart(work, trace[i]);
    }
  }

  lemma ExclusiveRunsApart(work: map<Key, Work>, st: State)
    requires Exclusive(work, st)
    ensures Apart(work, st.running.Keys)
  {
    forall j, k | j in st.running && k in st.running && j != k
      ensures Strangers(work[j], work[k])
    {
      DisjointResources(work[j], work[k]);
    }
  }

  // The single ready-node scheduler.
  method ScheduleCoordinates(work: map<Key, Work>, retained: map<Key, Row>, order: seq<Key>, totalBudget: real, maximum: int,
                             times: nat -> real, finish: (nat, set<Key>) -> set<Key>, report: Key -> Option<RunVerdict>)
    returns (result: Result<map<Key, Row>, BudgetError>, ghost trace: seq<State>, ghost log: seq<Moment>)
    requires Lists(order, work)
    requires forall t, s | s != {} :: finish(t, s) != {} && finish(t, s) <= s
    ensures result.Ok? <==> maximum == 2 && 0.0 < totalBudget <= 14400.0
    ensures History(work, retained, trace) && trace[0] == Initial(work, retained)
    ensures result.Ok? ==>
              var last, c := trace[|trace| - 1], Clock(times, times(0) + totalBudget);
              && last.pending == {} && last.running == map[] && last.rows == result.value
              && result.value.Keys == retained.Keys + work.Keys && Kept(retained, result.value)
              // for every clock
              && Readings(log, c) && Witnessed(log, trace) && (work.Keys - retained.Keys != {} ==> FirstCheck(work, retained, log))
              && Verdicts(work, retained, last, c, log)
              && NamedFinally(work, retained, order, last, log) && LogReported(work, retained, log)
              // whoever ran reported its verdict and is told which dependencies failed
              && RunReports(work, result.value, last.started, report) && RowsAreTheirs(work, retained, result.value)
              // and without a deadline in the way
              && (Undelayed(c) ==> BlockedExactly(work, retained, last))
    // at most two run together, with neither a provider nor an exclusive resource in common
    ensures forall i | 0 <= i < |trace| :: Apart(work, trace[i].running.Keys)
  {
    hide Safe, DepSet, Stuck, Kept, HasMissing, Accounted, BlockedExactly, Lists, Undelayed, Weight, Readings, GoesOn,
         FirstCheck, Verdicts, LateFirstAttempt, Witnessed, NamedSoFar, NamedFinally, LogReported, AllReport, Collected, Apart, RunReports, RowsAreTheirs;
    var st, tick := Initial(work, retained), 0;
    InitialIsSafe(work, retained);
    trace, log := [st], [];
    RunsApart(work, retained, trace);
    if maximum != MAXIMUM {
      return Err(UnreviewedMaximum), trace, log;
    }
    if !(0.0 < totalBudget <= MAXIMUM_BUDGET) {
      return Err(UnreviewedBudget), trace, log;
    }
    var c := Clock(times, times(0) + totalBudget);
    InitialIsAccounted(work, retained, c);
    EmptyLogReads(c);
    NothingBlockedYet(work, retained);
    NothingReportedYet(report, work, retained);
    NamedEnds(work, retained, order, st, log);
    while st.pending != {} || st.running != map[]
      invariant Reached(work, retained, st, trace) && trace[0] == Initial(work, retained)
      invariant Accounted(work, retained, st, c, log) && |log| == tick && Readings(log, c) && Witnessed(log, trace)
      invariant (st.pending == {} && st.running == map[]) || (GoesOn(log, c, st) && NamedSoFar(work, retained, st))
      invariant NamedFinally(work, retained, order, st, log) && AllReport(report, retained, st.rows)
      invariant if log == [] then st == Initial(work, retained) else FirstCheck(work, retained, log)
      decreases Weight(st)
    {
      ghost var before := log;
      st, tick, trace, log := Turn(work, retained, order, c, tick, finish, report, st, trace, log);
      if before == [] {
        FirstTurnChecks(work, retained, log);
      } else {
        FirstCheckStays(work, retained, before, log);
      }
    }
    EndVerdicts(work, retained, st, c, log);
    LogIsReported(work, retained, st, c, log);
    if Undelayed(c) {
      UndelayedBlocksExactly(work, retained, st, c, log);
    }
    EndIsComplete(work, retained, st);
    StartedReports(work, retained, st, report);
    RunsApart(work, retained, trace);
    result := Ok(st.rows);
  }

  lemma NothingBlockedYet(work: map<Key, Work>, retained: map<Key, Row>)
    ensures NamedSoFar(work, retained, Initial(work, retained))
  {
  }

  lemma LogIsReported(work: map<Key, Work>, retained: map<Key, Row>, st: State, c: Clock, log: seq<Moment>)
    requires Accounted(work, retained, st, c, log)
    ensures LogReported(work, retained, log)
  {
  }

  // In every run, a blocked row names nothing exactly if its coordinate lacks nothing, and each of
  // its dependencies had a row, or was itself among what was left and came before.
  lemma BlockedNamesNothingExactly(work: map<Key, Work>, retained: map<Key, Row>, order: seq<Key>, last: State,
                                   log: seq<Moment>, k: Key)
    requires NamedFinally(work, retained, order, last, log) && LogReported(work, retained, log)
    requires k in work && k in last.rows && k !in retained && last.rows[k].verdict == BlockedDependency
    ensures last.rows[k].missing == [] <==>
            && !HasMissing(work, retained, k) && log != []
            && var left := log[|log| - 1].st;
              forall d | d in work[k].deps :: d in left.rows || (d in left.pending && d in Earlier(order, k))
  {
    var row := last.rows[k];
    if HasMissing(work, retained, k) {
      var d :| d in DepSet(work[k]) && d !in work.Keys + retained.Keys;
      assert d in row.missing;
    } else {
      NamesNothingExactly(work, order, log[|log| - 1].st, row, k);
    }
  }

  lemma EmptyLogReads(c: Clock)
    ensures Readings([], c) && forall trace :: Witnessed([], trace)
  {
  }

  lemma FirstCheckStays(work: map<Key, Work>, retained: map<Key, Row>, before: seq<Moment>, after: seq<Moment>)
    requires FirstCheck(work, retained, before) && before <= after
    ensures FirstCheck(work, retained, after)
  {
  }

  // One coordinate that needs nothing, and a deadline between the first check and the first attempt:
  // the coordinate never runs and is reported as blocked, although nothing is missing.
  method DeadlineBlocksReady(w: Work) returns (rows: map<Key, Row>)
    requires w.deps == []
    ensures rows.Keys == {"a"} && rows["a"].verdict == BlockedDependency && rows["a"].missing == []
  {
    hide Verdicts, Readings, FirstCheck, NamedFinally, Kept, BlockedExactly, Undelayed, DepSet, Safe;
    var work: map<Key, Work> := map["a" := w];
    var times := (i: nat) => if i < 2 then 0.0 else 1.0;
    var result, trace, log := ScheduleCoordinates(work, map[], ["a"], 1.0, 2, times, (t, s) => s, k => None);
    ghost var c := Clock(times, times(0) + 1.0);
    assert c.deadline == 1.0 && forall i: nat :: c.times(i) == if i < 2 then 0.0 else 1.0;
    assert work.Keys == {"a"} && work["a"].deps == [];
    ghost var none: map<Key, Row> := map[];
    assert "a" in work.Keys - none.Keys;
    OnlyAttemptIsLate(work, trace[|trace| - 1], c, log);
    NothingToName(work, ["a"], trace[|trace| - 1], log);
    rows := result.value;
  }

  lemma NothingToName(work: map<Key, Work>, order: seq<Key>, last: State, log: seq<Moment>)
    requires work.Keys == {"a"} && work["a"].deps == [] && NamedFinally(work, map[], order, last, log)
    requires "a" in last.rows && last.rows["a"].verdict == BlockedDependency
    ensures last.rows["a"].missing == []
  {
  }

  lemma OnlyAttemptIsLate(work: map<Key, Work>, last: State, c: Clock, log: seq<Moment>)
    requires work.Keys == {"a"} && work["a"].deps == []
    requires c.deadline == 1.0 && forall i: nat :: c.times(i) == if i < 2 then 0.0 else 1.0
    requires Readings(log, c) && FirstCheck(work, map[], log) && Verdicts(work, map[], last, c, log)
    ensures last.rows["a"].verdict == BlockedDependency
  {
    assert forall i: nat :: c.Late(i) <==> i >= 2;
    assert !HasMissing(work, map[], "a");
    assert "a" in log[0].st.pending;
    assert !StartedAt(log, c, "a");
    if |log| > 1 {
      assert log[1].Attempted? && LateFirstAttempt(log, c, 1);
      assert |log| == 2;
    }
    assert !ExhaustedAt(log, c, "a");
  }
}
