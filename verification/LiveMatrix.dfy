/**
 One execution of the live matrix: bind the inputs, retain earlier rows, run the rest
 (examples/v2_live_matrix.py).
 */
module LiveMatrix {
  import opened Common
  import opened CoordinateGraph
  import S = Scheduler

  function WorkOf(g: Graph, digests: map<Name, Digest>): map<Name, S.Work>
    requires g.Keys <= digests.Keys
  {
    map n | n in g :: S.Work(g[n].direct.provider, g[n].direct.resources.GetOr([]), g[n].deps, digests[n])
  }

  // An earlier row is credited only on an unchanged input digest.
  function Retained(prior: map<Name, S.Row>, digests: map<Name, Digest>): map<Name, S.Row> {
    map n | n in prior && n in digests && prior[n].digest == digests[n] :: prior[n]
  }

  // A retained row was collected under the same runner, on the same files and content, over
  // the whole upstream cone; and every such row is retained.
  lemma RetainedExactly(g: Graph, runner: string, digests: map<Name, Digest>, rank: map<Name, nat>,
                        earlier: Graph, earlierRunner: string, earlierDigests: map<Name, Digest>,
                        prior: map<Name, S.Row>, n: Name)
    requires Digested(g, runner, digests) && Ranked(g, g.Keys, rank) && Digested(earlier, earlierRunner, earlierDigests)
    requires n in prior && n in earlierDigests && prior[n].digest == earlierDigests[n] && n in digests
    ensures n in Retained(prior, digests) <==> runner == earlierRunner && SameCone(g, earlier, n)
  {
    DigestExact(g, runner, digests, earlier, earlierRunner, earlierDigests, rank, n);
  }

  // In a validated acyclic graph nothing is missing and nothing waits for itself.
  lemma AcceptedGraphNeverBlocks(g: Graph, digests: map<Name, Digest>, retained: map<Name, S.Row>, n: Name)
    requires g.Keys <= digests.Keys
    requires ValidGraph(g) && Acyclic(g) && n in g
    ensures var work := WorkOf(g, digests);
            !S.HasMissing(work, retained, n) && !S.Waits(work, retained, n)
  {
    var work := WorkOf(g, digests);
    forall m | m in g
      ensures S.DepSet(work[m]) == DepSet(g[m]) && !S.HasMissing(work, retained, m)
    {
      assert ValidDependencies(g, m);
    }
    forall s | S.Stuck(work, retained, s)
      ensures n !in s
    {
      assert s != {} ==> Stuck(g, s);
    }
  }

  ghost function NamesOf(attempts: seq<Coordinate>): set<Name> {
    set i | 0 <= i < |attempts| :: attempts[i].name
  }

  datatype ExecuteError = Rejected(rejection: Rejection) | Unbudgeted(budget: S.BudgetError)

  // The rows of an execution, the digests it bound, the checks without a row, and the outcome.
  datatype Execution = Execution(rows: map<Name, S.Row>, digests: map<Name, Digest>, missing: set<Name>, passed: bool)

  // Whoever was started has the verdict it reported, or an error if it raised, and its row names
  // exactly the dependencies that neither passed nor met a native gap.
  ghost predicate Reported(g: Graph, rows: map<Name, S.Row>, started: seq<Name>, report: Name -> Option<S.RunVerdict>) {
    forall n | n in started ::
      && n in g && n in rows
      && (report(n).Some? ==> rows[n].verdict == report(n).value)
      && (report(n).None? ==> rows[n].verdict == S.Error)
      && forall d :: d in rows[n].failedDeps <==>
           d in g[n].deps && d in rows
           && rows[d].verdict != S.Pass && rows[d].verdict != S.GapNativeMacos && rows[d].verdict != S.GapNativeLinux
  }

  lemma RunIsReported(g: Graph, digests: map<Name, Digest>, rows: map<Name, S.Row>, started: seq<Name>, report: Name -> Option<S.RunVerdict>)
    requires g.Keys <= digests.Keys && S.RunReports(WorkOf(g, digests), rows, started, report)
    ensures Reported(g, rows, started, report)
  {
  }

  // At most two coordinates, and of any two neither uses the other's provider or home, or a resource of it.
  ghost predicate Together(attempts: seq<Coordinate>, running: set<Name>) {
    && |running| <= 2
    && forall i, j | 0 <= i < |attempts| && 0 <= j < |attempts| && attempts[i].name != attempts[j].name
                     && attempts[i].name in running && attempts[j].name in running ::
         ShareNothing(attempts[i].direct, attempts[j].direct)
  }

  ghost predicate ShareNothing(a: Direct, b: Direct) {
    && a.provider != b.provider
    && (a.resources.Some? ==> "provider-home:" + b.provider !in a.resources.value)
    && (a.resources.Some? && b.resources.Some? ==> forall r | r in a.resources.value :: r !in b.resources.value)
  }

  lemma RunsTogether(attempts: seq<Coordinate>, g: Graph, digests: map<Name, Digest>, trace: seq<S.State>)
    requires Indexes(g, attempts) && g.Keys <= digests.Keys
    requires forall i | 0 <= i < |trace| :: S.Apart(WorkOf(g, digests), trace[i].running.Keys)
    ensures forall i | 0 <= i < |trace| :: Together(attempts, trace[i].running.Keys)
  {
    forall i | 0 <= i < |trace|
      ensures Together(attempts, trace[i].running.Keys)
    {
      ApartIsTogether(attempts, g, digests, trace[i].running.Keys);
    }
  }

  lemma ApartIsTogether(attempts: seq<Coordinate>, g: Graph, digests: map<Name, Digest>, running: set<Name>)
    requires Indexes(g, attempts) && g.Keys <= digests.Keys && S.Apart(WorkOf(g, digests), running)
    ensures Together(attempts, running)
  {
    var work := WorkOf(g, digests);
    forall i, j | 0 <= i < |attempts| && 0 <= j < |attempts| && attempts[i].name != attempts[j].name
                  && attempts[i].name in running && attempts[j].name in running
      ensures ShareNothing(attempts[i].direct, attempts[j].direct)
    {
      assert S.Strangers(work[attempts[i].name], work[attempts[j].name]);
    }
  }

  lemma RetainedStay(prior: map<Name, S.Row>, digests: map<Name, Digest>, rows: map<Name, S.Row>, started: seq<Name>)
    requires S.Kept(Retained(prior, digests), rows) && forall n | n in started :: n !in Retained(prior, digests)
    ensures forall n | n in prior && n in digests && prior[n].digest == digests[n] :: n in rows && rows[n] == prior[n] && n !in started
  {
  }

  ghost predicate Concluded(e: Execution, checks: set<Name>) {
    && e.missing == checks - e.rows.Keys
    && (e.passed <==>
          && (forall n | n in checks :: n in e.rows)
          && forall n | n in e.rows ::
               e.rows[n].verdict == S.Pass || e.rows[n].verdict == S.GapNativeMacos || e.rows[n].verdict == S.GapNativeLinux)
  }

  method Conclude(rows: map<Name, S.Row>, digests: map<Name, Digest>, checks: set<Name>) returns (e: Execution)
    ensures e.rows == rows && e.digests == digests && Concluded(e, checks)
  {
    var missing := checks - rows.Keys;
    assert forall n | n in checks && n !in rows :: n in missing;
    assert missing != {} ==> exists n :: n in missing;
    e := Execution(rows, digests, missing, missing == {} && forall n | n in rows :: S.Successful(rows[n].verdict));
  }

  method Execute(attempts: seq<Coordinate>, runner: string, prior: map<Name, S.Row>, checks: set<Name>,
                 order: seq<Name>, totalBudget: real, maximum: int,
                 times: nat -> real, finish: (nat, set<Name>) -> set<Name>, report: Name -> Option<S.RunVerdict>)
    returns (result: Result<Execution, ExecuteError>, ghost started: seq<Name>, ghost log: seq<S.Moment>, ghost trace: seq<S.State>)
    requires NamesOf(attempts) == set n | n in order
    requires forall t, s | s != {} :: finish(t, s) != {} && finish(t, s) <= s
    ensures result.Ok? <==>
              && WellFormed(attempts) && (forall s :: !Circular(attempts, s))
              && maximum == 2 && 0.0 < totalBudget <= 14400.0
    ensures result.Ok? ==>
              var graph, rows, digests := GraphOf(attempts), result.value.rows, result.value.digests;
              && digests.Keys == graph.Keys && Digested(graph, runner, digests) && Bound(attempts, runner, digests)
              && rows.Keys == graph.Keys
              && (forall n | n in rows :: rows[n].digest == digests[n])
    // an earlier row stays, and its coordinate is not run again, exactly on an unchanged digest
    ensures result.Ok? ==> forall n | n in prior && n in result.value.digests && prior[n].digest == result.value.digests[n] ::
              n in result.value.rows && result.value.rows[n] == prior[n] && n !in started
    // what runs together shares neither a provider nor a declared resource
    ensures result.Ok? ==>
              && trace != [] && trace[|trace| - 1].rows == result.value.rows && trace[|trace| - 1].started == started
              && S.Witnessed(log, trace)
              && forall i | 0 <= i < |trace| :: Together(attempts, trace[i].running.Keys)
    ensures forall i, j | 0 <= i < j < |started| :: started[i] != started[j]
    ensures result.Ok? ==> forall n | n in started :: n in GraphOf(attempts) && n !in Retained(prior, result.value.digests)
    // whoever ran reported its verdict and is told which dependencies failed
    ensures result.Ok? ==> Reported(GraphOf(attempts), result.value.rows, started, report)
    // it passed exactly if every check has a row and every row tells a pass or a native gap
    ensures result.Ok? ==> Concluded(result.value, checks)
    // whatever the clock: what was not retained ran, or the deadline ended it, in one of two ways
    ensures result.Ok? ==>
              var c, rows := S.Clock(times, times(0) + totalBudget), result.value.rows;
              && S.Readings(log, c)
              && forall n | n in GraphOf(attempts) && n !in Retained(prior, result.value.digests) ::
                   && (n in started <==> S.StartedAt(log, c, n)) && (n in started <==> S.Collected(rows[n].verdict))
                   && (rows[n].verdict == S.BudgetExhausted <==> S.ExhaustedAt(log, c, n))
                   && (rows[n].verdict == S.BlockedDependency <==> S.CaughtAt(log, c, n))
    // no deadline in the way: everything that was not retained ran, and nothing was blocked
    ensures result.Ok? && S.Undelayed(S.Clock(times, times(0) + totalBudget)) ==>
              forall n | n in GraphOf(attempts) && n !in Retained(prior, result.value.digests) ::
                n in started && S.Collected(result.value.rows[n].verdict)
  {
    hide Indexes, Digested, Acyclic, ValidGraph, DistinctNames, Ranked, FilesPresent, GraphOf,
         S.Kept, S.BlockedExactly, S.Safe, S.Lists, S.Undelayed, S.BlockedSet, S.Verdicts, S.Readings, S.HasMissing, S.Waits,
         S.StartedAt, S.ExhaustedAt, S.CaughtAt, S.Apart, S.Witnessed, S.FirstCheck, S.NamedFinally, S.LogReported,
         S.RunReports, S.RowsAreTheirs, Reported, Concluded, WellFormed, Circular, Bound, Together;
    started, log, trace := [], [], [];
    var bound := Coordinates(attempts, runner);
    if bound.Err? {
      return Err(Rejected(bound.error)), started, log, trace;
    }
    var byName := Index(attempts);
    GraphOfIndexes(attempts);
    IndexKeys(attempts, byName);
    NothingRetainedOutside(prior, bound.value);
    var work, retained := WorkOf(byName, bound.value), Retained(prior, bound.value);
    OrderLists(attempts, byName, order, work);
    var scheduled, states, moments := S.ScheduleCoordinates(work, retained, order, totalBudget, maximum, times, finish, report);
    if scheduled.Err? {
      return Err(Unbudgeted(scheduled.error)), started, log, trace;
    }
    ghost var last := states[|states| - 1];
    started, log, trace := last.started, moments, states;
    LastStateFacts(work, retained, trace, last);
    RunsTogether(attempts, byName, bound.value, trace);
    RetainedStay(prior, bound.value, scheduled.value, started);
    ghost var c := S.Clock(times, times(0) + totalBudget);
    forall n | n in byName && n !in retained
      ensures OnlyTheClockEnds(last, c, log, n)
    {
      AcceptedGraphNeverBlocks(byName, bound.value, retained, n);
      VerdictOf(work, retained, last, c, log, n);
    }
    RunIsReported(byName, bound.value, scheduled.value, started, report);
    var execution := Conclude(scheduled.value, bound.value, checks);
    result := Ok(execution);
  }

  // A coordinate ran, or a late check or a late first attempt ended it.
  ghost predicate OnlyTheClockEnds(last: S.State, c: S.Clock, log: seq<S.Moment>, n: Name) {
    && n in last.rows
    && (n in last.started <==> S.StartedAt(log, c, n)) && (n in last.started <==> S.Collected(last.rows[n].verdict))
    && (last.rows[n].verdict == S.BudgetExhausted <==> S.ExhaustedAt(log, c, n))
    && (last.rows[n].verdict == S.BlockedDependency <==> S.CaughtAt(log, c, n))
    && (S.Undelayed(c) ==> n in last.started)
  }

  lemma VerdictOf(work: map<Name, S.Work>, retained: map<Name, S.Row>, last: S.State, c: S.Clock, log: seq<S.Moment>, n: Name)
    requires S.Verdicts(work, retained, last, c, log) && n in work && n !in retained
    requires !S.HasMissing(work, retained, n) && !S.Waits(work, retained, n)
    ensures OnlyTheClockEnds(last, c, log, n)
  {
    hide S.HasMissing, S.Waits, S.StartedAt, S.ExhaustedAt, S.CaughtAt, S.Undelayed;
    if S.Undelayed(c) { S.UndelayedNeverLate(log, c, n); }
  }

  lemma NothingRetainedOutside(prior: map<Name, S.Row>, digests: map<Name, Digest>)
    ensures Retained(prior, digests).Keys <= digests.Keys
    ensures forall n | n in Retained(prior, digests) :: Retained(prior, digests)[n].digest == digests[n]
  {
  }

  lemma IndexKeys(attempts: seq<Coordinate>, g: Graph)
    requires Indexes(g, attempts)
    ensures g.Keys == NamesOf(attempts)
  {
  }

  lemma OrderLists(attempts: seq<Coordinate>, g: Graph, order: seq<Name>, work: map<Name, S.Work>)
    requires Indexes(g, attempts) && work.Keys == g.Keys
    requires NamesOf(attempts) == set n | n in order
    ensures S.Lists(order, work)
  {
    assert g.Keys == NamesOf(attempts);
    forall i | 0 <= i < |order|
      ensures order[i] in work
    {
      assert order[i] in set n | n in order;
    }
  }

  lemma LastStateFacts(work: map<Name, S.Work>, retained: map<Name, S.Row>, trace: seq<S.State>, last: S.State)
    requires S.History(work, retained, trace) && S.EndsIn(trace, last) && last.running == map[]
    requires S.Kept(retained, last.rows) && forall n | n in retained :: n in work && retained[n].digest == work[n].digest
    ensures forall i, j | 0 <= i < j < |last.started| :: last.started[i] != last.started[j]
    ensures forall n :: n in last.started <==> n in last.rows && n !in retained && S.Collected(last.rows[n].verdict)
    ensures forall n | n in last.rows :: n in work && last.rows[n].digest == work[n].digest
    ensures forall n | n in last.started :: n in work
  {
    assert S.Safe(work, retained, last);
  }
}
