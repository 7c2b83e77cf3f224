/**
 The process boundary of a provider (orchestrator_harness/processes.py).

 The operating system is a table of live processes that changes between any two
 queries; a script, arbitrary but for one rule, says how.  The rule: an incarnation,
 a PID with its creation identity, that has started once never starts again.  PIDs
 are reused freely.
 */
module ProcessBoundary {
  import opened Common

  type Pid = int

  datatype Identity = Identity(pid: Pid, creation: string)

  // An alive process may refuse to prove its creation identity.
  datatype Process = Process(creation: string, provable: bool)

  type Table = map<Pid, Process>

  predicate LiveIn(table: Table, id: Identity) {
    id.pid in table && table[id.pid].creation == id.creation
  }

  function Incarnations(table: Table): set<Identity> {
    set pid | pid in table :: Identity(pid, table[pid].creation)
  }

  predicate LegalChange(before: Table, after: Table, past: set<Identity>) {
    forall pid | pid in after ::
      LiveIn(before, Identity(pid, after[pid].creation)) || Identity(pid, after[pid].creation) !in past
  }

  // No incarnation of the past that is not running comes back.
  ghost predicate NoRevival(before: Table, after: Table, past: set<Identity>) {
    forall id | id in past && !LiveIn(before, id) :: !LiveIn(after, id)
  }

  /******* The history of the process table *******/

  // The table at one moment, and every incarnation that has started by then.
  datatype Moment = Moment(table: Table, past: set<Identity>)

  // Every change on the way was legal.
  ghost predicate Lawful(history: seq<Moment>) {
    && (forall i | 0 <= i < |history| :: Incarnations(history[i].table) <= history[i].past)
    && (forall i | 0 < i < |history| ::
          && LegalChange(history[i - 1].table, history[i].table, history[i - 1].past)
          && history[i - 1].past <= history[i].past)
  }

  ghost predicate LiveAt(history: seq<Moment>, m: nat, id: Identity) {
    m < |history| && LiveIn(history[m].table, id)
  }

  // A signal: whom it was meant for, and the moment of the identity check.  It is delivered
  // one change of the table later, to whomever the PID names then.
  datatype Signal = Signal(intended: Identity, force: bool, checked: nat)

  ghost function Hit(history: seq<Moment>, s: Signal): Option<Identity>
    requires s.checked + 1 < |history|
  {
    var delivered := history[s.checked + 1].table;
    if s.intended.pid in delivered then Some(Identity(s.intended.pid, delivered[s.intended.pid].creation)) else None
  }

  // The signal was delivered, and at its check the intended incarnation was live.
  ghost predicate Checked(history: seq<Moment>, s: Signal) {
    s.checked + 1 < |history| && LiveAt(history, s.checked, s.intended)
  }

  // A signal reaches its target exactly if the target is still live on delivery; it reaches
  // another process exactly if the target exited and its PID was reused within that one
  // change, and then the victim had not started by the time of the check.
  lemma HitsExactly(history: seq<Moment>, s: Signal)
    requires Lawful(history) && Checked(history, s)
    ensures Hit(history, s) == Some(s.intended) <==> LiveAt(history, s.checked + 1, s.intended)
    ensures Hit(history, s).Some? && Hit(history, s) != Some(s.intended) <==>
            s.intended.pid in history[s.checked + 1].table && !LiveAt(history, s.checked + 1, s.intended)
    ensures Hit(history, s).Some? && Hit(history, s) != Some(s.intended) ==>
              && Hit(history, s).value !in history[s.checked].past
              && forall m | 0 <= m <= s.checked :: !LiveAt(history, m, Hit(history, s).value)
  {
    var before, after := history[s.checked], history[s.checked + 1];
    assert s.intended in Incarnations(before.table);
    assert LegalChange(before.table, after.table, before.past);
    forall m | 0 <= m <= s.checked
      ensures Incarnations(history[m].table) <= before.past
    {
      PastGrows(history, m, s.checked);
    }
    if Hit(history, s).Some? && Hit(history, s) != Some(s.intended) {
      var victim := Hit(history, s).value;
      forall m | 0 <= m <= s.checked
        ensures !LiveAt(history, m, victim)
      {
        assert LiveAt(history, m, victim) ==> victim in Incarnations(history[m].table);
      }
    }
  }

  lemma PastGrows(history: seq<Moment>, m: nat, n: nat)
    requires Lawful(history) && m <= n < |history|
    ensures history[m].past <= history[n].past
    decreases n - m
  {
    if m < n {
      PastGrows(history, m, n - 1);
    }
  }

  // An identity that was to be terminated, and the moment that spoke against it.
  datatype Spared = Spared(id: Identity, at: nat)

  // Everything that happened so far.
  datatype Log = Log(history: seq<Moment>, signals: seq<Signal>, spared: seq<Spared>)

  ghost predicate Follows(after: Log, before: Log) {
    before.history <= after.history && before.signals <= after.signals && before.spared <= after.spared
  }

  ghost predicate Unsignalable(history: seq<Moment>, s: Spared) {
    && s.at < |history|
    && (s.id.pid <= 0 || s.id.creation == "" || !LiveAt(history, s.at, s.id) || !history[s.at].table[s.id.pid].provable)
  }

  // Since then it was signalled, or there was a moment at which it could not be.
  ghost predicate Handled(log: Log, since: Log, id: Identity) {
    || (exists i :: |since.signals| <= i < |log.signals| && log.signals[i].intended == id)
    || (exists i :: |since.spared| <= i < |log.spared| && log.spared[i].id == id && Unsignalable(log.history, log.spared[i]))
  }

  ghost predicate AllHandled(log: Log, since: Log, ids: set<Identity>) {
    forall id | id in ids :: Handled(log, since, id)
  }

  // Every signal since then was meant for one of the identities, checked to be live at a moment since then.
  ghost predicate AimedAt(log: Log, since: Log, ids: set<Identity>) {
    forall i | |since.signals| <= i < |log.signals| ::
      && log.signals[i].intended in ids
      && Checked(log.history, log.signals[i]) && |since.history| <= log.signals[i].checked
  }

  lemma HandledLater(log: Log, log': Log, since: Log, since': Log, ids: set<Identity>)
    requires AllHandled(log, since, ids) && Follows(log', log) && Follows(since, since')
    ensures AllHandled(log', since', ids)
  {
    forall id | id in ids
      ensures Handled(log', since', id)
    {
      assert Handled(log, since, id);
      if i :| |since.signals| <= i < |log.signals| && log.signals[i].intended == id {
        assert log'.signals[i] == log.signals[i];
      } else {
        var i :| |since.spared| <= i < |log.spared| && log.spared[i].id == id && Unsignalable(log.history, log.spared[i]);
        assert log'.spared[i] == log.spared[i] && Unsignalable(log'.history, log'.spared[i]);
      }
    }
  }

  lemma AimsJoin(since: Log, middle: Log, log: Log, ids: set<Identity>, more: set<Identity>)
    requires AimedAt(middle, since, ids) && AimedAt(log, middle, more) && Follows(middle, since) && Follows(log, middle)
    ensures AimedAt(log, since, ids + more)
  {
    forall i | |since.signals| <= i < |log.signals|
      ensures log.signals[i].intended in ids + more && Checked(log.history, log.signals[i])
      ensures |since.history| <= log.signals[i].checked
    {
      if i < |middle.signals| {
        assert log.signals[i] == middle.signals[i] && Checked(middle.history, middle.signals[i]);
      }
    }
  }

  lemma AimsLater(since: Log, log: Log, log': Log, ids: set<Identity>, more: set<Identity>)
    requires AimedAt(log, since, ids) && ids <= more && Follows(log', log) && log'.signals == log.signals
    ensures AimedAt(log', since, more)
  {
    forall i | |since.signals| <= i < |log.signals|
      ensures Checked(log'.history, log.signals[i])
    {
      assert Checked(log.history, log.signals[i]);
    }
  }

  lemma NothingSent(log: Log, since: Log, ids: set<Identity>)
    requires log.signals == since.signals
    ensures AimedAt(log, since, ids)
  {
  }

  /******* The operating system *******/

  // The process table and what will become of it.
  datatype World = World(table: Table, past: set<Identity>, script: seq<Table>)

  // Time passes: the next change of the script takes place if it is a legal one.
  function Drifted(w: World): World {
    if w.script == [] then w
    else if LegalChange(w.table, w.script[0], w.past) then
      World(w.script[0], w.past + Incarnations(w.script[0]), w.script[1..])
    else World(w.table, w.past, w.script[1..])
  }

  // Whether a termination that finds this world sends its signal: the PID is alive at two
  // queries, and at the third names the exact incarnation.
  ghost predicate Signals(w: World, id: Identity) {
    var first := Drifted(w);
    var second := Drifted(first);
    var third := Drifted(second);
    && id.pid > 0 && id.creation != ""
    && id.pid in first.table && id.pid in second.table && id.pid in third.table
    && third.table[id.pid] == Process(id.creation, true)
  }

  class OperatingSystem {
    var table: Table
    var past: set<Identity>         // every incarnation that has started
    var script: seq<Table>          // the coming changes
    var snapshots: seq<Snapshot>    // what the snapshot provider will return
    ghost var signals: seq<Signal>  // every signal sent
    ghost var history: seq<Moment>  // every table so far
    ghost var spared: seq<Spared>   // whom a termination sent nothing

    ghost predicate Valid()
      reads this
    {
      Lawful(history) && history != [] && history[|history| - 1] == Moment(table, past) && Incarnations(table) <= past
    }

    ghost function Logged(): Log
      reads this
    {
      Log(history, signals, spared)
    }

    ghost function Now(): World
      reads this
    {
      World(table, past, script)
    }

    constructor (table: Table, script: seq<Table>, snapshots: seq<Snapshot>)
      ensures Valid() && Now() == World(table, Incarnations(table), script) && this.snapshots == snapshots
      ensures signals == [] && history == [Moment(table, Incarnations(table))]
    {
      this.table, this.past, this.script, this.snapshots := table, Incarnations(table), script, snapshots;
      signals, spared := [], [];
      history := [Moment(table, Incarnations(table))];
    }

    method Drift()
      requires Valid()
      modifies this`table, this`past, this`script, this`history
      ensures Valid() && old(past) <= past && NoRevival(old(table), table, old(past))
      ensures Now() == Drifted(old(Now())) && history == old(history) + [Moment(table, past)]
    {
      if script != [] {
        if LegalChange(table, script[0], past) {
          table, past := script[0], past + Incarnations(script[0]);
        }
        script := script[1..];
      }
      history := history + [Moment(table, past)];
    }

    method Alive(pid: Pid) returns (alive: bool)
      requires Valid()
      modifies this`table, this`past, this`script, this`history
      ensures Valid() && old(past) <= past && NoRevival(old(table), table, old(past))
      ensures Now() == Drifted(old(Now())) && history == old(history) + [Moment(table, past)]
      ensures alive <==> pid in table
    {
      Drift();
      alive := pid in table;
    }

    method IdentityOf(pid: Pid) returns (creation: Option<string>)
      requires Valid()
      modifies this`table, this`past, this`script, this`history
      ensures Valid() && old(past) <= past && NoRevival(old(table), table, old(past))
      ensures Now() == Drifted(old(Now())) && history == old(history) + [Moment(table, past)]
      ensures creation == if pid in table && table[pid].provable then Some(table[pid].creation) else None
      ensures creation.Some? ==> LiveIn(table, Identity(pid, creation.value)) && Identity(pid, creation.value) in past
    {
      Drift();
      creation := if pid in table && table[pid].provable then Some(table[pid].creation) else None;
      if creation.Some? {
        assert Identity(pid, creation.value) in Incarnations(table);
      }
    }

    method TakeSnapshot() returns (s: Snapshot)
      requires Valid()
      modifies this`table, this`past, this`script, this`history, this`snapshots
      ensures Valid() && old(past) <= past && NoRevival(old(table), table, old(past))
      ensures old(history) < history
      ensures s == if old(snapshots) == [] then Snapshot(false, [], []) else old(snapshots)[0]
    {
      Drift();
      s := Snapshot(false, [], []);
      if snapshots != [] {
        s, snapshots := snapshots[0], snapshots[1..];
      }
    }

    // Signals one exact incarnation.  The table may change between the identity check and the signal.
    method Terminate(id: Identity, force: bool) returns (exited: bool)
      requires Valid()
      modifies this`table, this`past, this`script, this`history, this`signals, this`spared
      ensures Valid() && old(past) <= past && NoRevival(old(table), table, old(past))
      ensures Follows(Logged(), old(Logged()))
      // exactly one of the two logs grows, by an entry about this identity
      ensures if Signals(old(Now()), id)
              then && signals == old(signals) + [Signal(id, force, |old(history)| + 2)] && spared == old(spared)
                   && Checked(history, signals[|old(signals)|])
                   && |history| == |old(history)| + 5 && history[|old(history)| + 3].table == Drifted(Drifted(Drifted(Drifted(old(Now()))))).table
              else && signals == old(signals) && |spared| == |old(spared)| + 1
                   && spared[|old(spared)|].id == id && Unsignalable(history, spared[|old(spared)|])
                   && |old(history)| - 1 <= spared[|old(spared)|].at
      // the answer: there was nothing to signal, or the PID is gone after the signal
      ensures exited <==> if Signals(old(Now()), id) then id.pid !in table else id.pid <= 0 || id.pid !in Drifted(old(Now())).table
    {
      hide Drifted, Lawful, NoRevival, Incarnations, LiveIn;
      ghost var t0, p0 := table, past;
      NoRevivalYet(t0, p0);
      if id.pid <= 0 {
        spared := spared + [Spared(id, |history| - 1)];
        return true;
      }
      var alive := Alive(id.pid);
      if !alive {
        spared := spared + [Spared(id, |history| - 1)];
        AbsentIsUnsignalable(history, spared[|spared| - 1]);
        return true;
      }
      ghost var t1, p1 := table, past;
      var exact := IdentityMatches(id);
      NoRevivalJoin(t0, t1, table, p0, p1);
      if !exact {
        spared := spared + [Spared(id, |history| - 1)];
        return false;
      }
      ghost var checked, t2, p2 := |history| - 1, table, past;
      ghost var log := history;
      Drift();
      signals := signals + [Signal(id, force, checked)];
      CheckedStays(log, history, id, force);
      NoRevivalJoin(t0, t2, table, p0, p2);
      ghost var t3, p3 := table, past;
      alive := Alive(id.pid);
      NoRevivalJoin(t0, t3, table, p0, p3);
      exited := !alive;
    }

    // Is this exact incarnation alive?
    method IdentityMatches(id: Identity) returns (exact: bool)
      requires Valid()
      modifies this`table, this`past, this`script, this`history
      ensures Valid() && old(past) <= past && NoRevival(old(table), table, old(past))
      ensures old(history) <= history && |history| > |old(history)| && (exact ==> |history| == |old(history)| + 2)
      ensures exact ==> Now() == Drifted(Drifted(old(Now()))) && LiveAt(history, |history| - 1, id)
      ensures var second := Drifted(old(Now()));
              var third := Drifted(second);
              exact <==> id.creation != "" && id.pid in second.table && id.pid in third.table
                         && third.table[id.pid] == Process(id.creation, true)
      ensures !exact ==> Unsignalable(history, Spared(id, |history| - 1))
    {
      hide Drifted, Lawful, NoRevival, Incarnations;
      ghost var t0, p0 := table, past;
      var alive := Alive(id.pid);
      if id.creation == "" || !alive {
        return false;
      }
      ghost var t1, p1 := table, past;
      var current := IdentityOf(id.pid);
      NoRevivalJoin(t0, t1, table, p0, p1);
      exact := current == Some(id.creation);
    }
  }

  lemma NoRevivalYet(table: Table, past: set<Identity>)
    ensures NoRevival(table, table, past)
  {
  }

  lemma NoRevivalJoin(a: Table, b: Table, c: Table, past: set<Identity>, later: set<Identity>)
    requires NoRevival(a, b, past) && NoRevival(b, c, later) && past <= later
    ensures NoRevival(a, c, past)
  {
  }

  lemma AbsentIsUnsignalable(history: seq<Moment>, s: Spared)
    requires s.at < |history| && s.id.pid !in history[s.at].table
    ensures Unsignalable(history, s)
  {
  }

  lemma CheckedStays(before: seq<Moment>, after: seq<Moment>, id: Identity, force: bool)
    requires before != [] && LiveAt(before, |before| - 1, id) && |after| == |before| + 1 && before <= after
    ensures Checked(after, Signal(id, force, |before| - 1))
  {
    assert after[|before| - 1] == before[|before| - 1];
  }

  // The PID of a process that exits within the window is reused at once: the termination of
  // the one process hits the other.
  method WindowAdmitsVictim(pid: Pid, creation: string, other: string) returns (os: OperatingSystem)
    requires pid > 0 && creation != "" && creation != other
    ensures os.Valid() && |os.signals| == 1 && Checked(os.history, os.signals[0])
    ensures os.signals[0].intended == Identity(pid, creation)
    ensures Hit(os.history, os.signals[0]) == Some(Identity(pid, other))
  {
    var before, after := map[pid := Process(creation, true)], map[pid := Process(other, true)];
    os := new OperatingSystem(before, [before, before, before, after], []);
    ghost var past := Incarnations(before);
    assert past + past == past;
    assert Identity(pid, other) !in past;
    assert Drifted(os.Now()) == World(before, past, [before, before, after]);
    assert Drifted(World(before, past, [before, before, after])) == World(before, past, [before, after]);
    assert Drifted(World(before, past, [before, after])) == World(before, past, [after]);
    assert Drifted(World(before, past, [after])).table == after;
    var _ := os.Terminate(Identity(pid, creation), true);
  }

  /******* Snapshots *******/

  // One row of a process snapshot.  The creation instant is what the snapshot could read.
  datatype Item = Item(pid: Pid, ppid: Pid, group: Option<int>, session: Option<int>, created: Option<int>)

  // problems is what the provider of the snapshot reports.
  datatype Snapshot = Snapshot(complete: bool, processes: seq<Item>, problems: seq<string>)

  predicate InBoundary(item: Item, group: Option<int>, session: Option<int>) {
    (group.Some? && item.group == group) || (session.Some? && item.session == session)
  }

  // A set of PIDs that holds every seed and every snapshot child of its members.
  ghost predicate Closed(processes: seq<Item>, seeds: set<Pid>, group: Option<int>, session: Option<int>, c: set<Pid>) {
    forall i | 0 <= i < |processes| ::
      InBoundary(processes[i], group, session) || processes[i].pid in seeds || processes[i].ppid in c
      ==> processes[i].pid in c
  }

  ghost predicate ChildClosed(processes: seq<Item>, c: set<Pid>) {
    forall i | 0 <= i < |processes| && processes[i].ppid in c :: processes[i].pid in c
  }

  function PidsOf(ids: set<Identity>): set<Pid> {
    set id | id in ids :: id.pid
  }

  ghost function SnapshotPids(processes: seq<Item>): set<Pid> {
    set i | 0 <= i < |processes| :: processes[i].pid
  }

  ghost predicate Seed(processes: seq<Item>, known: set<Pid>, group: Option<int>, session: Option<int>, pid: Pid) {
    exists i :: 0 <= i < |processes| && processes[i].pid == pid && (InBoundary(processes[i], group, session) || pid in known)
  }

  // At some moment since then the PID named no process.
  ghost predicate Gone(history: seq<Moment>, from: nat, pid: Pid) {
    exists m :: from <= m < |history| && pid !in history[m].table
  }

  lemma GoneLater(history: seq<Moment>, later: seq<Moment>, from: nat)
    requires history <= later
    ensures forall pid | Gone(history, from, pid) :: Gone(later, from, pid)
  {
    forall pid | Gone(history, from, pid)
      ensures Gone(later, from, pid)
    {
      var m :| from <= m < |history| && pid !in history[m].table;
      assert later[m] == history[m];
    }
  }

  // Each of the first n rows in the group or session is captured, or its process was gone.
  ghost predicate MembersCovered(processes: seq<Item>, n: nat, group: Option<int>, session: Option<int>,
                                 captured: set<Pid>, history: seq<Moment>, from: nat)
    requires n <= |processes|
  {
    forall i | 0 <= i < n && InBoundary(processes[i], group, session) ::
      processes[i].pid in captured || Gone(history, from, processes[i].pid)
  }

  lemma MembersCoveredLater(processes: seq<Item>, n: nat, group: Option<int>, session: Option<int>,
                            captured: set<Pid>, history: seq<Moment>, later: seq<Moment>, from: nat)
    requires n <= |processes| && MembersCovered(processes, n, group, session, captured, history, from) && history <= later
    ensures MembersCovered(processes, n, group, session, captured, later, from)
  {
    hide Gone, InBoundary;
    GoneLater(history, later, from);
  }

  // A recorded incarnation among the first n rows is captured, unless it runs no more.
  ghost predicate RecordedCovered(processes: seq<Item>, n: nat, recorded: set<Identity>, table: Table, captured: set<Pid>)
    requires n <= |processes|
  {
    forall i, id | 0 <= i < n && id in recorded && id.pid == processes[i].pid && LiveIn(table, id) ::
      processes[i].pid in captured
  }

  // Each of the first n rows with a captured parent is captured, or its process was gone.
  ghost predicate ChildrenCovered(processes: seq<Item>, n: nat, captured: set<Pid>, history: seq<Moment>, from: nat)
    requires n <= |processes|
  {
    forall i | 0 <= i < n && processes[i].ppid in captured ::
      processes[i].pid in captured || Gone(history, from, processes[i].pid)
  }

  lemma NothingCovered(processes: seq<Item>, group: Option<int>, session: Option<int>, recorded: set<Identity>, table: Table,
                       captured: set<Pid>, history: seq<Moment>, from: nat)
    ensures MembersCovered(processes, 0, group, session, captured, history, from)
    ensures RecordedCovered(processes, 0, recorded, table, captured)
  {
  }

  lemma MembersCoveredGrows(processes: seq<Item>, k: nat, group: Option<int>, session: Option<int>, captured: set<Pid>, more: set<Pid>,
                            history: seq<Moment>, later: seq<Moment>, from: nat)
    requires k < |processes| && MembersCovered(processes, k, group, session, captured, history, from)
    requires captured <= more && history <= later
    requires InBoundary(processes[k], group, session) ==> processes[k].pid in more || Gone(later, from, processes[k].pid)
    ensures MembersCovered(processes, k + 1, group, session, more, later, from)
  {
    hide Gone, InBoundary;
    GoneLater(history, later, from);
  }

  lemma RecordedCoveredGrows(processes: seq<Item>, k: nat, recorded: set<Identity>, captured: set<Pid>, more: set<Pid>,
                             table: Table, later: Table, past: set<Identity>)
    requires k < |processes| && RecordedCovered(processes, k, recorded, table, captured)
    requires captured <= more && recorded <= past && NoRevival(table, later, past)
    requires forall id | id in recorded && id.pid == processes[k].pid && LiveIn(later, id) :: id.pid in more
    ensures RecordedCovered(processes, k + 1, recorded, later, more)
  {
    hide LiveIn;
  }

  lemma RecordedCoveredLater(processes: seq<Item>, recorded: set<Identity>, captured: set<Pid>, more: set<Pid>,
                             table: Table, later: Table, past: set<Identity>)
    requires RecordedCovered(processes, |processes|, recorded, table, captured)
    requires captured <= more && recorded <= past && NoRevival(table, later, past)
    ensures RecordedCovered(processes, |processes|, recorded, later, more)
  {
    hide LiveIn;
  }

  // The captured set lies in every child-closed set around the members.
  ghost predicate Least(processes: seq<Item>, members: set<Pid>, captured: set<Pid>) {
    forall c | members <= c && ChildClosed(processes, c) :: captured <= c
  }

  lemma LeastStarts(processes: seq<Item>, members: set<Pid>)
    ensures Least(processes, members, members)
  {
  }

  lemma LeastGrows(processes: seq<Item>, members: set<Pid>, captured: set<Pid>, k: nat)
    requires Least(processes, members, captured) && k < |processes| && processes[k].ppid in captured
    ensures Least(processes, members, captured + {processes[k].pid})
    ensures processes[k].pid in SnapshotPids(processes)
  {
  }

  lemma CoverageStarts(processes: seq<Item>, captured: set<Pid>, history: seq<Moment>, from: nat)
    ensures ChildrenCovered(processes, 0, captured, history, from)
  {
  }

  lemma CoverageSteps(processes: seq<Item>, k: nat, captured: set<Pid>, history: seq<Moment>, later: seq<Moment>, from: nat)
    requires k < |processes| && ChildrenCovered(processes, k, captured, history, from) && history <= later
    requires processes[k].ppid !in captured || processes[k].pid in captured || Gone(later, from, processes[k].pid)
    ensures ChildrenCovered(processes, k + 1, captured, later, from)
  {
    hide Gone;
    GoneLater(history, later, from);
  }

  /******* Lineage *******/

  // On what ground a row's process was captured: it is a recorded incarnation, it is in the
  // group or the session, or an earlier capture, live at that moment, is its snapshot parent.
  datatype Ground = Recorded | Member | Child(parent: nat, at: nat)

  // A captured incarnation, its snapshot row, and the moment at which it was found live.
  datatype Capture = Capture(id: Identity, row: nat, at: nat, ground: Ground)

  // The snapshot's incarnation is the one captured.
  ghost predicate SameIncarnation(item: Item, instantOf: string -> Option<int>, id: Identity) {
    item.created.Some? && instantOf(id.creation) == item.created
  }

  ghost predicate Grounded(lineage: seq<Capture>, k: nat, processes: seq<Item>, group: Option<int>, session: Option<int>,
                           recorded: set<Identity>, instantOf: string -> Option<int>, history: seq<Moment>, from: nat)
    requires k < |lineage|
  {
    var c := lineage[k];
    && c.row < |processes| && processes[c.row].pid == c.id.pid
    && from <= c.at && LiveAt(history, c.at, c.id)
    && match c.ground
       case Recorded => c.id in recorded
       case Member => InBoundary(processes[c.row], group, session) && SameIncarnation(processes[c.row], instantOf, c.id)
       case Child(j, at) =>
         && j < k && lineage[j].id.pid == processes[c.row].ppid
         && from <= at && LiveAt(history, at, lineage[j].id)
         && SameIncarnation(processes[c.row], instantOf, c.id)
  }

  // Every capture rests on earlier ones, down to recorded incarnations and members.
  ghost predicate Lineal(lineage: seq<Capture>, processes: seq<Item>, group: Option<int>, session: Option<int>,
                         recorded: set<Identity>, instantOf: string -> Option<int>, history: seq<Moment>, from: nat)
  {
    forall k | 0 <= k < |lineage| :: Grounded(lineage, k, processes, group, session, recorded, instantOf, history, from)
  }

  ghost predicate InLineage(lineage: seq<Capture>, id: Identity) {
    exists k :: 0 <= k < |lineage| && lineage[k].id == id
  }

  // Whatever is captured now has its place in the lineage.
  ghost predicate Traced(lineage: seq<Capture>, captured: map<Pid, string>) {
    forall pid | pid in captured :: InLineage(lineage, Identity(pid, captured[pid]))
  }

  lemma LinealLater(lineage: seq<Capture>, processes: seq<Item>, group: Option<int>, session: Option<int>,
                    recorded: set<Identity>, instantOf: string -> Option<int>, history: seq<Moment>, history': seq<Moment>, from: nat)
    requires Lineal(lineage, processes, group, session, recorded, instantOf, history, from) && history <= history'
    ensures Lineal(lineage, processes, group, session, recorded, instantOf, history', from)
  {
    forall k | 0 <= k < |lineage|
      ensures Grounded(lineage, k, processes, group, session, recorded, instantOf, history', from)
    {
      assert Grounded(lineage, k, processes, group, session, recorded, instantOf, history, from);
    }
  }

  lemma LinealGrows(lineage: seq<Capture>, c: Capture, processes: seq<Item>, group: Option<int>, session: Option<int>,
                    recorded: set<Identity>, instantOf: string -> Option<int>, history: seq<Moment>, from: nat)
    requires Lineal(lineage, processes, group, session, recorded, instantOf, history, from)
    requires Grounded(lineage + [c], |lineage|, processes, group, session, recorded, instantOf, history, from)
    ensures Lineal(lineage + [c], processes, group, session, recorded, instantOf, history, from)
  {
    forall k | 0 <= k < |lineage|
      ensures Grounded(lineage + [c], k, processes, group, session, recorded, instantOf, history, from)
    {
      assert Grounded(lineage, k, processes, group, session, recorded, instantOf, history, from);
    }
  }

  lemma TracedGrows(lineage: seq<Capture>, c: Capture, captured: map<Pid, string>)
    requires Traced(lineage, captured)
    ensures Traced(lineage + [c], captured[c.id.pid := c.id.creation]) && Traced(lineage + [c], captured)
  {
    var next := lineage + [c];
    assert next[|lineage|] == c;
    forall id | InLineage(lineage, id)
      ensures InLineage(next, id)
    {
      var k :| 0 <= k < |lineage| && lineage[k].id == id;
      assert next[k] == lineage[k];
    }
  }

  // Where the captured incarnation of a PID stands.
  ghost function PlaceOf(lineage: seq<Capture>, captured: map<Pid, string>, pid: Pid): (j: nat)
    requires Traced(lineage, captured) && pid in captured
    ensures j < |lineage| && lineage[j].id == Identity(pid, captured[pid])
  {
    assert InLineage(lineage, Identity(pid, captured[pid]));
    var j :| 0 <= j < |lineage| && lineage[j].id == Identity(pid, captured[pid]);
    j
  }

  lemma TracedMeans(lineage: seq<Capture>, captured: map<Pid, string>)
    requires Traced(lineage, captured)
    ensures forall pid | pid in captured :: InLineage(lineage, Identity(pid, captured[pid]))
  {
  }

  lemma NothingTraced(processes: seq<Item>, group: Option<int>, session: Option<int>, recorded: set<Identity>,
                      instantOf: string -> Option<int>, history: seq<Moment>, from: nat)
    ensures Traced([], map[]) && Lineal([], processes, group, session, recorded, instantOf, history, from)
  {
  }

  // A child enters the lineage below the captured incarnation of its parent.
  lemma ChildCaptured(lineage: seq<Capture>, captured: map<Pid, string>, processes: seq<Item>, k: nat, creation: string,
                      group: Option<int>, session: Option<int>, recorded: set<Identity>, instantOf: string -> Option<int>,
                      at: nat, history: seq<Moment>, from: nat)
    returns (more: seq<Capture>)
    requires k < |processes| && processes[k].ppid in captured && Traced(lineage, captured)
    requires Lineal(lineage, processes, group, session, recorded, instantOf, history, from)
    requires from <= at < |history| && LiveAt(history, at, Identity(processes[k].pid, creation))
    requires LiveAt(history, |history| - 1, Identity(processes[k].ppid, captured[processes[k].ppid]))
    requires SameIncarnation(processes[k], instantOf, Identity(processes[k].pid, creation))
    ensures |more| == |lineage| + 1 && lineage <= more
    ensures more[|lineage|].row == k && more[|lineage|].ground.Child? && more[|lineage|].id == Identity(processes[k].pid, creation)
    ensures Lineal(more, processes, group, session, recorded, instantOf, history, from)
    ensures Traced(more, captured) && Traced(more, captured[processes[k].pid := creation])
  {
    hide Lineal, Traced, InLineage;
    var j := PlaceOf(lineage, captured, processes[k].ppid);
    var c := Capture(Identity(processes[k].pid, creation), k, at, Child(j, |history| - 1));
    more := lineage + [c];
    assert Grounded(more, |lineage|, processes, group, session, recorded, instantOf, history, from);
    LinealGrows(lineage, c, processes, group, session, recorded, instantOf, history, from);
    TracedGrows(lineage, c, captured);
  }

  lemma MembersLieInClosedSets(processes: seq<Item>, known: set<Pid>, group: Option<int>, session: Option<int>,
                               members: set<Pid>, captured: set<Pid>)
    requires forall pid | pid in members :: Seed(processes, known, group, session, pid)
    requires Least(processes, members, captured)
    ensures forall c | Closed(processes, known, group, session, c) :: captured <= c
  {
    forall c | Closed(processes, known, group, session, c)
      ensures captured <= c
    {
      assert ChildClosed(processes, c);
      forall pid | pid in members
        ensures pid in c
      {
        assert Seed(processes, known, group, session, pid);
      }
    }
  }

  ghost predicate AllGone(ids: set<Identity>, table: Table) {
    forall id | id in ids :: !LiveIn(table, id)
  }

  /******* Errors *******/

  datatype Problem =
    | RootPidInvalid
    | RootIdentityMissing
    | SnapshotProblem(text: string)
    | RootReused
    | NoSnapshotIdentity(pid: Pid)
    | IdentityUnavailable(pid: Pid)
    | IncarnationUnprovable(pid: Pid)
    | IncarnationChanged(pid: Pid)
    | ParentDrifted(pid: Pid)

  // At that moment the incarnation is live and can prove it.
  ghost predicate Proves(history: seq<Moment>, m: nat, id: Identity) {
    LiveAt(history, m, id) && history[m].table[id.pid].provable
  }

  // What an error of an observation means: something was the matter since it began.
  ghost predicate Genuine(p: Problem, s: Snapshot, root: Identity, instantOf: string -> Option<int>, history: seq<Moment>, from: nat) {
    match p
    case SnapshotProblem(text) => !s.complete && text in s.problems
    case RootReused =>
      exists k, m :: 0 <= k < |s.processes| && s.processes[k].pid == root.pid && from <= m < |history|
        && (s.processes[k].created.None? || root.creation == "" || !Proves(history, m, root))
    case NoSnapshotIdentity(pid) => exists k :: 0 <= k < |s.processes| && s.processes[k].pid == pid && s.processes[k].created.None?
    case IdentityUnavailable(pid) =>
      exists m :: from < m < |history| && pid in history[m].table
        && (pid !in history[m - 1].table || !history[m - 1].table[pid].provable)
    case IncarnationUnprovable(pid) => exists k, m, creation :: Mismatch(s, k, m, Identity(pid, creation), instantOf, history, from)
                                         && instantOf(creation).None?
    case IncarnationChanged(pid) => exists k, m, creation :: Mismatch(s, k, m, Identity(pid, creation), instantOf, history, from)
    case ParentDrifted(pid) =>
      exists before, m, creation :: from <= before < m < |history| && LiveAt(history, before, Identity(pid, creation))
        && !Proves(history, m, Identity(pid, creation))
    case _ => false
  }

  // A live incarnation is not the one that a row of its PID describes.
  ghost predicate Mismatch(s: Snapshot, k: nat, m: nat, id: Identity, instantOf: string -> Option<int>, history: seq<Moment>, from: nat) {
    && k < |s.processes| && s.processes[k].pid == id.pid && s.processes[k].created.Some?
    && from <= m && LiveAt(history, m, id) && instantOf(id.creation) != s.processes[k].created
  }

  ghost predicate AllGenuine(errors: seq<Problem>, n: nat, s: Snapshot, root: Identity, instantOf: string -> Option<int>,
                             history: seq<Moment>, from: nat)
  {
    forall i | n <= i < |errors| :: Genuine(errors[i], s, root, instantOf, history, from)
  }

  lemma GenuineLater(p: Problem, s: Snapshot, root: Identity, instantOf: string -> Option<int>,
                     history: seq<Moment>, later: seq<Moment>, from: nat)
    requires Genuine(p, s, root, instantOf, history, from) && history <= later
    ensures Genuine(p, s, root, instantOf, later, from)
  {
    assert forall m | 0 <= m < |history| :: later[m] == history[m];
    match p
    case RootReused =>
      var k, m :| 0 <= k < |s.processes| && s.processes[k].pid == root.pid && from <= m < |history|
        && (s.processes[k].created.None? || root.creation == "" || !Proves(history, m, root));
      assert Proves(later, m, root) ==> Proves(history, m, root);
    case IncarnationUnprovable(pid) =>
      var k, m, creation :| Mismatch(s, k, m, Identity(pid, creation), instantOf, history, from) && instantOf(creation).None?;
      assert Mismatch(s, k, m, Identity(pid, creation), instantOf, later, from);
    case IncarnationChanged(pid) =>
      var k, m, creation :| Mismatch(s, k, m, Identity(pid, creation), instantOf, history, from);
      assert Mismatch(s, k, m, Identity(pid, creation), instantOf, later, from);
    case ParentDrifted(pid) =>
      var before, m, creation :| from <= before < m < |history| && LiveAt(history, before, Identity(pid, creation))
        && !Proves(history, m, Identity(pid, creation));
      assert LiveAt(later, before, Identity(pid, creation)) && !Proves(later, m, Identity(pid, creation));
    case _ =>
  }

  lemma AllGenuineLater(errors: seq<Problem>, n: nat, s: Snapshot, root: Identity, instantOf: string -> Option<int>,
                        history: seq<Moment>, later: seq<Moment>, from: nat)
    requires AllGenuine(errors, n, s, root, instantOf, history, from) && history <= later
    ensures AllGenuine(errors, n, s, root, instantOf, later, from)
  {
    hide Genuine;
    forall i | n <= i < |errors|
      ensures Genuine(errors[i], s, root, instantOf, later, from)
    {
      GenuineLater(errors[i], s, root, instantOf, history, later, from);
    }
  }

  // One more error at the most, and a genuine one.
  ghost predicate AddsGenuine(before: seq<Problem>, after: seq<Problem>, s: Snapshot, root: Identity, instantOf: string -> Option<int>,
                              history: seq<Moment>, from: nat)
  {
    after == before || (|after| == |before| + 1 && after[..|before|] == before
                        && Genuine(after[|before|], s, root, instantOf, history, from))
  }

  lemma AllGenuineGrows(before: seq<Problem>, after: seq<Problem>, n: nat, s: Snapshot, root: Identity, instantOf: string -> Option<int>,
                        history: seq<Moment>, later: seq<Moment>, from: nat)
    requires AllGenuine(before, n, s, root, instantOf, history, from) && history <= later && n <= |before|
    requires AddsGenuine(before, after, s, root, instantOf, later, from)
    ensures AllGenuine(after, n, s, root, instantOf, later, from) && before <= after
  {
    hide Genuine;
    AllGenuineLater(before, n, s, root, instantOf, history, later, from);
    assert forall i | 0 <= i < |before| :: after[..|before|][i] == after[i];
    assert |after| > |before| ==> after == after[..|before|] + [after[|before|]];
  }

  // The last row of a PID, the one that an index by PID keeps.
  function LastRow(processes: seq<Item>, pid: Pid): (row: Option<nat>)
    ensures row.None? <==> pid !in SnapshotPids(processes)
    ensures row.Some? ==> row.value < |processes| && processes[row.value].pid == pid
    ensures row.Some? ==> forall i | row.value < i < |processes| :: processes[i].pid != pid
  {
    if processes == [] then None
    else
      var n := |processes| - 1;
      assert forall i | 0 <= i < n :: processes[..n][i] == processes[i];
      if processes[n].pid == pid then Some(n) else LastRow(processes[..n], pid)
  }

  // At a moment since then the PID named no process that proves its identity.
  ghost predicate Unproven(history: seq<Moment>, from: nat, pid: Pid) {
    exists m :: from <= m < |history| && (pid !in history[m].table || !history[m].table[pid].provable)
  }

  lemma MismatchIsGenuine(before: seq<Problem>, after: seq<Problem>, s: Snapshot, k: nat, m: nat, creation: string,
                          root: Identity, instantOf: string -> Option<int>, history: seq<Moment>, from: nat)
    requires k < |s.processes| && Mismatch(s, k, m, Identity(s.processes[k].pid, creation), instantOf, history, from)
    requires after == before + [if instantOf(creation).None? then IncarnationUnprovable(s.processes[k].pid)
                                else IncarnationChanged(s.processes[k].pid)]
    ensures AddsGenuine(before, after, s, root, instantOf, history, from)
  {
  }

  // A captured parent that no longer proves its identity has drifted.
  lemma ParentUnproven(lineage: seq<Capture>, captured: map<Pid, string>, s: Snapshot, ppid: Pid, root: Identity,
                       group: Option<int>, session: Option<int>, recorded: set<Identity>, instantOf: string -> Option<int>,
                       before: seq<Moment>, history: seq<Moment>, from: nat)
    requires ppid in captured && Traced(lineage, captured) && before < history
    requires Lineal(lineage, s.processes, group, session, recorded, instantOf, before, from)
    requires !Proves(history, |history| - 1, Identity(ppid, captured[ppid]))
    ensures Genuine(ParentDrifted(ppid), s, root, instantOf, history, from)
  {
    var j := PlaceOf(lineage, captured, ppid);
    assert Grounded(lineage, j, s.processes, group, session, recorded, instantOf, before, from);
    assert LiveAt(history, lineage[j].at, Identity(ppid, captured[ppid]));
  }

  // An identity of a row of the root's PID that is not the root's.
  lemma RootIsReused(before: seq<Problem>, s: Snapshot, k: nat, root: Identity, creation: Option<string>,
                     instantOf: string -> Option<int>, history: seq<Moment>, since: nat, from: nat)
    requires k < |s.processes| && s.processes[k].pid == root.pid && from <= since && from < |history|
    requires creation != if root.creation == "" then None else Some(root.creation)
    requires creation.Some? ==> since < |history| && LiveAt(history, |history| - 1, Identity(root.pid, creation.value))
    requires creation.None? && s.processes[k].created.Some? ==> Unproven(history, since, root.pid)
    ensures AddsGenuine(before, before + [RootReused], s, root, instantOf, history, from)
  {
    assert Proves(history, |history| - 1, root) ==> LiveAt(history, |history| - 1, root);
    if creation.None? && s.processes[k].created.Some? {
      var m :| since <= m < |history| && (root.pid !in history[m].table || !history[m].table[root.pid].provable);
      assert !Proves(history, m, root);
    } else if creation.Some? && root.creation != "" {
      assert !Proves(history, |history| - 1, root);
    }
  }

  // No new error tells of a drifted parent.
  ghost predicate Undrifted(before: seq<Problem>, after: seq<Problem>) {
    |before| <= |after| && forall i | |before| <= i < |after| :: !after[i].ParentDrifted?
  }

  // Of the new errors only the last one tells of a drifted parent.
  ghost predicate DriftEnds(before: seq<Problem>, after: seq<Problem>) {
    |after| > |before| && after[|after| - 1].ParentDrifted? && forall i | |before| <= i < |after| - 1 :: !after[i].ParentDrifted?
  }

  lemma NothingNew(errors: seq<Problem>, s: Snapshot, root: Identity, instantOf: string -> Option<int>, history: seq<Moment>, from: nat)
    ensures AllGenuine(errors, |errors|, s, root, instantOf, history, from)
  {
  }

  function Told(s: Snapshot): seq<Problem> {
    seq(|s.problems|, i requires 0 <= i < |s.problems| => SnapshotProblem(s.problems[i]))
  }

  lemma ToldAre(s: Snapshot)
    ensures |Told(s)| == |s.problems| && forall i | 0 <= i < |s.problems| :: Told(s)[i] == SnapshotProblem(s.problems[i])
  {
  }

  lemma ProblemsAreGenuine(before: seq<Problem>, s: Snapshot, root: Identity, instantOf: string -> Option<int>,
                           history: seq<Moment>, from: nat)
    requires !s.complete
    ensures AllGenuine(before + Told(s), |before|, s, root, instantOf, history, from)
  {
    forall i | |before| <= i < |before| + |s.problems|
      ensures Genuine((before + Told(s))[i], s, root, instantOf, history, from)
    {
      assert (before + Told(s))[i] == SnapshotProblem(s.problems[i - |before|]);
    }
  }

  /******* Observations *******/

  // One observation: its snapshot, the group and session it went by, what it captured and on
  // what grounds, and the errors after it.
  datatype Observation = Observation(snapshot: Snapshot, group: Option<int>, session: Option<int>, captured: set<Pid>,
                                     lineage: seq<Capture>, errors: seq<Problem>)

  // For every captured PID an incarnation of the lineage is owned.
  ghost predicate CapturedOwned(o: Observation, owned: set<Identity>) {
    forall pid | pid in o.captured :: exists creation :: Identity(pid, creation) in owned && InLineage(o.lineage, Identity(pid, creation))
  }

  // The boundary of the snapshot is captured and owned: every member and every child of a captured
  // process unless its PID was free meanwhile, and every recorded incarnation that still runs.
  ghost predicate Closure(o: Observation, recorded: set<Identity>, owned: set<Identity>, history: seq<Moment>, from: nat) {
    && history != []
    && MembersCovered(o.snapshot.processes, |o.snapshot.processes|, o.group, o.session, o.captured, history, from)
    && ChildrenCovered(o.snapshot.processes, |o.snapshot.processes|, o.captured, history, from)
    && RecordedCovered(o.snapshot.processes, |o.snapshot.processes|, recorded, history[|history| - 1].table, o.captured)
    && CapturedOwned(o, owned)
  }

  // The same on the rows: whoever has the group or the session, and whoever has a captured parent, is
  // captured, or at a moment since then its PID was free.
  ghost predicate Contains(o: Observation, history: seq<Moment>, from: nat) {
    && (forall row | row in o.snapshot.processes
          && ((o.group.Some? && row.group == o.group) || (o.session.Some? && row.session == o.session)) ::
          row.pid in o.captured || exists m :: from <= m < |history| && row.pid !in history[m].table)
    && (forall row | row in o.snapshot.processes && row.ppid in o.captured ::
          row.pid in o.captured || exists m :: from <= m < |history| && row.pid !in history[m].table)
  }

  // And on the lineage: what a capture rests on.
  ghost predicate Founded(o: Observation, recorded: set<Identity>) {
    forall c | c in o.lineage ::
      && c.row < |o.snapshot.processes|
      && var row := o.snapshot.processes[c.row];
         && row.pid == c.id.pid
         && match c.ground
            case Recorded => c.id in recorded
            case Member => (o.group.Some? && row.group == o.group) || (o.session.Some? && row.session == o.session)
            case Child(parent, at) => parent < |o.lineage| && o.lineage[parent].id.pid == row.ppid
  }

  lemma ClosureContains(o: Observation, recorded: set<Identity>, owned: set<Identity>, history: seq<Moment>, from: nat)
    requires Closure(o, recorded, owned, history, from)
    ensures Contains(o, history, from)
  {
    var rows := o.snapshot.processes;
    forall row | row in rows && (InBoundary(row, o.group, o.session) || row.ppid in o.captured)
      ensures row.pid in o.captured || exists m :: from <= m < |history| && row.pid !in history[m].table
    {
      var i :| 0 <= i < |rows| && rows[i] == row;
      assert row.pid in o.captured || Gone(history, from, row.pid);
    }
  }

  lemma LinealIsFounded(o: Observation, recorded: set<Identity>, instantOf: string -> Option<int>, history: seq<Moment>, from: nat)
    requires Lineal(o.lineage, o.snapshot.processes, o.group, o.session, recorded, instantOf, history, from)
    ensures Founded(o, recorded)
  {
    forall c | c in o.lineage
      ensures c.row < |o.snapshot.processes|
    {
      var k :| 0 <= k < |o.lineage| && o.lineage[k] == c;
      assert Grounded(o.lineage, k, o.snapshot.processes, o.group, o.session, recorded, instantOf, history, from);
    }
    forall c | c in o.lineage
      ensures var row := o.snapshot.processes[c.row];
              && row.pid == c.id.pid
              && match c.ground
                 case Recorded => c.id in recorded
                 case Member => (o.group.Some? && row.group == o.group) || (o.session.Some? && row.session == o.session)
                 case Child(parent, at) => parent < |o.lineage| && o.lineage[parent].id.pid == row.ppid
    {
      var k :| 0 <= k < |o.lineage| && o.lineage[k] == c;
      assert Grounded(o.lineage, k, o.snapshot.processes, o.group, o.session, recorded, instantOf, history, from);
    }
  }

  lemma ClosureHolds(o: Observation, recorded: set<Identity>, owned: set<Identity>, members: set<Pid>,
                     selected: seq<Moment>, history: seq<Moment>, from: nat, table: Table, past: set<Identity>)
    requires members <= o.captured && selected <= history && history != [] && recorded <= past
    requires MembersCovered(o.snapshot.processes, |o.snapshot.processes|, o.group, o.session, members, selected, from)
    requires RecordedCovered(o.snapshot.processes, |o.snapshot.processes|, recorded, table, members)
    requires NoRevival(table, history[|history| - 1].table, past)
    requires ChildrenCovered(o.snapshot.processes, |o.snapshot.processes|, o.captured, history, from)
    requires CapturedOwned(o, owned)
    ensures Closure(o, recorded, owned, history, from)
  {
    hide MembersCovered, RecordedCovered, ChildrenCovered, CapturedOwned, NoRevival;
    MembersCoveredLater(o.snapshot.processes, |o.snapshot.processes|, o.group, o.session, members, selected, history, from);
    MembersCoveredWider(o.snapshot.processes, o.group, o.session, members, o.captured, history, from);
    RecordedCoveredLater(o.snapshot.processes, recorded, members, o.captured, table, history[|history| - 1].table, past);
  }

  lemma MembersCoveredWider(processes: seq<Item>, group: Option<int>, session: Option<int>, captured: set<Pid>, more: set<Pid>,
                            history: seq<Moment>, from: nat)
    requires MembersCovered(processes, |processes|, group, session, captured, history, from) && captured <= more
    ensures MembersCovered(processes, |processes|, group, session, more, history, from)
  {
    hide Gone, InBoundary;
  }

  lemma AllAreOwned(o: Observation, owned: set<Identity>, all: map<Pid, string>)
    requires o.captured == all.Keys && Traced(o.lineage, all)
    requires forall pid | pid in all :: Identity(pid, all[pid]) in owned
    ensures CapturedOwned(o, owned)
  {
    hide InLineage;
    forall pid | pid in o.captured
      ensures exists creation :: Identity(pid, creation) in owned && InLineage(o.lineage, Identity(pid, creation))
    {
      assert InLineage(o.lineage, Identity(pid, all[pid]));
    }
  }

  // What is known of the group or the session: what was recorded, or what the root's row tells.
  ghost function Learned(known: Option<int>, row: Option<nat>, told: Option<int>): Option<int> {
    if row.Some? && known.None? then told else known
  }

  // An incarnation was live at a moment since then.
  ghost predicate SeenLive(history: seq<Moment>, from: nat, id: Identity) {
    exists m :: from <= m && LiveAt(history, m, id)
  }

  lemma NowSeen(history: seq<Moment>, from: nat, id: Identity)
    requires from < |history| && LiveIn(history[|history| - 1].table, id)
    ensures SeenLive(history, from, id)
  {
    assert LiveAt(history, |history| - 1, id);
  }

  lemma SeenLater(ids: set<Identity>, history: seq<Moment>, later: seq<Moment>, from: nat, from': nat)
    requires history <= later && from' <= from && forall id | id in ids :: SeenLive(history, from, id)
    ensures forall id | id in ids :: SeenLive(later, from', id)
  {
    forall id | id in ids
      ensures SeenLive(later, from', id)
    {
      var m :| from <= m && LiveAt(history, m, id);
      assert LiveAt(later, m, id);
    }
  }

  class Boundary {
    const os: OperatingSystem
    const instantOf: string -> Option<int>  // the instant an identity string stands for
    const rootPid: Pid
    const rootCreation: string              // empty when it could not be read
    var group: Option<int>
    var session: Option<int>
    var owned: set<Identity>
    var errors: seq<Problem>
    var complete: bool                      // the last observation was

    ghost predicate Valid()
      reads this, os
    {
      os.Valid() && owned <= os.past
    }

    constructor (os: OperatingSystem, instantOf: string -> Option<int>, rootPid: Pid, rootCreation: string,
                 group: Option<int>, session: Option<int>, recorded: set<Identity>)
      requires os.Valid() && recorded <= os.past
      requires rootPid > 0 && rootCreation != "" ==> Identity(rootPid, rootCreation) in os.past
      ensures this.os == os && this.instantOf == instantOf && this.rootPid == rootPid && this.rootCreation == rootCreation
      ensures this.group == group && this.session == session
      ensures Valid() && owned == if errors == [] then recorded + {Identity(rootPid, rootCreation)} else recorded
      ensures errors == [] <==> rootPid > 0 && rootCreation != ""
    {
      this.os, this.instantOf, this.rootPid, this.rootCreation := os, instantOf, rootPid, rootCreation;
      this.group, this.session := group, session;
      var problems := if rootPid <= 0 then [RootPidInvalid] else [];
      if rootCreation == "" {
        problems := problems + [RootIdentityMissing];
      }
      errors := problems;
      owned := if problems == [] then recorded + {Identity(rootPid, rootCreation)} else recorded;
      complete := problems == [];
    }

    method Report(p: Problem)
      modifies this`errors
      ensures errors == old(errors) + [p]
    {
      errors := errors + [p];
    }

    ghost function Root(): Identity {
      Identity(rootPid, rootCreation)
    }

    // The live identity of a snapshot row, or nothing: then there is an error, or the PID was not alive.
    method SnapshotIdentity(ghost s: Snapshot, k: nat, item: Item, ghost from: nat) returns (creation: Option<string>)
      requires Valid() && k < |s.processes| && s.processes[k] == item && from <= |os.history|
      modifies this`errors, os`table, os`past, os`script, os`history
      ensures Valid() && old(os.past) <= os.past && NoRevival(old(os.table), os.table, old(os.past)) && old(os.history) <= os.history
      ensures AddsGenuine(old(errors), errors, s, Root(), instantOf, os.history, from) && old(errors) <= errors
      ensures creation.Some? ==> item.created.Some? && Identity(item.pid, creation.value) in os.past && errors == old(errors)
      ensures creation.Some? ==> LiveIn(os.table, Identity(item.pid, creation.value)) && |os.history| > |old(os.history)|
      ensures creation.None? ==> |errors| > |old(errors)| || (item.pid !in os.table && |os.history| > |old(os.history)|)
      ensures creation.None? && item.created.Some? ==> Unproven(os.history, |old(os.history)|, item.pid)
      ensures Undrifted(old(errors), errors)
    {
      hide Drifted, Lawful, NoRevival, Incarnations;
      creation := None;
      ghost var t0, p0 := os.table, os.past;
      NoRevivalYet(t0, p0);
      if item.created.None? {
        Report(NoSnapshotIdentity(item.pid));
        return;
      }
      creation := os.IdentityOf(item.pid);
      if creation.None? {
        ghost var t1, p1, m := os.table, os.past, |os.history|;
        assert Unproven(os.history, |old(os.history)|, item.pid);
        var alive := os.Alive(item.pid);
        NoRevivalJoin(t0, t1, os.table, p0, p1);
        assert m == |os.history| - 1 && os.history[m - 1] == Moment(t1, p1) && os.history[m].table == os.table;
        if alive {
          Report(IdentityUnavailable(item.pid));
        }
      }
    }

    // A snapshot fact may grant membership only to the very process it described.
    method SnapshotIdentityBound(item: Item, creation: string) returns (bound: bool)
      modifies this`errors
      ensures bound <==> item.created.Some? && instantOf(creation) == item.created
      ensures errors == if bound || item.created.None? then old(errors)
                        else old(errors) + [if instantOf(creation).None? then IncarnationUnprovable(item.pid) else IncarnationChanged(item.pid)]
    {
      if item.created.None? {
        return false;
      }
      var instant := instantOf(creation);
      if instant.None? {
        Report(IncarnationUnprovable(item.pid));
        return false;
      }
      if instant != item.created {
        Report(IncarnationChanged(item.pid));
        return false;
      }
      return true;
    }

    // What is captured has started, and its lineage leads to recorded incarnations and members.
    ghost predicate Sound(procs: seq<Item>, captured: map<Pid, string>, lineage: seq<Capture>, from: nat)
      reads this, os
    {
      && (forall pid | pid in captured :: Identity(pid, captured[pid]) in os.past)
      && Traced(lineage, captured) && Lineal(lineage, procs, group, session, owned, instantOf, os.history, from)
    }

    // First pass: the recorded incarnations, and everything in the group or the session.
    method SelectMembers(s: Snapshot, ghost from: nat, ghost n0: nat) returns (captured: map<Pid, string>, ghost lineage: seq<Capture>)
      requires Valid() && from <= |os.history| && n0 <= |errors| && AllGenuine(errors, n0, s, Root(), instantOf, os.history, from)
      modifies this`errors, os`table, os`past, os`script, os`history
      ensures Valid() && old(os.past) <= os.past && NoRevival(old(os.table), os.table, old(os.past))
      ensures old(errors) <= errors && old(os.history) <= os.history && AllGenuine(errors, n0, s, Root(), instantOf, os.history, from)
      ensures Sound(s.processes, captured, lineage, from) && Undrifted(old(errors), errors)
      ensures forall pid | pid in captured :: Seed(s.processes, PidsOf(owned), group, session, pid)
      ensures |errors| == |old(errors)| ==>
                && MembersCovered(s.processes, |s.processes|, group, session, captured.Keys, os.history, from)
                && RecordedCovered(s.processes, |s.processes|, owned, os.table, captured.Keys)
    {
      hide Lineal, Traced, Lawful, InBoundary, AllGenuine, AddsGenuine, NoRevival, Incarnations, MembersCovered, RecordedCovered, Gone;
      captured, lineage := map[], [];
      var procs := s.processes;
      NothingTraced(procs, group, session, owned, instantOf, os.history, from);
      NothingCovered(procs, group, session, owned, os.table, captured.Keys, os.history, from);
      ghost var t0, p0 := os.table, os.past;
      NoRevivalYet(t0, p0);
      for k := 0 to |procs|
        invariant Valid() && p0 <= os.past && NoRevival(t0, os.table, p0)
        invariant old(errors) <= errors && old(os.history) <= os.history && Undrifted(old(errors), errors)
        invariant n0 <= |errors| && AllGenuine(errors, n0, s, Root(), instantOf, os.history, from)
        invariant Sound(procs, captured, lineage, from)
        invariant forall pid | pid in captured :: Seed(procs, PidsOf(owned), group, session, pid)
        invariant |errors| == |old(errors)| ==>
                    && MembersCovered(procs, k, group, session, captured.Keys, os.history, from)
                    && RecordedCovered(procs, k, owned, os.table, captured.Keys)
      {
        ghost var keys, history, t, past, reported := captured.Keys, os.history, os.table, os.past, errors;
        captured, lineage := SelectMember(s, k, captured, lineage, from, n0);
        NoRevivalJoin(t0, t, os.table, p0, past);
        if |errors| == |old(errors)| {
          assert errors == reported;
          MembersCoveredGrows(procs, k, group, session, keys, captured.Keys, history, os.history, from);
          RecordedCoveredGrows(procs, k, owned, keys, captured.Keys, t, os.table, past);
        }
      }
    }

    // One row of the first pass.
    method SelectMember(s: Snapshot, k: nat, captured0: map<Pid, string>, ghost lineage0: seq<Capture>, ghost from: nat, ghost n0: nat)
      returns (captured: map<Pid, string>, ghost lineage: seq<Capture>)
      requires Valid() && k < |s.processes| && from <= |os.history| && Sound(s.processes, captured0, lineage0, from)
      requires n0 <= |errors| && AllGenuine(errors, n0, s, Root(), instantOf, os.history, from)
      modifies this`errors, os`table, os`past, os`script, os`history
      ensures Valid() && old(os.past) <= os.past && NoRevival(old(os.table), os.table, old(os.past))
      ensures old(errors) <= errors && old(os.history) <= os.history && AllGenuine(errors, n0, s, Root(), instantOf, os.history, from)
      ensures Sound(s.processes, captured, lineage, from)
      ensures captured.Keys == captured0.Keys
           || (captured.Keys == captured0.Keys + {s.processes[k].pid} && Seed(s.processes, PidsOf(owned), group, session, s.processes[k].pid))
      ensures |errors| == |old(errors)| && InBoundary(s.processes[k], group, session) ==>
                s.processes[k].pid in captured || Gone(os.history, from, s.processes[k].pid)
      ensures |errors| == |old(errors)| ==>
                forall id | id in owned && id.pid == s.processes[k].pid && LiveIn(os.table, id) :: id.pid in captured
      ensures Undrifted(old(errors), errors)
      // what is neither in the boundary nor of a recorded PID is not looked at
      ensures !InBoundary(s.processes[k], group, session) && (forall id | id in owned :: id.pid != s.processes[k].pid) ==>
                captured == captured0 && errors == old(errors) && os.history == old(os.history)
    {
      hide Lineal, Traced, Lawful, AllGenuine, AddsGenuine, NoRevival, Incarnations;
      captured, lineage := captured0, lineage0;
      var item := s.processes[k];
      NoRevivalYet(os.table, os.past);
      var inBoundary := InBoundary(item, group, session);
      if !inBoundary && item.pid !in PidsOf(owned) {
        return;
      }
      ghost var history, reported := os.history, errors;
      var creation := SnapshotIdentity(s, k, item, from);
      AllGenuineGrows(reported, errors, n0, s, Root(), instantOf, history, os.history, from);
      LinealLater(lineage, s.processes, group, session, owned, instantOf, history, os.history, from);
      if creation.None? {
        assert |errors| == |reported| ==> item.pid !in os.history[|os.history| - 1].table;
        return;
      }
      ghost var ground := Recorded;
      if Identity(item.pid, creation.value) !in owned {
        if !inBoundary {
          return;
        }
        ghost var before := errors;
        var bound := SnapshotIdentityBound(item, creation.value);
        if !bound {
          assert Mismatch(s, k, |os.history| - 1, Identity(item.pid, creation.value), instantOf, os.history, from);
          MismatchIsGenuine(before, errors, s, k, |os.history| - 1, creation.value, Root(), instantOf, os.history, from);
          AllGenuineGrows(before, errors, n0, s, Root(), instantOf, os.history, os.history, from);
          return;
        }
        ground := Member;
      }
      ghost var c := Capture(Identity(item.pid, creation.value), k, |os.history| - 1, ground);
      assert Grounded(lineage + [c], |lineage|, s.processes, group, session, owned, instantOf, os.history, from);
      LinealGrows(lineage, c, s.processes, group, session, owned, instantOf, os.history, from);
      TracedGrows(lineage, c, captured);
      lineage := lineage + [c];
      captured := captured[item.pid := creation.value];
    }

    // One row of the second pass: a snapshot child of a captured process, if its parent
    // is still the captured incarnation and it is itself what the snapshot described.
    method AdmitChild(s: Snapshot, k: nat, captured: map<Pid, string>, ghost lineage: seq<Capture>, ghost from: nat, ghost n0: nat)
      returns (admitted: Option<string>, drifted: bool, ghost more: seq<Capture>)
      requires Valid() && k < |s.processes| && s.processes[k].ppid in captured && Sound(s.processes, captured, lineage, from)
      requires from <= |os.history| && n0 <= |errors| && AllGenuine(errors, n0, s, Root(), instantOf, os.history, from)
      modifies this`errors, os`table, os`past, os`script, os`history
      ensures Valid() && old(os.past) <= os.past && NoRevival(old(os.table), os.table, old(os.past))
      ensures old(errors) <= errors && old(os.history) <= os.history && AllGenuine(errors, n0, s, Root(), instantOf, os.history, from)
      ensures lineage <= more && Sound(s.processes, captured, more, from)
      // the child enters below the captured incarnation of its parent, live at this moment
      ensures admitted.Some? ==>
                && LiveIn(os.table, Identity(s.processes[k].ppid, captured[s.processes[k].ppid]))
                && Sound(s.processes, captured[s.processes[k].pid := admitted.value], more, from)
                && |more| == |lineage| + 1 && more[|lineage|].row == k && more[|lineage|].ground.Child?
                && more[|lineage|].id == Identity(s.processes[k].pid, admitted.value)
      ensures admitted.None? ==> more == lineage
      // the pass is given up exactly with the error that the parent drifted
      ensures drifted ==> admitted.None?
      ensures if drifted then DriftEnds(old(errors), errors) else Undrifted(old(errors), errors)
      ensures admitted.None? && |errors| == |old(errors)| ==> Gone(os.history, from, s.processes[k].pid)
    {
      hide Lineal, Traced, Lawful, InLineage, Drifted, AllGenuine, AddsGenuine, NoRevival, Incarnations, Genuine, Unproven;
      admitted, drifted, more := None, false, lineage;
      var item := s.processes[k];
      ghost var before, reported, t0, p0 := os.history, errors, os.table, os.past;
      var creation := SnapshotIdentity(s, k, item, from);
      ghost var middle, t1, p1 := os.history, os.table, os.past;
      AllGenuineGrows(reported, errors, n0, s, Root(), instantOf, before, middle, from);
      LinealLater(lineage, s.processes, group, session, owned, instantOf, before, middle, from);
      ghost var at: nat := |middle| - 1;
      if creation.None? {
        assert |errors| == |reported| ==> item.pid !in os.history[|os.history| - 1].table;
        return;
      }
      var parent := os.IdentityOf(item.ppid);
      NoRevivalJoin(t0, t1, os.table, p0, p1);
      LinealLater(lineage, s.processes, group, session, owned, instantOf, middle, os.history, from);
      AllGenuineLater(errors, n0, s, Root(), instantOf, middle, os.history, from);
      if parent != Some(captured[item.ppid]) {
        ParentUnproven(lineage, captured, s, item.ppid, Root(), group, session, owned, instantOf, middle, os.history, from);
        ghost var t2, p2 := os.table, os.past;
        DriftTold(s, captured, lineage, item, from, n0);
        NoRevivalJoin(t0, t2, os.table, p0, p2);
        drifted := true;
        return;
      }
      ghost var told := errors;
      var bound := SnapshotIdentityBound(item, creation.value);
      if bound {
        admitted := creation;
        more := ChildCaptured(lineage, captured, s.processes, k, creation.value, group, session, owned, instantOf, at, os.history, from);
      } else {
        assert Mismatch(s, k, at, Identity(item.pid, creation.value), instantOf, os.history, from);
        MismatchIsGenuine(told, errors, s, k, at, creation.value, Root(), instantOf, os.history, from);
        AllGenuineGrows(told, errors, n0, s, Root(), instantOf, os.history, os.history, from);
      }
    }

    // The parent's PID no longer proves the captured incarnation.
    method DriftTold(s: Snapshot, captured: map<Pid, string>, ghost lineage: seq<Capture>, item: Item, ghost from: nat, ghost n0: nat)
      requires Valid() && item.ppid in captured && Sound(s.processes, captured, lineage, from)
      requires n0 <= |errors| && AllGenuine(errors, n0, s, Root(), instantOf, os.history, from)
      requires Genuine(ParentDrifted(item.ppid), s, Root(), instantOf, os.history, from)
      modifies this`errors, os`table, os`past, os`script, os`history
      ensures Valid() && old(os.past) <= os.past && NoRevival(old(os.table), os.table, old(os.past)) && old(os.history) <= os.history
      ensures errors == old(errors) + [ParentDrifted(item.ppid)]
      // asking whether it is alive, unless it proved another identity
      ensures |os.history| == |old(os.history)| + if item.ppid in old(os.table) && old(os.table)[item.ppid].provable then 0 else 1
      ensures AllGenuine(errors, n0, s, Root(), instantOf, os.history, from)
      ensures Sound(s.processes, captured, lineage, from)
    {
      hide Lineal, Traced, Lawful, Genuine, AllGenuine, NoRevival, Incarnations, Drifted;
      ghost var history, reported := os.history, errors;
      NoRevivalYet(os.table, os.past);
      if item.ppid !in os.table || !os.table[item.ppid].provable {
        var _ := os.Alive(item.ppid);
      }
      LinealLater(lineage, s.processes, group, session, owned, instantOf, history, os.history, from);
      GenuineLater(ParentDrifted(item.ppid), s, Root(), instantOf, history, os.history, from);
      Report(ParentDrifted(item.ppid));
      AllGenuineGrows(reported, errors, n0, s, Root(), instantOf, history, os.history, from);
    }

    // Second pass, to a fixed point: snapshot children of captured processes.
    method AddDescendants(s: Snapshot, members: map<Pid, string>, ghost lineage0: seq<Capture>, ghost from: nat, ghost n0: nat)
      returns (ok: bool, captured: map<Pid, string>, ghost lineage: seq<Capture>)
      requires Valid() && Sound(s.processes, members, lineage0, from) && from <= |os.history|
      requires n0 <= |errors| && AllGenuine(errors, n0, s, Root(), instantOf, os.history, from)
      modifies this`errors, os`table, os`past, os`script, os`history
      ensures Valid() && old(os.past) <= os.past && NoRevival(old(os.table), os.table, old(os.past))
      ensures old(errors) <= errors && old(os.history) <= os.history && AllGenuine(errors, n0, s, Root(), instantOf, os.history, from)
      ensures lineage0 <= lineage && Sound(s.processes, captured, lineage, from)
      ensures members.Keys <= captured.Keys && Least(s.processes, members.Keys, captured.Keys)
      ensures if ok then Undrifted(old(errors), errors) else DriftEnds(old(errors), errors)
      ensures |errors| == |old(errors)| ==> ChildrenCovered(s.processes, |s.processes|, captured.Keys, os.history, from)
    {
      hide InBoundary, Least, ChildrenCovered, SnapshotPids, ChildClosed, Lineal, Traced, Lawful, LiveIn, NoRevival, Incarnations,
           AllGenuine, Gone;
      captured, lineage := members, lineage0;
      var procs := s.processes;
      var changed := true;
      LeastStarts(procs, members.Keys);
      NoRevivalYet(os.table, os.past);
      while changed
        invariant Valid() && old(os.past) <= os.past && NoRevival(old(os.table), os.table, old(os.past))
        invariant old(errors) <= errors && old(os.history) <= os.history && Undrifted(old(errors), errors)
        invariant n0 <= |errors| && AllGenuine(errors, n0, s, Root(), instantOf, os.history, from)
        invariant lineage0 <= lineage && Sound(procs, captured, lineage, from)
        invariant members.Keys <= captured.Keys <= members.Keys + SnapshotPids(procs)
        invariant Least(procs, members.Keys, captured.Keys)
        invariant !changed && |errors| == |old(errors)| ==> ChildrenCovered(procs, |procs|, captured.Keys, os.history, from)
        decreases members.Keys + SnapshotPids(procs) - captured.Keys, changed
      {
        changed := false;
        var selected := captured.Keys;
        CoverageStarts(procs, captured.Keys, os.history, from);
        for k := 0 to |procs|
          invariant Valid() && old(os.past) <= os.past && NoRevival(old(os.table), os.table, old(os.past))
          invariant old(errors) <= errors && old(os.history) <= os.history && Undrifted(old(errors), errors)
          invariant n0 <= |errors| && AllGenuine(errors, n0, s, Root(), instantOf, os.history, from)
          invariant lineage0 <= lineage && Sound(procs, captured, lineage, from)
          invariant selected <= captured.Keys && members.Keys <= captured.Keys <= members.Keys + SnapshotPids(procs)
          invariant changed <==> selected != captured.Keys
          invariant Least(procs, members.Keys, captured.Keys)
          invariant !changed && |errors| == |old(errors)| ==> ChildrenCovered(procs, k, captured.Keys, os.history, from)
        {
          ghost var history := os.history;
          if procs[k].pid in selected || procs[k].ppid !in captured {
            if !changed && |errors| == |old(errors)| {
              CoverageSteps(procs, k, captured.Keys, history, history, from);
            }
            continue;
          }
          ghost var t, past := os.table, os.past;
          var admitted, drifted;
          admitted, drifted, lineage := AdmitChild(s, k, captured, lineage, from, n0);
          NoRevivalJoin(old(os.table), t, os.table, old(os.past), past);
          if drifted {
            return false, captured, lineage;
          }
          if admitted.Some? {
            LeastGrows(procs, members.Keys, captured.Keys, k);
            ghost var keys := captured.Keys;
            captured := captured[procs[k].pid := admitted.value];
            assert captured.Keys == keys + {procs[k].pid};
            changed := true;
          } else if !changed && |errors| == |old(errors)| {
            CoverageSteps(procs, k, captured.Keys, history, os.history, from);
          }
        }
      }
      ok := true;
    }

    // Captures the members and their descendants and retains what it captured.
    method Retain(s: Snapshot, ghost from: nat, ghost n0: nat) returns (ok: bool, ghost o: Observation)
      requires Valid() && s.complete && from < |os.history|
      requires n0 <= |errors| && AllGenuine(errors, n0, s, Root(), instantOf, os.history, from)
      modifies this`errors, this`owned, this`complete, os`table, os`past, os`script, os`history
      ensures Valid() && old(os.past) <= os.past && NoRevival(old(os.table), os.table, old(os.past))
      ensures old(errors) <= errors && old(os.history) <= os.history && AllGenuine(errors, n0, s, Root(), instantOf, os.history, from)
      ensures (ok <==> complete) && (ok <==> errors == [])
      ensures o.snapshot == s && o.group == group && o.session == session && o.errors == errors
      ensures old(owned) <= owned
      ensures forall id | id in owned - old(owned) :: id.pid in o.captured && InLineage(o.lineage, id)
      ensures Lineal(o.lineage, s.processes, group, session, old(owned), instantOf, os.history, from)
      ensures forall c | Closed(s.processes, PidsOf(old(owned)), group, session, c) :: o.captured <= c
      ensures if Undrifted(old(errors), errors) then CapturedOwned(o, owned)
              else DriftEnds(old(errors), errors) && owned == old(owned)
      ensures ok ==> Closure(o, old(owned), owned, os.history, from) && Contains(o, os.history, from)
    {
      hide Lineal, Traced, Lawful, InBoundary, Least, LiveAt, InLineage, AllGenuine, NoRevival, Incarnations, MembersCovered,
           ChildrenCovered, RecordedCovered, Closure, CapturedOwned, Closed, SnapshotPids, Seed, Contains;
      ghost var t0, p0 := os.table, os.past;
      var members;
      ghost var lineage;
      members, lineage := SelectMembers(s, from, n0);
      ghost var t1, p1, selected := os.table, os.past, os.history;
      var all;
      ok, all, lineage := AddDescendants(s, members, lineage, from, n0);
      NoRevivalJoin(t0, t1, os.table, p0, p1);
      o := Observation(s, group, session, all.Keys, lineage, errors);
      MembersLieInClosedSets(s.processes, PidsOf(owned), group, session, members.Keys, all.Keys);
      if !ok {
        complete := false;
        return;
      }
      TracedMeans(lineage, all);
      ghost var recorded := owned;
      owned := owned + (set pid | pid in all :: Identity(pid, all[pid]));
      AllAreOwned(o, owned, all);
      complete := errors == [];
      ok := complete;
      if ok {
        ClosureHolds(o, recorded, owned, members.Keys, selected, os.history, from, t1, p1);
        ClosureContains(o, recorded, owned, os.history, from);
      }
    }

    // If the snapshot has a row of the root's PID, the root itself was live since then.
    ghost predicate RootSeen(s: Snapshot, history: seq<Moment>, from: nat) {
      LastRow(s.processes, rootPid).Some? && rootCreation != "" ==> SeenLive(history, from, Root())
    }

    // Observe and retain the exact members of the boundary.
    method Observe() returns (ok: bool, ghost o: Observation)
      requires Valid()
      modifies this, os`table, os`past, os`script, os`history, os`snapshots
      ensures Valid() && old(os.past) <= os.past && NoRevival(old(os.table), os.table, old(os.past))
      ensures old(errors) <= errors && old(os.history) <= os.history
      // success, and what every error means
      ensures (ok <==> complete) && (ok <==> o.snapshot.complete && errors == [])
      ensures AllGenuine(errors, |old(errors)|, o.snapshot, Root(), instantOf, os.history, |old(os.history)|)
      ensures o.group == group && o.session == session && o.errors == errors
      ensures o.snapshot == if old(os.snapshots) == [] then Snapshot(false, [], []) else old(os.snapshots)[0]
      // recorded identities stay, and only those of a lineage of this observation enter
      ensures old(owned) <= owned
      ensures forall id | id in owned - old(owned) :: id.pid in o.captured && InLineage(o.lineage, id)
      ensures Lineal(o.lineage, o.snapshot.processes, group, session, old(owned), instantOf, os.history, |old(os.history)|)
      ensures forall c | Closed(o.snapshot.processes, PidsOf(old(owned)), group, session, c) :: o.captured <= c
      // whatever was captured is owned, even with errors, unless the observation broke off at a drifted
      // parent: then that is its last error, and nothing new is owned
      ensures if Undrifted(old(errors), errors) then CapturedOwned(o, owned)
              else DriftEnds(old(errors), errors) && owned == old(owned)
      // an incomplete snapshot adds its own problems and nothing else
      ensures !o.snapshot.complete ==>
                && owned == old(owned) && group == old(group) && session == old(session)
                && |errors| == |old(errors)| + |o.snapshot.problems|
                && forall i | 0 <= i < |o.snapshot.problems| :: errors[|old(errors)| + i] == SnapshotProblem(o.snapshot.problems[i])
      ensures ok ==> CapturedOwned(o, owned)
      // the root's row is the root's, and tells the group and the session
      ensures ok ==>
                var row := LastRow(o.snapshot.processes, rootPid);
                && RootSeen(o.snapshot, os.history, |old(os.history)|)
                && group == Learned(old(group), row, if row.Some? then o.snapshot.processes[row.value].group else None)
                && session == Learned(old(session), row, if row.Some? then o.snapshot.processes[row.value].session else None)
      // a completed observation captured, and owns, exactly the closure, but for processes already gone
      ensures ok ==> Closure(o, old(owned), owned, os.history, |old(os.history)|)
      ensures Founded(o, old(owned)) && (ok ==> Contains(o, os.history, |old(os.history)|))
    {
      hide Lineal, Traced, Lawful, InBoundary, Least, LiveAt, InLineage, AllGenuine, NoRevival, Incarnations, MembersCovered,
           ChildrenCovered, RecordedCovered, Closure, CapturedOwned, Closed, SnapshotPids, Told, Seed, SeenLive, Contains, Founded;
      ghost var from, n0, t0, p0 := |os.history|, |errors|, os.table, os.past;
      var s := os.TakeSnapshot();
      NothingTraced(s.processes, group, session, owned, instantOf, os.history, from);
      NothingNew(errors, s, Root(), instantOf, os.history, from);
      if !s.complete {
        complete := false;
        ProblemsAreGenuine(errors, s, Root(), instantOf, os.history, from);
        ToldAre(s);
        errors := errors + Told(s);
        o := Observation(s, group, session, {}, [], errors);
        AllAreOwned(o, owned, map[]);
        LinealIsFounded(o, owned, instantOf, os.history, from);
        return false, o;
      }
      ghost var t1, p1 := os.table, os.past;
      ok := CheckRoot(s, from, n0);
      NoRevivalJoin(t0, t1, os.table, p0, p1);
      NothingTraced(s.processes, group, session, owned, instantOf, os.history, from);
      if !ok {
        o := Observation(s, group, session, {}, [], errors);
        AllAreOwned(o, owned, map[]);
        LinealIsFounded(o, owned, instantOf, os.history, from);
        return;
      }
      ghost var t2, p2, seen, recorded := os.table, os.past, os.history, owned;
      ok, o := Retain(s, from, n0);
      LinealIsFounded(o, recorded, instantOf, os.history, from);
      NoRevivalJoin(t0, t2, os.table, p0, p2);
      RootStaysSeen(s, seen, os.history, from);
    }

    lemma RootStaysSeen(s: Snapshot, before: seq<Moment>, history: seq<Moment>, from: nat)
      requires before <= history && RootSeen(s, before, from)
      ensures RootSeen(s, history, from)
    {
      if RootSeen(s, before, from) && LastRow(s.processes, rootPid).Some? && rootCreation != "" {
        SeenLater({Root()}, before, history, from, from);
      }
    }

    // A snapshot row with the root's PID must be the root; it also tells its group and session.
    method CheckRoot(s: Snapshot, ghost from: nat, ghost n0: nat) returns (ok: bool)
      requires Valid() && from < |os.history| && n0 <= |errors| && AllGenuine(errors, n0, s, Root(), instantOf, os.history, from)
      modifies this`errors, this`complete, this`group, this`session, os`table, os`past, os`script, os`history
      ensures Valid() && old(os.past) <= os.past && NoRevival(old(os.table), os.table, old(os.past))
      ensures old(errors) <= errors && old(os.history) <= os.history && AllGenuine(errors, n0, s, Root(), instantOf, os.history, from)
      ensures !ok ==> !complete && |errors| > |old(errors)| && LastRow(s.processes, rootPid).Some?
      ensures Undrifted(old(errors), errors)
      ensures ok ==> complete == old(complete) && RootSeen(s, os.history, from)
      ensures var row := if ok then LastRow(s.processes, rootPid) else None;
              && group == Learned(old(group), row, if row.Some? then s.processes[row.value].group else None)
              && session == Learned(old(session), row, if row.Some? then s.processes[row.value].session else None)
    {
      hide Lawful, AllGenuine, AddsGenuine, NoRevival, Incarnations, Drifted;
      ok := true;
      NoRevivalYet(os.table, os.past);
      var row := LastRow(s.processes, rootPid);
      if row.Some? {
        var root := s.processes[row.value];
        ghost var reported, history := errors, os.history;
        var creation := SnapshotIdentity(s, row.value, root, from);
        AllGenuineGrows(reported, errors, n0, s, Root(), instantOf, history, os.history, from);
        if creation != (if rootCreation == "" then None else Some(rootCreation)) {
          RootIsReused(errors, s, row.value, Root(), creation, instantOf, os.history, |history|, from);
          AllGenuineGrows(errors, errors + [RootReused], n0, s, Root(), instantOf, os.history, os.history, from);
          Report(RootReused);
          complete := false;
          return false;
        }
        assert rootCreation != "" ==> LiveAt(os.history, |os.history| - 1, Root());
        if group.None? {
          group := root.group;
        }
        if session.None? {
          session := root.session;
        }
      }
    }

    // The owned incarnations that are still live, or nothing if one cannot be told.
    method Remaining() returns (remaining: Option<set<Identity>>)
      requires Valid()
      modifies os`table, os`past, os`script, os`history
      ensures Valid() && old(os.past) <= os.past && NoRevival(old(os.table), os.table, old(os.past)) && old(os.history) <= os.history
      ensures remaining.Some? ==> remaining.value <= owned && AllGone(owned - remaining.value, os.table)
      ensures remaining.Some? ==> forall id | id in remaining.value :: SeenLive(os.history, |old(os.history)|, id)
      ensures remaining.None? ==> exists id, m :: id in owned && Untold(os.history, |old(os.history)|, m, id)
    {
      hide Drifted, Lawful, SeenLive;
      var left, found := owned, {};
      while left != {}
        invariant Valid() && old(os.past) <= os.past && NoRevival(old(os.table), os.table, old(os.past))
        invariant old(os.history) <= os.history
        invariant left <= owned && found <= owned
        invariant AllGone(owned - left - found, os.table)
        invariant forall id | id in found :: SeenLive(os.history, |old(os.history)|, id)
        decreases left
      {
        var id :| id in left;
        left := left - {id};
        ghost var history, seen := os.history, found;
        var alive := os.Alive(id.pid);
        if alive {
          var current := os.IdentityOf(id.pid);
          if current.None? {
            assert Untold(os.history, |old(os.history)|, |os.history| - 1, id);
            return None;
          }
          if current == Some(id.creation) {
            NowSeen(os.history, |old(os.history)|, id);
            found := found + {id};
          }
        }
        SeenLater(seen, history, os.history, |old(os.history)|, |old(os.history)|);
      }
      assert owned - found == owned - {} - found;
      remaining := Some(found);
    }

    method TerminateAll(ids: set<Identity>, force: bool)
      requires Valid() && ids <= owned
      modifies os`table, os`past, os`script, os`history, os`signals, os`spared
      ensures Valid() && old(os.past) <= os.past && NoRevival(old(os.table), os.table, old(os.past))
      ensures Follows(os.Logged(), old(os.Logged()))
      ensures AimedAt(os.Logged(), old(os.Logged()), ids) && AllHandled(os.Logged(), old(os.Logged()), ids)
      ensures forall i | |old(os.signals)| <= i < |os.signals| :: os.signals[i].force == force
    {
      hide Lawful, NoRevival, Incarnations, AimedAt, AllHandled, Signals, Drifted, LiveIn;
      var left := ids;
      ghost var start, t0, p0 := os.Logged(), os.table, os.past;
      NoRevivalYet(t0, p0);
      NothingSent(start, start, {});
      NothingToHandle(start);
      assert ids - ids == {};
      while left != {}
        invariant left <= ids && Valid() && p0 <= os.past && NoRevival(t0, os.table, p0)
        invariant Follows(os.Logged(), start)
        invariant AimedAt(os.Logged(), start, ids - left) && AllHandled(os.Logged(), start, ids - left)
        invariant forall i | |start.signals| <= i < |os.signals| :: os.signals[i].force == force
        decreases left
      {
        var id :| id in left;
        ghost var before, t, past := os.Logged(), os.table, os.past;
        var _ := os.Terminate(id, force);
        NoRevivalJoin(t0, t, os.table, p0, past);
        OneHandled(before, os.Logged(), id);
        AimsJoin(start, before, os.Logged(), ids - left, {id});
        HandledLater(before, os.Logged(), start, start, ids - left);
        HandledLater(os.Logged(), os.Logged(), before, start, {id});
        HandledBoth(os.Logged(), start, ids - left, {id});
        assert ids - (left - {id}) == ids - left + {id};
        left := left - {id};
      }
      assert ids - {} == ids;
    }

    // Terminate every member, the root last, and prove that all of them are gone.
    // polls is the number of rounds the deadline leaves room for.
    method Cleanup(force: bool, polls: nat) returns (proven: bool, ghost c: Course)
      requires Valid()
      modifies this, os`table, os`past, os`script, os`history, os`snapshots, os`signals, os`spared
      ensures Valid() && old(os.past) <= os.past && Follows(os.Logged(), old(os.Logged()))
      ensures old(owned) <= owned && old(errors) <= errors
      ensures AimedAt(os.Logged(), old(os.Logged()), owned)
      // the first observation sees the boundary, or nothing is done
      ensures c.seen <==> rootCreation != "" && c.first.snapshot.complete && c.first.errors == []
      ensures rootCreation != "" ==> c.first.snapshot == if old(os.snapshots) == [] then Snapshot(false, [], []) else old(os.snapshots)[0]
      ensures !c.seen ==> !proven && os.signals == old(os.signals)
      // if it does, all it captured and all that was recorded is a target
      ensures c.seen ==>
                && old(owned) <= c.targets <= owned
                && Closure(c.first, old(owned), c.targets, c.observed.history, |old(os.history)|)
                && Contains(c.first, c.observed.history, |old(os.history)|) && CapturedOwned(c.first, c.targets)
      // and every target is signalled if it can be, the root's PID last, whatever later observations say
      ensures c.seen ==>
                && InTurn(old(os.Logged()), c.observed, c.middle, os.Logged()) && c.observed.signals == old(os.signals)
                && (forall i | |old(os.signals)| <= i < |c.middle.signals| :: c.middle.signals[i].intended.pid != rootPid)
                && AllHandled(c.middle, c.observed, set id | id in c.targets && id.pid != rootPid)
                && AllHandled(os.Logged(), c.middle, set id | id in c.targets && id.pid == rootPid)
      // the first sweep is as forcible as asked for
      ensures c.seen ==> forall i | |old(os.signals)| <= i < |c.swept.signals| :: c.swept.signals[i].force == force
      // in every later round whatever was seen live is forcibly signalled if it can be, until
      // nothing remains, something cannot be told, an observation fails, or the rounds are used up
      ensures c.seen ==> Rounds(c.rounds, c.swept, os.Logged()) && Follows(c.swept, c.middle)
      ensures proven ==> errors == [] && AllGone(owned, os.table)
      ensures c.seen && !proven ==> Excused(complete, owned, os.history, |c.swept.history|, c.rounds, polls, LastLog(c.rounds, c.swept))
    {
      hide Lawful, NoRevival, Incarnations, AimedAt, AllHandled, Lineal, InLineage, InBoundary, Closed, RecordedCovered, AllGone, LiveIn,
           Closure, AllGenuine, CapturedOwned, Rounds, Excused, LastLog, RootSeen, Contains, Founded;
      ghost var start, recorded := os.Logged(), owned;
      ghost var o := Observation(Snapshot(false, [], []), group, session, {}, [], errors);
      c := Course(false, o, owned, start, start, start, []);
      NothingSent(start, start, owned);
      if rootCreation == "" {
        Report(RootIdentityMissing);
        return false, c;
      }
      var ok;
      ok, o := Observe();
      NothingSent(os.Logged(), start, owned);
      ghost var observed := os.Logged();
      c := Course(ok, o, owned, observed, observed, observed, []);
      if !complete {
        return false, c;
      }
      ghost var middle := TerminateOwned(force);
      ghost var swept, targets := os.Logged(), owned;
      AimsJoin(start, observed, swept, owned, owned);
      assert owned + owned == owned;
      ghost var rounds;
      proven, rounds := AwaitGone(polls, start);
      HandledLater(swept, os.Logged(), middle, middle, set id | id in targets && id.pid == rootPid);
      c := Course(true, o, targets, observed, middle, swept, rounds);
    }

    // Every owned incarnation, those of the root's PID last.
    method TerminateOwned(force: bool) returns (ghost middle: Log)
      requires Valid()
      modifies os`table, os`past, os`script, os`history, os`signals, os`spared
      ensures Valid() && old(os.past) <= os.past && Follows(middle, old(os.Logged())) && Follows(os.Logged(), middle)
      ensures AimedAt(os.Logged(), old(os.Logged()), owned)
      ensures forall i | |old(os.signals)| <= i < |middle.signals| :: middle.signals[i].intended.pid != rootPid
      ensures AllHandled(middle, old(os.Logged()), set id | id in owned && id.pid != rootPid)
      ensures AllHandled(os.Logged(), middle, set id | id in owned && id.pid == rootPid)
      ensures forall i | |old(os.signals)| <= i < |os.signals| :: os.signals[i].force == force
    {
      hide Lawful, NoRevival, Incarnations, AimedAt, AllHandled;
      ghost var start := os.Logged();
      var roots := set id | id in owned && id.pid == rootPid;
      TerminateAll(owned - roots, force);
      middle := os.Logged();
      AimedNotAt(middle, start, owned - roots, rootPid);
      HandledFewer(middle, start, owned - roots, set id | id in owned && id.pid != rootPid);
      TerminateAll(roots, force);
      AimsJoin(start, middle, os.Logged(), owned - roots, roots);
      assert owned - roots + roots == owned;
    }

    // Rounds of observation and forced termination of what remains, until the deadline.
    method AwaitGone(polls: nat, ghost start: Log) returns (proven: bool, ghost rounds: seq<Round>)
      requires Valid() && Follows(os.Logged(), start) && AimedAt(os.Logged(), start, owned)
      modifies this, os`table, os`past, os`script, os`history, os`snapshots, os`signals, os`spared
      ensures Valid() && old(os.past) <= os.past && Follows(os.Logged(), old(os.Logged()))
      ensures old(owned) <= owned && old(errors) <= errors
      ensures AimedAt(os.Logged(), start, owned)
      ensures Rounds(rounds, old(os.Logged()), os.Logged())
      ensures proven ==> errors == [] && AllGone(owned, os.table)
      // every answer but a proof has its reason
      ensures !proven ==> Excused(complete, owned, os.history, |old(os.history)|, rounds, polls, LastLog(rounds, old(os.Logged())))
    {
      hide Lawful, NoRevival, Incarnations, AimedAt, AllHandled, Lineal, InBoundary, Closed, RecordedCovered, AllGone, Dealt, Rounds,
           SeenLive;
      rounds := [];
      ghost var first := os.Logged();
      NoRounds(first);
      for p := 0 to polls
        invariant Valid() && old(os.past) <= os.past && Follows(os.Logged(), first)
        invariant old(owned) <= owned && old(errors) <= errors
        invariant AimedAt(os.Logged(), start, owned)
        invariant |rounds| == p && Rounds(rounds, first, os.Logged()) && LastLog(rounds, first) == os.Logged()
      {
        ghost var before, was := os.Logged(), owned;
        var remaining := Poll();
        AimsLater(start, before, os.Logged(), was, owned);
        RoundsLater(rounds, first, before, os.Logged());
        if remaining.None? {
          if complete {
            UntoldIsExcuse(complete, owned, os.history, |first.history|, |before.history|, rounds, polls, before);
          }
          return false, rounds;
        }
        if remaining.value == {} {
          EmptyIsGone(owned, os.table);
          return true, rounds;
        }
        ghost var polled, now := os.Logged(), os.table;
        TerminateAll(remaining.value, true);
        AimsJoin(start, polled, os.Logged(), owned, remaining.value);
        assert owned + remaining.value == owned;
        ghost var round := Round(owned, remaining.value, before, polled, os.Logged(), now);
        RoundDealt(round);
        RoundsGrow(rounds, round, first, polled);
        rounds := rounds + [round];
      }
      ghost var before, was := os.Logged(), owned;
      var remaining := Poll();
      AimsLater(start, before, os.Logged(), was, owned);
      RoundsLater(rounds, first, before, os.Logged());
      proven := remaining == Some({});
      if proven {
        EmptyIsGone(owned, os.table);
      } else if remaining.None? && complete {
        UntoldIsExcuse(complete, owned, os.history, |first.history|, |before.history|, rounds, polls, before);
      } else if remaining.Some? {
        assert remaining.value != {};
        var id :| id in remaining.value;
        assert SeenLive(os.history, |before.history|, id);
      }
    }

    // A complete observation and what then remains, or nothing.
    method Poll() returns (remaining: Option<set<Identity>>)
      requires Valid()
      modifies this, os`table, os`past, os`script, os`history, os`snapshots
      ensures Valid() && old(os.past) <= os.past && old(os.history) <= os.history
      ensures old(owned) <= owned && old(errors) <= errors
      ensures remaining.Some? ==> complete && errors == [] && remaining.value <= owned && AllGone(owned - remaining.value, os.table)
      ensures remaining.Some? ==> forall id | id in remaining.value :: SeenLive(os.history, |old(os.history)|, id)
      ensures remaining.None? ==> !complete || exists id, m :: id in owned && Untold(os.history, |old(os.history)|, m, id)
    {
      hide Lineal, InLineage, InBoundary, Closed, RecordedCovered, NoRevival, Incarnations, Lawful, AllGone, SeenLive, AllGenuine,
           Closure, CapturedOwned, RootSeen, Contains, Founded;
      var _, _ := Observe();
      if !complete {
        return None;
      }
      ghost var from := |os.history|;
      remaining := Remaining();
      if remaining.None? {
        ghost var id, m :| id in owned && Untold(os.history, from, m, id);
        assert Untold(os.history, |old(os.history)|, m, id);
      } else {
        SeenLater(remaining.value, os.history, os.history, from, |old(os.history)|);
      }
    }
  }

  // One round of a cleanup: what was owned, what of it remained, the logs before its observation,
  // before and after its terminations, and the table that showed what remained.
  datatype Round = Round(owned: set<Identity>, remaining: set<Identity>, start: Log, before: Log, after: Log, table: Table)

  // The course of a cleanup: whether its first observation saw the boundary, that observation, what
  // was owned after it, the logs after it, before the root's turn and after it, and the rounds that followed.
  datatype Course = Course(seen: bool, first: Observation, targets: set<Identity>,
                           observed: Log, middle: Log, swept: Log, rounds: seq<Round>)

  ghost predicate Dealt(r: Round) {
    && r.remaining != {} && r.remaining <= r.owned && AllGone(r.owned - r.remaining, r.table)
    && Follows(r.before, r.start) && Follows(r.after, r.before)
    && (forall id | id in r.remaining :: SeenLive(r.before.history, |r.start.history|, id))
    && AllHandled(r.after, r.before, r.remaining) && AimedAt(r.after, r.before, r.remaining)
    && forall i | |r.before.signals| <= i < |r.after.signals| :: r.after.signals[i].force
  }

  lemma RoundDealt(r: Round)
    requires r.remaining != {} && r.remaining <= r.owned && AllGone(r.owned - r.remaining, r.table)
    requires Follows(r.before, r.start) && Follows(r.after, r.before)
    requires forall id | id in r.remaining :: SeenLive(r.before.history, |r.start.history|, id)
    requires AllHandled(r.after, r.before, r.remaining) && AimedAt(r.after, r.before, r.remaining)
    requires forall i | |r.before.signals| <= i < |r.after.signals| :: r.after.signals[i].force
    ensures Dealt(r)
  {
  }

  // The log after the first n rounds.
  ghost function LogAfter(rounds: seq<Round>, n: nat, first: Log): Log
    requires n <= |rounds|
  {
    if n == 0 then first else rounds[n - 1].after
  }

  ghost function LastLog(rounds: seq<Round>, first: Log): Log {
    LogAfter(rounds, |rounds|, first)
  }

  // Each round dealt with what remained, and begins where the one before it ends.
  ghost predicate Rounds(rounds: seq<Round>, first: Log, last: Log) {
    && (forall r | r in rounds :: Dealt(r))
    && (forall i | 0 <= i < |rounds| :: rounds[i].start == LogAfter(rounds, i, first))
    && Follows(last, LastLog(rounds, first))
  }

  lemma NoRounds(log: Log)
    ensures Rounds([], log, log)
  {
  }

  lemma RoundsLater(rounds: seq<Round>, first: Log, last: Log, later: Log)
    requires Rounds(rounds, first, last) && Follows(later, last)
    ensures Rounds(rounds, first, later)
  {
  }

  lemma RoundsGrow(rounds: seq<Round>, r: Round, first: Log, last: Log)
    requires Rounds(rounds, first, last) && Dealt(r) && r.start == LastLog(rounds, first)
    ensures Rounds(rounds + [r], first, r.after)
  {
    hide Dealt;
    var more := rounds + [r];
    assert more[|rounds|] == r;
    forall i | 0 <= i < |more|
      ensures more[i].start == LogAfter(more, i, first)
    {
      assert LogAfter(more, i, first) == LogAfter(rounds, i, first);
      assert i < |rounds| ==> more[i] == rounds[i];
    }
  }

  // Why absence is not proved: an observation failed, an owned PID found alive proved no identity, or
  // after all the rounds something owned was seen live.
  ghost predicate Excused(complete: bool, owned: set<Identity>, history: seq<Moment>, from: nat, rounds: seq<Round>, polls: nat, last: Log) {
    || !complete
    || (exists id, m :: id in owned && Untold(history, from, m, id))
    || (|rounds| == polls && exists id :: id in owned && SeenLive(history, |last.history|, id))
  }

  lemma UntoldIsExcuse(complete: bool, owned: set<Identity>, history: seq<Moment>, from: nat, from': nat,
                       rounds: seq<Round>, polls: nat, last: Log)
    requires from <= from' && exists id, m :: id in owned && Untold(history, from', m, id)
    ensures Excused(complete, owned, history, from, rounds, polls, last)
  {
    var id, m :| id in owned && Untold(history, from', m, id);
    assert Untold(history, from, m, id);
  }

  ghost predicate InTurn(a: Log, b: Log, c: Log, d: Log) {
    Follows(b, a) && Follows(c, b) && Follows(d, c)
  }

  lemma EmptyIsGone(owned: set<Identity>, table: Table)
    requires AllGone(owned - {}, table)
    ensures AllGone(owned, table)
  {
    assert owned - {} == owned;
  }

  lemma NothingToHandle(log: Log)
    ensures AllHandled(log, log, {})
  {
  }

  lemma OneHandled(before: Log, after: Log, id: Identity)
    requires Follows(after, before)
    requires (after.signals == before.signals && |after.spared| == |before.spared| + 1
              && after.spared[|before.spared|].id == id && Unsignalable(after.history, after.spared[|before.spared|]))
          || (|after.signals| == |before.signals| + 1 && after.signals[|before.signals|].intended == id
              && Checked(after.history, after.signals[|before.signals|])
              && |before.history| <= after.signals[|before.signals|].checked)
    ensures AllHandled(after, before, {id}) && AimedAt(after, before, {id})
  {
  }

  lemma HandledBoth(log: Log, since: Log, a: set<Identity>, b: set<Identity>)
    requires AllHandled(log, since, a) && AllHandled(log, since, b)
    ensures AllHandled(log, since, a + b)
  {
  }

  lemma HandledFewer(log: Log, since: Log, many: set<Identity>, few: set<Identity>)
    requires AllHandled(log, since, many) && few <= many
    ensures AllHandled(log, since, few)
  {
  }

  lemma AimedNotAt(log: Log, since: Log, ids: set<Identity>, pid: Pid)
    requires AimedAt(log, since, ids) && forall id | id in ids :: id.pid != pid
    ensures forall i | |since.signals| <= i < |log.signals| :: log.signals[i].intended.pid != pid
  {
  }

  // At that moment the PID, which had been found alive, named no process that proves its identity.
  ghost predicate Untold(history: seq<Moment>, from: nat, m: nat, id: Identity) {
    from < m < |history| && id.pid in history[m - 1].table
    && (id.pid !in history[m].table || !history[m].table[id.pid].provable)
  }

  /******* Whole runs *******/

  datatype Call = CallObserve | CallCleanup(force: bool, polls: nat)

  // What one call did: its answer, what was owned before and after it, and the logs before and after it.
  datatype Done =
    | Watched(ok: bool, first: Observation, recorded: set<Identity>, owned: set<Identity>, start: Log, end: Log)
    | Cleaned(ok: bool, course: Course, recorded: set<Identity>, owned: set<Identity>, start: Log, end: Log)

  // A successful observation captured and owned the closure of its snapshot.  A cleanup whose first
  // observation succeeded dealt with that closure, incarnation by incarnation, the root's PID last;
  // without it nothing was signalled, and only with it is absence ever proved.
  ghost predicate Accountable(d: Done, rootPid: Pid) {
    && d.recorded <= d.owned && Follows(d.end, d.start)
    && match d
       case Watched(ok, o, recorded, owned, start, end) =>
         && end.signals == start.signals && Founded(o, recorded)
         && (ok ==> && o.snapshot.complete && Closure(o, recorded, owned, end.history, |start.history|)
                    && Contains(o, end.history, |start.history|) && CapturedOwned(o, owned))
       case Cleaned(ok, c, recorded, owned, start, end) =>
         && (ok ==> c.seen && end.history != [] && AllGone(owned, end.history[|end.history| - 1].table))
         && (!c.seen ==> end.signals == start.signals)
         && (c.seen ==>
               && recorded <= c.targets <= owned
               && c.first.snapshot.complete && Closure(c.first, recorded, c.targets, c.observed.history, |start.history|)
               && Contains(c.first, c.observed.history, |start.history|) && CapturedOwned(c.first, c.targets)
               && InTurn(start, c.observed, c.middle, end) && c.observed.signals == start.signals
               && (forall i | |start.signals| <= i < |c.middle.signals| :: c.middle.signals[i].intended.pid != rootPid)
               && AllHandled(c.middle, c.observed, set id | id in c.targets && id.pid != rootPid)
               && AllHandled(end, c.middle, set id | id in c.targets && id.pid == rootPid))
  }

  // The records of a run: one for each call, each beginning where the one before it ended.
  ghost predicate Recorded(done: seq<Done>, calls: seq<Call>, answers: seq<bool>, rootPid: Pid, owned: set<Identity>, start: Log, end: Log) {
    && |done| == |calls| == |answers|
    && (forall i | 0 <= i < |done| ::
          && done[i].Cleaned? == calls[i].CallCleanup? && done[i].ok == answers[i]
          && Accountable(done[i], rootPid) && done[i].owned <= owned
          && done[i].start == if i == 0 then start else done[i - 1].end)
    && end == if done == [] then start else done[|done| - 1].end
  }

  lemma RecordedGrows(done: seq<Done>, calls: seq<Call>, answers: seq<bool>, d: Done, call: Call, rootPid: Pid, owned: set<Identity>,
                      start: Log, end: Log)
    requires Recorded(done, calls, answers, rootPid, owned, start, end)
    requires Accountable(d, rootPid) && d.start == end && d.Cleaned? == call.CallCleanup? && d.recorded == owned
    ensures Recorded(done + [d], calls + [call], answers + [d.ok], rootPid, d.owned, start, d.end)
  {
    hide Closure, AllHandled, AllGone, Contains, Founded, CapturedOwned;
  }

  // Any sequence of calls, with PIDs reused during and between them.  Every signal is meant for an
  // owned incarnation that was live when it was checked, so by HitsExactly it goes astray only if
  // that process exits and its PID is reused within the one change between check and signal.
  method Calls(b: Boundary, calls: seq<Call>) returns (answers: seq<bool>, ghost done: seq<Done>)
    requires b.Valid()
    modifies b, b.os`table, b.os`past, b.os`script, b.os`history, b.os`snapshots, b.os`signals, b.os`spared
    ensures b.Valid() && |answers| == |calls|
    ensures old(b.owned) <= b.owned && old(b.errors) <= b.errors
    ensures old(b.errors) != [] ==> forall i | 0 <= i < |calls| :: !answers[i]
    ensures b.errors != [] && calls != [] ==> !answers[|calls| - 1]
    ensures Recorded(done, calls, answers, b.rootPid, b.owned, old(b.os.Logged()), b.os.Logged())
    ensures AimedAt(b.os.Logged(), old(b.os.Logged()), b.owned)
    ensures forall i | |old(b.os.signals)| <= i < |b.os.signals| :: AsExpected(b.os.history, b.os.signals[i])
  {
    hide Lawful, AimedAt, AllHandled, Lineal, InLineage, InBoundary, Closed, RecordedCovered, NoRevival, Incarnations, AllGone, Dealt,
         AsExpected, Closure, AllGenuine, CapturedOwned, Rounds, Excused, Accountable, Recorded, Boundary.RootSeen, Contains, Founded;
    answers, done := [], [];
    ghost var start := b.os.Logged();
    NothingSent(start, start, b.owned);
    NothingRecorded(b.rootPid, b.owned, start);
    for i := 0 to |calls|
      invariant b.Valid() && |answers| == i && Follows(b.os.Logged(), start)
      invariant old(b.owned) <= b.owned && old(b.errors) <= b.errors
      invariant old(b.errors) != [] ==> forall j | 0 <= j < i :: !answers[j]
      invariant b.errors != [] && i > 0 ==> !answers[i - 1]
      invariant Recorded(done, calls[..i], answers, b.rootPid, b.owned, start, b.os.Logged())
      invariant AimedAt(b.os.Logged(), start, b.owned)
    {
      ghost var d;
      var answer;
      answer, d := Perform(b, calls[i]);
      AimsJoin(start, d.start, d.end, d.recorded, d.owned);
      assert d.recorded + d.owned == d.owned;
      RecordedGrows(done, calls[..i], answers, d, calls[i], b.rootPid, d.recorded, start, d.start);
      assert calls[..i + 1] == calls[..i] + [calls[i]];
      answers, done := answers + [answer], done + [d];
    }
    assert calls[..|calls|] == calls;
    AimsAreExpected(b.os.Logged(), start, b.owned);
  }

  lemma NothingRecorded(rootPid: Pid, owned: set<Identity>, start: Log)
    ensures Recorded([], [], [], rootPid, owned, start, start)
  {
  }

  // One call and its record.
  method Perform(b: Boundary, call: Call) returns (answer: bool, ghost d: Done)
    requires b.Valid()
    modifies b, b.os`table, b.os`past, b.os`script, b.os`history, b.os`snapshots, b.os`signals, b.os`spared
    ensures b.Valid() && old(b.owned) <= b.owned && old(b.errors) <= b.errors && (b.errors != [] ==> !answer)
    ensures d.start == old(b.os.Logged()) && d.end == b.os.Logged() && d.recorded == old(b.owned) && d.owned == b.owned
    ensures d.ok == answer && d.Cleaned? == call.CallCleanup? && Accountable(d, b.rootPid) && Follows(d.end, d.start)
    ensures AimedAt(d.end, d.start, d.owned)
  {
    hide Lawful, AimedAt, AllHandled, Lineal, InLineage, InBoundary, Closed, RecordedCovered, NoRevival, Incarnations, AllGone, Dealt,
         Closure, AllGenuine, CapturedOwned, Rounds, Excused, Boundary.RootSeen, Contains, Founded;
    ghost var start, recorded := b.os.Logged(), b.owned;
    match call {
      case CallObserve =>
        ghost var o;
        answer, o := b.Observe();
        NothingSent(b.os.Logged(), start, b.owned);
        d := Watched(answer, o, recorded, b.owned, start, b.os.Logged());
      case CallCleanup(force, polls) =>
        ghost var c;
        answer, c := b.Cleanup(force, polls);
        d := Cleaned(answer, c, recorded, b.owned, start, b.os.Logged());
    }
  }

  // What becomes of a checked signal.
  ghost predicate AsExpected(history: seq<Moment>, s: Signal) {
    && Checked(history, s)
    && (Hit(history, s) == Some(s.intended) <==> LiveAt(history, s.checked + 1, s.intended))
    && (Hit(history, s).Some? && Hit(history, s) != Some(s.intended) ==>
          Hit(history, s).value !in history[s.checked].past)
  }

  lemma AimsAreExpected(log: Log, since: Log, ids: set<Identity>)
    requires Lawful(log.history) && AimedAt(log, since, ids)
    ensures forall i | |since.signals| <= i < |log.signals| :: AsExpected(log.history, log.signals[i])
  {
    forall i | |since.signals| <= i < |log.signals|
      ensures AsExpected(log.history, log.signals[i])
    {
      HitsExactly(log.history, log.signals[i]);
    }
  }
}
