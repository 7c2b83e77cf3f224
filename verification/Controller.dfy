/**
 The lane controller's attempt loop over the shared lease store
 (orchestrator_harness/controller.py).

 Each method is one stretch of the loop between two points where another controller may
 run.  Spawning a provider and recording its process boundary is one step.
 */
module Controller {
  import opened Common
  import opened Leases

  const MAXIMUM_CORRECTIONS := 5

  datatype Phase =
    | Starting
    | NoLease                // could not acquire; never had a provider
    | Ready                  // leases held, about to start an attempt
    | Running                // a provider boundary is recorded
    | Finished               // leases released
    | Unresolved             // exited without proof that the boundary is gone
    | Killed

  // One provider attempt: how it was started and the session it reported.
  datatype Attempt = Attempt(resumed: bool, session: Option<string>, reported: Option<string>)

  datatype Spawn = Created | NotCreated | VectorFailed(cleanupProven: bool)

  datatype Exit = Exit(reported: Option<string>, nonRetryable: bool, resultValid: bool, cleanupProven: bool)

  // Every attempt after the first resumes the session its predecessor reported.
  ghost predicate ResumesPredecessor(log: seq<Attempt>) {
    forall k | 0 < k < |log| :: log[k].resumed && log[k].session.Some? && log[k].session == log[k - 1].reported
  }

  // What the last attempt reports does not touch the links between the attempts.
  lemma ReportKeepsLinks(log: seq<Attempt>, reported: Option<string>)
    requires log != [] && ResumesPredecessor(log)
    ensures ResumesPredecessor(log[..|log| - 1] + [log[|log| - 1].(reported := reported)])
  {
  }

  datatype Move =
    | Acquires
    | Starts(outcome: Spawn)
    | Fails(cleanupProven: bool)
    | Exits(exit: Exit)
    | Dies

  // What one controller may do to the lease directory.
  ghost predicate ChangedBy(before: LeaseFiles, after: LeaseFiles, resources: seq<Resource>, h: Holder, stubborn: set<Resource>) {
    || after == before
    || Leftover(before, after, resources, h)
    || (Free(before, resources) && after == Granted(before, resources, h))
    || after == Released(before, h.lane, h.run, stubborn)
    || PartlyReleased(before, after, h.lane, h.run)
  }

  // Everything about a controller that changes.
  datatype View = View(phase: Phase, attemptNumber: nat, correctionCount: nat, session: Option<string>, live: bool, log: seq<Attempt>)

  // A step of a controller: its view and the lease directory before and after.
  datatype Step = Step(before: View, after: View, files: LeaseFiles, files': LeaseFiles, stubborn: set<Resource>, dies: Option<nat>)

  // Nothing but the phase is new, and the leases are given up: all of them, or, if the controller
  // is killed meanwhile, some.
  ghost predicate LetsGo(s: Step, from: View, h: Holder) {
    || (s.after == from.(phase := Finished) && s.files' == Released(s.files, h.lane, h.run, s.stubborn))
    || (s.after == from.(phase := Killed) && s.dies.Some? && PartlyReleased(s.files, s.files', h.lane, h.run))
  }

  ghost predicate Stays(s: Step, v: View) {
    s.after == v && s.files' == s.files
  }

  // All declared leases are taken, or the controller ends without any boundary.
  ghost predicate AcquiresLeases(s: Step, resources: seq<Resource>, h: Holder, failingWrite: Option<nat>) {
    && (s.after == s.before.(phase := Ready) ==> Free(s.files, resources) && s.files' == Granted(s.files, resources, h))
    && (s.after.phase != Ready ==>
          s.after.phase in {NoLease, Killed} && s.after == s.before.(phase := s.after.phase) && Leftover(s.files, s.files', resources, h))
    && (s.after.phase == Ready ==> s.after == s.before.(phase := Ready))
    // busy, or what the failing write and the death make of it
    && (s.after.phase == match if Free(s.files, resources) then Ending(|resources|, failingWrite, s.dies) else WriteFailed
                         case Acquired => Ready
                         case Died => Killed
                         case _ => NoLease)
  }

  // An attempt begins, on the session known so far, or no provider was created.
  ghost predicate StartsAttempt(s: Step, h: Holder, outcome: Spawn) {
    var v := s.before;
    match outcome
    case Created =>
      Stays(s, v.(phase := Running, live := true, log := v.log + [Attempt(v.attemptNumber > 1 || v.session.Some?, v.session, None)]))
    case NotCreated => LetsGo(s, v, h)
    case VectorFailed(cleanupProven) => if cleanupProven then LetsGo(s, v, h) else Stays(s, v.(phase := Unresolved))
  }

  // An exception after the boundary was recorded: the leases go only with proof.
  ghost predicate FailsAttempt(s: Step, h: Holder, cleanupProven: bool) {
    if cleanupProven then LetsGo(s, s.before.(live := false), h) else Stays(s, s.before.(phase := Unresolved))
  }

  // The provider exited.  Unproven cleanup ends the run; otherwise the leases go, or the run is
  // corrected while that can help, on the session that the attempt reports or was given.
  ghost predicate FinishesAttempt(s: Step, h: Holder, exit: Exit)
    requires s.before.log != []
  {
    var v := s.before;
    var n, reported := |v.log| - 1, if exit.reported.Some? then exit.reported else v.session;
    var logged := v.(log := v.log[n := v.log[n].(reported := reported)]);
    var proven := logged.(live := false, session := reported);
    if !exit.cleanupProven then Stays(s, logged.(phase := Unresolved))
    else if exit.resultValid || v.correctionCount >= 5 || reported.None? || exit.nonRetryable then LetsGo(s, proven, h)
    else Stays(s, proven.(phase := Ready, correctionCount := v.correctionCount + 1, attemptNumber := v.attemptNumber + 1))
  }

  ghost predicate Enabled(phase: Phase, move: Move) {
    match move
    case Acquires => phase.Starting?
    case Starts(_) => phase.Ready?
    case Fails(_) => phase.Running?
    case Exits(_) => phase.Running?
    case Dies => true
  }

  // Exactly what a move does where it is enabled.
  ghost predicate Makes(s: Step, move: Move, resources: seq<Resource>, h: Holder, failingWrite: Option<nat>)
    requires Enabled(s.before.phase, move) && (move.Exits? ==> s.before.log != [])
  {
    match move
    case Acquires => AcquiresLeases(s, resources, h, failingWrite)
    case Starts(outcome) => StartsAttempt(s, h, outcome)
    case Fails(cleanupProven) => FailsAttempt(s, h, cleanupProven)
    case Exits(exit) => FinishesAttempt(s, h, exit)
    case Dies => Stays(s, s.before.(phase := Killed))
  }

  class LaneController {
    const holder: Holder
    const resources: seq<Resource>
    var phase: Phase
    var attemptNumber: nat
    var correctionCount: nat
    var session: Option<string>
    var live: bool           // a process of this run's provider boundary may be alive
    var log: seq<Attempt>

    ghost predicate Valid()
      reads this
    {
      && attemptNumber == correctionCount + 1 && correctionCount <= MAXIMUM_CORRECTIONS
      && |log| <= attemptNumber && ResumesPredecessor(log)
      && (phase.Starting? ==> log == [] && attemptNumber == 1)
      && (phase.Ready? ==> |log| == attemptNumber - 1 && (log != [] ==> session.Some? && session == log[|log| - 1].reported))
      && (phase.Running? ==> |log| == attemptNumber)
      && (live ==> phase.Running? || phase.Unresolved? || phase.Killed?)
    }

    ghost function Viewed(): View
      reads this
    {
      View(phase, attemptNumber, correctionCount, session, live, log)
    }

    // All declared leases are this run's.
    ghost predicate HoldsLeases(files: LeaseFiles) {
      forall i | 0 <= i < |resources| :: resources[i] in files && files[resources[i]] == holder
    }

    // From the first spawn until the boundary is proven gone, across all corrections.
    ghost predicate Covered(files: LeaseFiles)
      reads this
    {
      phase.Ready? || phase.Running? || live ==> HoldsLeases(files)
    }

    constructor (holder: Holder, resources: seq<Resource>, session: Option<string>)
      ensures Valid() && phase == Starting && !live
      ensures this.holder == holder && this.resources == resources && this.session == session
    {
      this.holder, this.resources, this.session := holder, resources, session;
      phase, attemptNumber, correctionCount, live, log := Starting, 1, 0, false, [];
    }

    method AcquireAll(store: LeaseStore, dies: Option<nat>)
      requires Valid() && phase.Starting?
      modifies this, store`files, store`failingWrite
      ensures Valid() && Covered(store.files) && !live
      ensures AcquiresLeases(Step(old(Viewed()), Viewed(), old(store.files), store.files, store.stubborn, dies),
                             resources, holder, old(store.failingWrite))
    {
      var result := store.Acquire(resources, holder, dies);
      phase := if result.Acquired? then Ready else if result.Died? then Killed else NoLease;
    }

    // Leases go only when nothing of this run's boundary can be alive.
    method ReleaseAll(store: LeaseStore, dies: Option<nat>)
      requires Valid() && !live
      modifies this`phase, store`files
      ensures Valid() && LetsGo(Step(old(Viewed()), Viewed(), old(store.files), store.files, store.stubborn, dies), old(Viewed()), holder)
    {
      var finished := store.Release(holder.lane, holder.run, dies);
      phase := if finished then Finished else Killed;
    }

    method StartAttempt(store: LeaseStore, outcome: Spawn, dies: Option<nat>)
      requires Valid() && phase.Ready? && HoldsLeases(store.files)
      modifies this, store`files
      ensures Valid() && Covered(store.files)
      ensures StartsAttempt(Step(old(Viewed()), Viewed(), old(store.files), store.files, store.stubborn, dies), holder, outcome)
    {
      var resume := attemptNumber > 1 || session.Some?;
      match outcome {
        case Created =>
          log := log + [Attempt(resume, session, None)];
          live := true;
          phase := Running;
        case NotCreated =>
          ReleaseAll(store, dies);
        case VectorFailed(cleanupProven) =>
          // no process was created; the recorded boundary, if any, is an earlier one
          if cleanupProven {
            ReleaseAll(store, dies);
          } else {
            phase := Unresolved;
          }
      }
    }

    // An exception after the boundary was recorded.
    method FailAttempt(store: LeaseStore, cleanupProven: bool, dies: Option<nat>)
      requires Valid() && phase.Running? && HoldsLeases(store.files)
      modifies this, store`files
      ensures Valid() && Covered(store.files)
      ensures FailsAttempt(Step(old(Viewed()), Viewed(), old(store.files), store.files, store.stubborn, dies), holder, cleanupProven)
    {
      if cleanupProven {
        live := false;
        ReleaseAll(store, dies);
      } else {
        phase := Unresolved;
      }
    }

    // The provider exited: prove cleanup, then release, correct, or give up.
    method FinishAttempt(store: LeaseStore, exit: Exit, dies: Option<nat>)
      requires Valid() && phase.Running? && HoldsLeases(store.files)
      modifies this, store`files
      ensures Valid() && Covered(store.files)
      ensures FinishesAttempt(Step(old(Viewed()), Viewed(), old(store.files), store.files, store.stubborn, dies), holder, exit)
    {
      hide ResumesPredecessor, Released, PartlyReleased;
      var reported := if exit.reported.Some? then exit.reported else session;
      ReportKeepsLinks(log, reported);
      log := log[..|log| - 1] + [log[|log| - 1].(reported := reported)];
      if !exit.cleanupProven {
        phase := Unresolved;
        return;
      }
      live := false;
      if reported.Some? {
        session := reported;
      }
      if exit.resultValid {
        ReleaseAll(store, dies);
      } else if correctionCount >= MAXIMUM_CORRECTIONS || reported.None? || exit.nonRetryable {
        ReleaseAll(store, dies);
      } else {
        correctionCount := correctionCount + 1;
        attemptNumber := attemptNumber + 1;
        phase := Ready;
      }
    }

    // The controller process is killed: its files stay, and so may its provider.
    method Kill()
      requires Valid()
      modifies this`phase
      ensures Valid() && Viewed() == old(Viewed()).(phase := Killed)
      ensures forall files | old(Covered(files)) :: Covered(files)
    {
      phase := Killed;
    }

    // One step of this controller, if it is at the point for it.
    method Take(store: LeaseStore, move: Move, dies: Option<nat>)
      requires Valid() && Covered(store.files)
      modifies this, store`files, store`failingWrite
      ensures Valid() && Covered(store.files)
      ensures ChangedBy(old(store.files), store.files, resources, holder, store.stubborn)
      // an enabled move is made, and no other
      ensures var s := Step(old(Viewed()), Viewed(), old(store.files), store.files, store.stubborn, dies);
              if Enabled(old(phase), move) then Makes(s, move, resources, holder, old(store.failingWrite)) else Stays(s, old(Viewed()))
      // a boundary comes to life by a spawn and is given up only on proof of its cleanup
      ensures !old(live) && live ==> move == Starts(Created)
      ensures old(live) && !live ==> move == Fails(true) || (move.Exits? && move.exit.cleanupProven)
    {
      match move {
        case Acquires =>
          if phase.Starting? {
            AcquireAll(store, dies);
          }
        case Starts(outcome) =>
          if phase.Ready? {
            StartAttempt(store, outcome, dies);
          }
        case Fails(cleanupProven) =>
          if phase.Running? {
            FailAttempt(store, cleanupProven, dies);
          }
        case Exits(exit) =>
          if phase.Running? {
            FinishAttempt(store, exit, dies);
          }
        case Dies =>
          Kill();
      }
    }
  }

  /******* Any number of controllers *******/

  // Whose turn it is, what it does if it can, how the lease directory behaves meanwhile, and after
  // how many changes to it, if any, the controller is killed.
  datatype Turn = Turn(who: nat, move: Move, dies: Option<nat>, failingWrite: Option<nat>, stubborn: set<Resource>)

  // Different controllers run different runs.
  ghost predicate DistinctRuns(cs: seq<LaneController>) {
    forall i, j | 0 <= i < j < |cs| ::
      cs[i] != cs[j] && !HeldBy(cs[i].holder, cs[j].holder.lane, cs[j].holder.run)
  }

  ghost predicate AllCovered(cs: seq<LaneController>, files: LeaseFiles)
    reads cs
  {
    forall i | 0 <= i < |cs| :: cs[i].Valid() && cs[i].Covered(files)
  }

  ghost predicate Disjoint(a: seq<Resource>, b: seq<Resource>) {
    forall r :: !(r in a && r in b)
  }

  // Two runs that share a resource never have live provider boundaries together.
  lemma LiveBoundariesExclude(cs: seq<LaneController>, files: LeaseFiles, i: nat, j: nat)
    requires DistinctRuns(cs) && AllCovered(cs, files)
    requires i < j < |cs| && cs[i].live && cs[j].live
    ensures Disjoint(cs[i].resources, cs[j].resources)
  {
    forall r
      ensures !(r in cs[i].resources && r in cs[j].resources)
    {
      if r in cs[i].resources {
        assert r in files && files[r] == cs[i].holder != cs[j].holder;
      }
    }
  }

  // No run makes more than six attempts.
  lemma AtMostSixAttempts(c: LaneController)
    requires c.Valid()
    ensures |c.log| <= 6 && ResumesPredecessor(c.log)
  {
  }

  // Another run's change of the lease directory leaves these leases alone.
  lemma OthersKeepLeases(c: LaneController, other: LaneController, before: LeaseFiles, after: LeaseFiles, stubborn: set<Resource>)
    requires c.HoldsLeases(before) && !HeldBy(c.holder, other.holder.lane, other.holder.run)
    requires ChangedBy(before, after, other.resources, other.holder, stubborn)
    ensures c.HoldsLeases(after)
  {
  }

  // The turn's move was made exactly, if the controller was at the point for it; otherwise nothing happened.
  ghost predicate Turned(s: Step, turn: Turn, resources: seq<Resource>, h: Holder) {
    && s.stubborn == turn.stubborn && s.dies == turn.dies
    && if Enabled(s.before.phase, turn.move)
       then (turn.move.Exits? ==> s.before.log != []) && Makes(s, turn.move, resources, h, turn.failingWrite)
       else Stays(s, s.before)
  }

  // The view of controller i after the first n turns.
  ghost function ViewAt(turns: seq<Turn>, steps: seq<Step>, start: seq<View>, i: nat, n: nat): View
    requires n <= |turns| == |steps| && i < |start|
  {
    if n == 0 then start[i] else if turns[n - 1].who == i then steps[n - 1].after else ViewAt(turns, steps, start, i, n - 1)
  }

  // The lease directory after the first n turns.
  ghost function FilesAt(steps: seq<Step>, start: LeaseFiles, n: nat): LeaseFiles
    requires n <= |steps|
  {
    if n == 0 then start else steps[n - 1].files'
  }

  // Every turn was taken, on what the turns before it had left.
  ghost predicate Taken(cs: seq<LaneController>, turns: seq<Turn>, steps: seq<Step>, start: seq<View>, files: LeaseFiles) {
    && |steps| == |turns| && |start| == |cs|
    && forall t | 0 <= t < |turns| ::
         && turns[t].who < |cs| && Turned(steps[t], turns[t], cs[turns[t].who].resources, cs[turns[t].who].holder)
         && steps[t].before == ViewAt(turns, steps, start, turns[t].who, t) && steps[t].files == FilesAt(steps, files, t)
  }

  lemma {:induction false} ViewStays(turns: seq<Turn>, steps: seq<Step>, turn: Turn, s: Step, start: seq<View>, i: nat, n: nat)
    requires n <= |turns| == |steps| && i < |start|
    ensures ViewAt(turns + [turn], steps + [s], start, i, n) == ViewAt(turns, steps, start, i, n)
  {
    if n > 0 {
      ViewStays(turns, steps, turn, s, start, i, n - 1);
    }
  }

  lemma TakenGrows(cs: seq<LaneController>, turns: seq<Turn>, steps: seq<Step>, start: seq<View>, files: LeaseFiles, turn: Turn, s: Step)
    requires Taken(cs, turns, steps, start, files) && turn.who < |cs|
    requires Turned(s, turn, cs[turn.who].resources, cs[turn.who].holder)
    requires s.before == ViewAt(turns, steps, start, turn.who, |turns|) && s.files == FilesAt(steps, files, |turns|)
    ensures Taken(cs, turns + [turn], steps + [s], start, files)
    ensures FilesAt(steps + [s], files, |turns| + 1) == s.files'
    ensures forall i | 0 <= i < |cs| ::
              ViewAt(turns + [turn], steps + [s], start, i, |turns| + 1)
              == if i == turn.who then s.after else ViewAt(turns, steps, start, i, |turns|)
  {
    hide Turned, ViewAt;
    var turns', steps' := turns + [turn], steps + [s];
    forall t | 0 <= t < |turns'|
      ensures turns'[t].who < |cs| && Turned(steps'[t], turns'[t], cs[turns'[t].who].resources, cs[turns'[t].who].holder)
      ensures steps'[t].before == ViewAt(turns', steps', start, turns'[t].who, t) && steps'[t].files == FilesAt(steps', files, t)
    {
      ViewStays(turns, steps, turn, s, start, turns'[t].who, t);
      if t < |turns| {
        assert Turned(steps[t], turns[t], cs[turns[t].who].resources, cs[turns[t].who].holder);
      }
    }
    forall i | 0 <= i < |cs|
      ensures ViewAt(turns', steps', start, i, |turns| + 1) == if i == turn.who then s.after else ViewAt(turns, steps, start, i, |turns|)
    {
      ViewStays(turns, steps, turn, s, start, i, |turns|);
      LastView(turns, steps, turn, s, start, i);
    }
  }

  lemma NothingTaken(cs: seq<LaneController>, start: seq<View>, files: LeaseFiles)
    requires |start| == |cs|
    ensures Taken(cs, [], [], start, files)
    ensures forall i | 0 <= i < |cs| :: ViewAt([], [], start, i, 0) == start[i]
  {
  }

  lemma LastView(turns: seq<Turn>, steps: seq<Step>, turn: Turn, s: Step, start: seq<View>, i: nat)
    requires |turns| == |steps| && i < |start|
    ensures ViewAt(turns + [turn], steps + [s], start, i, |turns| + 1)
            == if i == turn.who then s.after else ViewAt(turns + [turn], steps + [s], start, i, |turns|)
  {
  }

  // One controller takes one step.
  method TakeTurn(cs: seq<LaneController>, store: LeaseStore, turn: Turn) returns (ghost s: Step)
    requires turn.who < |cs| && DistinctRuns(cs) && AllCovered(cs, store.files)
    modifies cs[turn.who], store
    ensures AllCovered(cs, store.files)
    ensures Turned(s, turn, cs[turn.who].resources, cs[turn.who].holder)
    ensures s.files == old(store.files) && s.files' == store.files
    ensures s.before == old(cs[turn.who].Viewed()) && s.after == cs[turn.who].Viewed()
    ensures forall i | 0 <= i < |cs| && i != turn.who :: cs[i].Viewed() == old(cs[i].Viewed())
  {
    hide ChangedBy, Makes;
    var c := cs[turn.who];
    store.failingWrite, store.stubborn := turn.failingWrite, turn.stubborn;
    ghost var before := store.files;
    ghost var view := c.Viewed();
    c.Take(store, turn.move, turn.dies);
    s := Step(view, c.Viewed(), before, store.files, store.stubborn, turn.dies);
    forall i | 0 <= i < |cs|
      ensures cs[i].Valid() && cs[i].Covered(store.files)
    {
      if i != turn.who {
        assert old(cs[i].Valid() && cs[i].Covered(store.files));
        assert cs[i] != c && !HeldBy(cs[i].holder, c.holder.lane, c.holder.run);
        if cs[i].HoldsLeases(before) {
          OthersKeepLeases(cs[i], c, before, store.files, store.stubborn);
        }
      }
    }
  }

  // Every interleaving of any number of controllers.
  method Interleave(cs: seq<LaneController>, store: LeaseStore, turns: seq<Turn>) returns (ghost steps: seq<Step>)
    requires DistinctRuns(cs)
    requires forall i | 0 <= i < |cs| :: cs[i].Valid() && cs[i].phase == Starting && !cs[i].live
    requires forall t | 0 <= t < |turns| :: turns[t].who < |cs|
    modifies set i | 0 <= i < |cs| :: cs[i]
    modifies store
    ensures AllCovered(cs, store.files)
    // every turn was taken, and nothing else happened
    ensures var start := seq(|cs|, i requires 0 <= i < |cs| => old(cs[i].Viewed()));
            && Taken(cs, turns, steps, start, old(store.files)) && store.files == FilesAt(steps, old(store.files), |turns|)
            && forall i | 0 <= i < |cs| :: cs[i].Viewed() == ViewAt(turns, steps, start, i, |turns|)
    ensures forall i, j | 0 <= i < j < |cs| && cs[i].live && cs[j].live :: Disjoint(cs[i].resources, cs[j].resources)
    ensures forall i | 0 <= i < |cs| :: |cs[i].log| <= 6 && ResumesPredecessor(cs[i].log)
  {
    hide Taken, Turned, ViewAt;
    ghost var start, files := seq(|cs|, i requires 0 <= i < |cs| => old(cs[i].Viewed())), store.files;
    steps := [];
    NothingTaken(cs, start, files);
    for t := 0 to |turns|
      invariant AllCovered(cs, store.files)
      invariant |steps| == t && Taken(cs, turns[..t], steps, start, files) && store.files == FilesAt(steps, files, t)
      invariant forall i | 0 <= i < |cs| :: cs[i].Viewed() == ViewAt(turns[..t], steps, start, i, t)
    {
      ghost var s := TakeTurn(cs, store, turns[t]);
      TakenGrows(cs, turns[..t], steps, start, files, turns[t], s);
      assert turns[..t + 1] == turns[..t] + [turns[t]];
      steps := steps + [s];
    }
    assert turns[..|turns|] == turns;
    forall i, j | 0 <= i < j < |cs| && cs[i].live && cs[j].live
      ensures Disjoint(cs[i].resources, cs[j].resources)
    {
      LiveBoundariesExclude(cs, store.files, i, j);
    }
    forall i | 0 <= i < |cs|
      ensures |cs[i].log| <= 6 && ResumesPredecessor(cs[i].log)
    {
      AtMostSixAttempts(cs[i]);
    }
  }
}
