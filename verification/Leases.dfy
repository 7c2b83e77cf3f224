/**
 Exclusive-resource leases (orchestrator_harness/leases.py): one file for each held
 resource, created all or none under one lock.
 */
module Leases {
  import opened Common

  type Resource = string

  datatype Holder = Holder(lane: string, run: string, pid: int, creation: string)

  // The lease directory.  File names are digests of resource names, taken as injective.
  type LeaseFiles = map<Resource, Holder>

  datatype AcquireResult = Acquired | Busy(resource: Resource) | WriteFailed | Died

  ghost function Granted(files: LeaseFiles, resources: seq<Resource>, h: Holder): LeaseFiles {
    map r | r in files.Keys + (set x | x in resources) :: if r in resources then h else files[r]
  }

  ghost predicate Free(files: LeaseFiles, resources: seq<Resource>) {
    forall i | 0 <= i < |resources| :: resources[i] !in files
  }

  predicate HeldBy(h: Holder, lane: string, run: string) {
    h.lane == lane && h.run == run
  }

  // Every lease of a run but those whose file could not be removed.
  ghost function Released(files: LeaseFiles, lane: string, run: string, stubborn: set<Resource>): LeaseFiles {
    map r | r in files && (!HeldBy(files[r], lane, run) || r in stubborn) :: files[r]
  }

  // Some of a run's leases are gone, and nothing else changed.
  ghost predicate PartlyReleased(before: LeaseFiles, after: LeaseFiles, lane: string, run: string) {
    && after.Keys <= before.Keys && (forall r | r in after :: after[r] == before[r])
    && (forall r | r in before && r !in after :: HeldBy(before[r], lane, run))
  }

  // What a failed acquisition may leave: some of the resources, all held by the caller.
  ghost predicate Leftover(before: LeaseFiles, after: LeaseFiles, resources: seq<Resource>, h: Holder) {
    && before.Keys <= after.Keys
    && (forall r | r in before :: after[r] == before[r])
    && (forall r | r in after && r !in before :: r in resources && after[r] == h)
  }

  // How an acquisition of n free resources ends, given which write fails and after how many steps it is killed.
  ghost function Ending(n: nat, failing: Option<nat>, dies: Option<nat>): AcquireResult {
    if failing.Some? && failing.value < n && (dies.None? || dies.value > failing.value) then
      if dies.Some? && dies.value - failing.value < failing.value then Died else WriteFailed
    else if dies.Some? && dies.value < n then Died
    else Acquired
  }

  class LeaseStore {
    var files: LeaseFiles
    var failingWrite: Option<nat>       // the write that raises, counted from now
    var stubborn: set<Resource>         // files whose removal fails

    constructor (files: LeaseFiles, failingWrite: Option<nat>, stubborn: set<Resource>)
      ensures this.files == files && this.failingWrite == failingWrite && this.stubborn == stubborn
    {
      this.files, this.failingWrite, this.stubborn := files, failingWrite, stubborn;
    }

    method Write(r: Resource, h: Holder) returns (ok: bool)
      modifies this`files, this`failingWrite
      ensures files == if ok then old(files)[r := h] else old(files)
      ensures ok <==> old(failingWrite) != Some(0)
      ensures old(failingWrite).None? ==> failingWrite.None?
      ensures old(failingWrite).Some? && old(failingWrite).value > 0 ==> failingWrite == Some(old(failingWrite).value - 1)
    {
      ok := failingWrite != Some(0);
      if ok {
        files := files[r := h];
      }
      if failingWrite.Some? && failingWrite.value > 0 {
        failingWrite := Some(failingWrite.value - 1);
      }
    }

    method Unlink(r: Resource)
      modifies this`files
      ensures files == if r in stubborn then old(files) else old(files) - {r}
    {
      if r !in stubborn {
        files := files - {r};
      }
    }

    // Acquire every declared lease or none.  The process may be killed after some of its writes,
    // or, if one fails, after some of the removals that undo them.
    method Acquire(resources: seq<Resource>, h: Holder, dies: Option<nat>) returns (result: AcquireResult)
      modifies this`files, this`failingWrite
      ensures result.Acquired? ==> Free(old(files), resources) && files == Granted(old(files), resources, h)
      ensures result.Busy? ==> files == old(files) && result.resource in resources && result.resource in old(files)
      ensures result.WriteFailed? || result.Died? ==> Leftover(old(files), files, resources, h)
      ensures result.WriteFailed? && stubborn == {} ==> files == old(files)
      ensures result.Died? ==> dies.Some?
      ensures old(failingWrite).None? && dies.None? ==> (result.Acquired? <==> Free(old(files), resources))
      // busy exactly if some resource is held, and otherwise the outcome is what the failing write and the death make it
      ensures result.Busy? <==> exists i :: 0 <= i < |resources| && resources[i] in old(files)
      ensures !result.Busy? ==> result == Ending(|resources|, old(failingWrite), dies)
    {
      ghost var before := files;
      for i := 0 to |resources|
        invariant files == before && failingWrite == old(failingWrite)
        invariant Free(before, resources[..i])
      {
        if resources[i] in files {
          return Busy(resources[i]);
        }
        assert resources[..i + 1] == resources[..i] + [resources[i]];
      }
      assert resources[..|resources|] == resources;
      GrantNothing(before, h);
      for i := 0 to |resources|
        invariant files == Granted(before, resources[..i], h)
        invariant old(failingWrite).None? ==> failingWrite.None?
        invariant old(failingWrite).Some? ==>
                    failingWrite.Some? && i <= old(failingWrite).value && failingWrite.value == old(failingWrite).value - i
        invariant dies.Some? ==> i <= dies.value
      {
        if dies == Some(i) {
          return Died;
        }
        var ok := Write(resources[i], h);
        if !ok {
          var undone := RollBack(resources[..i], h, if dies.Some? && dies.value > i then Some(dies.value - i) else None, before);
          return if undone then WriteFailed else Died;
        }
        GrantNext(before, resources, i, h);
      }
      assert resources[..|resources|] == resources;
      return Acquired;
    }

    method RollBack(acquired: seq<Resource>, h: Holder, dies: Option<nat>, ghost before: LeaseFiles) returns (undone: bool)
      requires Free(before, acquired) && files == Granted(before, acquired, h)
      modifies this`files
      ensures Leftover(before, files, acquired, h)
      ensures undone && stubborn == {} ==> files == before
      ensures !undone <==> dies.Some? && dies.value < |acquired|
    {
      for i := 0 to |acquired|
        invariant Leftover(before, files, acquired, h)
        invariant stubborn == {} ==> forall j | 0 <= j < i :: acquired[j] !in files
        invariant dies.Some? ==> i <= dies.value
      {
        if dies == Some(i) {
          return false;
        }
        Unlink(acquired[i]);
      }
      if stubborn == {} {
        assert files.Keys == before.Keys;
      }
      undone := true;
    }

    // Remove every lease held by this lane's run.  The process may be killed after some of the removals.
    method Release(lane: string, run: string, dies: Option<nat>) returns (finished: bool)
      modifies this`files
      ensures finished ==> files == Released(old(files), lane, run, stubborn)
      ensures !finished ==> dies.Some? && PartlyReleased(old(files), files, lane, run)
      ensures finished <==> dies.None? || dies.value >= |old(files)|
      // whatever goes names this lane and this run, and whatever stays is unchanged
      ensures forall r | r in old(files) && r !in files :: old(files)[r].lane == lane && old(files)[r].run == run && r !in stubborn
      ensures forall r | r in files :: r in old(files) && files[r] == old(files)[r]
      ensures finished ==> forall r | r in files && files[r].lane == lane && files[r].run == run :: r in stubborn
    {
      var left, steps := files.Keys, 0;
      ghost var before := files;
      while left != {}
        invariant files == map r | r in before && (r in left || !HeldBy(before[r], lane, run) || r in stubborn) :: before[r]
        invariant left <= before.Keys && steps + |left| == |before.Keys| && (dies.Some? ==> steps <= dies.value)
        decreases left
      {
        if dies == Some(steps) {
          return false;
        }
        var r :| r in left;
        if HeldBy(files[r], lane, run) {
          Unlink(r);
        }
        left, steps := left - {r}, steps + 1;
      }
      finished := true;
    }
  }

  lemma GrantNothing(files: LeaseFiles, h: Holder)
    ensures forall resources: seq<Resource> :: Granted(files, resources[..0], h) == files
  {
  }

  lemma GrantNext(files: LeaseFiles, resources: seq<Resource>, i: nat, h: Holder)
    requires i < |resources|
    ensures Granted(files, resources[..i + 1], h) == Granted(files, resources[..i], h)[resources[i] := h]
  {
    assert resources[..i + 1] == resources[..i] + [resources[i]];
  }
}
