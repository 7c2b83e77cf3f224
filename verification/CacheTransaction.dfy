/**
 The crash-safe replacement of the installed super-cache (orchestrator_harness/setup.py).

 The runtime root is modelled as a set of directory trees at named places plus one
 durable transaction record.  Every file-system mutation of the program is one step,
 and a fault script decides for each coming step whether it takes place, raises, or
 kills the process; a script is an arbitrary input, so every result below holds for
 a crash at every step, inside the installation, its handlers, and any recovery.
 */
module CacheTransaction {
  import opened Common

  /******* Trees, manifests, and plans *******/

  type Bytes = seq<bv8>

  type Path = seq<string>

  datatype Entry = Dir | File(bytes: Bytes)

  type Tree = map<Path, Entry>

  // SHA-256 is taken as injective: a digest is a constructor applied to the bytes.
  datatype Mark = DirMark | FileMark(digest: Digest)

  datatype Digest = Sha256(of: Bytes)

  type Manifest = map<Path, Mark>

  function MarkOf(e: Entry): Mark {
    match e
    case Dir => DirMark
    case File(bytes) => FileMark(Sha256(bytes))
  }

  function ManifestOf(t: Tree): Manifest {
    map p | p in t :: MarkOf(t[p])
  }

  lemma ManifestInjective(a: Tree, b: Tree)
    requires ManifestOf(a) == ManifestOf(b)
    ensures a == b
  {
    var m, n := ManifestOf(a), ManifestOf(b);
    assert a.Keys == m.Keys == n.Keys == b.Keys;
    forall p | p in a
      ensures a[p] == b[p]
    {
      assert m[p] == n[p];
    }
  }

  // A planned file: the relative destination and the bytes of the shipped source.
  datatype Planned = Planned(path: Path, bytes: Bytes)

  type Plan = seq<Planned>

  ghost predicate ProperPrefix(d: Path, p: Path) {
    0 < |d| < |p| && d == p[..|d|]
  }

  // What the planner delivers: one entry per relative path of a real source tree.
  ghost predicate WellFormedPlan(plan: Plan) {
    && (forall i :: 0 <= i < |plan| ==> plan[i].path != [])
    && (forall i, j :: 0 <= i < |plan| && 0 <= j < |plan| ==> !ProperPrefix(plan[i].path, plan[j].path))
    && (forall i, j :: 0 <= i < j < |plan| ==> plan[i].path != plan[j].path)
  }

  // The proper prefixes of p that are shorter than n.
  function PrefixesBelow(p: Path, n: nat): set<Path>
    requires n <= |p|
  {
    set k | 0 < k < n :: p[..k]
  }

  function Parents(p: Path): set<Path> {
    PrefixesBelow(p, |p|)
  }

  lemma PrefixesStartEmpty(p: Path)
    requires p != []
    ensures PrefixesBelow(p, 1) == {}
  {
  }

  lemma NextParent(p: Path, k: nat)
    requires 0 < k < |p|
    ensures PrefixesBelow(p, k + 1) == PrefixesBelow(p, k) + {p[..k]} <= Parents(p)
  {
  }

  function PlannedDirectories(plan: Plan): set<Path> {
    if plan == [] then {}
    else PlannedDirectories(plan[..|plan| - 1]) + Parents(plan[|plan| - 1].path)
  }

  function PlannedFiles(plan: Plan): map<Path, Bytes> {
    if plan == [] then map[]
    else
      var last := plan[|plan| - 1];
      PlannedFiles(plan[..|plan| - 1])[last.path := last.bytes]
  }

  function TreeOf(directories: set<Path>, files: map<Path, Bytes>): Tree {
    map p | p in directories + files.Keys :: if p in files then File(files[p]) else Dir
  }

  function PlanTree(plan: Plan): Tree {
    TreeOf(PlannedDirectories(plan), PlannedFiles(plan))
  }

  function TargetOf(plan: Plan): Manifest {
    ManifestOf(PlanTree(plan))
  }

  // Every path is a recorded path of the recorded kind; bytes may differ.
  predicate Owned(t: Tree, m: Manifest) {
    forall p | p in t :: p in m && (t[p].Dir? <==> m[p].DirMark?)
  }

  // In addition every byte agrees: what a partly deleted copy of m looks like.
  predicate Remnant(t: Tree, m: Manifest) {
    forall p | p in t :: p in m && MarkOf(t[p]) == m[p]
  }

  // Directory names, file names, and then the bytes of every planned file.
  predicate ValidInstall(plan: Plan, t: Tree) {
    var files := PlannedFiles(plan);
    && (set p | p in t && t[p].Dir?) == PlannedDirectories(plan)
    && (set p | p in t && t[p].File?) == files.Keys
    && (forall i | 0 <= i < |plan| :: plan[i].path in t && t[plan[i].path] == File(plan[i].bytes))
  }

  lemma PlannedFilesAt(plan: Plan, i: nat)
    requires WellFormedPlan(plan) && i < |plan|
    ensures plan[i].path in PlannedFiles(plan) && PlannedFiles(plan)[plan[i].path] == plan[i].bytes
    decreases |plan|
  {
    if i < |plan| - 1 {
      assert plan[i] == plan[..|plan| - 1][i];
      PlannedFilesAt(plan[..|plan| - 1], i);
    }
  }

  lemma PlannedFilesFrom(plan: Plan, p: Path)
    requires p in PlannedFiles(plan)
    ensures exists i :: 0 <= i < |plan| && plan[i].path == p
  {
    var n := |plan| - 1;
    if p != plan[n].path {
      PlannedFilesFrom(plan[..n], p);
      var i :| 0 <= i < n && plan[..n][i].path == p;
      assert plan[i].path == p;
    }
  }

  lemma PlannedDirectoriesFrom(plan: Plan, d: Path)
    requires d in PlannedDirectories(plan)
    ensures exists i :: 0 <= i < |plan| && ProperPrefix(d, plan[i].path)
  {
    var n := |plan| - 1;
    if d in PlannedDirectories(plan[..n]) {
      PlannedDirectoriesFrom(plan[..n], d);
      var i :| 0 <= i < n && ProperPrefix(d, plan[..n][i].path);
      assert ProperPrefix(d, plan[i].path);
    } else {
      assert ProperPrefix(d, plan[n].path);
    }
  }

  lemma FilesAreNotDirectories(plan: Plan)
    requires WellFormedPlan(plan)
    ensures PlannedDirectories(plan) !! PlannedFiles(plan).Keys
  {
    forall p | p in PlannedDirectories(plan) && p in PlannedFiles(plan)
      ensures false
    {
      PlannedDirectoriesFrom(plan, p);
      PlannedFilesFrom(plan, p);
    }
  }

  // The planned tree holds each planned file with its bytes, and the directories above them.
  lemma PlanTreeExactly(plan: Plan, p: Path)
    requires WellFormedPlan(plan)
    ensures forall b :: p in PlanTree(plan) && PlanTree(plan)[p] == File(b) <==> Planned(p, b) in plan
    ensures p in PlanTree(plan) && PlanTree(plan)[p] == Dir <==>
            exists i :: 0 <= i < |plan| && 0 < |p| < |plan[i].path| && plan[i].path[..|p|] == p
  {
    FilesAreNotDirectories(plan);
    if p in PlannedFiles(plan) {
      PlannedFilesFrom(plan, p);
    }
    forall b | Planned(p, b) in plan
      ensures p in PlannedFiles(plan) && PlannedFiles(plan)[p] == b
    {
      var i :| 0 <= i < |plan| && plan[i] == Planned(p, b);
      PlannedFilesAt(plan, i);
    }
    if p in PlannedFiles(plan) {
      var i :| 0 <= i < |plan| && plan[i].path == p;
      PlannedFilesAt(plan, i);
      assert Planned(p, PlannedFiles(plan)[p]) in plan;
    }
    if p in PlannedDirectories(plan) {
      PlannedDirectoriesFrom(plan, p);
    }
    if i :| 0 <= i < |plan| && 0 < |p| < |plan[i].path| && plan[i].path[..|p|] == p {
      ParentsArePlanned(plan, i, p);
    }
  }

  lemma ParentsArePlanned(plan: Plan, i: nat, d: Path)
    requires i < |plan| && 0 < |d| < |plan[i].path| && plan[i].path[..|d|] == d
    ensures d in PlannedDirectories(plan)
  {
    if i < |plan| - 1 {
      assert plan[..|plan| - 1][i] == plan[i];
      ParentsArePlanned(plan[..|plan| - 1], i, d);
    } else {
      assert d in Parents(plan[i].path);
    }
  }

  // Directories, files, and bytes checked one by one amount to tree equality.
  lemma ValidInstallIsPlanTree(plan: Plan, t: Tree)
    requires WellFormedPlan(plan)
    ensures ValidInstall(plan, t) <==> t == PlanTree(plan)
  {
    var files, whole := PlannedFiles(plan), PlanTree(plan);
    FilesAreNotDirectories(plan);
    if ValidInstall(plan, t) {
      forall p
        ensures p in t <==> p in whole
        ensures p in t ==> t[p] == whole[p]
      {
        assert p in t && t[p].Dir? <==> p in set q | q in t && t[q].Dir?;
        assert p in t && t[p].File? <==> p in set q | q in t && t[q].File?;
        if p in files {
          PlannedFilesFrom(plan, p);
          var i :| 0 <= i < |plan| && plan[i].path == p;
          PlannedFilesAt(plan, i);
        }
      }
    }
    if t == whole {
      assert PlannedDirectories(plan) <= t.Keys && files.Keys <= t.Keys;
      forall i | 0 <= i < |plan|
        ensures plan[i].path in t && t[plan[i].path] == File(plan[i].bytes)
      {
        PlannedFilesAt(plan, i);
      }
      assert ValidInstall(plan, t);
    }
  }

  lemma PlanGrows(plan: Plan, i: nat)
    requires WellFormedPlan(plan) && i <= |plan|
    ensures WellFormedPlan(plan[..i])
    ensures PlannedDirectories(plan[..i]) <= PlannedDirectories(plan)
    ensures PlannedFiles(plan[..i]).Keys <= PlannedFiles(plan).Keys
    decreases |plan|
  {
    if i < |plan| {
      var init := plan[..|plan| - 1];
      assert plan[..i] == init[..i];
      PlanGrows(init, i);
    } else {
      assert plan[..i] == plan;
    }
  }

  lemma NextFileNames(plan: Plan, i: nat)
    requires WellFormedPlan(plan) && i < |plan|
    ensures plan[i].path != []
    ensures PlannedDirectories(plan) !! PlannedFiles(plan).Keys
    ensures plan[i].path in PlannedFiles(plan) && plan[i].path !in PlannedFiles(plan[..i])
    ensures PlannedFiles(plan[..i]).Keys <= PlannedFiles(plan).Keys
    ensures PlannedDirectories(plan[..i]) + Parents(plan[i].path) <= PlannedDirectories(plan)
    ensures PlannedDirectories(plan[..i + 1]) == PlannedDirectories(plan[..i]) + Parents(plan[i].path)
    ensures PlannedFiles(plan[..i + 1]) == PlannedFiles(plan[..i])[plan[i].path := plan[i].bytes]
  {
    var item, head, next := plan[i], plan[..i], plan[..i + 1];
    assert next[..i] == head && next[i] == item;
    PlanGrows(plan, i);
    PlanGrows(plan, i + 1);
    FilesAreNotDirectories(plan);
    PlannedFilesAt(plan, i);
    if item.path in PlannedFiles(head) {
      PlannedFilesFrom(head, item.path);
    }
  }

  lemma NothingPlanned(plan: Plan)
    ensures PlanTree(plan[..0]) == map[] && Owned(map[], TargetOf(plan))
  {
  }

  lemma SubtreeIsOwned(ds: set<Path>, fs: map<Path, Bytes>, directories: set<Path>, files: map<Path, Bytes>)
    requires ds <= directories && fs.Keys <= files.Keys && directories !! files.Keys
    ensures Owned(TreeOf(ds, fs), ManifestOf(TreeOf(directories, files)))
  {
  }

  // Making the parents of file i and then writing it turns the first i files into i + 1.
  lemma NextFile(plan: Plan, i: nat, made: set<Path>, bytes: Bytes)
    requires WellFormedPlan(plan) && i < |plan| && made <= Parents(plan[i].path)
    ensures var ds, fs := PlannedDirectories(plan[..i]) + made, PlannedFiles(plan[..i]);
            && Owned(TreeOf(ds, fs), TargetOf(plan))
            && plan[i].path !in TreeOf(ds, fs)
            && Owned(TreeOf(ds, fs)[plan[i].path := File(bytes)], TargetOf(plan))
    ensures var ds, fs := PlannedDirectories(plan[..i]) + Parents(plan[i].path), PlannedFiles(plan[..i]);
            PlanTree(plan[..i + 1]) == TreeOf(ds, fs)[plan[i].path := File(plan[i].bytes)]
  {
    NextFileNames(plan, i);
    var ds, fs := PlannedDirectories(plan[..i]) + made, PlannedFiles(plan[..i]);
    SubtreeIsOwned(ds, fs, PlannedDirectories(plan), PlannedFiles(plan));
    SubtreeIsOwned(ds, fs[plan[i].path := bytes], PlannedDirectories(plan), PlannedFiles(plan));
    FileAdded(ds, fs, plan[i].path, bytes);
    FileAdded(PlannedDirectories(plan[..i + 1]), fs, plan[i].path, plan[i].bytes);
  }

  lemma FileAdded(ds: set<Path>, fs: map<Path, Bytes>, p: Path, bytes: Bytes)
    ensures TreeOf(ds, fs[p := bytes]) == TreeOf(ds, fs)[p := File(bytes)]
  {
  }

  lemma DirectoryAdded(ds: set<Path>, fs: map<Path, Bytes>, d: Path)
    requires d !in fs
    ensures TreeOf(ds + {d}, fs) == TreeOf(ds, fs)[d := Dir]
    ensures d in TreeOf(ds, fs) ==> TreeOf(ds + {d}, fs) == TreeOf(ds, fs)
    ensures |TreeOf(ds + {d}, fs)| == |TreeOf(ds, fs)| + if d in TreeOf(ds, fs) then 0 else 1
  {
  }

  // How many entries some more directories add to a tree.
  ghost function Grown(ds: set<Path>, more: set<Path>, fs: map<Path, Bytes>): nat {
    TreesGrow(ds, ds + more, fs);
    |TreeOf(ds + more, fs)| - |TreeOf(ds, fs)|
  }

  lemma TreesGrow(ds: set<Path>, more: set<Path>, fs: map<Path, Bytes>)
    requires ds <= more
    ensures |TreeOf(ds, fs)| <= |TreeOf(more, fs)|
  {
    var a, b := TreeOf(ds, fs), TreeOf(more, fs);
    assert a.Keys <= b.Keys;
    SubsetSize(a.Keys, b.Keys);
    assert |a| == |a.Keys| && |b| == |b.Keys|;
  }

  lemma SubsetSize(a: set<Path>, b: set<Path>)
    requires a <= b
    ensures |a| <= |b|
  {
    assert b == a + (b - a);
  }

  lemma NoneGrown(ds: set<Path>, fs: map<Path, Bytes>)
    ensures Grown(ds, {}, fs) == 0
  {
    assert ds + {} == ds;
  }

  lemma GrowsOn(ds: set<Path>, made: set<Path>, d: Path, all: set<Path>, fs: map<Path, Bytes>)
    requires made + {d} <= all
    ensures Grown(ds, made + {d}, fs) == Grown(ds, made, fs) + Grown(ds + made, {d}, fs) <= Grown(ds, all, fs)
  {
    assert ds + (made + {d}) == ds + made + {d};
    TreesGrow(ds + (made + {d}), ds + all, fs);
  }

  // How many directories file i still needs.
  ghost function NewParents(plan: Plan, i: nat): nat
    requires i < |plan|
  {
    Grown(PlannedDirectories(plan[..i]), Parents(plan[i].path), PlannedFiles(plan[..i]))
  }

  lemma FileCounts(plan: Plan, i: nat)
    requires WellFormedPlan(plan) && i < |plan|
    ensures |PlanTree(plan[..i + 1])| == |PlanTree(plan[..i])| + NewParents(plan, i) + 1
    ensures |PlanTree(plan[..i + 1])| <= |PlanTree(plan)|
  {
    NextFile(plan, i, Parents(plan[i].path), []);
    PlanGrows(plan, i + 1);
    var part, whole := PlanTree(plan[..i + 1]), PlanTree(plan);
    assert part.Keys <= whole.Keys;
    SubsetSize(part.Keys, whole.Keys);
    assert |part| == |part.Keys| && |whole| == |whole.Keys|;
  }

  /******* The disk *******/

  type Id = string

  datatype Place = Live | Backup | Stage(id: Id)

  datatype Record = Record(id: Id, previous: Option<Manifest>, target: Manifest)

  datatype Disk = Disk(trees: map<Place, Tree>, record: Option<Record>) {
    predicate Matches(place: Place, m: Option<Manifest>) {
      m.Some? && place in trees && ManifestOf(trees[place]) == m.value
    }

    function ManifestAt(place: Place): Option<Manifest> {
      if place in trees then Some(ManifestOf(trees[place])) else None
    }

    function Stages(): set<Id> {
      set q | q in trees && q.Stage? :: q.id
    }
  }

  function WithTree(d: Disk, place: Place, t: Tree): Disk {
    d.(trees := d.trees[place := t])
  }

  lemma TreeReadsBack(d: Disk, place: Place)
    requires place in d.trees
    ensures forall e, u :: d == WithTree(e, place, u) ==> d == WithTree(e, place, d.trees[place])
    ensures d == WithTree(d, place, d.trees[place])
  {
  }

  function Moved(trees: map<Place, Tree>, src: Place, dst: Place): map<Place, Tree>
    requires src in trees
  {
    (trees - {src})[dst := trees[src]]
  }

  /******* The inspection gate *******/

  datatype Refusal =
    | UnownedArtifact
    | NeedsRecovery
    | ForeignStagePath
    | UnexpectedBackup
    | ForeignBackupPath
    | PartialBackup
    | ForeignLivePath
    | AmbiguousLive
    | PriorMissing
    | UnknownLivePath
    | MalformedLive

  datatype Inspection = Inspection(liveValid: bool, transaction: Option<Record>)

  function InspectTransaction(d: Disk, r: Record): Result<Inspection, Refusal> {
    var stage := Stage(r.id);
    if exists id | id in d.Stages() :: id != r.id then Err(UnownedArtifact)
    else if stage in d.trees && !Owned(d.trees[stage], r.target) then Err(ForeignStagePath)
    else if Backup in d.trees && r.previous.None? then Err(UnexpectedBackup)
    else if Backup in d.trees && !Remnant(d.trees[Backup], r.previous.value) then Err(ForeignBackupPath)
    else
      var liveTarget := d.Matches(Live, Some(r.target));
      var livePrevious := d.Matches(Live, r.previous);
      if Backup in d.trees then
        if !(d.Matches(Backup, r.previous) || liveTarget) then Err(PartialBackup)
        else if Live in d.trees && !(liveTarget || livePrevious) && !Owned(d.trees[Live], r.target) then
          Err(ForeignLivePath)
        else Ok(Inspection(false, d.record))
      else if Live in d.trees && !(liveTarget || livePrevious) then Err(AmbiguousLive)
      else if Live !in d.trees && r.previous.Some? then Err(PriorMissing)
      else Ok(Inspection(false, d.record))
  }

  predicate HasUnknownPath(t: Tree, plan: Plan) {
    !Owned(t, TargetOf(plan))
  }

  function Inspect(plan: Plan, d: Disk, overwrite: bool, forDispatch: bool): Result<Inspection, Refusal> {
    if d.record.None? && (Backup in d.trees || d.Stages() != {}) then Err(UnownedArtifact)
    else if forDispatch && (d.record.Some? || Backup in d.trees || d.Stages() != {}) then Err(NeedsRecovery)
    else if d.record.Some? then InspectTransaction(d, d.record.value)
    else if Live !in d.trees then Ok(Inspection(false, None))
    else if HasUnknownPath(d.trees[Live], plan) then Err(UnknownLivePath)
    else if ValidInstall(plan, d.trees[Live]) then Ok(Inspection(true, None))
    else if !overwrite then Err(MalformedLive)
    else Ok(Inspection(false, None))
  }

  /******* What every crash leaves behind *******/

  // Every artifact is one the record explains, and one complete tree is still there.
  ghost predicate Explained(d: Disk, r: Record) {
    && (forall q | q in d.trees :: q == Live || q == Backup || q == Stage(r.id))
    && (Stage(r.id) in d.trees ==> Owned(d.trees[Stage(r.id)], r.target))
    && (Backup in d.trees ==>
          && r.previous.Some?
          && Remnant(d.trees[Backup], r.previous.value)
          && (d.Matches(Backup, r.previous) || d.Matches(Live, Some(r.target))))
    && (Live in d.trees ==>
          || d.Matches(Live, Some(r.target))
          || d.Matches(Live, r.previous)
          || (Backup in d.trees && Owned(d.trees[Live], r.target)))
    && (Live !in d.trees ==> r.previous.None? || Backup in d.trees)
  }

  // The prior tree is there twice, as the live tree and as its own backup.
  ghost predicate DuplicatePrior(d: Disk, r: Record) {
    Backup in d.trees && d.Matches(Live, r.previous) && !d.Matches(Live, Some(r.target))
  }

  ghost predicate Consistent(d: Disk) {
    match d.record
    case None => forall q | q in d.trees :: q == Live
    case Some(r) => Explained(d, r) && !DuplicatePrior(d, r)
  }

  // Where a recovery of this disk ends.
  ghost function Settled(d: Disk): Option<Manifest>
  {
    match d.record
    case None => d.ManifestAt(Live)
    case Some(r) => if d.Matches(Live, Some(r.target)) then Some(r.target) else r.previous
  }

  // How an installation of a plan may change what the disk stands for.
  ghost predicate Follows(before: Disk, after: Disk, target: Manifest) {
    match (before.record, after.record)
    case (None, None) => Settled(after) in {Settled(before), Some(target)}
    case (None, Some(r)) => r.previous == Settled(before) && r.target == target
    case (Some(r0), Some(r)) =>
      || (r == r0 && Settled(after) == Settled(before))
      || (r.previous == Settled(before) && r.target == target)
    case (Some(_), None) => Settled(after) in {Settled(before), Some(target)}
  }

  ghost function Size(trees: map<Place, Tree>, place: Place): nat {
    if place in trees then |trees[place]| + 1 else 0
  }

  ghost predicate JunkLive(d: Disk, r: Record) {
    Live in d.trees && !d.Matches(Live, Some(r.target)) && !d.Matches(Live, r.previous)
  }

  // An upper bound on the mutations a recovery still has to make.
  ghost function Work(d: Disk): nat {
    match d.record
    case None => 0
    case Some(r) =>
      1 + Size(d.trees, Stage(r.id)) + Size(d.trees, Backup)
      + (if JunkLive(d, r) then Size(d.trees, Live) + 1 else 0)
  }

  /******* One step of a recovery, as a change of the disk *******/

  // A deletion of a whole tree that stopped somewhere on its way.
  ghost predicate PartlyRemoved(before: Disk, after: Disk, place: Place)
  {
    && place in before.trees && place in after.trees
    && after == before.(trees := before.trees[place := after.trees[place]])
    && after.trees[place].Keys <= before.trees[place].Keys
    && (forall p | p in after.trees[place] :: after.trees[place][p] == before.trees[place][p])
  }

  ghost predicate Removed(before: Disk, after: Disk, place: Place) {
    place in before.trees && after == before.(trees := before.trees - {place})
  }

  lemma StageShrinks(before: Disk, after: Disk, r: Record)
    requires before.record == Some(r) && Consistent(before)
    requires Removed(before, after, Stage(r.id)) || PartlyRemoved(before, after, Stage(r.id))
    ensures Consistent(after) && Settled(after) == Settled(before)
    ensures Work(before) - Work(after)
         == Size(before.trees, Stage(r.id)) - Size(after.trees, Stage(r.id))
  {
    assert forall q | q == Live || q == Backup :: q in after.trees <==> q in before.trees;
    assert forall q | q in after.trees && q != Stage(r.id) :: after.trees[q] == before.trees[q];
  }

  // Safe only because the target is live: then the backup is no longer needed.
  lemma BackupShrinks(before: Disk, after: Disk, r: Record)
    requires before.record == Some(r) && Consistent(before)
    requires before.Matches(Live, Some(r.target))
    requires Removed(before, after, Backup) || PartlyRemoved(before, after, Backup)
    ensures Consistent(after) && Settled(after) == Settled(before)
    ensures Work(before) - Work(after) == Size(before.trees, Backup) - Size(after.trees, Backup)
  {
    assert forall q | q in after.trees && q != Backup :: q in before.trees && after.trees[q] == before.trees[q];
    assert after.trees[Live] == before.trees[Live];
    assert Size(after.trees, Stage(r.id)) == Size(before.trees, Stage(r.id));
  }

  lemma JunkMovesAside(before: Disk, after: Disk, r: Record)
    requires before.record == Some(r) && Consistent(before) && JunkLive(before, r)
    requires Backup in before.trees && Stage(r.id) !in before.trees
    requires after == before.(trees := Moved(before.trees, Live, Stage(r.id)))
    ensures Consistent(after) && Settled(after) == Settled(before)
    ensures Work(after) + 1 == Work(before)
  {
    assert after.trees[Backup] == before.trees[Backup];
    assert after.trees[Stage(r.id)] == before.trees[Live];
  }

  lemma BackupRestores(before: Disk, after: Disk, r: Record)
    requires before.record == Some(r) && Consistent(before)
    requires Live !in before.trees && Backup in before.trees
    requires after == before.(trees := Moved(before.trees, Backup, Live))
    ensures Consistent(after) && Settled(after) == Settled(before)
    ensures Work(after) + 1 <= Work(before)
    ensures after.Matches(Live, r.previous)
  {
    assert after.trees[Live] == before.trees[Backup];
    assert Size(after.trees, Stage(r.id)) == Size(before.trees, Stage(r.id));
  }

  lemma RecordRetires(before: Disk, after: Disk, r: Record)
    requires before.record == Some(r) && Consistent(before)
    requires Backup !in before.trees && Stage(r.id) !in before.trees
    requires after == before.(record := None)
    ensures Consistent(after) && Settled(after) == Settled(before)
    ensures Work(after) + 1 == Work(before)
    ensures before.Matches(Live, Some(r.target)) || before.Matches(Live, r.previous)
         || (r.previous.None? && Live !in before.trees)
  {
  }

  // What the checks of a recovery find on a consistent disk.
  lemma ConsistentPassesChecks(d: Disk, r: Record)
    requires d.record == Some(r) && Consistent(d)
    ensures Stage(r.id) in d.trees ==> Owned(d.trees[Stage(r.id)], r.target)
    ensures Backup in d.trees ==>
              && r.previous.Some?
              && Remnant(d.trees[Backup], r.previous.value) && Owned(d.trees[Backup], r.previous.value)
              && (d.Matches(Backup, r.previous) || d.Matches(Live, Some(r.target)))
              && (d.Matches(Live, r.previous) ==> d.Matches(Live, Some(r.target)))
    ensures Live in d.trees && !d.Matches(Live, Some(r.target)) && !d.Matches(Live, r.previous) ==>
              JunkLive(d, r) && Owned(d.trees[Live], r.target)
  {
    if Backup in d.trees {
      var t, m := d.trees[Backup], r.previous.value;
      forall p | p in t
        ensures p in m && (t[p].Dir? <==> m[p].DirMark?)
      {
        assert MarkOf(t[p]) == m[p];
      }
    }
  }

  /******* One step of an installation *******/

  // The record is written, the live tree is untouched, and staging may be under way.
  ghost predicate Preparing(d: Disk, r: Record) {
    && d.record == Some(r)
    && d.ManifestAt(Live) == r.previous != Some(r.target)
    && (forall q | q in d.trees :: q == Live || q == Stage(r.id))
    && (Stage(r.id) in d.trees ==> Owned(d.trees[Stage(r.id)], r.target))
  }

  ghost predicate Staged(d: Disk, r: Record) {
    Preparing(d, r) && d.Matches(Stage(r.id), Some(r.target))
  }

  // The target was promoted and the prior tree, if any, is still whole.
  ghost predicate Promoted(d: Disk, r: Record) {
    && d.record == Some(r)
    && r.previous != Some(r.target)
    && d.Matches(Live, Some(r.target))
    && d.ManifestAt(Backup) == r.previous
    && (forall q | q in d.trees :: q == Live || q == Backup)
  }

  lemma OwnedByManifest(t: Tree, m: Manifest)
    requires Remnant(t, m)
    ensures Owned(t, m)
  {
    forall p | p in t
      ensures p in m && (t[p].Dir? <==> m[p].DirMark?)
    {
      assert MarkOf(t[p]) == m[p];
    }
  }

  lemma PhasesAreConsistent(d: Disk, r: Record)
    requires Preparing(d, r) || Promoted(d, r)
    ensures Consistent(d)
    ensures Settled(d) == if Preparing(d, r) then r.previous else Some(r.target)
  {
    if Promoted(d, r) && Backup in d.trees {
      assert Remnant(d.trees[Backup], r.previous.value);
    }
  }

  // Between the two renames of a swap, in either direction, only the backup holds the prior tree.
  ghost predicate Swapping(d: Disk, r: Record) {
    && d.record == Some(r)
    && r.previous.Some? && r.previous != Some(r.target)
    && d.Matches(Backup, r.previous)
    && d.Matches(Stage(r.id), Some(r.target))
    && (forall q | q in d.trees :: q == Backup || q == Stage(r.id))
  }

  lemma SwappingIsConsistent(d: Disk, r: Record)
    requires Swapping(d, r)
    ensures Consistent(d)
  {
    assert Remnant(d.trees[Backup], r.previous.value);
    assert Remnant(d.trees[Stage(r.id)], r.target);
    OwnedByManifest(d.trees[Stage(r.id)], r.target);
  }

  // The renames of a swap and of its undoing lead from phase to phase.
  lemma SwapPhases(d: Disk, r: Record)
    requires Staged(d, r) || Promoted(d, r) || Swapping(d, r)
    ensures Consistent(d)
    ensures Promoted(d, r) || Stage(r.id) in d.trees
    ensures Staged(d, r) && Live in d.trees ==>
              Backup !in d.trees && Swapping(d.(trees := Moved(d.trees, Live, Backup)), r)
    ensures Staged(d, r) && Live !in d.trees ==> Promoted(d.(trees := Moved(d.trees, Stage(r.id), Live)), r)
    ensures Swapping(d, r) ==>
              && Live !in d.trees
              && Promoted(d.(trees := Moved(d.trees, Stage(r.id), Live)), r)
              && Staged(d.(trees := Moved(d.trees, Backup, Live)), r)
    ensures Promoted(d, r) && Backup in d.trees ==>
              Stage(r.id) !in d.trees && Swapping(d.(trees := Moved(d.trees, Live, Stage(r.id))), r)
    ensures Promoted(d, r) && Backup !in d.trees ==>
              && r.previous.None? && Stage(r.id) !in d.trees
              && Staged(d.(trees := Moved(d.trees, Live, Stage(r.id))), r)
  {
    if Swapping(d, r) {
      SwappingIsConsistent(d, r);
      assert Remnant(d.trees[Stage(r.id)], r.target);
      OwnedByManifest(d.trees[Stage(r.id)], r.target);
    } else {
      PhasesAreConsistent(d, r);
      if Promoted(d, r) {
        assert Remnant(d.trees[Live], r.target);
        OwnedByManifest(d.trees[Live], r.target);
      }
    }
  }

  // The steps of the guarded part of a swap.
  ghost function SwapSteps(d: Disk): nat {
    if Live in d.trees then 3 else 2
  }

  // Those of the whole: then the backup is read and deleted.
  ghost function ReplaceSteps(d: Disk): nat {
    SwapSteps(d) + if Live in d.trees then |d.trees[Live]| + 2 else 0
  }

  lemma BackupIsPrior(staged: Disk, promoted: Disk, r: Record)
    requires Staged(staged, r) && Promoted(promoted, r)
    ensures Backup in promoted.trees <==> Live in staged.trees
    ensures Backup in promoted.trees ==> promoted.trees[Backup] == staged.trees[Live]
  {
    if Backup in promoted.trees {
      ManifestInjective(promoted.trees[Backup], staged.trees[Live]);
    }
  }

  // Those of a fresh transaction up to the validated swap: the record and the stage, each entry
  // copied, and the staged tree read back.
  ghost function CommitPoint(plan: Plan, d: Disk): nat {
    2 + |PlanTree(plan)| + 1 + SwapSteps(d)
  }

  // What step k, raising alone, makes of a fresh transaction on a clean disk.
  ghost predicate AfterOneFailure(before: Disk, plan: Plan, id: Id, k: nat, o: Outcome, after: Disk) {
    if k == 1 then o.Raised? && after == before.(record := Some(Record(id, before.ManifestAt(Live), TargetOf(plan))))
    else if k < CommitPoint(plan, before) then o.Raised? && after == before
    else !o.Dead? && Live in after.trees && after.trees[Live] == PlanTree(plan) && (o.Raised? ==> after.record.Some?)
  }

  lemma CleanIsUnique(a: Disk, b: Disk)
    requires a.record == b.record && a.trees.Keys <= {Live} && b.trees.Keys <= {Live}
    requires a.ManifestAt(Live) == b.ManifestAt(Live)
    ensures a == b
  {
    if Live in a.trees {
      ManifestInjective(a.trees[Live], b.trees[Live]);
    }
    assert forall q :: q in a.trees <==> q in b.trees;
    assert forall q | q in a.trees :: a.trees[q] == b.trees[q];
    assert a.trees == b.trees;
  }

  // With the prior state back and the record gone, the disk is what it was.
  lemma Abandoned(before: Disk, failed: Disk, after: Disk, r: Record, plan: Plan)
    requires before.record == None && before.trees.Keys <= {Live} && before.ManifestAt(Live) == r.previous
    requires Consistent(after) && after.ManifestAt(Live) == failed.ManifestAt(Live)
    ensures after.record == None && failed.ManifestAt(Live) == r.previous ==> after == before
    ensures failed.Matches(Live, Some(TargetOf(plan))) ==> Live in after.trees && after.trees[Live] == PlanTree(plan)
  {
    if failed.Matches(Live, Some(TargetOf(plan))) {
      ManifestInjective(after.trees[Live], PlanTree(plan));
    }
    if after.record == None && failed.ManifestAt(Live) == r.previous {
      CleanIsConsistent(after);
      CleanIsUnique(after, before);
    }
  }

  // A phase with the prior tree live determines the disk.
  lemma StagedIsUnique(a: Disk, b: Disk, r: Record)
    requires Staged(a, r) && Staged(b, r)
    ensures a == b
  {
    StagedKnowsPrevious(a, r);
    StagedKnowsPrevious(b, r);
    ManifestInjective(a.trees[Stage(r.id)], b.trees[Stage(r.id)]);
    if Live in a.trees {
      ManifestInjective(a.trees[Live], b.trees[Live]);
    }
    assert forall q :: q in a.trees <==> q in b.trees;
    assert forall q | q in a.trees :: a.trees[q] == b.trees[q];
    assert a.trees == b.trees;
  }

  lemma StagedKnowsPrevious(d: Disk, r: Record)
    requires Staged(d, r)
    ensures Live in d.trees <==> r.previous.Some?
  {
  }

  lemma CleanIsConsistent(d: Disk)
    requires d.record == None
    ensures Consistent(d) <==> d.trees.Keys <= {Live}
    ensures Settled(d) == d.ManifestAt(Live)
  {
  }

  /******* What the gate decides *******/

  // Whether a manifest may be replaced by an installation of the target.
  ghost predicate Installable(m: Option<Manifest>, target: Manifest, overwrite: bool) {
    || m == None
    || m == Some(target)
    || (overwrite && forall p | p in m.value :: p in target && (m.value[p] == DirMark <==> target[p] == DirMark))
  }

  lemma InspectionOfCleanDisk(d: Disk, plan: Plan, overwrite: bool)
    requires WellFormedPlan(plan) && d.record == None
    ensures var i := Inspect(plan, d, overwrite, false);
            && (i.Ok? ==> d.trees.Keys <= {Live} && i.value.transaction == None)
            && (i.Ok? ==> (i.value.liveValid <==> Live in d.trees && d.trees[Live] == PlanTree(plan)))
            && (i.Ok? && i.value.liveValid ==> d == Disk(map[Live := PlanTree(plan)], None))
            && (d.trees.Keys <= {Live} ==> (i.Ok? <==> Installable(d.ManifestAt(Live), TargetOf(plan), overwrite)))
  {
    assert forall q | q in d.trees && q.Stage? :: q.id in d.Stages();
    if Live in d.trees {
      var t := d.trees[Live];
      ValidInstallIsPlanTree(plan, t);
      if ManifestOf(t) == TargetOf(plan) {
        ManifestInjective(t, PlanTree(plan));
      }
      assert Owned(t, TargetOf(plan)) <==> Installable(Some(ManifestOf(t)), TargetOf(plan), true);
    }
  }

  // With a record, the gate lets through exactly the disks the record explains.
  lemma GateAcceptsExplained(d: Disk, r: Record, plan: Plan, overwrite: bool)
    requires d.record == Some(r)
    ensures Inspect(plan, d, overwrite, false) == Ok(Inspection(false, Some(r))) <==> Explained(d, r)
  {
    assert forall q | q in d.trees && q.Stage? :: q.id in d.Stages();
  }

  // The same in terms of the trees themselves: what is staged or half moved has planned names and kinds,
  // and a backup holds nothing but unchanged entries of the prior tree.
  lemma GateReadsTrees(d: Disk, id: Id, prior: Option<Tree>, plan: Plan, overwrite: bool)
    requires d.record == Some(Record(id, if prior.Some? then Some(ManifestOf(prior.value)) else None, TargetOf(plan)))
    ensures Inspect(plan, d, overwrite, false).Ok? <==>
            var whole, trees := PlanTree(plan), d.trees;
            && (forall q | q in trees :: q == Live || q == Backup || q == Stage(id))
            && (Stage(id) in trees ==> forall p | p in trees[Stage(id)] :: p in whole && (trees[Stage(id)][p].Dir? <==> whole[p].Dir?))
            && (Backup in trees ==>
                  && prior.Some? && (forall p | p in trees[Backup] :: p in prior.value && trees[Backup][p] == prior.value[p])
                  && (trees[Backup] == prior.value || (Live in trees && trees[Live] == whole)))
            && (Live in trees ==>
                  || trees[Live] == whole || Some(trees[Live]) == prior
                  || (Backup in trees && forall p | p in trees[Live] :: p in whole && (trees[Live][p].Dir? <==> whole[p].Dir?)))
            && (Live !in trees ==> prior.None? || Backup in trees)
  {
    hide PlanTree;
    var r, whole := d.record.value, PlanTree(plan);
    GateAcceptsExplained(d, r, plan, overwrite);
    assert Inspect(plan, d, overwrite, false).Ok? ==> Inspect(plan, d, overwrite, false) == Ok(Inspection(false, Some(r)));
    forall q | q in d.trees
      ensures d.Matches(q, Some(r.target)) <==> d.trees[q] == whole
      ensures d.Matches(q, r.previous) <==> Some(d.trees[q]) == prior
      ensures Owned(d.trees[q], r.target) <==> forall p | p in d.trees[q] :: p in whole && (d.trees[q][p].Dir? <==> whole[p].Dir?)
      ensures prior.Some? ==>
                (Remnant(d.trees[q], r.previous.value) <==> forall p | p in d.trees[q] :: p in prior.value && d.trees[q][p] == prior.value[p])
    {
      ManifestTells(d.trees[q], whole);
      if prior.Some? {
        ManifestTells(d.trees[q], prior.value);
      }
    }
  }

  // What a manifest says of a tree, in terms of the tree it was taken of.
  lemma ManifestTells(t: Tree, of: Tree)
    ensures ManifestOf(t) == ManifestOf(of) <==> t == of
    ensures Owned(t, ManifestOf(of)) <==> forall p | p in t :: p in of && (t[p].Dir? <==> of[p].Dir?)
    ensures Remnant(t, ManifestOf(of)) <==> forall p | p in t :: p in of && t[p] == of[p]
  {
    if ManifestOf(t) == ManifestOf(of) {
      ManifestInjective(t, of);
    }
  }

  lemma ReachablePassesGate(d: Disk, r: Record, plan: Plan, overwrite: bool)
    requires d.record == Some(r) && Consistent(d)
    ensures Inspect(plan, d, overwrite, false) == Ok(Inspection(false, Some(r)))
  {
    GateAcceptsExplained(d, r, plan, overwrite);
  }

  // Dispatch goes ahead exactly when the plan is installed and nothing is in flight.
  ghost predicate DispatchAllowed(plan: Plan, d: Disk) {
    var i := Inspect(plan, d, false, true);
    i.Ok? && i.value.liveValid
  }

  lemma DispatchExact(plan: Plan, d: Disk)
    requires WellFormedPlan(plan)
    ensures DispatchAllowed(plan, d) <==> d == Disk(map[Live := PlanTree(plan)], None)
  {
    if d.record == None {
      InspectionOfCleanDisk(d, plan, false);
      assert forall q | q in d.trees && q.Stage? :: q.id in d.Stages();
    }
  }

  // No crash loses both the prior tree and the target, and one of them is complete.
  lemma CompleteCopySurvives(d: Disk)
    requires Consistent(d)
    ensures d.record == None ==> d.trees.Keys <= {Live}
    ensures d.record.Some? && d.record.value.previous.Some? ==>
              || d.Matches(Live, d.record.value.previous)
              || d.Matches(Backup, d.record.value.previous)
              || d.Matches(Live, Some(d.record.value.target))
    ensures d.record.Some? && d.record.value.previous.None? ==>
              Backup !in d.trees && d.ManifestAt(Live) in {None, Some(d.record.value.target)}
  {
  }

  // The gate accepts more than a crash can leave behind: a prior tree beside its own
  // backup.  Recovery deletes that backup first, and a crash in the middle of the
  // deletion leaves a disk that the gate refuses.
  lemma DuplicatePriorStrands(a: Path, b: Path, x: Bytes, y: Bytes, plan: Plan)
    requires a != b && x != y
    ensures var prior := map[a := File(x), b := File(x)];
            var r := Record("t", Some(ManifestOf(prior)), ManifestOf(map[a := File(y)]));
            var before := Disk(map[Live := prior, Backup := prior], Some(r));
            var after := Disk(map[Live := prior, Backup := map[a := File(x)]], Some(r));
            && Inspect(plan, before, true, false).Ok?
            && PartlyRemoved(before, after, Backup)
            && Inspect(plan, after, true, false) == Err(PartialBackup)
  {
    var prior, target := map[a := File(x), b := File(x)], map[a := File(y)];
    var part := map[a := File(x)];
    assert ManifestOf(prior)[a] != ManifestOf(target)[a];
    assert b in ManifestOf(prior) && b !in ManifestOf(part);
  }

  // That is the only way: a deletion of an accepted backup may stop anywhere exactly
  // when the prior tree is not also live, or there is nothing to delete.
  lemma InterruptibleExactly(before: Disk, r: Record, plan: Plan)
    requires before.record == Some(r) && Explained(before, r) && Backup in before.trees
    requires before.Matches(Live, Some(r.target)) || before.Matches(Live, r.previous)
    ensures (forall after | PartlyRemoved(before, after, Backup) :: Inspect(plan, after, true, false).Ok?)
       <==> !DuplicatePrior(before, r) || before.trees[Backup] == map[]
  {
    if !DuplicatePrior(before, r) {
      forall after | PartlyRemoved(before, after, Backup)
        ensures Inspect(plan, after, true, false).Ok?
      {
        BackupShrinks(before, after, r);
        ReachablePassesGate(after, r, plan, true);
      }
    } else if before.trees[Backup] == map[] {
      forall after | PartlyRemoved(before, after, Backup)
        ensures Inspect(plan, after, true, false).Ok?
      {
        assert after.trees[Backup] == map[];
        assert after.trees == before.trees;
        GateAcceptsExplained(before, r, plan, true);
      }
    } else {
      var after := WithTree(before, Backup, map[]);
      var p :| p in before.trees[Backup];
      assert p in ManifestOf(before.trees[Backup]) && p !in ManifestOf(after.trees[Backup]);
      assert after.trees[Live] == before.trees[Live];
      assert PartlyRemoved(before, after, Backup);
      GateAcceptsExplained(after, r, plan, true);
    }
  }

  // All manifests a disk stands for.
  ghost function Known(d: Disk): set<Option<Manifest>> {
    {Settled(d)} + match d.record case None => {} case Some(r) => {r.previous, Some(r.target)}
  }

  lemma KnownGrowsByTarget(before: Disk, after: Disk, target: Manifest)
    requires Follows(before, after, target)
    ensures Known(after) <= Known(before) + {Some(target)}
  {
  }

  /******* The program *******/

  // What happens at one step.  A failing or crashing file copy may leave a file behind
  // with arbitrary bytes; every other step is all or nothing.
  datatype Fault = Go | Fail(torn: Option<Bytes>) | Crash(torn: Option<Bytes>)

  ghost predicate Calm(faults: seq<Fault>) {
    forall i | 0 <= i < |faults| :: faults[i] == Go
  }

  // Step k raises, and no other step is disturbed.
  ghost predicate RaisesAt(faults: seq<Fault>, k: nat) {
    k < |faults| && faults[k].Fail? && forall i | 0 <= i < |faults| && i != k :: faults[i] == Go
  }

  // What takes n steps raises exactly if one of them does.
  ghost predicate Spends(before: seq<Fault>, after: seq<Fault>, o: Outcome, n: nat) {
    forall k: nat | RaisesAt(before, k) ::
      if k < n then o.Raised? && Calm(after) else o.Done? && RaisesAt(after, k - n)
  }

  lemma SpendsNothing(faults: seq<Fault>)
    ensures Spends(faults, faults, Done, 0)
  {
  }

  lemma SpendsJoin(a: seq<Fault>, b: seq<Fault>, c: seq<Fault>, o: Outcome, n: nat, m: nat)
    requires Spends(a, b, Done, n) && Spends(b, c, o, m)
    ensures Spends(a, c, o, n + m)
  {
    hide RaisesAt, Calm;
  }

  // Which step raised, from the outcome.
  lemma SpendsTells(a: seq<Fault>, b: seq<Fault>, o: Outcome, n: nat)
    requires Spends(a, b, o, n)
    ensures forall k: nat | RaisesAt(a, k) :: if k < n then o.Raised? && Calm(b) else o.Done?
  {
    hide RaisesAt, Calm;
  }

  lemma SpendsShifts(a: seq<Fault>, b: seq<Fault>, n: nat)
    requires Spends(a, b, Done, n)
    ensures forall k: nat | RaisesAt(a, k) :: k >= n && RaisesAt(b, k - n)
  {
    hide RaisesAt, Calm;
  }

  lemma SpendsMore(a: seq<Fault>, b: seq<Fault>, o: Outcome, n: nat, m: nat)
    requires Spends(a, b, o, n) && !o.Done? && n <= m
    ensures Spends(a, b, o, m)
  {
    hide RaisesAt, Calm;
  }

  // A tree on its way to removal: some of its entries are left, the rest of the disk is untouched.
  ghost predicate Removing(before: Disk, start: nat, disk: Disk, steps: nat, place: Place) {
    && place in before.trees && place in disk.trees
    && disk == before.(trees := before.trees[place := disk.trees[place]])
    && disk.trees[place].Keys <= before.trees[place].Keys
    && (forall p | p in disk.trees[place] :: disk.trees[place][p] == before.trees[place][p])
    && |disk.trees[place]| + steps == |before.trees[place]| + start
  }

  function WithoutEntry(d: Disk, place: Place, p: Path): Disk
    requires place in d.trees
  {
    d.(trees := d.trees[place := d.trees[place] - {p}])
  }

  function Without(d: Disk, place: Place): Disk {
    d.(trees := d.trees - {place})
  }

  lemma StartsRemoving(disk: Disk, place: Place, steps: nat)
    requires place in disk.trees
    ensures Removing(disk, steps, disk, steps, place)
  {
    assert disk.trees[place := disk.trees[place]] == disk.trees;
  }

  lemma RemovalCounts(before: Disk, start: nat, disk: Disk, steps: nat, place: Place)
    requires Removing(before, start, disk, steps, place)
    ensures place in before.trees && place in disk.trees && |disk.trees[place]| + steps == |before.trees[place]| + start
  {
  }

  // Wherever it stops it is a partial removal, and deleting the empty directory completes it.
  lemma RemovalStops(before: Disk, start: nat, disk: Disk, steps: nat, place: Place)
    requires Removing(before, start, disk, steps, place)
    ensures place in before.trees && place in disk.trees && |disk.trees[place]| + steps == |before.trees[place]| + start
    ensures PartlyRemoved(before, disk, place)
    ensures disk.trees[place] == map[] ==> Removed(before, Without(disk, place), place)
    ensures Size(before.trees, place) == |before.trees[place]| + 1 && Size(disk.trees, place) == |disk.trees[place]| + 1
    ensures Size(Without(disk, place).trees, place) == 0
  {
  }

  lemma RemovesEntry(before: Disk, start: nat, disk: Disk, steps: nat, place: Place, p: Path)
    requires Removing(before, start, disk, steps, place) && p in disk.trees[place]
    ensures var next := WithoutEntry(disk, place, p);
            place in next.trees && Removing(before, start, next, steps + 1, place) && |next.trees[place]| < |disk.trees[place]|
  {
    var rest := disk.trees[place] - {p};
    assert rest.Keys == disk.trees[place].Keys - {p};
    assert |rest.Keys| == |disk.trees[place].Keys| - 1;
  }

  class RuntimeRoot {
    var disk: Disk
    var faults: seq<Fault>
    var steps: nat  // mutations made so far
    ghost var dead: bool  // the process has died: no step of it comes after

    constructor (disk: Disk, faults: seq<Fault>)
      ensures this.disk == disk && this.faults == faults && steps == 0 && !dead
    {
      this.disk, this.faults, steps, dead := disk, faults, 0, false;
    }

    method Next() returns (f: Fault)
      requires !dead
      modifies this`faults, this`dead
      ensures if old(faults) == [] then f == Go && faults == [] else old(faults) == [f] + faults
      ensures dead <==> f.Crash?
      ensures Calm(old(faults)) ==> f == Go && Calm(faults)
      ensures forall k: nat | RaisesAt(old(faults), k) :: if k == 0 then f.Fail? && Calm(faults) else f == Go && RaisesAt(faults, k - 1)
    {
      if faults == [] {
        f := Go;
      } else {
        f, faults := faults[0], faults[1..];
      }
      dead := f.Crash?;
    }

    // A step without a mutation: reading bytes back may raise.
    method ReadStep() returns (o: Outcome)
      requires !dead
      modifies this`faults, this`dead
      ensures dead <==> o.Dead?
      ensures Calm(old(faults)) ==> o.Done? && Calm(faults)
      ensures Spends(old(faults), faults, o, 1)
    {
      var f := Next();
      o := match f case Go => Done case Fail(_) => Raised case Crash(_) => Dead;
    }

    method Commit(next: Disk) returns (o: Outcome)
      requires !dead
      modifies this
      ensures dead <==> o.Dead?
      ensures Calm(old(faults)) ==> o.Done? && Calm(faults)
      ensures Spends(old(faults), faults, o, 1)
      ensures o.Done? ==> disk == next && steps == old(steps) + 1
      ensures !o.Done? ==> disk == old(disk) && steps == old(steps)
    {
      o := ReadStep();
      if o.Done? {
        disk, steps := next, steps + 1;
      }
    }

    // Renaming never lands on an existing tree: callers must show that.
    method Rename(src: Place, dst: Place) returns (o: Outcome)
      requires src in disk.trees && dst !in disk.trees
      requires !dead
      modifies this
      ensures dead <==> o.Dead?
      ensures Calm(old(faults)) ==> o.Done? && Calm(faults)
      ensures Spends(old(faults), faults, o, 1)
      ensures o.Done? ==> disk == old(disk).(trees := Moved(old(disk).trees, src, dst)) && steps == old(steps) + 1
      ensures !o.Done? ==> disk == old(disk) && steps == old(steps)
    {
      o := Commit(disk.(trees := Moved(disk.trees, src, dst)));
    }

    method RemoveEntry(place: Place, p: Path, ghost before: Disk, ghost start: nat, ghost script: seq<Fault>) returns (o: Outcome)
      requires place in disk.trees && Removing(before, start, disk, steps, place) && p in disk.trees[place]
      requires place in before.trees && start <= steps && Spends(script, faults, Done, steps - start)
      requires !dead
      modifies this
      ensures dead <==> o.Dead?
      ensures Calm(old(faults)) ==> o.Done? && Calm(faults)
      ensures place in disk.trees && Removing(before, start, disk, steps, place) && old(steps) <= steps
      ensures o.Done? ==> |disk.trees[place]| < |old(disk).trees[place]|
      ensures Spends(script, faults, o, if o.Done? then steps - start else |before.trees[place]| + 1)
    {
      hide RaisesAt, Spends, Calm, Removing, PartlyRemoved, Removed, Size, Without, WithoutEntry;
      RemovalCounts(before, start, disk, steps, place);
      RemovesEntry(before, start, disk, steps, place, p);
      ghost var n, rest := steps - start, faults;
      o := Commit(WithoutEntry(disk, place, p));
      SpendsJoin(script, rest, faults, o, n, 1);
      if !o.Done? {
        SpendsMore(script, faults, o, n + 1, |before.trees[place]| + 1);
      }
    }

    // Deletes the entries one at a time, in any order.
    method RemoveEntries(place: Place) returns (o: Outcome)
      requires place in disk.trees
      requires !dead
      modifies this
      ensures dead <==> o.Dead?
      ensures Calm(old(faults)) ==> o.Done? && Calm(faults)
      ensures place in disk.trees && Removing(old(disk), old(steps), disk, steps, place)
      ensures o.Done? ==> disk.trees[place] == map[]
      ensures Spends(old(faults), faults, o, if o.Done? then |old(disk).trees[place]| else |old(disk).trees[place]| + 1)
    {
      hide RaisesAt, Spends, Calm, Removing, PartlyRemoved, Removed, Size, Without;
      ghost var before, start, script := disk, steps, faults;
      SpendsNothing(script);
      StartsRemoving(disk, place, steps);
      while disk.trees[place] != map[]
        invariant !dead
        invariant Calm(script) ==> Calm(faults)
        invariant start <= steps && Spends(script, faults, Done, steps - start)
        invariant place in disk.trees && Removing(before, start, disk, steps, place)
        decreases |disk.trees[place]|
      {
        var p :| p in disk.trees[place];
        :- RemoveEntry(place, p, before, start, script);
      }
      RemovalStops(before, start, disk, steps, place);
      o := Done;
    }

    // The directory itself goes last.
    method RemoveTree(place: Place) returns (o: Outcome)
      requires place in disk.trees
      requires !dead
      modifies this
      ensures dead <==> o.Dead?
      ensures Calm(old(faults)) ==> o.Done? && Calm(faults)
      ensures if o.Done? then Removed(old(disk), disk, place) else PartlyRemoved(old(disk), disk, place)
      ensures Size(disk.trees, place) + steps == Size(old(disk).trees, place) + old(steps)
      ensures Spends(old(faults), faults, o, Size(old(disk).trees, place))
    {
      hide RaisesAt, Spends, Calm, Removing, PartlyRemoved, Removed, Size, Without;
      ghost var before, start, script := disk, steps, faults;
      o := RemoveEntries(place);
      RemovalStops(before, start, disk, steps, place);
      :- o;
      ghost var rest := faults;
      o := Commit(Without(disk, place));
      SpendsJoin(script, rest, faults, o, |before.trees[place]|, 1);
    }

    method RemoveOwnedTree(place: Place, m: Manifest, verifyBytes: bool) returns (o: Outcome)
      requires place in disk.trees
      requires !dead
      modifies this
      ensures dead <==> o.Dead?
      ensures Calm(old(faults)) && Owned(old(disk).trees[place], m) && (verifyBytes ==> Remnant(old(disk).trees[place], m))
              ==> o.Done? && Calm(faults)
      ensures if o.Done? then Removed(old(disk), disk, place) else PartlyRemoved(old(disk), disk, place)
      ensures Size(disk.trees, place) + steps <= Size(old(disk).trees, place) + old(steps)
      // what is not its own is not touched
      ensures !Owned(old(disk).trees[place], m) || (verifyBytes && !Remnant(old(disk).trees[place], m)) ==>
                o.Raised? && disk == old(disk) && faults == old(faults)
    {
      if !Owned(disk.trees[place], m) || (verifyBytes && !Remnant(disk.trees[place], m)) {
        return Raised;
      }
      o := RemoveTree(place);
    }

    // Finishes the recorded transaction: forward if the target was promoted, else back.
    method Recover(r: Record) returns (o: Outcome)
      requires disk.record == Some(r)
      requires !dead
      modifies this
      ensures dead <==> o.Dead?
      ensures Consistent(old(disk)) ==> Consistent(disk) && Settled(disk) == Settled(old(disk))
      ensures disk.record in {Some(r), None}
      ensures o.Done? ==> disk.record == None && Backup !in disk.trees && Stage(r.id) !in disk.trees
      ensures Consistent(old(disk)) ==> Work(disk) + steps <= Work(old(disk)) + old(steps)
      ensures Consistent(old(disk)) && Calm(old(faults)) ==> o.Done? && Calm(faults)
      // a backup that is not the prior tree and cannot be given up stops it at once
      ensures Backup in old(disk).trees && !old(disk).Matches(Backup, r.previous) && !old(disk).Matches(Live, Some(r.target)) ==>
                o.Raised? && disk == old(disk)
      // a live tree that is neither of the two, nor part of the target, is not moved
      ensures Backup in old(disk).trees && Live in old(disk).trees && !old(disk).Matches(Live, Some(r.target))
              && !old(disk).Matches(Live, r.previous) && !Owned(old(disk).trees[Live], r.target) ==>
                !o.Done? && Live in disk.trees && disk.trees[Live] == old(disk).trees[Live]
                && Backup in disk.trees && disk.trees[Backup] == old(disk).trees[Backup]
    {
      hide Consistent, Settled, Work, JunkLive, PartlyRemoved, Owned, Remnant, Size, Calm;
      ghost var expected := Consistent(disk);
      var stage := Stage(r.id);
      var backupPresent := Backup in disk.trees;
      var liveTarget := disk.Matches(Live, Some(r.target));
      if expected { ConsistentPassesChecks(disk, r); }
      if backupPresent && !(disk.Matches(Backup, r.previous) || liveTarget) {
        return Raised;
      }
      if stage in disk.trees {
        ghost var before := disk;
        o := RemoveOwnedTree(stage, r.target, false);
        if expected { StageShrinks(before, disk, r); }
        :- o;
        if expected { ConsistentPassesChecks(disk, r); }
      }
      if backupPresent && !liveTarget && !disk.Matches(Live, r.previous) {
        if Live in disk.trees {
          if !Owned(disk.trees[Live], r.target) {
            return Raised;
          }
          ghost var before := disk;
          :- Rename(Live, stage);
          if expected { JunkMovesAside(before, disk, r); }
          before := disk;
          o := RemoveOwnedTree(stage, r.target, false);
          if expected { StageShrinks(before, disk, r); }
          :- o;
        }
        ghost var before := disk;
        :- Rename(Backup, Live);
        if expected { BackupRestores(before, disk, r); }
      } else if backupPresent {
        if r.previous.None? {
          return Raised;
        }
        ghost var before := disk;
        o := RemoveOwnedTree(Backup, r.previous.value, true);
        if expected { BackupShrinks(before, disk, r); }
        :- o;
      }
      if expected && Backup !in disk.trees && stage !in disk.trees {
        RecordRetires(disk, disk.(record := None), r);
      }
      if stage in disk.trees || Backup in disk.trees
        || !(disk.Matches(Live, Some(r.target)) || disk.Matches(Live, r.previous)
             || (r.previous.None? && Live !in disk.trees)) {
        return Raised;
      }
      o := Commit(disk.(record := None));
    }

    // Replaces the tree at one place.
    method Put(place: Place, t: Tree) returns (o: Outcome)
      requires place in disk.trees
      requires !dead
      modifies this
      ensures dead <==> o.Dead?
      ensures Calm(old(faults)) ==> o.Done? && Calm(faults)
      ensures Spends(old(faults), faults, o, 1)
      ensures place in disk.trees && disk.trees[place] == if o.Done? then t else old(disk).trees[place]
      ensures forall d, u :: old(disk) == WithTree(d, place, u) ==> disk == WithTree(d, place, disk.trees[place])
    {
      o := Commit(WithTree(disk, place, t));
    }

    method CopyFile(stage: Place, p: Path, bytes: Bytes) returns (o: Outcome)
      requires stage in disk.trees
      requires !dead
      modifies this
      ensures dead <==> o.Dead?
      ensures Calm(old(faults)) ==> o.Done? && Calm(faults)
      ensures Spends(old(faults), faults, o, 1)
      ensures stage in disk.trees
      ensures forall d, u :: old(disk) == WithTree(d, stage, u) ==> disk == WithTree(d, stage, disk.trees[stage])
      ensures o.Done? ==> disk.trees[stage] == old(disk).trees[stage][p := File(bytes)] && steps == old(steps) + 1
      ensures !o.Done? ==>
                || disk.trees[stage] == old(disk).trees[stage]
                || exists b :: disk.trees[stage] == old(disk).trees[stage][p := File(b)]
    {
      var f := Next();
      var written := match f case Go => Some(bytes) case Fail(torn) => torn case Crash(torn) => torn;
      if written.Some? {
        disk := WithTree(disk, stage, disk.trees[stage][p := File(written.value)]);
        steps := steps + 1;
      }
      o := match f case Go => Done case Fail(_) => Raised case Crash(_) => Dead;
    }

    method MakeDirectory(stage: Place, d: Path, ghost ds: set<Path>, ghost fs: map<Path, Bytes>) returns (o: Outcome)
      requires stage in disk.trees && disk.trees[stage] == TreeOf(ds, fs) && d !in fs
      requires !dead
      modifies this
      ensures dead <==> o.Dead?
      ensures Calm(old(faults)) ==> o.Done? && Calm(faults)
      ensures Spends(old(faults), faults, o, Grown(ds, {d}, fs))
      ensures stage in disk.trees
      ensures forall e, u :: old(disk) == WithTree(e, stage, u) ==> disk == WithTree(e, stage, disk.trees[stage])
      ensures disk.trees[stage] == if o.Done? then TreeOf(ds + {d}, fs) else TreeOf(ds, fs)
    {
      DirectoryAdded(ds, fs, d);
      SpendsNothing(faults);
      o := Done;
      if d !in disk.trees[stage] {
        o := Put(stage, disk.trees[stage][d := Dir]);
      }
    }

    // Makes the missing parents of file i, outermost first.
    method MakeParents(stage: Place, plan: Plan, i: nat) returns (o: Outcome)
      requires WellFormedPlan(plan) && i < |plan|
      requires stage in disk.trees
      requires disk.trees[stage] == TreeOf(PlannedDirectories(plan[..i]), PlannedFiles(plan[..i]))
      requires !dead
      modifies this
      ensures dead <==> o.Dead?
      ensures Calm(old(faults)) ==> o.Done? && Calm(faults)
      ensures Spends(old(faults), faults, o, NewParents(plan, i))
      ensures stage in disk.trees
      ensures forall e, u :: old(disk) == WithTree(e, stage, u) ==> disk == WithTree(e, stage, disk.trees[stage])
      ensures Owned(disk.trees[stage], TargetOf(plan))
      ensures o.Done? ==>
                disk.trees[stage] == TreeOf(PlannedDirectories(plan[..i]) + Parents(plan[i].path), PlannedFiles(plan[..i]))
    {
      hide PlanTree, PlannedDirectories, PlannedFiles, WellFormedPlan, Owned, TreeOf, TargetOf, WithTree, PrefixesBelow, Calm, Spends, Grown;
      ghost var before, ds, fs := disk, PlannedDirectories(plan[..i]), PlannedFiles(plan[..i]);
      var path := plan[i].path;
      TreeReadsBack(disk, stage);
      NextFileNames(plan, i);
      NextFile(plan, i, {}, []);
      PrefixesStartEmpty(path);
      NoneGrown(ds, fs);
      assert ds + {} == ds;
      ghost var script := faults;
      SpendsNothing(script);
      for k := 1 to |path|
        invariant !dead
        invariant Calm(script) ==> Calm(faults)
        invariant Spends(script, faults, Done, Grown(ds, PrefixesBelow(path, k), fs))
        invariant stage in disk.trees
        invariant forall e, u :: before == WithTree(e, stage, u) ==> disk == WithTree(e, stage, disk.trees[stage])
        invariant disk.trees[stage] == TreeOf(ds + PrefixesBelow(path, k), fs)
        invariant Owned(disk.trees[stage], TargetOf(plan))
      {
        NextParent(path, k);
        assert ds + PrefixesBelow(path, k) + {path[..k]} == ds + PrefixesBelow(path, k + 1);
        NextFile(plan, i, PrefixesBelow(path, k + 1), []);
        ghost var rest := faults;
        o := MakeDirectory(stage, path[..k], ds + PrefixesBelow(path, k), fs);
        GrowsOn(ds, PrefixesBelow(path, k), path[..k], Parents(path), fs);
        SpendsJoin(script, rest, faults, o, Grown(ds, PrefixesBelow(path, k), fs),
                   Grown(ds + PrefixesBelow(path, k), {path[..k]}, fs));
        if !o.Done? {
          SpendsMore(script, faults, o, Grown(ds, PrefixesBelow(path, k + 1), fs), NewParents(plan, i));
          return;
        }
      }
      o := Done;
    }

    // Copies every planned file and reads each one back.
    method CopyPlan(stage: Place, plan: Plan) returns (o: Outcome)
      requires WellFormedPlan(plan)
      requires stage in disk.trees && disk.trees[stage] == map[]
      requires !dead
      modifies this
      ensures dead <==> o.Dead?
      ensures Calm(old(faults)) ==> o.Done? && Calm(faults)
      ensures Spends(old(faults), faults, o, |PlanTree(plan)|)
      ensures stage in disk.trees && disk == WithTree(old(disk), stage, disk.trees[stage])
      ensures Owned(disk.trees[stage], TargetOf(plan))
      ensures o.Done? ==> disk.trees[stage] == PlanTree(plan)
    {
      hide PlannedDirectories, PlannedFiles, WellFormedPlan, Owned, TreeOf, PrefixesBelow, WithTree, Calm, Spends, Grown;
      ghost var before := disk;
      TreeReadsBack(disk, stage);
      NothingPlanned(plan);
      ghost var script := faults;
      SpendsNothing(script);
      for i := 0 to |plan|
        invariant !dead
        invariant Calm(script) ==> Calm(faults)
        invariant Spends(script, faults, Done, |PlanTree(plan[..i])|)
        invariant stage in disk.trees && disk == WithTree(before, stage, disk.trees[stage])
        invariant disk.trees[stage] == PlanTree(plan[..i])
        invariant Owned(disk.trees[stage], TargetOf(plan))
      {
        var item := plan[i];
        FileCounts(plan, i);
        ghost var n, rest := |PlanTree(plan[..i])|, faults;
        o := MakeParents(stage, plan, i);
        SpendsJoin(script, rest, faults, o, n, NewParents(plan, i));
        if !o.Done? {
          SpendsMore(script, faults, o, n + NewParents(plan, i), |PlanTree(plan)|);
          return;
        }
        ghost var part := disk.trees[stage];
        forall b
          ensures Owned(part[item.path := File(b)], TargetOf(plan))
        {
          NextFile(plan, i, Parents(item.path), b);
        }
        rest := faults;
        o := CopyFile(stage, item.path, item.bytes);
        SpendsJoin(script, rest, faults, o, n + NewParents(plan, i), 1);
        if !o.Done? {
          SpendsMore(script, faults, o, n + NewParents(plan, i) + 1, |PlanTree(plan)|);
          return;
        }
        NextFile(plan, i, Parents(item.path), item.bytes);
        if disk.trees[stage][item.path] != File(item.bytes) {
          return Raised;
        }
      }
      assert plan[..|plan|] == plan;
      o := Done;
    }

    // The guarded part of the swap: rename the prior tree away, rename the stage in, validate.
    method Promote(r: Record, plan: Plan) returns (o: Outcome)
      requires Staged(disk, r) && WellFormedPlan(plan) && r.target == TargetOf(plan)
      requires !dead
      modifies this
      ensures dead <==> o.Dead?
      ensures disk.record == Some(r) && Consistent(disk)
      ensures o.Done? ==> Promoted(disk, r)
      ensures Staged(disk, r) || Promoted(disk, r) || Swapping(disk, r)
      ensures Calm(old(faults)) ==> o.Done? && Calm(faults)
      ensures Spends(old(faults), faults, o, SwapSteps(old(disk)))
    {
      hide Consistent, Calm, RaisesAt, Staged, Swapping, WellFormedPlan, PlannedDirectories, PlannedFiles, TreeOf;
      SwapPhases(disk, r);
      if Live in disk.trees {
        :- Rename(Live, Backup);
        SwapPhases(disk, r);
      }
      :- Rename(Stage(r.id), Live);
      SwapPhases(disk, r);
      :- ReadStep();
      ManifestInjective(disk.trees[Live], PlanTree(plan));
      ValidInstallIsPlanTree(plan, disk.trees[Live]);
      o := if ValidInstall(plan, disk.trees[Live]) then Done else Raised;
    }

    // Undoes whatever the guarded part did.
    method RollBack(r: Record, hadLive: bool) returns (o: Outcome)
      requires Staged(disk, r) || Promoted(disk, r) || Swapping(disk, r)
      requires hadLive == r.previous.Some?
      requires !dead
      modifies this
      ensures dead <==> o.Dead?
      ensures disk.record == Some(r) && Consistent(disk)
      ensures o.Done? ==> Staged(disk, r)
      // nothing but a fault keeps it from restoring the prior tree
      ensures Calm(old(faults)) ==> o.Done? && Calm(faults)
    {
      hide Consistent, Calm, Owned;
      SwapPhases(disk, r);
      o := Done;
      if Backup in disk.trees {
        if Live in disk.trees {
          if Stage(r.id) in disk.trees {
            return Raised;
          }
          :- Rename(Live, Stage(r.id));
          SwapPhases(disk, r);
        }
        o := Rename(Backup, Live);
      } else if !hadLive && Live in disk.trees && Stage(r.id) !in disk.trees {
        o := Rename(Live, Stage(r.id));
      }
      SwapPhases(disk, r);
    }

    // Reads the prior tree once more and deletes it.
    method DropBackup(r: Record) returns (o: Outcome)
      requires Promoted(disk, r) && Backup in disk.trees
      requires !dead
      modifies this
      ensures dead <==> o.Dead?
      ensures disk.record == Some(r) && Consistent(disk) && disk.Matches(Live, Some(r.target))
      ensures o.Done? ==> disk.trees.Keys == {Live}
      ensures Calm(old(faults)) ==> o.Done? && Calm(faults)
      ensures Spends(old(faults), faults, o, |old(disk).trees[Backup]| + 2)
    {
      hide Consistent, Calm, Spends, RaisesAt;
      PhasesAreConsistent(disk, r);
      ghost var before, script := disk, faults;
      o := ReadStep();
      if !o.Done? || !disk.Matches(Backup, r.previous) {
        SpendsMore(script, faults, o, 1, |disk.trees[Backup]| + 2);
        return;
      }
      ghost var rest := faults;
      o := RemoveTree(Backup);
      SpendsJoin(script, rest, faults, o, 1, |before.trees[Backup]| + 1);
      BackupShrinks(before, disk, r);
    }

    // Promotes the staged tree and keeps the prior one until the promotion was validated.
    method ReplaceTree(r: Record, plan: Plan) returns (o: Outcome)
      requires disk.record == Some(r) && WellFormedPlan(plan) && r.target == TargetOf(plan)
      requires Backup !in disk.trees ==> Staged(disk, r)
      requires !dead
      modifies this
      ensures dead <==> o.Dead?
      ensures Backup in old(disk).trees ==> o.Raised? && disk == old(disk)
      ensures Backup !in old(disk).trees ==> disk.record == Some(r) && Consistent(disk)
      ensures o.Done? ==> disk.trees.Keys == {Live} && disk.Matches(Live, Some(r.target))
      ensures Backup !in old(disk).trees && Calm(old(faults)) ==> o.Done? && Calm(faults)
      // one step raises: the swap is undone, and once it is validated the target stays
      ensures Backup !in old(disk).trees ==> Spends(old(faults), faults, o, ReplaceSteps(old(disk)))
      ensures Backup !in old(disk).trees ==> forall k: nat | RaisesAt(old(faults), k) ::
                if k < SwapSteps(old(disk)) then disk == old(disk) else disk.Matches(Live, Some(r.target))
    {
      hide Consistent, Calm, RaisesAt, Staged, Swapping, WellFormedPlan, PlannedDirectories, PlannedFiles, TreeOf, PartlyRemoved;
      if Backup in disk.trees {
        return Raised;
      }
      ghost var start, script := disk, faults;
      var hadLive := Live in disk.trees;
      StagedKnowsPrevious(disk, r);
      o := Promote(r, plan);
      if o.Raised? {
        var undone := RollBack(r, hadLive);
        if undone.Done? {
          StagedIsUnique(start, disk, r);
        }
        return if undone.Dead? then Dead else Raised;
      }
      :- o;
      PhasesAreConsistent(disk, r);
      BackupIsPrior(start, disk, r);
      if Backup in disk.trees {
        ghost var rest := faults;
        o := DropBackup(r);
        SpendsJoin(script, rest, faults, o, SwapSteps(start), |start.trees[Live]| + 2);
      }
    }

    // Everything between the written record and its removal.
    method Perform(r: Record, plan: Plan) returns (o: Outcome)
      requires WellFormedPlan(plan) && r.target == TargetOf(plan)
      requires Preparing(disk, r) && Stage(r.id) in disk.trees && disk.trees[Stage(r.id)] == map[]
      requires !dead
      modifies this
      ensures dead <==> o.Dead?
      ensures disk.record in {Some(r), None} && Consistent(disk)
      ensures disk.record == None ==> disk.trees.Keys == {Live} && disk.trees[Live] == PlanTree(plan)
      ensures o.Done? <==> disk.record == None
      ensures Calm(old(faults)) ==> o.Done? && Calm(faults)
      // one step raises: up to the validated swap the prior tree is in place, and from then on the target is
      ensures Spends(old(faults), faults, o, |PlanTree(plan)| + ReplaceSteps(old(disk)) + 2)
      ensures forall k: nat | RaisesAt(old(faults), k) ::
                if k < |PlanTree(plan)| + 1 + SwapSteps(old(disk)) then Backup !in disk.trees && disk.ManifestAt(Live) == r.previous
                else disk.Matches(Live, Some(r.target))
    {
      hide Consistent, Calm, RaisesAt, Spends, Swapping, WellFormedPlan, PlannedDirectories, PlannedFiles, TreeOf, Remnant;
      ghost var before, script, all := disk, faults, |PlanTree(plan)| + ReplaceSteps(disk) + 2;
      var stage := Stage(r.id);
      o := CopyPlan(stage, plan);
      PhasesAreConsistent(disk, r);
      SpendsTells(script, faults, o, |PlanTree(plan)|);
      if !o.Done? {
        SpendsMore(script, faults, o, |PlanTree(plan)|, all);
        return;
      }
      ghost var rest := faults;
      o := ReadStep();
      SpendsJoin(script, rest, faults, o, |PlanTree(plan)|, 1);
      SpendsTells(script, faults, o, |PlanTree(plan)| + 1);
      if !o.Done? {
        SpendsMore(script, faults, o, |PlanTree(plan)| + 1, all);
        return;
      }
      ValidInstallIsPlanTree(plan, disk.trees[stage]);
      if !ValidInstall(plan, disk.trees[stage]) || ManifestOf(disk.trees[stage]) != r.target {
        return Raised;
      }
      o := ReplaceAndRetire(r, plan, script, |PlanTree(plan)| + 1);
    }

    // Replaces the live tree and then removes the record.  n steps of the script are spent.
    method ReplaceAndRetire(r: Record, plan: Plan, ghost script: seq<Fault>, ghost n: nat) returns (o: Outcome)
      requires WellFormedPlan(plan) && r.target == TargetOf(plan) && Staged(disk, r) && Spends(script, faults, Done, n)
      requires !dead
      modifies this
      ensures dead <==> o.Dead?
      ensures disk.record in {Some(r), None} && Consistent(disk)
      ensures disk.record == None ==> disk.trees.Keys == {Live} && disk.trees[Live] == PlanTree(plan)
      ensures o.Done? <==> disk.record == None
      ensures Calm(old(faults)) ==> o.Done? && Calm(faults)
      ensures Spends(script, faults, o, n + ReplaceSteps(old(disk)) + 1)
      ensures forall k: nat | RaisesAt(script, k) ::
                if k < n + SwapSteps(old(disk)) then Backup !in disk.trees && disk.ManifestAt(Live) == r.previous
                else disk.Matches(Live, Some(r.target))
    {
      hide Consistent, Calm, RaisesAt, Spends, Swapping, WellFormedPlan, PlannedDirectories, PlannedFiles, TreeOf, Remnant;
      ghost var before, rest := disk, faults;
      SpendsShifts(script, rest, n);
      o := ReplaceTree(r, plan);
      SpendsJoin(script, rest, faults, o, n, ReplaceSteps(before));
      if !o.Done? {
        SpendsMore(script, faults, o, n + ReplaceSteps(before), n + ReplaceSteps(before) + 1);
        return;
      }
      ManifestInjective(disk.trees[Live], PlanTree(plan));
      CleanIsConsistent(disk.(record := None));
      SpendsTells(script, faults, o, n + ReplaceSteps(before));
      rest := faults;
      o := Commit(disk.(record := None));
      SpendsJoin(script, rest, faults, o, n + ReplaceSteps(before), 1);
    }

    // The handler: discard the stage, and the record too if the prior state is back.
    method Abandon(r: Record) returns (o: Outcome)
      requires disk.record == Some(r)
      requires !dead
      modifies this
      ensures dead <==> o.Dead?
      ensures Consistent(old(disk)) ==> Consistent(disk)
      ensures disk.record in {Some(r), None}
      ensures Consistent(old(disk)) && disk.record == None ==> disk.ManifestAt(Live) == r.previous
      // without faults the record goes exactly if the prior state is back in place
      ensures Consistent(old(disk)) && Calm(old(faults)) ==>
                (disk.record == None <==> Backup !in old(disk).trees && old(disk).ManifestAt(Live) == r.previous)
      ensures Consistent(old(disk)) && Calm(old(faults)) ==> Stage(r.id) !in disk.trees
      ensures disk.ManifestAt(Live) == old(disk).ManifestAt(Live)
      ensures !o.Raised? && (Consistent(old(disk)) && Calm(old(faults)) ==> o.Done?)
    {
      hide Consistent, Calm, Owned, Remnant, PartlyRemoved;
      ghost var before := disk;
      if Consistent(disk) { ConsistentPassesChecks(disk, r); }
      if Stage(r.id) in disk.trees {
        var removed := RemoveOwnedTree(Stage(r.id), r.target, false);
        if Consistent(before) { StageShrinks(before, disk, r); }
        if removed.Dead? {
          return Dead;
        }
      }
      if Backup !in disk.trees
        && ((r.previous.None? && Live !in disk.trees) || disk.Matches(Live, r.previous))
        && Stage(r.id) !in disk.trees {
        if Consistent(disk) { RecordRetires(disk, disk.(record := None), r); }
        var unlinked := Commit(disk.(record := None));
        if unlinked.Dead? {
          return Dead;
        }
      }
      o := Done;
    }

    // A fresh transaction on a disk with nothing in flight.
    method Transact(plan: Plan, id: Id) returns (o: Outcome)
      requires WellFormedPlan(plan) && disk.record == None && disk.trees.Keys <= {Live}
      requires Live in disk.trees ==> disk.trees[Live] != PlanTree(plan)
      requires !dead
      modifies this
      ensures dead <==> o.Dead?
      ensures Consistent(disk) && Follows(old(disk), disk, TargetOf(plan))
      ensures o.Done? ==> disk == Disk(map[Live := PlanTree(plan)], None)
      ensures Calm(old(faults)) ==> o.Done? && Calm(faults)
      ensures forall k: nat | RaisesAt(old(faults), k) :: AfterOneFailure(old(disk), plan, id, k, o, disk)
    {
      hide Consistent, Calm, RaisesAt, Spends, WellFormedPlan, PlannedDirectories, PlannedFiles, TreeOf;
      ghost var before, script := disk, faults;
      CleanIsConsistent(disk);
      var r := Record(id, disk.ManifestAt(Live), TargetOf(plan));
      if Live in disk.trees && ManifestOf(disk.trees[Live]) == r.target {
        ManifestInjective(disk.trees[Live], PlanTree(plan));
      }
      o := Commit(disk.(record := Some(r)));
      SpendsTells(script, faults, o, 1);
      :- o;
      PhasesAreConsistent(disk, r);
      ghost var rest := faults;
      o := Commit(WithTree(disk, Stage(id), map[]));
      SpendsJoin(script, rest, faults, o, 1, 1);
      SpendsTells(script, faults, o, 2);
      :- o;
      PhasesAreConsistent(disk, r);
      SpendsShifts(script, faults, 2);
      rest := faults;
      o := Perform(r, plan);
      SpendsTells(rest, faults, o, |PlanTree(plan)| + ReplaceSteps(before) + 2);
      if o.Raised? {
        ghost var failed := disk;
        var abandoned := Abandon(r);
        if abandoned.Dead? {
          return Dead;
        }
        Abandoned(before, failed, disk, r, plan);
      }
      forall k: nat | RaisesAt(script, k)
        ensures AfterOneFailure(before, plan, id, k, o, disk)
      {
        assert k >= 2 && RaisesAt(rest, k - 2);
      }
    }

    // Stage and byte-verify the active cache, then place it, recovering first if needed.
    method Install(plan: Plan, overwrite: bool, id: Id) returns (o: Outcome)
      requires WellFormedPlan(plan)
      requires !dead
      modifies this
      ensures dead <==> o.Dead?
      ensures Consistent(old(disk)) ==> Consistent(disk) && Follows(old(disk), disk, TargetOf(plan))
      ensures o.Done? ==> disk == Disk(map[Live := PlanTree(plan)], None)
      ensures Consistent(old(disk)) && Calm(old(faults)) ==>
                (o.Done? <==> Installable(Settled(old(disk)), TargetOf(plan), overwrite))
      // a single raised step before the swap is validated leaves the disk as it was, or with the record alone
      ensures old(disk).record == None && old(disk).trees.Keys <= {Live} && old(disk).ManifestAt(Live) != Some(TargetOf(plan))
              && Installable(old(disk).ManifestAt(Live), TargetOf(plan), overwrite) ==>
                forall k: nat | RaisesAt(old(faults), k) :: AfterOneFailure(old(disk), plan, id, k, o, disk)
    {
      hide Calm, WellFormedPlan, PlanTree, Owned, Settled, Consistent, ValidInstall, ManifestOf, InspectTransaction;
      var inspected := Inspect(plan, disk, overwrite, false);
      ghost var before := disk;
      if before.record.Some? && Consistent(before) { ReachablePassesGate(before, before.record.value, plan, overwrite); }
      if before.record.None? { InspectionOfCleanDisk(before, plan, overwrite); CleanIsConsistent(before); }
      if inspected.Err? {
        return Raised;
      }
      var liveValid := inspected.value.liveValid;
      if disk.record.Some? {
        :- Recover(disk.record.value);
        if Consistent(before) { InspectionOfCleanDisk(disk, plan, overwrite); CleanIsConsistent(disk); }
        inspected := Inspect(plan, disk, overwrite, false);
        if inspected.Err? {
          return Raised;
        }
        liveValid := inspected.value.liveValid;
      }
      InspectionOfCleanDisk(disk, plan, overwrite);
      if liveValid {
        return Done;
      }
      o := Transact(plan, id);
    }
  }

  /******* Whole runs *******/

  // One life of the installer, ended by its script or by its own result.
  datatype Life = Life(plan: Plan, overwrite: bool, id: Id, faults: seq<Fault>)

  // What one installation does: it keeps to what the disk was becoming or its own target, and if nothing
  // fails it ends with its plan live exactly where it may be installed.
  ghost predicate IsLife(life: Life, before: Disk, o: Outcome, after: Disk) {
    && Consistent(before) && Consistent(after) && Follows(before, after, TargetOf(life.plan))
    && (o.Done? ==> after == Disk(map[Live := PlanTree(life.plan)], None))
    && (Calm(life.faults) ==> (o.Done? <==> Installable(Settled(before), TargetOf(life.plan), life.overwrite)))
  }

  lemma LifeIs(life: Life, before: Disk, o: Outcome, after: Disk)
    requires Consistent(before) && Consistent(after) && Follows(before, after, TargetOf(life.plan))
    requires o.Done? ==> after == Disk(map[Live := PlanTree(life.plan)], None)
    requires Calm(life.faults) ==> (o.Done? <==> Installable(Settled(before), TargetOf(life.plan), life.overwrite))
    ensures IsLife(life, before, o, after)
  {
  }

  // Any number of installations, of any plans, each of which may die at any step.
  method Lives(root: RuntimeRoot, lives: seq<Life>) returns (outcomes: seq<Outcome>, ghost disks: seq<Disk>)
    requires root.disk.record == None && root.disk.trees.Keys <= {Live}
    requires forall i | 0 <= i < |lives| :: WellFormedPlan(lives[i].plan)
    modifies root
    ensures Consistent(root.disk)
    ensures Known(root.disk)
         <= {old(root.disk).ManifestAt(Live)} + set i | 0 <= i < |lives| :: Some(TargetOf(lives[i].plan))
    ensures root.disk.record == None ==> root.disk.trees.Keys <= {Live} && Known(root.disk) == {root.disk.ManifestAt(Live)}
    // each installation was made on the disk that the one before it had left
    ensures |disks| == |lives| + 1 && |outcomes| == |lives| && disks[0] == old(root.disk) && disks[|lives|] == root.disk
    ensures forall i | 0 <= i < |lives| :: IsLife(lives[i], disks[i], outcomes[i], disks[i + 1])
  {
    hide Consistent, Settled, Follows, TargetOf, WellFormedPlan, IsLife;
    outcomes, disks := [], [root.disk];
    ghost var start := root.disk.ManifestAt(Live);
    CleanIsConsistent(root.disk);
    for i := 0 to |lives|
      invariant Consistent(root.disk)
      invariant Known(root.disk) <= {start} + set j | 0 <= j < i :: Some(TargetOf(lives[j].plan))
      invariant |disks| == i + 1 && |outcomes| == i && disks[0] == old(root.disk) && disks[i] == root.disk
      invariant forall j | 0 <= j < i :: IsLife(lives[j], disks[j], outcomes[j], disks[j + 1])
    {
      ghost var before := root.disk;
      root.faults := lives[i].faults;
      root.dead := false;
      var o := root.Install(lives[i].plan, lives[i].overwrite, lives[i].id);
      LifeIs(lives[i], before, o, root.disk);
      outcomes, disks := outcomes + [o], disks + [root.disk];
      KnownGrowsByTarget(before, root.disk, TargetOf(lives[i].plan));
    }
    if root.disk.record == None { CleanIsConsistent(root.disk); }
  }

  // Recovery cut short any number of times and taken up again.
  method RecoverThrough(root: RuntimeRoot, scripts: seq<seq<Fault>>)
    requires root.disk.record.Some? && Consistent(root.disk)
    modifies root
    ensures Consistent(root.disk) && Settled(root.disk) == Settled(old(root.disk))
    ensures Work(root.disk) + root.steps <= Work(old(root.disk)) + old(root.steps)
    ensures root.disk.record in {old(root.disk).record, None}
    ensures root.disk.record == None ==>
              root.disk.trees.Keys <= {Live} && root.disk.ManifestAt(Live) == Settled(old(root.disk))
    ensures scripts != [] && Calm(scripts[|scripts| - 1]) ==> root.disk.record == None
  {
    hide Consistent, Settled, Work, Calm;
    for i := 0 to |scripts|
      invariant Consistent(root.disk) && Settled(root.disk) == Settled(old(root.disk))
      invariant Work(root.disk) + root.steps <= Work(old(root.disk)) + old(root.steps)
      invariant root.disk.record in {old(root.disk).record, None}
      invariant i > 0 && Calm(scripts[i - 1]) ==> root.disk.record == None
    {
      root.faults := scripts[i];
      root.dead := false;
      if root.disk.record.Some? {
        var _ := root.Recover(root.disk.record.value);
      }
    }
    if root.disk.record == None { CleanIsConsistent(root.disk); }
  }
}
