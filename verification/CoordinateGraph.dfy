/**
 The coordinate graph of the live matrix: validation, input digests, and the
 retention of earlier rows (examples/v2_live_matrix.py).
 */
module CoordinateGraph {
  import opened Common

  type Name = string

  // Every field of a coordinate but its dependencies.  A value of the wrong type is nothing;
  // rest stands for the fields that are digested and not looked at.
  datatype Direct = Direct(provider: string, resources: Option<seq<string>>, budget: Option<real>, hashesAreObject: bool, rest: string)

  // files maps the label of each consumed input to its fingerprint, or to nothing if the file is missing.
  datatype Coordinate = Coordinate(name: Name, direct: Direct, files: map<string, Option<string>>, deps: seq<Name>)

  type Graph = map<Name, Coordinate>

  // The canonical-JSON SHA-256 is taken as injective: a constructor of the digested parts.
  datatype Digest = Digest(direct: Direct, files: map<string, Option<string>>, runner: string, upstream: map<Name, Digest>)

  datatype Rejection = DuplicateName | InvalidCoordinate | MissingInput | Cyclic

  ghost function DepSet(c: Coordinate): set<Name> {
    set i | 0 <= i < |c.deps| :: c.deps[i]
  }

  predicate FilesPresent(c: Coordinate) {
    forall f | f in c.files :: c.files[f].Some?
  }

  predicate ValidDependencies(g: Graph, n: Name)
    requires n in g
  {
    && (forall i | 0 <= i < |g[n].deps| :: g[n].deps[i] in g && g[n].deps[i] != n)
    && (forall i, j | 0 <= i < j < |g[n].deps| :: g[n].deps[i] != g[n].deps[j])
  }

  const MAXIMUM_COORDINATE_BUDGET := 3600.0

  predicate ValidDeclaration(d: Direct) {
    && d.resources.Some? && (forall i | 0 <= i < |d.resources.value| :: d.resources.value[i] != "")
    && d.budget.Some? && 0.0 < d.budget.value <= MAXIMUM_COORDINATE_BUDGET
    && d.hashesAreObject
  }

  predicate ValidGraph(g: Graph) {
    forall n | n in g :: ValidDependencies(g, n) && ValidDeclaration(g[n].direct)
  }

  /******* Cycles *******/

  // A set in which every coordinate waits for another one of the set.
  ghost predicate Stuck(g: Graph, s: set<Name>) {
    s != {} && s <= g.Keys && forall n | n in s :: DepSet(g[n]) * s != {}
  }

  ghost predicate Acyclic(g: Graph) {
    forall s :: !Stuck(g, s)
  }

  // A numbering in which dependencies come first.
  ghost predicate Ranked(g: Graph, names: set<Name>, rank: map<Name, nat>) {
    names <= g.Keys && names <= rank.Keys
    && forall n | n in names :: forall d | d in DepSet(g[n]) :: d in names && rank[d] < rank[n]
  }

  lemma RankedSetsAreNotStuck(g: Graph, rank: map<Name, nat>, s: set<Name>, n: Name)
    requires Ranked(g, g.Keys, rank) && s <= g.Keys && n in s
    ensures !Stuck(g, s)
    decreases rank[n]
  {
    if Stuck(g, s) {
      var d :| d in DepSet(g[n]) * s;
      RankedSetsAreNotStuck(g, rank, s, d);
    }
  }

  /******* Digests *******/

  ghost function Upstream(c: Coordinate, digests: map<Name, Digest>): map<Name, Digest>
    requires DepSet(c) <= digests.Keys
  {
    map d | d in DepSet(c) :: digests[d]
  }

  // Every known digest is that of its coordinate over the known digests of its dependencies.
  ghost predicate Digested(g: Graph, runner: string, digests: map<Name, Digest>) {
    digests.Keys <= g.Keys
    && forall n | n in digests ::
         DepSet(g[n]) <= digests.Keys
         && digests[n] == Digest(g[n].direct, g[n].files, runner, Upstream(g[n], digests))
  }

  // Two graphs agree on a set of names that is closed under dependencies.
  ghost predicate Agree(g: Graph, h: Graph, s: set<Name>) {
    forall n | n in s ::
      && n in g && n in h
      && g[n].direct == h[n].direct && g[n].files == h[n].files
      && DepSet(g[n]) == DepSet(h[n]) <= s
  }

  ghost predicate SameCone(g: Graph, h: Graph, n: Name) {
    exists s :: n in s && Agree(g, h, s)
  }

  // Digests of two manifests are equal exactly when runner and whole upstream cone are.
  lemma DigestExact(g: Graph, r: string, dg: map<Name, Digest>, h: Graph, q: string, dh: map<Name, Digest>,
                    rank: map<Name, nat>, n: Name)
    requires Digested(g, r, dg) && Digested(h, q, dh) && n in dg && n in dh
    requires Ranked(g, g.Keys, rank)
    ensures dg[n] == dh[n] <==> r == q && SameCone(g, h, n)
  {
    if dg[n] == dh[n] {
      var s := set m | m in dg && m in dh && dg[m] == dh[m];
      forall m | m in s
        ensures DepSet(g[m]) == DepSet(h[m]) <= s
      {
        var up, vp := Upstream(g[m], dg), Upstream(h[m], dh);
        assert up == dg[m].upstream == dh[m].upstream == vp;
        assert DepSet(g[m]) == up.Keys == vp.Keys == DepSet(h[m]);
        forall d | d in DepSet(g[m])
          ensures d in s
        {
          assert up[d] == vp[d];
        }
      }
      assert Agree(g, h, s);
    }
    if r == q && SameCone(g, h, n) {
      var s :| n in s && Agree(g, h, s);
      SameConeSameDigest(g, dg, h, dh, r, rank, s, n);
    }
  }

  lemma SameConeSameDigest(g: Graph, dg: map<Name, Digest>, h: Graph, dh: map<Name, Digest>, r: string,
                           rank: map<Name, nat>, s: set<Name>, n: Name)
    requires Digested(g, r, dg) && Digested(h, r, dh) && n in dg && n in dh
    requires Ranked(g, g.Keys, rank) && Agree(g, h, s) && n in s
    ensures dg[n] == dh[n]
    decreases rank[n]
  {
    forall d | d in DepSet(g[n])
      ensures dg[d] == dh[d]
    {
      SameConeSameDigest(g, dg, h, dh, r, rank, s, d);
    }
  }

  ghost predicate Extends(before: map<Name, Digest>, after: map<Name, Digest>) {
    before.Keys <= after.Keys && forall n | n in before :: after[n] == before[n]
  }

  // What the search knows: correct digests, in an order that respects dependencies.
  ghost predicate Progress(g: Graph, runner: string, digests: map<Name, Digest>, rank: map<Name, nat>) {
    && Digested(g, runner, digests)
    && (forall n | n in digests :: FilesPresent(g[n]))
    && rank.Keys == digests.Keys && Ranked(g, digests.Keys, rank)
    && (forall n | n in digests :: rank[n] < |digests|)
  }

  // Every coordinate on the stack waits for another one on it, or for the next one.
  ghost predicate OnStack(g: Graph, stack: set<Name>, next: Name) {
    stack <= g.Keys && forall n | n in stack :: DepSet(g[n]) * (stack + {next}) != {}
  }

  lemma StackClosesCycle(g: Graph, stack: set<Name>, next: Name)
    requires OnStack(g, stack, next) && next in stack
    ensures Stuck(g, stack)
  {
    assert stack + {next} == stack;
  }

  lemma StackDeepens(g: Graph, stack: set<Name>, next: Name, dep: Name)
    requires OnStack(g, stack, next) && next in g && dep in DepSet(g[next])
    ensures OnStack(g, stack + {next}, dep)
  {
    forall n | n in stack + {next}
      ensures DepSet(g[n]) * (stack + {next} + {dep}) != {}
    {
      var d :| d in if n == next then {dep} else DepSet(g[n]) * (stack + {next});
      assert d in DepSet(g[n]) * (stack + {next} + {dep});
    }
  }

  lemma UpstreamKept(c: Coordinate, before: map<Name, Digest>, after: map<Name, Digest>)
    requires Extends(before, after) && DepSet(c) <= before.Keys
    ensures Upstream(c, after) == Upstream(c, before)
  {
  }

  lemma DigestedGrows(g: Graph, runner: string, digests: map<Name, Digest>, name: Name, digest: Digest)
    requires name in g && name !in digests && DepSet(g[name]) <= digests.Keys
    requires digest == Digest(g[name].direct, g[name].files, runner, Upstream(g[name], digests))
    ensures Extends(digests, digests[name := digest])
    ensures Digested(g, runner, digests) ==> Digested(g, runner, digests[name := digest])
  {
    hide DepSet, Upstream;
    var after := digests[name := digest];
    if Digested(g, runner, digests) {
      forall n | n in after
        ensures DepSet(g[n]) <= digests.Keys && Upstream(g[n], after) == Upstream(g[n], digests)
      {
        UpstreamKept(g[n], digests, after);
      }
    }
  }

  // A new number above all others keeps the numbering.
  lemma RankedGrows(g: Graph, names: set<Name>, rank: map<Name, nat>, name: Name, top: nat)
    requires Ranked(g, names, rank) && name in g && name !in names && DepSet(g[name]) <= names
    requires forall n | n in names :: rank[n] < top
    ensures Ranked(g, names + {name}, rank[name := top])
  {
    hide DepSet;
  }

  lemma DigestAdded(g: Graph, runner: string, digests: map<Name, Digest>, rank: map<Name, nat>, name: Name, digest: Digest)
    requires Progress(g, runner, digests, rank) && name in g && name !in digests && FilesPresent(g[name])
    requires DepSet(g[name]) <= digests.Keys
    requires digest == Digest(g[name].direct, g[name].files, runner, Upstream(g[name], digests))
    ensures Progress(g, runner, digests[name := digest], rank[name := |digests|])
    ensures Extends(digests, digests[name := digest])
  {
    hide DepSet, Upstream, Digested, FilesPresent, Extends, Ranked;
    DigestedGrows(g, runner, digests, name, digest);
    RankedGrows(g, digests.Keys, rank, name, |digests|);
    assert digests[name := digest].Keys == digests.Keys + {name};
    assert |digests[name := digest]| == |digests| + 1;
  }

  // The digests of the first i dependencies.
  ghost predicate Gathered(c: Coordinate, i: nat, upstream: map<Name, Digest>, digests: map<Name, Digest>) {
    && i <= |c.deps| && upstream.Keys == (set j | 0 <= j < i :: c.deps[j])
    && forall d | d in upstream :: d in digests && upstream[d] == digests[d]
  }

  lemma GatheredGrows(c: Coordinate, i: nat, upstream: map<Name, Digest>, before: map<Name, Digest>, after: map<Name, Digest>)
    requires Gathered(c, i, upstream, before) && Extends(before, after) && i < |c.deps| && c.deps[i] in after
    ensures Gathered(c, i + 1, upstream[c.deps[i] := after[c.deps[i]]], after)
  {
  }

  lemma GatheredAll(c: Coordinate, upstream: map<Name, Digest>, digests: map<Name, Digest>)
    requires Gathered(c, |c.deps|, upstream, digests)
    ensures DepSet(c) <= digests.Keys && upstream == Upstream(c, digests)
  {
  }

  lemma DepIsKnown(g: Graph, name: Name, i: nat)
    requires ValidGraph(g) && name in g && i < |g[name].deps|
    ensures g[name].deps[i] in g && g[name].deps[i] in DepSet(g[name])
  {
  }

  // The nested depth-first search with its two mutable tables.
  class DigestSearch {
    const graph: Graph
    const runner: string
    var digests: map<Name, Digest>
    var visiting: set<Name>
    ghost var rank: map<Name, nat>

    ghost predicate Valid()
      reads this
    {
      ValidGraph(graph) && visiting <= graph.Keys && visiting !! digests.Keys && Progress(graph, runner, digests, rank)
    }

    constructor (graph: Graph, runner: string)
      requires ValidGraph(graph)
      ensures Valid() && this.graph == graph && this.runner == runner
      ensures digests == map[] && visiting == {}
    {
      this.graph, this.runner := graph, runner;
      digests, visiting, rank := map[], {}, map[];
    }

    method Visit(name: Name) returns (error: Option<Rejection>)
      requires Valid() && name in graph && OnStack(graph, visiting, name)
      modifies this
      ensures error.None? ==> Valid() && name in digests && visiting == old(visiting) && Extends(old(digests), digests)
      ensures error == Some(Cyclic) ==> exists s :: Stuck(graph, s)
      ensures error == Some(MissingInput) ==> exists n :: n in graph && !FilesPresent(graph[n])
      ensures error in {None, Some(Cyclic), Some(MissingInput)}
      decreases graph.Keys - visiting
    {
      hide Progress, OnStack, Stuck, FilesPresent, Upstream, ValidGraph;
      if name in digests {
        return None;
      }
      if name in visiting {
        StackClosesCycle(graph, visiting, name);
        return Some(Cyclic);
      }
      visiting := visiting + {name};
      var item := graph[name];
      if !FilesPresent(item) {
        return Some(MissingInput);
      }
      var upstream: map<Name, Digest> := map[];
      for i := 0 to |item.deps|
        invariant Valid() && visiting == old(visiting) + {name}
        invariant Extends(old(digests), digests)
        invariant Gathered(item, i, upstream, digests)
      {
        DepIsKnown(graph, name, i);
        StackDeepens(graph, old(visiting), name, item.deps[i]);
        ghost var before := digests;
        error := Visit(item.deps[i]);
        if error.Some? {
          return;
        }
        GatheredGrows(item, i, upstream, before, digests);
        upstream := upstream[item.deps[i] := digests[item.deps[i]]];
      }
      GatheredAll(item, upstream, digests);
      var digest := Digest(item.direct, item.files, runner, upstream);
      DigestAdded(graph, runner, digests, rank, name, digest);
      rank := rank[name := |digests|];
      digests := digests[name := digest];
      visiting := visiting - {name};
      assert visiting == old(visiting);
      error := None;
    }
  }

  predicate DistinctNames(attempts: seq<Coordinate>) {
    forall i, j | 0 <= i < j < |attempts| :: attempts[i].name != attempts[j].name
  }

  ghost predicate Indexes(g: Graph, attempts: seq<Coordinate>) {
    && (forall i | 0 <= i < |attempts| :: attempts[i].name in g && g[attempts[i].name] == attempts[i])
    && (forall n | n in g :: exists i :: 0 <= i < |attempts| && attempts[i].name == n)
  }

  // The coordinates by name; of two with one name the later one.
  ghost function GraphOf(attempts: seq<Coordinate>): Graph {
    if attempts == [] then map[]
    else
      var last := attempts[|attempts| - 1];
      GraphOf(attempts[..|attempts| - 1])[last.name := last]
  }

  method Index(attempts: seq<Coordinate>) returns (byName: Graph)
    ensures byName == GraphOf(attempts)
  {
    byName := map[];
    for i := 0 to |attempts|
      invariant byName == GraphOf(attempts[..i])
    {
      byName := byName[attempts[i].name := attempts[i]];
      assert attempts[..i + 1][..i] == attempts[..i];
    }
    assert attempts[..|attempts|] == attempts;
  }

  lemma IndexesGrows(g: Graph, attempts: seq<Coordinate>, c: Coordinate)
    requires Indexes(g, attempts) && forall i | 0 <= i < |attempts| :: attempts[i].name != c.name
    ensures Indexes(g[c.name := c], attempts + [c])
  {
    var next, after := attempts + [c], g[c.name := c];
    forall n | n in after
      ensures exists j :: 0 <= j < |next| && next[j].name == n
    {
      if n == c.name {
        assert next[|attempts|].name == n;
      } else {
        var j :| 0 <= j < |attempts| && attempts[j].name == n;
        assert next[j].name == n;
      }
    }
  }

  // With distinct names the index holds exactly the coordinates.
  lemma {:induction false} GraphOfIndexes(attempts: seq<Coordinate>)
    requires DistinctNames(attempts)
    ensures Indexes(GraphOf(attempts), attempts)
  {
    hide Indexes;
    if attempts == [] {
      NothingIndexed();
    } else {
      var front, last := attempts[..|attempts| - 1], attempts[|attempts| - 1];
      assert attempts == front + [last];
      assert forall i | 0 <= i < |front| :: front[i].name != last.name;
      GraphOfIndexes(front);
      IndexesGrows(GraphOf(front), front, last);
    }
  }

  lemma NothingIndexed()
    ensures Indexes(map[], [])
  {
  }

  lemma RankedIsAcyclic(g: Graph, rank: map<Name, nat>)
    requires Ranked(g, g.Keys, rank)
    ensures Acyclic(g)
  {
    forall s
      ensures !Stuck(g, s)
    {
      if Stuck(g, s) {
        var n :| n in s;
        RankedSetsAreNotStuck(g, rank, s, n);
      }
    }
  }

  lemma EmptyStack(g: Graph, next: Name)
    ensures OnStack(g, {}, next)
  {
  }

  lemma ProgressComplete(g: Graph, runner: string, digests: map<Name, Digest>, rank: map<Name, nat>, attempts: seq<Coordinate>)
    requires Progress(g, runner, digests, rank) && Indexes(g, attempts)
    requires forall i | 0 <= i < |attempts| :: attempts[i].name in digests
    ensures digests.Keys == g.Keys && Ranked(g, g.Keys, rank) && Digested(g, runner, digests)
    ensures forall n | n in g :: FilesPresent(g[n])
  {
  }

  // Dependencies are valid and acyclic, and every consumed file is there.
  ghost predicate Accepted(g: Graph) {
    ValidGraph(g) && Acyclic(g) && forall n | n in g :: FilesPresent(g[n])
  }

  /******* What is demanded of a list of coordinates *******/

  ghost predicate Named(attempts: seq<Coordinate>, n: Name) {
    exists i :: 0 <= i < |attempts| && attempts[i].name == n
  }

  // Its dependencies are other coordinates, each named once; its resources, its budget, and its
  // hashes are declared properly; and no file that it consumes is missing.
  ghost predicate SoundCoordinate(attempts: seq<Coordinate>, c: Coordinate) {
    && (forall d | d in c.deps :: d != c.name && Named(attempts, d))
    && (forall i, j | 0 <= i < |c.deps| && 0 <= j < |c.deps| && c.deps[i] == c.deps[j] :: i == j)
    && c.direct.resources.Some? && "" !in c.direct.resources.value
    && c.direct.budget.Some? && c.direct.budget.value > 0.0 && !(c.direct.budget.value > 3600.0)
    && c.direct.hashesAreObject
    && (forall f | f in c.files :: c.files[f] != None)
  }

  ghost predicate OneOfEachName(attempts: seq<Coordinate>) {
    forall i, j | 0 <= i < |attempts| && 0 <= j < |attempts| && attempts[i].name == attempts[j].name :: i == j
  }

  ghost predicate WellFormed(attempts: seq<Coordinate>) {
    OneOfEachName(attempts) && forall i | 0 <= i < |attempts| :: SoundCoordinate(attempts, attempts[i])
  }

  ghost predicate DependsOn(attempts: seq<Coordinate>, n: Name, s: set<Name>) {
    exists i, d :: 0 <= i < |attempts| && attempts[i].name == n && d in attempts[i].deps && d in s
  }

  // Each of these coordinates depends on one of them.
  ghost predicate Circular(attempts: seq<Coordinate>, s: set<Name>) {
    s != {} && forall n | n in s :: DependsOn(attempts, n, s)
  }

  // Every coordinate has the digest of its own fields, its files, the runner, and the digests of its dependencies.
  ghost predicate Bound(attempts: seq<Coordinate>, runner: string, digests: map<Name, Digest>) {
    && (forall n :: n in digests <==> Named(attempts, n))
    && forall i | 0 <= i < |attempts| && attempts[i].name in digests ::
         var c, digest := attempts[i], digests[attempts[i].name];
         && digest.direct == c.direct && digest.files == c.files && digest.runner == runner
         && (forall d :: d in digest.upstream <==> d in c.deps)
         && (forall d | d in digest.upstream :: d in digests && digest.upstream[d] == digests[d])
  }

  lemma DigestedIsBound(attempts: seq<Coordinate>, g: Graph, runner: string, digests: map<Name, Digest>)
    requires Indexes(g, attempts) && Digested(g, runner, digests) && digests.Keys == g.Keys
    ensures Bound(attempts, runner, digests)
  {
    forall n
      ensures n in digests <==> Named(attempts, n)
    {
    }
    forall i | 0 <= i < |attempts|
      ensures forall d :: d in DepSet(attempts[i]) <==> d in attempts[i].deps
    {
      DepSetIsDeps(attempts[i]);
    }
  }

  lemma DepSetIsDeps(c: Coordinate)
    ensures forall d :: d in DepSet(c) <==> d in c.deps
  {
    forall d | d in c.deps
      ensures d in DepSet(c)
    {
      var i :| 0 <= i < |c.deps| && c.deps[i] == d;
    }
  }

  lemma SoundExactly(attempts: seq<Coordinate>, g: Graph, c: Coordinate)
    requires Indexes(g, attempts) && c.name in g && g[c.name] == c
    ensures ValidDependencies(g, c.name) && ValidDeclaration(c.direct) && FilesPresent(c) <==> SoundCoordinate(attempts, c)
  {
    assert forall d :: d in g <==> Named(attempts, d);
    if c.direct.resources.Some? {
      assert "" in c.direct.resources.value <==> exists i :: 0 <= i < |c.direct.resources.value| && c.direct.resources.value[i] == "";
    }
  }

  lemma DependsOnExactly(attempts: seq<Coordinate>, g: Graph, n: Name, s: set<Name>)
    requires Indexes(g, attempts)
    ensures DependsOn(attempts, n, s) <==> n in g && DepSet(g[n]) * s != {}
  {
    hide DepSet;
    if DependsOn(attempts, n, s) {
      var i, d :| 0 <= i < |attempts| && attempts[i].name == n && d in attempts[i].deps && d in s;
      DepSetIsDeps(attempts[i]);
      assert d in DepSet(g[n]) * s;
    }
    if n in g && DepSet(g[n]) * s != {} {
      var d :| d in DepSet(g[n]) * s;
      DepSetIsDeps(g[n]);
      var i :| 0 <= i < |attempts| && attempts[i].name == n;
      assert d in attempts[i].deps;
    }
  }

  lemma CircularExactly(attempts: seq<Coordinate>, g: Graph, s: set<Name>)
    requires Indexes(g, attempts)
    ensures Stuck(g, s) <==> Circular(attempts, s)
  {
    hide DepSet, Indexes, DependsOn;
    forall n
      ensures DependsOn(attempts, n, s) <==> n in g && DepSet(g[n]) * s != {}
    {
      DependsOnExactly(attempts, g, n, s);
    }
  }

  // The checks on the index are those on the list.
  lemma AcceptedExactly(attempts: seq<Coordinate>)
    ensures DistinctNames(attempts) <==> OneOfEachName(attempts)
    ensures DistinctNames(attempts) && Accepted(GraphOf(attempts)) <==>
            WellFormed(attempts) && forall s :: !Circular(attempts, s)
  {
    hide GraphOf, ValidDependencies, ValidDeclaration, FilesPresent, SoundCoordinate, Stuck, Circular;
    if DistinctNames(attempts) {
      var g := GraphOf(attempts);
      GraphOfIndexes(attempts);
      forall s
        ensures Stuck(g, s) <==> Circular(attempts, s)
      {
        CircularExactly(attempts, g, s);
      }
      forall i | 0 <= i < |attempts|
        ensures ValidDependencies(g, attempts[i].name) && ValidDeclaration(attempts[i].direct) && FilesPresent(attempts[i])
                <==> SoundCoordinate(attempts, attempts[i])
      {
        SoundExactly(attempts, g, attempts[i]);
      }
      assert Accepted(g) <==> Acyclic(g) && forall i | 0 <= i < |attempts| ::
               ValidDependencies(g, attempts[i].name) && ValidDeclaration(attempts[i].direct) && FilesPresent(attempts[i]);
    }
  }

  // Validate the graph and bind every consumed input.
  method Coordinates(attempts: seq<Coordinate>, runner: string)
    returns (result: Result<map<Name, Digest>, Rejection>)
    ensures result.Ok? <==> WellFormed(attempts) && forall s :: !Circular(attempts, s)
    ensures result == Err(DuplicateName) <==> !OneOfEachName(attempts)
    ensures result.Ok? ==> Bound(attempts, runner, result.value)
    ensures result.Ok? ==> DistinctNames(attempts) && Accepted(GraphOf(attempts))
    ensures result.Ok? ==>
              var graph := GraphOf(attempts);
              && result.value.Keys == graph.Keys && Digested(graph, runner, result.value)
              && exists rank :: Ranked(graph, graph.Keys, rank)
  {
    hide DistinctNames, ValidGraph, Progress, OnStack, Stuck, Ranked, Digested, GraphOf, WellFormed, Circular, OneOfEachName, Bound;
    AcceptedExactly(attempts);
    if !DistinctNames(attempts) {
      return Err(DuplicateName);
    }
    var byName := Index(attempts);
    GraphOfIndexes(attempts);
    if !ValidGraph(byName) {
      return Err(InvalidCoordinate);
    }
    var search := new DigestSearch(byName, runner);
    for i := 0 to |attempts|
      invariant search.Valid() && search.graph == byName && search.runner == runner && search.visiting == {}
      invariant forall j | 0 <= j < i :: attempts[j].name in search.digests
    {
      EmptyStack(byName, attempts[i].name);
      var error := search.Visit(attempts[i].name);
      if error.Some? {
        return Err(error.value);
      }
    }
    ProgressComplete(byName, runner, search.digests, search.rank, attempts);
    RankedIsAcyclic(byName, search.rank);
    DigestedIsBound(attempts, byName, runner, search.digests);
    result := Ok(search.digests);
  }
}
