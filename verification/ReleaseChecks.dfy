/**
 Selecting release checks, preserving credit, and merging a run's results into the
 checkpoint (orchestrator_harness/release_checks.py).

 Hashing, glob matching and Git are inputs: each check's current fingerprint, the
 checks that consume the changed inputs, and the tips that are ancestors of the
 current one.
 */
module ReleaseChecks {
  import opened Common
  import opened Strings

  /******* Records *******/

  datatype Tier = FastTier | AffectedTier | FullTier | ReleaseTier

  datatype Intent = Fast | Affected | Full | Release

  datatype Spec = Spec(id: string, tier: Tier, command: seq<string>, external: bool, contract: string)

  datatype Source = Source(root: string, gitDir: string, branch: string, tip: string)

  // Runner components by name; a component may be present and absent-valued.
  type Runner = map<string, Option<string>>

  // asPass: the schema and status are those of a PASS credit; typed: every other field has its type.
  datatype Credit = Credit(id: Option<string>, asPass: bool, typed: bool, tier: Tier, command: seq<string>, contract: string,
                           fingerprint: string, source: Source, runner: Runner)

  datatype Status = Fail | Unresolved | Skip

  // A status as written: exactly, in other letter case, or not one of the three.
  datatype StatusText = Canonical(status: Status) | OtherCase(status: Status) | Malformed

  datatype Disposition = Disposition(id: Option<string>, asDisposition: bool, status: StatusText, reason: string)

  datatype Changes = Unknown | Known(consumers: set<string>)

  // What the selector looks up.
  datatype World = World(source: Source, ancestors: set<string>, runner: Runner, fingerprints: map<string, string>)

  datatype Query = Query(intent: Intent, world: World, credits: seq<Credit>, dispositions: seq<Disposition>,
                         changes: Changes, excluded: set<string>)

  datatype Reason = PriorFailed | PriorUnresolved | PriorSkipped | MissingCredit | StaleOrInvalidCredit

  datatype Selected = Selected(spec: Spec, fingerprint: string, reason: Reason)

  datatype Decision = Decision(source: Source, selected: seq<Selected>, preserved: seq<Credit>,
                               invalidated: set<string>, rejected: set<string>)

  function Init<T>(s: seq<T>): (r: seq<T>)
    requires |s| > 0
  {
    s[..|s| - 1]
  }

  function Last<T>(s: seq<T>): T
    requires |s| > 0
  {
    s[|s| - 1]
  }

  ghost predicate DistinctIds(registry: seq<Spec>) {
    forall i, j | 0 <= i < j < |registry| :: registry[i].id != registry[j].id
  }

  ghost predicate Registered(registry: seq<Spec>, id: string) {
    exists i :: 0 <= i < |registry| && registry[i].id == id
  }

  // Every check has a current fingerprint.
  ghost predicate Fingerprinted(registry: seq<Spec>, world: World) {
    forall i | 0 <= i < |registry| :: registry[i].id in world.fingerprints
  }

  /******* When one check's credit is kept *******/

  predicate Sha256(s: string) {
    |s| == 64 && forall i | 0 <= i < |s| :: '0' <= s[i] <= '9' || 'a' <= s[i] <= 'f'
  }

  predicate ValidShape(c: Credit) {
    c.id.Some? && c.asPass && c.typed && Sha256(c.fingerprint)
  }

  predicate SourceMatches(s: Source, world: World) {
    && s.root == world.source.root && s.gitDir == world.source.gitDir && s.branch == world.source.branch
    && s.tip in world.ancestors
  }

  // The runner components that a command invokes directly.
  function RunnerKeys(command: seq<string>): set<string> {
    if |command| < 2 then {"python"}
    else
      var rest := RunnerKeys(command[1..]);
      if command[0] == "-m" && command[1] in {"ruff", "basedpyright"} then rest + {command[1]} else rest
  }

  predicate RunnerMatches(r: Runner, command: seq<string>, world: World) {
    forall key | key in RunnerKeys(command) :: key in r && key in world.runner && r[key] == world.runner[key]
  }

  predicate ChangedDependency(spec: Spec, changes: Changes) {
    changes.Known? && spec.id in changes.consumers
  }

  predicate Trusted(c: Credit, spec: Spec, world: World, changes: Changes)
    requires spec.id in world.fingerprints
  {
    && ValidShape(c)
    && SourceMatches(c.source, world)
    && RunnerMatches(c.runner, spec.command, world)
    && !spec.external
    && c.tier == spec.tier && c.command == spec.command && c.contract == spec.contract
    && c.fingerprint == world.fingerprints[spec.id]
    && !ChangedDependency(spec, changes)
  }

  function CreditCount(credits: seq<Credit>, id: string): nat {
    if credits == [] then 0
    else CreditCount(Init(credits), id) + if Last(credits).id == Some(id) then 1 else 0
  }

  function LastCredit(credits: seq<Credit>, id: string): (c: Option<Credit>)
    ensures c.None? <==> CreditCount(credits, id) == 0
    ensures c.Some? ==> c.value in credits && c.value.id == Some(id)
  {
    if credits == [] then None
    else if Last(credits).id == Some(id) then Some(Last(credits))
    else LastCredit(Init(credits), id)
  }

  function FirstDisposition(dispositions: seq<Disposition>, id: string): (d: Option<Disposition>)
    ensures d.Some? <==> exists e :: e in dispositions && e.id == Some(id) && !e.status.Malformed?
    ensures d.Some? ==> !d.value.status.Malformed?
  {
    if dispositions == [] then None
    else
      var e := Last(dispositions);
      assert dispositions == Init(dispositions) + [e];
      match FirstDisposition(Init(dispositions), id)
      case Some(d) => Some(d)
      case None => if e.id == Some(id) && !e.status.Malformed? then Some(e) else None
  }

  // A check's credit is kept when it is the only one, nothing contradicts it, and it is still exact.
  predicate Preserved(spec: Spec, q: Query)
    requires spec.id in q.world.fingerprints
  {
    && CreditCount(q.credits, spec.id) == 1
    && FirstDisposition(q.dispositions, spec.id).None?
    && Trusted(LastCredit(q.credits, spec.id).value, spec, q.world, q.changes)
  }

  predicate Eligible(spec: Spec, intent: Intent, changes: Changes) {
    match intent
    case Fast => spec.tier.FastTier?
    case Affected => spec.tier.FastTier? || (spec.tier.AffectedTier? && (changes.Unknown? || spec.id in changes.consumers))
    case Full => spec.tier in {FastTier, AffectedTier, FullTier, ReleaseTier}
    case Release => true
  }

  predicate Chosen(spec: Spec, q: Query)
    requires spec.id in q.world.fingerprints
  {
    spec.id !in q.excluded && Eligible(spec, q.intent, q.changes) && !Preserved(spec, q)
  }

  function ReasonOf(spec: Spec, q: Query): Reason {
    var odd := CreditCount(q.credits, spec.id) % 2 == 1;
    match FirstDisposition(q.dispositions, spec.id)
    case Some(d) =>
      if odd || d.status.Malformed? then MissingCredit
      else (match d.status.status
            case Fail => PriorFailed
            case Unresolved => PriorUnresolved
            case Skip => PriorSkipped)
    case None => if odd then StaleOrInvalidCredit else MissingCredit
  }

  // The chosen checks in registry order.
  function SelectedOf(registry: seq<Spec>, q: Query): seq<Selected>
    requires forall i | 0 <= i < |registry| :: registry[i].id in q.world.fingerprints
  {
    if registry == [] then []
    else
      var s := Last(registry);
      SelectedOf(Init(registry), q) + if Chosen(s, q) then [Selected(s, q.world.fingerprints[s.id], ReasonOf(s, q))] else []
  }

  function PreservedOf(registry: seq<Spec>, q: Query): seq<Credit>
    requires forall i | 0 <= i < |registry| :: registry[i].id in q.world.fingerprints
  {
    if registry == [] then []
    else
      var s := Last(registry);
      PreservedOf(Init(registry), q) + if Preserved(s, q) then [LastCredit(q.credits, s.id).value] else []
  }

  // The names reported as rejected credit.
  ghost predicate IsRejected(registry: seq<Spec>, q: Query, name: string) {
    || (name == "<missing>" && exists c :: c in q.credits && c.id.None?)
    || (!Registered(registry, name) && CreditCount(q.credits, name) > 0)
    || (Registered(registry, name) && CreditCount(q.credits, name) > 1)
    || (Registered(registry, name) && CreditCount(q.credits, name) == 1 && !ValidShape(LastCredit(q.credits, name).value))
    || (Registered(registry, name) && CreditCount(q.credits, name) % 2 == 1 && FirstDisposition(q.dispositions, name).Some?)
  }

  /******* Selection *******/

  ghost predicate HasMissingId(credits: seq<Credit>) {
    exists c :: c in credits && c.id.None?
  }

  // What the credit table says of one name after some of the credits.
  ghost predicate TableRow(known: set<string>, credits: seq<Credit>, byId: map<string, Credit>, ambiguous: set<string>,
                           rejected: set<string>, name: string)
  {
    var n, last := CreditCount(credits, name), LastCredit(credits, name);
    && (name in byId <==> name in known && n % 2 == 1)
    && (name in byId ==> last == Some(byId[name]))
    && (name in ambiguous <==> name in known && n > 1)
    && (name in rejected <==>
          || (name == "<missing>" && HasMissingId(credits))
          || (name !in known && n > 0)
          || (name in known && n > 1)
          || (name in known && n == 1 && !ValidShape(last.value)))
  }

  ghost predicate CreditTable(known: set<string>, credits: seq<Credit>, byId: map<string, Credit>, ambiguous: set<string>,
                              rejected: set<string>)
  {
    forall name :: TableRow(known, credits, byId, ambiguous, rejected, name)
  }

  lemma CountGrows(credits: seq<Credit>, c: Credit, id: string)
    ensures CreditCount(credits + [c], id) == CreditCount(credits, id) + if c.id == Some(id) then 1 else 0
    ensures LastCredit(credits + [c], id) == if c.id == Some(id) then Some(c) else LastCredit(credits, id)
  {
    assert Init(credits + [c]) == credits;
  }

  // A credit whose id is missing, unknown, or already in the table.
  lemma TableRefuses(known: set<string>, credits: seq<Credit>, c: Credit, byId: map<string, Credit>, ambiguous: set<string>, rejected: set<string>)
    requires CreditTable(known, credits, byId, ambiguous, rejected)
    requires c.id.None? || c.id.value !in known || c.id.value in byId
    ensures var name := c.id.GetOr("<missing>");
            if c.id.Some? && name in known
            then CreditTable(known, credits + [c], byId - {name}, ambiguous + {name}, rejected + {name})
            else CreditTable(known, credits + [c], byId, ambiguous, rejected + {name})
  {
    var refused := c.id.GetOr("<missing>");
    var hit := c.id.Some? && refused in known;
    var byId', ambiguous' := if hit then byId - {refused} else byId, if hit then ambiguous + {refused} else ambiguous;
    forall name
      ensures TableRow(known, credits + [c], byId', ambiguous', rejected + {refused}, name)
    {
      assert TableRow(known, credits, byId, ambiguous, rejected, name);
      CountGrows(credits, c, name);
      MissingGrows(credits, c);
    }
  }

  lemma MissingGrows(credits: seq<Credit>, c: Credit)
    ensures HasMissingId(credits + [c]) <==> HasMissingId(credits) || c.id.None?
  {
    if HasMissingId(credits) {
      var d :| d in credits && d.id.None?;
      assert d in credits + [c];
    }
    assert c in credits + [c];
  }

  // A credit that enters the table.
  lemma TableAdmits(known: set<string>, credits: seq<Credit>, c: Credit, byId: map<string, Credit>, ambiguous: set<string>, rejected: set<string>)
    requires CreditTable(known, credits, byId, ambiguous, rejected)
    requires c.id.Some? && c.id.value in known && c.id.value !in byId
    ensures CreditTable(known, credits + [c], byId[c.id.value := c], ambiguous, if ValidShape(c) then rejected else rejected + {c.id.value})
  {
    var rejected' := if ValidShape(c) then rejected else rejected + {c.id.value};
    var byId' := byId[c.id.value := c];
    forall name
      ensures TableRow(known, credits + [c], byId', ambiguous, rejected', name)
    {
      assert TableRow(known, credits, byId, ambiguous, rejected, name);
      CountGrows(credits, c, name);
      MissingGrows(credits, c);
    }
  }

  method ReadCredits(known: set<string>, credits: seq<Credit>)
    returns (byId: map<string, Credit>, ambiguous: set<string>, rejected: set<string>)
    ensures CreditTable(known, credits, byId, ambiguous, rejected)
  {
    byId, ambiguous, rejected := map[], {}, {};
    for k := 0 to |credits|
      invariant CreditTable(known, credits[..k], byId, ambiguous, rejected)
    {
      hide CreditTable, ValidShape;
      var credit := credits[k];
      assert credits[..k + 1] == credits[..k] + [credit];
      if credit.id.None? || credit.id.value !in known || credit.id.value in byId {
        TableRefuses(known, credits[..k], credit, byId, ambiguous, rejected);
        rejected := rejected + {credit.id.GetOr("<missing>")};
        if credit.id.Some? && credit.id.value in known {
          ambiguous := ambiguous + {credit.id.value};
          byId := byId - {credit.id.value};
        }
        continue;
      }
      TableAdmits(known, credits[..k], credit, byId, ambiguous, rejected);
      byId := byId[credit.id.value := credit];
      if !ValidShape(credit) {
        rejected := rejected + {credit.id.value};
      }
    }
    assert credits[..|credits|] == credits;
  }

  ghost predicate DispositionTable(known: set<string>, dispositions: seq<Disposition>, byId: map<string, Disposition>) {
    forall id :: (if id in byId then Some(byId[id]) else None) == if id in known then FirstDisposition(dispositions, id) else None
  }

  lemma FirstGrows(dispositions: seq<Disposition>, d: Disposition, id: string)
    ensures FirstDisposition(dispositions + [d], id) ==
            match FirstDisposition(dispositions, id)
            case Some(e) => Some(e)
            case None => if d.id == Some(id) && !d.status.Malformed? then Some(d) else None
  {
    assert Init(dispositions + [d]) == dispositions;
  }

  method ReadDispositions(known: set<string>, dispositions: seq<Disposition>) returns (byId: map<string, Disposition>)
    ensures DispositionTable(known, dispositions, byId)
  {
    byId := map[];
    for k := 0 to |dispositions|
      invariant DispositionTable(known, dispositions[..k], byId)
    {
      var d := dispositions[k];
      assert dispositions[..k + 1] == dispositions[..k] + [d];
      forall id {
        FirstGrows(dispositions[..k], d, id);
      }
      if d.id.None? || d.id.value !in known || d.id.value in byId || d.status.Malformed? {
        continue;
      }
      byId := byId[d.id.value := d];
    }
    assert dispositions[..|dispositions|] == dispositions;
  }

  // The tables that the registry pass reads, once contradictions are taken out.
  ghost predicate Settled(known: set<string>, q: Query, credits: map<string, Credit>, dispositions: map<string, Disposition>,
                          ambiguous: set<string>)
  {
    forall id | id in known ::
      var n, last, first := CreditCount(q.credits, id), LastCredit(q.credits, id), FirstDisposition(q.dispositions, id);
      && (if id in credits then Some(credits[id]) else None) == (if n % 2 == 1 && first.None? then last else None)
      && (if id in dispositions then Some(dispositions[id]) else None) == (if n % 2 == 1 then None else first)
      && (id in ambiguous <==> n > 1 || (n % 2 == 1 && first.Some?))
  }

  lemma Settles(known: set<string>, q: Query, credits: map<string, Credit>, dispositions: map<string, Disposition>,
                ambiguous: set<string>, rejected: set<string>)
    requires CreditTable(known, q.credits, credits, ambiguous, rejected) && DispositionTable(known, q.dispositions, dispositions)
    ensures var both := credits.Keys * dispositions.Keys;
            Settled(known, q, credits - both, dispositions - both, ambiguous + both)
  {
    forall id | id in known
      ensures TableRow(known, q.credits, credits, ambiguous, rejected, id)
    {
    }
  }

  // One check: kept, chosen, or passed over, as its own credit and disposition say.
  lemma OneCheck(known: set<string>, q: Query, credits: map<string, Credit>, dispositions: map<string, Disposition>,
                 ambiguous: set<string>, spec: Spec)
    requires Settled(known, q, credits, dispositions, ambiguous) && spec.id in known && spec.id in q.world.fingerprints
    ensures Preserved(spec, q) <==>
            && spec.id in credits && spec.id !in ambiguous && spec.id !in dispositions
            && Trusted(credits[spec.id], spec, q.world, q.changes)
    ensures spec.id in credits ==> Some(credits[spec.id]) == LastCredit(q.credits, spec.id)
    ensures spec.id in dispositions ==>
              && !dispositions[spec.id].status.Malformed?
              && ReasonOf(spec, q) == match dispositions[spec.id].status.status
                                      case Fail => PriorFailed
                                      case Unresolved => PriorUnresolved
                                      case Skip => PriorSkipped
    ensures spec.id !in dispositions ==> ReasonOf(spec, q) == if spec.id in credits then StaleOrInvalidCredit else MissingCredit
  {
  }

  // The names whose credit no longer stands.
  ghost predicate IsInvalidated(registry: seq<Spec>, q: Query, name: string)
    requires Fingerprinted(registry, q.world)
  {
    || IsRejected(registry, q, name)
    || exists i :: 0 <= i < |registry| && registry[i].id == name && CreditCount(q.credits, name) == 1
                   && FirstDisposition(q.dispositions, name).None? && !Preserved(registry[i], q)
  }

  lemma RegistryGrows(registry: seq<Spec>, k: nat, q: Query)
    requires k < |registry| && Fingerprinted(registry, q.world)
    ensures var s := registry[k];
            && SelectedOf(registry[..k + 1], q) == SelectedOf(registry[..k], q) +
                 (if Chosen(s, q) then [Selected(s, q.world.fingerprints[s.id], ReasonOf(s, q))] else [])
            && PreservedOf(registry[..k + 1], q) == PreservedOf(registry[..k], q) +
                 (if Preserved(s, q) then [LastCredit(q.credits, s.id).value] else [])
  {
    assert Init(registry[..k + 1]) == registry[..k];
  }

  // The registry names, among the first k, whose credit is in the table and yet not kept.
  ghost predicate Unkept(registry: seq<Spec>, k: nat, q: Query, credits: map<string, Credit>, name: string)
    requires k <= |registry| && Fingerprinted(registry, q.world)
  {
    exists i :: 0 <= i < k && registry[i].id == name && name in credits && !Preserved(registry[i], q)
  }

  lemma UnkeptGrows(registry: seq<Spec>, k: nat, q: Query, credits: map<string, Credit>, name: string)
    requires k < |registry| && Fingerprinted(registry, q.world)
    ensures Unkept(registry, k + 1, q, credits, name) <==>
            Unkept(registry, k, q, credits, name) || (registry[k].id == name && name in credits && !Preserved(registry[k], q))
  {
  }

  method SelectChecks(registry: seq<Spec>, q: Query) returns (d: Decision)
    requires DistinctIds(registry) && Fingerprinted(registry, q.world)
    ensures d.source == q.world.source
    ensures d.selected == SelectedOf(registry, q) && d.preserved == PreservedOf(registry, q)
    // check by check: exact credit is kept, and what is wanted without it is selected, for the reason given
    ensures forall spec | spec in registry :: Decided(registry, q, spec, d.selected, d.preserved)
    ensures forall c | c in d.preserved :: c in q.credits
    ensures forall name :: name in d.rejected <==> IsRejected(registry, q, name)
    ensures forall name :: name in d.invalidated <==> IsInvalidated(registry, q, name)
  {
    hide Preserved, CreditTable, DispositionTable, Settled, SelectedOf, PreservedOf, IsRejected, IsInvalidated, Decided;
    AllDecided(registry, q);
    var known := set s | s in registry :: s.id;
    var credits, ambiguous, rejected := ReadCredits(known, q.credits);
    var dispositions := ReadDispositions(known, q.dispositions);
    Settles(known, q, credits, dispositions, ambiguous, rejected);
    RejectedExactly(registry, known, q, credits, dispositions, ambiguous, rejected);
    var both := credits.Keys * dispositions.Keys;
    ambiguous, rejected := ambiguous + both, rejected + both;
    credits, dispositions := credits - both, dispositions - both;
    var selected, preserved, invalidated := PassOverRegistry(registry, known, q, credits, dispositions, ambiguous);
    InvalidatedExactly(registry, known, q, credits, dispositions, ambiguous, invalidated, rejected);
    d := Decision(q.world.source, selected, preserved, invalidated + rejected, rejected);
  }

  method PassOverRegistry(registry: seq<Spec>, known: set<string>, q: Query, credits: map<string, Credit>,
                          dispositions: map<string, Disposition>, ambiguous: set<string>)
    returns (selected: seq<Selected>, preserved: seq<Credit>, invalidated: set<string>)
    requires Fingerprinted(registry, q.world) && Settled(known, q, credits, dispositions, ambiguous)
    requires known == set s | s in registry :: s.id
    ensures selected == SelectedOf(registry, q) && preserved == PreservedOf(registry, q)
    ensures forall name :: name in invalidated <==> Unkept(registry, |registry|, q, credits, name)
  {
    hide Preserved, Trusted, Eligible, Settled, SelectedOf, PreservedOf, ReasonOf, Unkept;
    selected, preserved, invalidated := [], [], {};
    assert SelectedOf([], q) == [] && PreservedOf([], q) == [] && forall name :: !Unkept(registry, 0, q, credits, name) by {
      NothingYet(registry, q, credits);
    }
    for k := 0 to |registry|
      invariant selected == SelectedOf(registry[..k], q) && preserved == PreservedOf(registry[..k], q)
      invariant forall name :: name in invalidated <==> Unkept(registry, k, q, credits, name)
    {
      var spec := registry[k];
      assert spec in registry;
      OneCheck(known, q, credits, dispositions, ambiguous, spec);
      RegistryGrows(registry, k, q);
      forall name {
        UnkeptGrows(registry, k, q, credits, name);
      }
      var isValid := spec.id in credits && spec.id !in ambiguous && spec.id !in dispositions
                     && Trusted(credits[spec.id], spec, q.world, q.changes);
      if isValid {
        preserved := preserved + [credits[spec.id]];
      } else if spec.id in credits {
        invalidated := invalidated + {spec.id};
      }
      if spec.id in q.excluded || !Eligible(spec, q.intent, q.changes) {
        continue;
      }
      if isValid {
        continue;
      }
      var reason: Reason;
      if spec.id in dispositions {
        match dispositions[spec.id].status.status {
          case Fail => reason := PriorFailed;
          case Unresolved => reason := PriorUnresolved;
          case Skip => reason := PriorSkipped;
        }
      } else if spec.id !in credits {
        reason := MissingCredit;
      } else {
        reason := StaleOrInvalidCredit;
      }
      selected := selected + [Selected(spec, q.world.fingerprints[spec.id], reason)];
    }
    assert registry[..|registry|] == registry;
  }

  lemma NothingYet(registry: seq<Spec>, q: Query, credits: map<string, Credit>)
    requires Fingerprinted(registry, q.world)
    ensures SelectedOf([], q) == [] && PreservedOf([], q) == [] && forall name :: !Unkept(registry, 0, q, credits, name)
  {
  }

  lemma RejectedExactly(registry: seq<Spec>, known: set<string>, q: Query, credits: map<string, Credit>,
                        dispositions: map<string, Disposition>, ambiguous: set<string>, rejected: set<string>)
    requires CreditTable(known, q.credits, credits, ambiguous, rejected) && DispositionTable(known, q.dispositions, dispositions)
    requires known == set s | s in registry :: s.id
    ensures forall name :: name in rejected + (credits.Keys * dispositions.Keys) <==> IsRejected(registry, q, name)
  {
    forall name
      ensures name in rejected + (credits.Keys * dispositions.Keys) <==> IsRejected(registry, q, name)
    {
      assert TableRow(known, q.credits, credits, ambiguous, rejected, name);
      assert name in known <==> Registered(registry, name);
    }
  }

  lemma InvalidatedExactly(registry: seq<Spec>, known: set<string>, q: Query, credits: map<string, Credit>,
                           dispositions: map<string, Disposition>, ambiguous: set<string>,
                           invalidated: set<string>, rejected: set<string>)
    requires Fingerprinted(registry, q.world)
    requires Settled(known, q, credits, dispositions, ambiguous)
    requires known == set s | s in registry :: s.id
    requires forall name :: name in rejected <==> IsRejected(registry, q, name)
    requires forall name :: name in invalidated <==> Unkept(registry, |registry|, q, credits, name)
    ensures forall name :: name in invalidated + rejected <==> IsInvalidated(registry, q, name)
  {
    hide Preserved;
    forall name
      ensures name in invalidated + rejected <==> IsInvalidated(registry, q, name)
    {
      if name in known {
        assert Registered(registry, name);
      }
    }
  }

  /******* What selection promises *******/

  ghost predicate IsSelected(selected: seq<Selected>, id: string) {
    exists s :: s in selected && s.spec.id == id
  }

  ghost predicate IsPreserved(preserved: seq<Credit>, id: string) {
    exists c :: c in preserved && c.id == Some(id)
  }

  lemma SelectedAppend(selected: seq<Selected>, s: Selected, id: string)
    ensures IsSelected(selected + [s], id) <==> IsSelected(selected, id) || s.spec.id == id
  {
    assert s in selected + [s];
    assert forall x | x in selected :: x in selected + [s];
  }

  lemma PreservedAppend(preserved: seq<Credit>, c: Credit, id: string)
    ensures IsPreserved(preserved + [c], id) <==> IsPreserved(preserved, id) || c.id == Some(id)
  {
    assert c in preserved + [c];
    assert forall x | x in preserved :: x in preserved + [c];
  }

  // What the last check of the registry adds.
  lemma LastCheckAdds(registry: seq<Spec>, q: Query, id: string)
    requires registry != [] && Fingerprinted(registry, q.world)
    ensures var front, s := Init(registry), Last(registry);
            && (IsSelected(SelectedOf(registry, q), id) <==> IsSelected(SelectedOf(front, q), id) || (s.id == id && Chosen(s, q)))
            && (IsPreserved(PreservedOf(registry, q), id) <==> IsPreserved(PreservedOf(front, q), id) || (s.id == id && Preserved(s, q)))
  {
    hide Preserved, Chosen, ReasonOf, IsSelected, IsPreserved;
    var front, s := Init(registry), Last(registry);
    SelectedAppend(SelectedOf(front, q), Selected(s, q.world.fingerprints[s.id], ReasonOf(s, q)), id);
    if Preserved(s, q) {
      KeptHasCredit(s, q);
      PreservedAppend(PreservedOf(front, q), LastCredit(q.credits, s.id).value, id);
    }
    var none: seq<Credit> := [];
    assert PreservedOf(front, q) + none == PreservedOf(front, q);
    var nothing: seq<Selected> := [];
    assert SelectedOf(front, q) + nothing == SelectedOf(front, q);
  }

  /******* The same, field by field *******/

  // The command runs the tool as a module.
  ghost predicate Invokes(command: seq<string>, tool: string) {
    exists i :: 0 <= i < |command| - 1 && command[i] == "-m" && command[i + 1] == tool
  }

  ghost predicate SameComponent(r: Runner, world: World, key: string) {
    key in r && key in world.runner && r[key] == world.runner[key]
  }

  // A credit that still tells the truth about a check that changed nothing and needs nothing external.
  ghost predicate StillExact(c: Credit, spec: Spec, world: World, changes: Changes) {
    && c.asPass && c.typed
    && |c.fingerprint| == 64 && (forall x | x in c.fingerprint :: '0' <= x <= '9' || 'a' <= x <= 'f')
    && spec.id in world.fingerprints && c.fingerprint == world.fingerprints[spec.id]
    && c.tier == spec.tier && c.command == spec.command && c.contract == spec.contract
    && c.source.root == world.source.root && c.source.gitDir == world.source.gitDir && c.source.branch == world.source.branch
    && c.source.tip in world.ancestors
    && SameComponent(c.runner, world, "python")
    && (Invokes(spec.command, "ruff") ==> SameComponent(c.runner, world, "ruff"))
    && (Invokes(spec.command, "basedpyright") ==> SameComponent(c.runner, world, "basedpyright"))
    && !spec.external
    && (changes.Known? ==> spec.id !in changes.consumers)
  }

  // Credit i is the only one of this check.
  ghost predicate OnlyCredit(credits: seq<Credit>, id: string, i: nat) {
    i < |credits| && credits[i].id == Some(id) && forall j | 0 <= j < |credits| && j != i :: credits[j].id != Some(id)
  }

  // Some disposition of this check has one of the three statuses.
  ghost predicate Contradicted(dispositions: seq<Disposition>, id: string) {
    exists d :: d in dispositions && d.id == Some(id) && !d.status.Malformed?
  }

  ghost predicate HasExactCredit(spec: Spec, q: Query) {
    && !Contradicted(q.dispositions, spec.id)
    && exists i: nat :: OnlyCredit(q.credits, spec.id, i) && StillExact(q.credits[i], spec, q.world, q.changes)
  }

  // What an intent asks for.
  ghost predicate Wanted(spec: Spec, q: Query) {
    && spec.id !in q.excluded
    && (q.intent == Fast ==> spec.tier == FastTier)
    && (q.intent == Affected ==>
          || spec.tier == FastTier
          || (spec.tier == AffectedTier && (q.changes.Known? ==> spec.id in q.changes.consumers)))
  }

  lemma {:induction false} RunnerKeysExactly(command: seq<string>, key: string)
    ensures key in RunnerKeys(command) <==> key == "python" || (key in {"ruff", "basedpyright"} && Invokes(command, key))
  {
    if |command| >= 2 {
      var rest := command[1..];
      RunnerKeysExactly(rest, key);
      if Invokes(rest, key) {
        var i :| 0 <= i < |rest| - 1 && rest[i] == "-m" && rest[i + 1] == key;
        assert command[i + 1] == "-m" && command[i + 1 + 1] == key;
      }
      if Invokes(command, key) && !(command[0] == "-m" && command[1] == key) {
        var i :| 0 <= i < |command| - 1 && command[i] == "-m" && command[i + 1] == key;
        assert rest[i - 1] == "-m" && rest[i - 1 + 1] == key;
      }
    }
  }

  lemma TrustedExactly(c: Credit, spec: Spec, world: World, changes: Changes)
    requires spec.id in world.fingerprints && c.id.Some?
    ensures Trusted(c, spec, world, changes) <==> StillExact(c, spec, world, changes)
  {
    hide RunnerKeys, Invokes;
    forall key
      ensures key in RunnerKeys(spec.command) <==> key == "python" || (key in {"ruff", "basedpyright"} && Invokes(spec.command, key))
    {
      RunnerKeysExactly(spec.command, key);
    }
    assert RunnerMatches(c.runner, spec.command, world) <==>
           && SameComponent(c.runner, world, "python")
           && (Invokes(spec.command, "ruff") ==> SameComponent(c.runner, world, "ruff"))
           && (Invokes(spec.command, "basedpyright") ==> SameComponent(c.runner, world, "basedpyright"));
    assert Sha256(c.fingerprint) <==> |c.fingerprint| == 64 && forall x | x in c.fingerprint :: '0' <= x <= '9' || 'a' <= x <= 'f' by {
      assert forall i | 0 <= i < |c.fingerprint| :: c.fingerprint[i] in c.fingerprint;
    }
  }

  // One credit is one that no other place holds.
  lemma {:induction false} CountExactly(credits: seq<Credit>, id: string)
    ensures CreditCount(credits, id) == 0 <==> forall j | 0 <= j < |credits| :: credits[j].id != Some(id)
    ensures CreditCount(credits, id) == 1 <==> exists i: nat :: OnlyCredit(credits, id, i)
    ensures forall i: nat | OnlyCredit(credits, id, i) :: LastCredit(credits, id) == Some(credits[i])
  {
    if credits != [] {
      var front, last := Init(credits), Last(credits);
      CountExactly(front, id);
      assert credits == front + [last];
      forall i: nat
        ensures OnlyCredit(credits, id, i) <==>
                if last.id == Some(id) then i == |front| && CreditCount(front, id) == 0 else OnlyCredit(front, id, i)
      {
        assert forall j | 0 <= j < |front| :: credits[j] == front[j];
        if OnlyCredit(front, id, i) && last.id != Some(id) {
          assert OnlyCredit(credits, id, i);
        }
      }
      if CreditCount(credits, id) == 1 {
        if last.id == Some(id) {
          assert OnlyCredit(credits, id, |front|);
        } else {
          var i: nat :| OnlyCredit(front, id, i);
          assert OnlyCredit(credits, id, i);
        }
      }
    }
  }

  lemma KeptExactly(spec: Spec, q: Query)
    requires spec.id in q.world.fingerprints
    ensures Preserved(spec, q) <==> HasExactCredit(spec, q)
  {
    hide Trusted, StillExact;
    CountExactly(q.credits, spec.id);
    forall i: nat | OnlyCredit(q.credits, spec.id, i)
      ensures Trusted(LastCredit(q.credits, spec.id).value, spec, q.world, q.changes)
         <==> StillExact(q.credits[i], spec, q.world, q.changes)
    {
      TrustedExactly(q.credits[i], spec, q.world, q.changes);
    }
  }

  // Where the credits of a check are.
  ghost function Places(credits: seq<Credit>, id: string): set<nat> {
    set i | 0 <= i < |credits| && credits[i].id == Some(id)
  }

  lemma {:induction false} CountsPlaces(credits: seq<Credit>, id: string)
    ensures CreditCount(credits, id) == |Places(credits, id)|
  {
    if credits != [] {
      var front, last := Init(credits), Last(credits);
      CountsPlaces(front, id);
      assert Places(credits, id) == Places(front, id) + if last.id == Some(id) then {|front|} else {};
    }
  }

  // Why a check was chosen: an even number of credits, which cancel each other, counts as none, and an
  // odd number of them together with a disposition too.
  ghost predicate Explains(reason: Reason, id: string, q: Query) {
    var odd := |Places(q.credits, id)| % 2 == 1;
    && (reason == StaleOrInvalidCredit <==> odd && !Contradicted(q.dispositions, id))
    && (reason == MissingCredit <==> (odd <==> Contradicted(q.dispositions, id)))
    && (!odd ==> forall i: nat | FirstAt(q.dispositions, id, i) ::
          && (reason == PriorFailed <==> q.dispositions[i].status.status == Fail)
          && (reason == PriorUnresolved <==> q.dispositions[i].status.status == Unresolved)
          && (reason == PriorSkipped <==> q.dispositions[i].status.status == Skip))
  }

  // The first disposition of a check that has one of the three statuses.
  ghost predicate FirstAt(dispositions: seq<Disposition>, id: string, i: nat) {
    && i < |dispositions| && dispositions[i].id == Some(id) && !dispositions[i].status.Malformed?
    && forall j | 0 <= j < i :: dispositions[j].id != Some(id) || dispositions[j].status.Malformed?
  }

  lemma {:induction false} FirstExactly(dispositions: seq<Disposition>, id: string, i: nat)
    requires FirstAt(dispositions, id, i)
    ensures FirstDisposition(dispositions, id) == Some(dispositions[i])
  {
    var front, last := Init(dispositions), Last(dispositions);
    assert dispositions == front + [last];
    if i < |front| {
      FirstExactly(front, id, i);
    } else {
      forall e | e in front
        ensures e.id != Some(id) || e.status.Malformed?
      {
        var j :| 0 <= j < |front| && front[j] == e;
        assert dispositions[j] == e;
      }
    }
  }

  lemma ReasonExactly(spec: Spec, q: Query)
    ensures Explains(ReasonOf(spec, q), spec.id, q)
  {
    hide CreditCount;
    CountsPlaces(q.credits, spec.id);
    forall i: nat | FirstAt(q.dispositions, spec.id, i)
      ensures FirstDisposition(q.dispositions, spec.id) == Some(q.dispositions[i])
    {
      FirstExactly(q.dispositions, spec.id, i);
    }
  }

  lemma {:induction false} ReasonsAre(registry: seq<Spec>, q: Query)
    requires Fingerprinted(registry, q.world)
    ensures forall s | s in SelectedOf(registry, q) :: s.reason == ReasonOf(s.spec, q)
    ensures forall c | c in PreservedOf(registry, q) :: c in q.credits
  {
    hide Preserved, Chosen, ReasonOf;
    if registry != [] {
      ReasonsAre(Init(registry), q);
      if Preserved(Last(registry), q) {
        KeptHasCredit(Last(registry), q);
      }
    }
  }

  // The decision about one check.
  ghost predicate Decided(registry: seq<Spec>, q: Query, spec: Spec, selected: seq<Selected>, preserved: seq<Credit>) {
    && (IsPreserved(preserved, spec.id) <==> HasExactCredit(spec, q))
    && (IsSelected(selected, spec.id) <==> Wanted(spec, q) && !HasExactCredit(spec, q))
    && (forall s | s in selected && s.spec == spec ::
          spec.id in q.world.fingerprints && s.fingerprint == q.world.fingerprints[spec.id] && Explains(s.reason, spec.id, q))
  }

  lemma AllDecided(registry: seq<Spec>, q: Query)
    requires DistinctIds(registry) && Fingerprinted(registry, q.world)
    ensures forall spec | spec in registry :: Decided(registry, q, spec, SelectedOf(registry, q), PreservedOf(registry, q))
    ensures forall c | c in PreservedOf(registry, q) :: c in q.credits
  {
    hide Preserved, HasExactCredit, Explains, SelectedOf, PreservedOf, ReasonOf, IsSelected, IsPreserved;
    ReasonsAre(registry, q);
    SelectionNames(registry, q);
    forall spec | spec in registry
      ensures Decided(registry, q, spec, SelectedOf(registry, q), PreservedOf(registry, q))
    {
      SelectionExactly(registry, q, spec);
      ReasonExactly(spec, q);
      assert spec.tier.FastTier? || spec.tier.AffectedTier? || spec.tier.FullTier? || spec.tier.ReleaseTier?;
    }
  }

  // The selected checks are the wanted ones without exact credit, and the preserved credits are the exact ones.
  lemma {:induction false} SelectionExactly(registry: seq<Spec>, q: Query, spec: Spec)
    requires DistinctIds(registry) && Fingerprinted(registry, q.world) && spec in registry
    ensures IsSelected(SelectedOf(registry, q), spec.id) <==> Chosen(spec, q)
    ensures IsPreserved(PreservedOf(registry, q), spec.id) <==> Preserved(spec, q)
    ensures Preserved(spec, q) <==> HasExactCredit(spec, q)
    ensures Chosen(spec, q) <==> Wanted(spec, q) && !HasExactCredit(spec, q)
  {
    KeptExactly(spec, q);
    WantedExactly(spec, q);
    ChosenAndPreserved(registry, q, spec);
  }

  lemma WantedExactly(spec: Spec, q: Query)
    requires spec.id in q.world.fingerprints
    ensures Chosen(spec, q) <==> Wanted(spec, q) && !Preserved(spec, q)
  {
    hide Preserved;
    assert spec.tier.FastTier? || spec.tier.AffectedTier? || spec.tier.FullTier? || spec.tier.ReleaseTier?;
  }

  lemma {:induction false} ChosenAndPreserved(registry: seq<Spec>, q: Query, spec: Spec)
    requires DistinctIds(registry) && Fingerprinted(registry, q.world) && spec in registry
    ensures IsSelected(SelectedOf(registry, q), spec.id) <==> Chosen(spec, q)
    ensures IsPreserved(PreservedOf(registry, q), spec.id) <==> Preserved(spec, q)
  {
    hide Preserved, Chosen, ReasonOf, SelectedOf, PreservedOf;
    var s, front := Last(registry), Init(registry);
    SelectionNames(front, q);
    LastCheckAdds(registry, q, spec.id);
    assert registry == front + [s];
    if spec == s {
      assert forall i | 0 <= i < |front| :: front[i].id != s.id;
    } else {
      assert spec in front && spec.id != s.id;
      ChosenAndPreserved(front, q, spec);
    }
  }

  lemma KeptHasCredit(spec: Spec, q: Query)
    requires spec.id in q.world.fingerprints && Preserved(spec, q)
    ensures var c := LastCredit(q.credits, spec.id); c.Some? && c.value in q.credits && c.value.id == Some(spec.id) && ValidShape(c.value)
  {
  }

  // Nothing outside the registry is selected or preserved.
  lemma {:induction false} SelectionNames(registry: seq<Spec>, q: Query)
    requires Fingerprinted(registry, q.world)
    ensures forall s | s in SelectedOf(registry, q) :: s.spec in registry && s.fingerprint == q.world.fingerprints[s.spec.id]
    ensures forall c | c in PreservedOf(registry, q) :: c.id.Some? && Registered(registry, c.id.value) && ValidShape(c)
  {
    hide Preserved, Chosen, ReasonOf, ValidShape;
    if registry != [] {
      var front, s := Init(registry), Last(registry);
      SelectionNames(front, q);
      assert registry == front + [s];
      if Preserved(s, q) {
        KeptHasCredit(s, q);
      }
      forall name | Registered(front, name)
        ensures Registered(registry, name)
      {
        var i :| 0 <= i < |front| && front[i].id == name;
        assert registry[i].id == name;
      }
      assert registry[|front|].id == s.id;
    }
  }

  // Preserved and selected never meet; without exclusions a full selection leaves nothing out.
  lemma SelectionPartitions(registry: seq<Spec>, q: Query, spec: Spec)
    requires DistinctIds(registry) && Fingerprinted(registry, q.world) && spec in registry
    ensures !(IsSelected(SelectedOf(registry, q), spec.id) && IsPreserved(PreservedOf(registry, q), spec.id))
    ensures q.intent in {Full, Release} && spec.id !in q.excluded ==>
              IsSelected(SelectedOf(registry, q), spec.id) || IsPreserved(PreservedOf(registry, q), spec.id)
  {
    hide Preserved;
    SelectionExactly(registry, q, spec);
    assert spec.tier.FastTier? || spec.tier.AffectedTier? || spec.tier.FullTier? || spec.tier.ReleaseTier?;
  }

  // However often a check is credited beyond once, or whatever contradicts its credit, it is not preserved.
  lemma AmbiguousIsNeverPreserved(registry: seq<Spec>, q: Query, spec: Spec)
    requires DistinctIds(registry) && Fingerprinted(registry, q.world) && spec in registry
    requires CreditCount(q.credits, spec.id) != 1 || exists d :: d in q.dispositions && d.id == Some(spec.id) && !d.status.Malformed?
    ensures !IsPreserved(PreservedOf(registry, q), spec.id)
  {
    SelectionExactly(registry, q, spec);
  }

  // The selection keeps the registry's order.
  ghost predicate InOrder(registry: seq<Spec>, selected: seq<Selected>) {
    forall j, k | 0 <= j < k < |selected| :: exists a, b | 0 <= a < b < |registry| ::
      registry[a] == selected[j].spec && registry[b] == selected[k].spec
  }

  lemma {:induction false} SelectionInOrder(registry: seq<Spec>, q: Query)
    requires Fingerprinted(registry, q.world)
    ensures InOrder(registry, SelectedOf(registry, q))
  {
    hide Chosen, ReasonOf;
    if registry != [] {
      var front, all, before := Init(registry), SelectedOf(registry, q), SelectedOf(Init(registry), q);
      SelectionInOrder(front, q);
      SelectionNames(front, q);
      forall j, k | 0 <= j < k < |all|
        ensures exists a, b | 0 <= a < b < |registry| :: registry[a] == all[j].spec && registry[b] == all[k].spec
      {
        assert all[j] == before[j] && before[j] in before;
        if k < |before| {
          var a, b :| 0 <= a < b < |front| && front[a] == before[j].spec && front[b] == before[k].spec;
          assert registry[a] == all[j].spec && registry[b] == all[k].spec;
        } else {
          var a :| 0 <= a < |front| && front[a] == before[j].spec;
          assert registry[a] == all[j].spec && registry[|registry| - 1] == all[k].spec;
        }
      }
    }
  }

  /******* Checkpoints *******/

  // The one exception of this module.
  datatype Refusal = Refused

  datatype Checkpoint = Checkpoint(credits: seq<Credit>, dispositions: seq<Disposition>, first: Option<string>)

  predicate Named(id: Option<string>) {
    id.Some? && id.value != ""
  }

  predicate CreditOk(c: Credit) {
    c.asPass && Named(c.id)
  }

  predicate DispositionOk(d: Disposition) {
    d.asDisposition && d.status.Canonical? && Named(d.id) && Strip(d.reason) != ""
  }

  // A pass credit with an id.
  ghost predicate IsCredit(c: Credit) {
    c.asPass && c.id != None && c.id != Some("")
  }

  // A disposition with an id, one of the three statuses, and a reason.
  ghost predicate IsDisposition(d: Disposition) {
    && d.asDisposition && d.id != None && d.id != Some("") && Strip(d.reason) != ""
    && d.status != Malformed && !d.status.OtherCase?
  }

  lemma EntriesExactly(credits: seq<Credit>, dispositions: seq<Disposition>)
    ensures forall c | c in credits :: CreditOk(c) <==> IsCredit(c)
    ensures forall d | d in dispositions :: DispositionOk(d) <==> IsDisposition(d)
  {
    hide Strip;
  }

  ghost predicate DistinctCredits(credits: seq<Credit>) {
    forall i, j | 0 <= i < j < |credits| :: credits[i].id != credits[j].id
  }

  ghost predicate DistinctDispositions(dispositions: seq<Disposition>) {
    forall i, j | 0 <= i < j < |dispositions| :: dispositions[i].id != dispositions[j].id
  }

  ghost predicate NoneBoth(credits: seq<Credit>, dispositions: seq<Disposition>) {
    forall c, d | c in credits && d in dispositions :: c.id != d.id
  }

  ghost predicate RecordsValid(credits: seq<Credit>, dispositions: seq<Disposition>) {
    && (forall c | c in credits :: IsCredit(c)) && (forall d | d in dispositions :: IsDisposition(d))
    && DistinctCredits(credits) && DistinctDispositions(dispositions) && NoneBoth(credits, dispositions)
  }

  ghost predicate Disposed(dispositions: seq<Disposition>, id: string) {
    exists d :: d in dispositions && d.id == Some(id)
  }

  ghost predicate FirstValid(dispositions: seq<Disposition>, first: Option<string>) {
    first.Some? ==> Strip(first.value) != "" && Disposed(dispositions, Strip(first.value))
  }

  ghost predicate ValidCheckpoint(c: Checkpoint) {
    && RecordsValid(c.credits, c.dispositions) && FirstValid(c.dispositions, c.first)
    && (c.first.Some? ==> Strip(c.first.value) == c.first.value)
  }

  lemma {:induction false} SizeTellsDistinct<T(!new)>(s: seq<T>)
    ensures |set x | x in s| <= |s|
    ensures |set x | x in s| == |s| <==> forall i, j | 0 <= i < j < |s| :: s[i] != s[j]
  {
    if s != [] {
      var front, last := Init(s), Last(s);
      SizeTellsDistinct(front);
      assert s == front + [last];
      var all, some := set x | x in s, set x | x in front;
      assert all == some + {last};
      if last in front {
        assert all == some;
        var i :| 0 <= i < |front| && front[i] == last;
        assert s[i] == s[|s| - 1];
      } else {
        assert |all| == |some| + 1;
        assert forall i, j | 0 <= i < j < |front| :: s[i] == front[i] && s[j] == front[j];
      }
    }
  }

  lemma StripTwice(t: string)
    ensures Strip(Strip(t)) == Strip(t)
  {
    var a, b := StripCuts(t);
    var u := Strip(t);
    assert u[0..|u|] == u;
    StripIs(u, 0, |u|);
  }

  // One checkpoint record, or a refusal.
  method CheckpointRecord(credits: seq<Credit>, dispositions: seq<Disposition>, first: Option<string>)
    returns (r: Result<Checkpoint, Refusal>)
    ensures r.Ok? <==> RecordsValid(credits, dispositions) && FirstValid(dispositions, first)
    ensures r.Ok? ==> ValidCheckpoint(r.value) && r.value.credits == credits && r.value.dispositions == dispositions
    ensures r.Ok? ==> r.value.first == if first.Some? then Some(Strip(first.value)) else None
  {
    hide Strip, CreditOk, DispositionOk, IsCredit, IsDisposition, NoneBoth, Disposed;
    EntriesExactly(credits, dispositions);
    for i := 0 to |credits|
      invariant forall j | 0 <= j < i :: CreditOk(credits[j])
    {
      if !CreditOk(credits[i]) {
        assert credits[i] in credits;
        return Err(Refused);
      }
    }
    for i := 0 to |dispositions|
      invariant forall j | 0 <= j < i :: DispositionOk(dispositions[j])
    {
      if !DispositionOk(dispositions[i]) {
        assert dispositions[i] in dispositions;
        return Err(Refused);
      }
    }
    var creditIds := seq(|credits|, i requires 0 <= i < |credits| => credits[i].id);
    var dispositionIds := seq(|dispositions|, i requires 0 <= i < |dispositions| => dispositions[i].id);
    SizeTellsDistinct(creditIds);
    SizeTellsDistinct(dispositionIds);
    if |set x | x in creditIds| != |creditIds| || |set x | x in dispositionIds| != |dispositionIds| {
      return Err(Refused);
    }
    IdsOf(credits, dispositions, creditIds, dispositionIds);
    if exists x :: x in creditIds && x in dispositionIds {
      return Err(Refused);
    }
    if first.None? {
      return Ok(Checkpoint(credits, dispositions, None));
    }
    var normalized := Strip(first.value);
    if normalized == "" || Some(normalized) !in dispositionIds {
      return Err(Refused);
    }
    StripTwice(first.value);
    return Ok(Checkpoint(credits, dispositions, Some(normalized)));
  }

  lemma IdsOf(credits: seq<Credit>, dispositions: seq<Disposition>, creditIds: seq<Option<string>>, dispositionIds: seq<Option<string>>)
    requires |creditIds| == |credits| && forall i | 0 <= i < |credits| :: creditIds[i] == credits[i].id
    requires |dispositionIds| == |dispositions| && forall i | 0 <= i < |dispositions| :: dispositionIds[i] == dispositions[i].id
    ensures NoneBoth(credits, dispositions) <==> !exists x :: x in creditIds && x in dispositionIds
    ensures forall id :: Some(id) in dispositionIds <==> Disposed(dispositions, id)
  {
    forall x | x in creditIds && x in dispositionIds
      ensures !NoneBoth(credits, dispositions)
    {
      var i :| 0 <= i < |creditIds| && creditIds[i] == x;
      var j :| 0 <= j < |dispositionIds| && dispositionIds[j] == x;
      assert credits[i] in credits && dispositions[j] in dispositions;
    }
    forall c, d | c in credits && d in dispositions && c.id == d.id
      ensures exists x :: x in creditIds && x in dispositionIds
    {
      var i :| 0 <= i < |credits| && credits[i] == c;
      var j :| 0 <= j < |dispositions| && dispositions[j] == d;
      assert creditIds[i] in creditIds && dispositionIds[j] in dispositionIds;
    }
    forall id
      ensures Some(id) in dispositionIds <==> Disposed(dispositions, id)
    {
      if Some(id) in dispositionIds {
        var j :| 0 <= j < |dispositionIds| && dispositionIds[j] == Some(id);
        assert dispositions[j] in dispositions;
      }
      if Disposed(dispositions, id) {
        var d :| d in dispositions && d.id == Some(id);
        var j :| 0 <= j < |dispositions| && dispositions[j] == d;
        assert dispositionIds[j] == Some(id);
      }
    }
  }

  /******* Merging a run's results *******/

  datatype Outcome = Pass | NotPass(status: Status) | BadStatus

  datatype UnitResult = UnitResult(id: Option<string>, outcome: Outcome, reason: string)

  // A selected record and the whole decision, as the merge reads them back.
  datatype Unit = Unit(id: Option<string>, tier: Tier, command: seq<string>, contract: string, fingerprint: string)

  datatype Selection = Selection(source: Source, units: seq<Unit>, preserved: seq<Credit>)

  ghost predicate DistinctUnits(units: seq<Unit>) {
    forall i, j | 0 <= i < j < |units| :: units[i].id != units[j].id
  }

  ghost predicate DistinctResults(results: seq<UnitResult>) {
    forall i, j | 0 <= i < j < |results| :: results[i].id != results[j].id
  }

  function UnitOf(units: seq<Unit>, id: Option<string>): (u: Option<Unit>)
    ensures u.Some? ==> u.value in units && u.value.id == id
    ensures u.None? ==> forall v | v in units :: v.id != id
  {
    if units == [] then None
    else
      assert units == Init(units) + [Last(units)];
      if Last(units).id == id then Some(Last(units)) else UnitOf(Init(units), id)
  }

  predicate WellFormedResult(r: UnitResult, units: seq<Unit>) {
    && !r.outcome.BadStatus? && (r.outcome.NotPass? ==> Strip(r.reason) != "")
    && var u := UnitOf(units, r.id);
      r.id.Some? && u.Some? && u.value.command != [] && Sha256(u.value.fingerprint)
  }

  ghost predicate WellFormedSelection(s: Selection) {
    && (forall u | u in s.units :: Named(u.id)) && DistinctUnits(s.units)
    && (forall c | c in s.preserved :: Named(c.id)) && DistinctCredits(s.preserved)
    && forall u, c | u in s.units && c in s.preserved :: u.id != c.id
  }

  ghost predicate WellFormedResults(results: seq<UnitResult>, units: seq<Unit>) {
    (forall r | r in results :: WellFormedResult(r, units)) && DistinctResults(results)
  }

  function CreditFor(u: Unit, source: Source, runner: Runner): Credit {
    Credit(u.id, true, true, u.tier, u.command, u.contract, u.fingerprint, source, runner)
  }

  ghost function PassCredits(results: seq<UnitResult>, s: Selection, runner: Runner): seq<Credit> {
    if results == [] then []
    else
      var r, before := Last(results), PassCredits(Init(results), s, runner);
      match UnitOf(s.units, r.id)
      case Some(u) => if r.outcome.Pass? then before + [CreditFor(u, s.source, runner)] else before
      case None => before
  }

  ghost function NewDispositions(results: seq<UnitResult>): seq<Disposition> {
    if results == [] then []
    else
      var r, before := Last(results), NewDispositions(Init(results));
      if r.outcome.NotPass? then before + [Disposition(r.id, true, Canonical(r.outcome.status), Strip(r.reason))] else before
  }

  ghost predicate HasResult(results: seq<UnitResult>, id: Option<string>) {
    exists r :: r in results && r.id == id
  }

  ghost predicate HasCredit(credits: seq<Credit>, id: Option<string>) {
    exists c :: c in credits && c.id == id
  }

  // The earlier dispositions that neither a result nor a preserved credit supersedes.
  ghost function Kept(prior: seq<Disposition>, results: seq<UnitResult>, preserved: seq<Credit>): seq<Disposition> {
    if prior == [] then []
    else
      var d, before := Last(prior), Kept(Init(prior), results, preserved);
      if d.id.None? || HasResult(results, d.id) || HasCredit(preserved, d.id) then before else before + [d]
  }

  // Any unresolved or skipped unit makes the run's identity uncertain.
  ghost predicate Uncertain(results: seq<UnitResult>) {
    exists r :: r in results && r.outcome.NotPass? && r.outcome.status in {Unresolved, Skip}
  }

  ghost function FirstUnresolved(results: seq<UnitResult>): Option<string> {
    if results == [] then None
    else match FirstUnresolved(Init(results))
      case Some(id) => Some(id)
      case None => if Last(results).outcome == NotPass(Unresolved) then Last(results).id else None
  }

  ghost predicate StillUnresolved(kept: seq<Disposition>, id: string) {
    exists d :: d in kept && d.id == Some(id) && d.status == Canonical(Unresolved)
  }

  ghost function MergedFirst(results: seq<UnitResult>, kept: seq<Disposition>, prior: Option<string>): Option<string> {
    match FirstUnresolved(results)
    case Some(id) => Some(id)
    case None => if prior.Some? && StillUnresolved(kept, prior.value) then prior else None
  }

  // The records that a merge hands to the checkpoint.
  ghost function Merged(s: Selection, results: seq<UnitResult>, input: Option<Checkpoint>, runner: Runner): Checkpoint {
    var prior := if input.Some? then input.value.dispositions else [];
    var kept := Kept(prior, results, s.preserved);
    Checkpoint((if Uncertain(results) then [] else s.preserved) + PassCredits(results, s, runner),
               kept + NewDispositions(results),
               MergedFirst(results, kept, if input.Some? then input.value.first else None))
  }

  /******* A merge of well-formed records is valid *******/

  ghost predicate Ended(results: seq<UnitResult>, id: Option<string>, outcome: Outcome) {
    exists r :: r in results && r.id == id && r.outcome == outcome
  }

  ghost predicate OfUnit(s: Selection, runner: Runner, c: Credit) {
    exists u :: u in s.units && c == CreditFor(u, s.source, runner)
  }

  // The credits are those of the passed units, one each.
  ghost predicate CreditsMatch(credits: seq<Credit>, results: seq<UnitResult>, s: Selection, runner: Runner) {
    && (forall c | c in credits :: IsCredit(c) && Ended(results, c.id, Pass) && OfUnit(s, runner, c))
    && (forall r | r in results && r.outcome.Pass? :: HasCredit(credits, r.id))
    && DistinctCredits(credits)
  }

  // The dispositions are those of the other units, one each.
  ghost predicate DispositionsMatch(dispositions: seq<Disposition>, results: seq<UnitResult>) {
    && (forall d | d in dispositions :: IsDisposition(d) && Ended(results, d.id, NotPass(d.status.status)))
    && (forall r | r in results && r.outcome.NotPass? :: HasDisposition(dispositions, r.id, r.outcome.status))
    && DistinctDispositions(dispositions)
  }

  ghost predicate HasDisposition(dispositions: seq<Disposition>, id: Option<string>, status: Status) {
    exists d :: d in dispositions && d.id == id && d.status == Canonical(status)
  }

  lemma EndedGrows(results: seq<UnitResult>, r: UnitResult)
    ensures forall id, outcome | Ended(results, id, outcome) :: Ended(results + [r], id, outcome)
    ensures Ended(results + [r], r.id, r.outcome)
  {
    forall id, outcome | Ended(results, id, outcome)
      ensures Ended(results + [r], id, outcome)
    {
      var t :| t in results && t.id == id && t.outcome == outcome;
      assert t in results + [r];
    }
    assert r in results + [r];
  }

  lemma HasCreditGrows(credits: seq<Credit>, c: Credit)
    ensures forall id | HasCredit(credits, id) :: HasCredit(credits + [c], id)
    ensures HasCredit(credits + [c], c.id)
  {
    forall id | HasCredit(credits, id)
      ensures HasCredit(credits + [c], id)
    {
      var d :| d in credits && d.id == id;
      assert d in credits + [c];
    }
    assert c in credits + [c];
  }

  lemma HasDispositionGrows(dispositions: seq<Disposition>, e: Disposition)
    requires e.status.Canonical?
    ensures forall id, status | HasDisposition(dispositions, id, status) :: HasDisposition(dispositions + [e], id, status)
    ensures HasDisposition(dispositions + [e], e.id, e.status.status)
  {
    forall id, status | HasDisposition(dispositions, id, status)
      ensures HasDisposition(dispositions + [e], id, status)
    {
      var d :| d in dispositions && d.id == id && d.status == Canonical(status);
      assert d in dispositions + [e];
    }
    assert e in dispositions + [e];
  }

  lemma CreditsMatchPass(credits: seq<Credit>, results: seq<UnitResult>, s: Selection, runner: Runner, r: UnitResult, u: Unit)
    requires CreditsMatch(credits, results, s, runner) && r.outcome.Pass?
    requires u in s.units && u.id == r.id && Named(u.id) && forall t | t in results :: t.id != r.id
    ensures CreditsMatch(credits + [CreditFor(u, s.source, runner)], results + [r], s, runner)
  {
    hide HasCredit;
    var c := CreditFor(u, s.source, runner);
    EndedGrows(results, r);
    HasCreditGrows(credits, c);
    assert OfUnit(s, runner, c);
    forall i | 0 <= i < |credits|
      ensures credits[i].id != r.id
    {
      assert credits[i] in credits;
    }
  }

  lemma CreditsMatchOther(credits: seq<Credit>, results: seq<UnitResult>, s: Selection, runner: Runner, r: UnitResult)
    requires CreditsMatch(credits, results, s, runner) && !r.outcome.Pass?
    ensures CreditsMatch(credits, results + [r], s, runner)
  {
    hide HasCredit;
    EndedGrows(results, r);
  }

  lemma DispositionsMatchNew(dispositions: seq<Disposition>, results: seq<UnitResult>, r: UnitResult, d: Disposition)
    requires DispositionsMatch(dispositions, results) && r.outcome.NotPass?
    requires IsDisposition(d) && d.id == r.id && d.status == Canonical(r.outcome.status) && forall t | t in results :: t.id != r.id
    ensures DispositionsMatch(dispositions + [d], results + [r])
  {
    hide HasDisposition, IsDisposition;
    EndedGrows(results, r);
    assert d.status.Canonical? && r.outcome == NotPass(d.status.status);
    HasDispositionGrows(dispositions, d);
    forall i | 0 <= i < |dispositions|
      ensures dispositions[i].id != r.id
    {
      assert dispositions[i] in dispositions;
    }
  }

  lemma DispositionsMatchOther(dispositions: seq<Disposition>, results: seq<UnitResult>, r: UnitResult)
    requires DispositionsMatch(dispositions, results) && !r.outcome.NotPass?
    ensures DispositionsMatch(dispositions, results + [r])
  {
    hide HasDisposition, IsDisposition;
    EndedGrows(results, r);
  }

  lemma WellFormedSplits(results: seq<UnitResult>, units: seq<Unit>)
    requires results != [] && WellFormedResults(results, units)
    ensures WellFormedResults(Init(results), units) && WellFormedResult(Last(results), units)
    ensures results == Init(results) + [Last(results)] && forall t | t in Init(results) :: t.id != Last(results).id
  {
    hide WellFormedResult;
    var front := Init(results);
    assert results == front + [Last(results)];
    assert forall i | 0 <= i < |front| :: front[i].id != Last(results).id;
  }

  lemma {:induction false} PassCreditsAre(results: seq<UnitResult>, s: Selection, runner: Runner)
    requires WellFormedResults(results, s.units) && WellFormedSelection(s)
    ensures CreditsMatch(PassCredits(results, s, runner), results, s, runner)
  {
    hide CreditsMatch, CreditFor, Sha256, Strip;
    if results == [] {
      NothingMatches(s, runner);
    } else {
      WellFormedSplits(results, s.units);
      var front, r := Init(results), Last(results);
      PassCreditsAre(front, s, runner);
      var u := UnitOf(s.units, r.id).value;
      if r.outcome.Pass? {
        CreditsMatchPass(PassCredits(front, s, runner), front, s, runner, r, u);
      } else {
        CreditsMatchOther(PassCredits(front, s, runner), front, s, runner, r);
      }
    }
  }

  lemma NothingMatches(s: Selection, runner: Runner)
    ensures CreditsMatch([], [], s, runner) && DispositionsMatch([], [])
  {
  }

  lemma {:induction false} NewDispositionsAre(results: seq<UnitResult>, s: Selection, runner: Runner)
    requires WellFormedResults(results, s.units) && WellFormedSelection(s)
    ensures DispositionsMatch(NewDispositions(results), results)
  {
    hide DispositionsMatch, Sha256, Strip;
    if results == [] {
      NothingMatches(s, runner);
    } else {
      WellFormedSplits(results, s.units);
      var front, r := Init(results), Last(results);
      NewDispositionsAre(front, s, runner);
      StripTwice(r.reason);
      if r.outcome.NotPass? {
        DispositionsMatchNew(NewDispositions(front), front, r, Disposition(r.id, true, Canonical(r.outcome.status), Strip(r.reason)));
      } else {
        DispositionsMatchOther(NewDispositions(front), front, r);
      }
    }
  }

  lemma {:induction false} KeptAre(prior: seq<Disposition>, results: seq<UnitResult>, preserved: seq<Credit>)
    requires DistinctDispositions(prior)
    ensures forall d :: d in Kept(prior, results, preserved) <==>
              d in prior && d.id.Some? && !HasResult(results, d.id) && !HasCredit(preserved, d.id)
    ensures DistinctDispositions(Kept(prior, results, preserved))
  {
    if prior != [] {
      var front, d := Init(prior), Last(prior);
      assert prior == front + [d];
      KeptAre(front, results, preserved);
      var before, after := Kept(front, results, preserved), Kept(prior, results, preserved);
      if d.id.None? || HasResult(results, d.id) || HasCredit(preserved, d.id) {
        assert after == before;
      } else {
        assert after == before + [d];
        assert forall i | 0 <= i < |front| :: front[i].id != d.id;
        forall i | 0 <= i < |before|
          ensures before[i].id != d.id
        {
          assert before[i] in before;
        }
      }
    }
  }

  lemma {:induction false} FirstUnresolvedIs(results: seq<UnitResult>)
    requires forall r | r in results :: r.id.Some?
    ensures FirstUnresolved(results).Some? ==>
              exists r :: r in results && r.id == FirstUnresolved(results) && r.outcome == NotPass(Unresolved)
    ensures FirstUnresolved(results).None? ==> forall r | r in results :: r.outcome != NotPass(Unresolved)
  {
    if results != [] {
      assert results == Init(results) + [Last(results)];
      FirstUnresolvedIs(Init(results));
    }
  }

  lemma CarriedAndPassed(s: Selection, carried: seq<Credit>, passes: seq<Credit>, results: seq<UnitResult>, runner: Runner)
    requires WellFormedSelection(s) && CreditsMatch(passes, results, s, runner)
    requires carried == [] || carried == s.preserved
    requires forall c | c in s.preserved :: c.asPass
    ensures DistinctCredits(carried + passes) && forall c | c in carried + passes :: IsCredit(c)
  {
    hide HasCredit, Ended;
    forall c, d | c in carried && d in passes
      ensures c.id != d.id
    {
      assert c in s.preserved && OfUnit(s, runner, d);
    }
    DistinctConcat(carried, passes);
  }

  lemma KeptAndNew(s: Selection, prior: seq<Disposition>, news: seq<Disposition>, results: seq<UnitResult>)
    requires DistinctDispositions(prior) && (forall d | d in prior :: IsDisposition(d)) && DispositionsMatch(news, results)
    ensures var all := Kept(prior, results, s.preserved) + news;
            DistinctDispositions(all) && forall d | d in all :: IsDisposition(d)
  {
    hide Kept, HasCredit, HasResult, HasDisposition, Ended;
    var kept := Kept(prior, results, s.preserved);
    KeptAre(prior, results, s.preserved);
    forall d, e | d in kept && e in news
      ensures d.id != e.id
    {
      EndedHasResult(results, e.id, NotPass(e.status.status));
    }
    DistinctConcatDispositions(kept, news);
  }

  // Apart from the name of the first unresolved unit, the merge of a well-formed run is valid.
  lemma MergedRecordsAreValid(s: Selection, results: seq<UnitResult>, input: Option<Checkpoint>, runner: Runner)
    requires WellFormedSelection(s) && WellFormedResults(results, s.units)
    requires forall c | c in s.preserved :: c.asPass
    requires input.Some? ==> ValidCheckpoint(input.value)
    ensures var m := Merged(s, results, input, runner); RecordsValid(m.credits, m.dispositions)
  {
    hide WellFormedResults, WellFormedSelection, FirstValid, MergedFirst, CreditsMatch, DispositionsMatch,
         Uncertain, Kept, PassCredits, NewDispositions, IsCredit, IsDisposition, DistinctCredits, DistinctDispositions;
    var prior := if input.Some? then input.value.dispositions else [];
    var passes, news, kept := PassCredits(results, s, runner), NewDispositions(results), Kept(prior, results, s.preserved);
    var carried: seq<Credit> := if Uncertain(results) then [] else s.preserved;
    PassCreditsAre(results, s, runner);
    NewDispositionsAre(results, s, runner);
    NothingPrior();
    CarriedAndPassed(s, carried, passes, results, runner);
    KeptAndNew(s, prior, news, results);
    forall c: Credit, d: Disposition | c in carried + passes && d in kept + news
      ensures c.id != d.id
    {
      NeverBoth(s, results, carried, passes, kept, news, prior, runner, c, d);
    }
  }

  lemma NothingPrior()
    ensures DistinctDispositions([])
  {
  }

  lemma EndedHasResult(results: seq<UnitResult>, id: Option<string>, outcome: Outcome)
    requires Ended(results, id, outcome)
    ensures HasResult(results, id)
  {
  }

  lemma DistinctConcat(a: seq<Credit>, b: seq<Credit>)
    requires DistinctCredits(a) && DistinctCredits(b) && forall x, y | x in a && y in b :: x.id != y.id
    ensures DistinctCredits(a + b)
  {
  }

  lemma DistinctConcatDispositions(a: seq<Disposition>, b: seq<Disposition>)
    requires DistinctDispositions(a) && DistinctDispositions(b) && forall x, y | x in a && y in b :: x.id != y.id
    ensures DistinctDispositions(a + b)
  {
  }

  lemma OneOutcomePerId(results: seq<UnitResult>, x: Option<string>, y: Option<string>, a: Outcome, b: Outcome)
    requires DistinctResults(results) && Ended(results, x, a) && Ended(results, y, b) && a != b
    ensures x != y
  {
  }

  // What ended is a selected unit, so it is not among the preserved.
  lemma EndedIsNotPreserved(s: Selection, results: seq<UnitResult>, id: Option<string>, outcome: Outcome)
    requires WellFormedSelection(s) && WellFormedResults(results, s.units) && Ended(results, id, outcome)
    ensures !HasCredit(s.preserved, id)
  {
    hide Sha256, Strip;
    var r :| r in results && r.id == id && r.outcome == outcome;
    assert WellFormedResult(r, s.units) && UnitOf(s.units, r.id).value in s.units;
  }

  lemma NeverBoth(s: Selection, results: seq<UnitResult>, carried: seq<Credit>, passes: seq<Credit>, kept: seq<Disposition>,
                  news: seq<Disposition>, prior: seq<Disposition>, runner: Runner, c: Credit, d: Disposition)
    requires WellFormedSelection(s) && WellFormedResults(results, s.units) && DistinctDispositions(prior)
    requires CreditsMatch(passes, results, s, runner) && DispositionsMatch(news, results) && kept == Kept(prior, results, s.preserved)
    requires carried == [] || carried == s.preserved
    requires c in carried + passes && d in kept + news
    ensures c.id != d.id
  {
    hide WellFormedSelection, WellFormedResult, Kept, IsCredit, OfUnit;
    KeptAre(prior, results, s.preserved);
    if c in passes {
      assert Ended(results, c.id, Pass);
      EndedHasResult(results, c.id, Pass);
      if d in news {
        OneOutcomePerId(results, c.id, d.id, Pass, NotPass(d.status.status));
      }
    } else {
      assert HasCredit(s.preserved, c.id);
      if d in news {
        EndedIsNotPreserved(s, results, d.id, NotPass(d.status.status));
      }
    }
  }

  ghost predicate NotPassed(results: seq<UnitResult>, id: Option<string>) {
    exists r :: r in results && r.id == id && r.outcome.NotPass?
  }

  // An earlier disposition that the run leaves standing.
  ghost predicate StillDisposed(s: Selection, results: seq<UnitResult>, input: Option<Checkpoint>, id: Option<string>) {
    && input.Some? && !HasResult(results, id) && !HasCredit(s.preserved, id)
    && exists d :: d in input.value.dispositions && d.id == id
  }

  // The run's first unresolved unit, if any, can be named: its id is stripped already, or its stripped
  // form is the id of another unit that did not pass, or of a disposition left standing.
  ghost predicate Nameable(s: Selection, results: seq<UnitResult>, input: Option<Checkpoint>) {
    var first := FirstUnresolved(results);
    first.Some? ==>
      var stripped := Strip(first.value);
      stripped == first.value || NotPassed(results, Some(stripped)) || StillDisposed(s, results, input, Some(stripped))
  }

  // A well-formed run merges into a valid checkpoint exactly when its first unresolved unit can be named.
  lemma MergeIsValidExactly(s: Selection, results: seq<UnitResult>, input: Option<Checkpoint>, runner: Runner)
    requires WellFormedSelection(s) && WellFormedResults(results, s.units)
    requires forall c | c in s.preserved :: c.asPass
    requires input.Some? ==> ValidCheckpoint(input.value)
    ensures var m := Merged(s, results, input, runner);
            RecordsValid(m.credits, m.dispositions) && (FirstValid(m.dispositions, m.first) <==> Nameable(s, results, input))
  {
    hide RecordsValid, Merged, FirstValid, FirstUnresolved, Nameable;
    MergedRecordsAreValid(s, results, input, runner);
    MergedFirstValid(s, results, input, runner);
  }

  // What the merged checkpoint disposes of.
  lemma MergedDisposes(s: Selection, results: seq<UnitResult>, input: Option<Checkpoint>, runner: Runner, id: string)
    requires WellFormedSelection(s) && WellFormedResults(results, s.units)
    requires input.Some? ==> ValidCheckpoint(input.value)
    ensures Disposed(Merged(s, results, input, runner).dispositions, id) <==>
            NotPassed(results, Some(id)) || StillDisposed(s, results, input, Some(id))
  {
    hide Strip, Sha256, IsDisposition, Kept, NewDispositions, PassCredits, WellFormedSelection, WellFormedResults, HasResult, HasCredit;
    var prior := if input.Some? then input.value.dispositions else [];
    var kept, news := Kept(prior, results, s.preserved), NewDispositions(results);
    NewDispositionsAre(results, s, runner);
    NothingPrior();
    KeptAre(prior, results, s.preserved);
    NewDisposes(results, news, id);
    assert Disposed(kept + news, id) <==> Disposed(kept, id) || Disposed(news, id) by {
      assert forall d :: d in kept + news <==> d in kept || d in news;
    }
  }

  lemma NewDisposes(results: seq<UnitResult>, news: seq<Disposition>, id: string)
    requires DispositionsMatch(news, results)
    ensures Disposed(news, id) <==> NotPassed(results, Some(id))
  {
    hide IsDisposition;
    if Disposed(news, id) {
      var d :| d in news && d.id == Some(id);
      assert Ended(results, d.id, NotPass(d.status.status));
    }
    if NotPassed(results, Some(id)) {
      var r :| r in results && r.id == Some(id) && r.outcome.NotPass?;
      assert HasDisposition(news, r.id, r.outcome.status);
    }
  }

  lemma MergedFirstValid(s: Selection, results: seq<UnitResult>, input: Option<Checkpoint>, runner: Runner)
    requires WellFormedSelection(s) && WellFormedResults(results, s.units)
    requires input.Some? ==> ValidCheckpoint(input.value)
    ensures var m := Merged(s, results, input, runner); FirstValid(m.dispositions, m.first) <==> Nameable(s, results, input)
  {
    hide Strip, Sha256, IsDisposition, Kept, NewDispositions, PassCredits, RecordsValid, Disposed, StillDisposed, NotPassed,
         WellFormedSelection, WellFormedResults;
    var m, first := Merged(s, results, input, runner), FirstUnresolved(results);
    if first.Some? {
      var stripped := Strip(first.value);
      MergedDisposes(s, results, input, runner, stripped);
      FirstIsNotPassed(s, results, first.value);
      EmptyIsNotDisposed(s, results, input);
    } else if m.first.Some? {
      PriorFirstStays(s, results, input, m.first.value);
      MergedDisposes(s, results, input, runner, m.first.value);
    }
  }

  // The first unresolved unit is named, and did not pass.
  lemma FirstIsNotPassed(s: Selection, results: seq<UnitResult>, first: string)
    requires WellFormedSelection(s) && WellFormedResults(results, s.units) && FirstUnresolved(results) == Some(first)
    ensures NotPassed(results, Some(first)) && first != ""
  {
    hide Strip, Sha256;
    WellFormedNames(s, results);
    FirstUnresolvedIs(results);
  }

  lemma EmptyIsNotDisposed(s: Selection, results: seq<UnitResult>, input: Option<Checkpoint>)
    requires WellFormedSelection(s) && WellFormedResults(results, s.units)
    requires input.Some? ==> ValidCheckpoint(input.value)
    ensures !NotPassed(results, Some("")) && !StillDisposed(s, results, input, Some(""))
  {
    hide Strip, Sha256;
    WellFormedNames(s, results);
  }

  lemma PriorFirstStays(s: Selection, results: seq<UnitResult>, input: Option<Checkpoint>, id: string)
    requires input.Some? && ValidCheckpoint(input.value) && input.value.first == Some(id)
    requires StillUnresolved(Kept(input.value.dispositions, results, s.preserved), id)
    ensures StillDisposed(s, results, input, Some(id)) && Strip(id) == id && id != ""
  {
    hide Strip, IsDisposition;
    KeptAre(input.value.dispositions, results, s.preserved);
  }

  lemma WellFormedNames(s: Selection, results: seq<UnitResult>)
    requires WellFormedSelection(s) && WellFormedResults(results, s.units)
    ensures forall r | r in results :: Named(r.id)
  {
    hide Sha256, Strip;
    forall r | r in results
      ensures Named(r.id)
    {
      assert WellFormedResult(r, s.units) && UnitOf(s.units, r.id).value in s.units;
    }
  }

  // After an unresolved or skipped unit no earlier PASS survives: every credit is of a unit that passed in this run.
  lemma UncertaintyDropsCredit(s: Selection, results: seq<UnitResult>, input: Option<Checkpoint>, runner: Runner)
    requires WellFormedSelection(s) && WellFormedResults(results, s.units) && Uncertain(results)
    ensures forall c | c in Merged(s, results, input, runner).credits :: exists r :: r in results && r.id == c.id && r.outcome.Pass?
    ensures forall c | c in s.preserved :: !HasCredit(Merged(s, results, input, runner).credits, c.id)
  {
    PassCreditsAre(results, s, runner);
    forall c | c in PassCredits(results, s, runner)
      ensures exists r :: r in results && r.id == c.id && r.outcome.Pass?
    {
      assert Ended(results, c.id, Pass);
    }
    forall c, d | c in s.preserved && d in PassCredits(results, s, runner)
      ensures c.id != d.id
    {
      assert OfUnit(s, runner, d);
    }
  }

  /******* What a merge records, entry by entry *******/

  // The credits are those of the units that passed, as selected, and the preserved ones unless some
  // unit ended unresolved or skipped.
  ghost predicate CreditsRecorded(credits: seq<Credit>, s: Selection, results: seq<UnitResult>, runner: Runner) {
    forall c :: c in credits <==>
      || (c in s.preserved && forall r | r in results :: r.outcome != NotPass(Unresolved) && r.outcome != NotPass(Skip))
      || exists u :: u in s.units && PassedUnit(results, u)
           && c == Credit(u.id, true, true, u.tier, u.command, u.contract, u.fingerprint, s.source, runner)
  }

  ghost predicate PassedUnit(results: seq<UnitResult>, u: Unit) {
    exists r :: r in results && r.id == u.id && r.outcome == Pass
  }

  // The dispositions are those of the units that did not pass, with their stripped reasons, and the
  // earlier ones of checks without a result or a preserved credit.
  ghost predicate DispositionsRecorded(dispositions: seq<Disposition>, s: Selection, results: seq<UnitResult>, input: Option<Checkpoint>) {
    forall d :: d in dispositions <==>
      || (input.Some? && d in input.value.dispositions && d.id.Some?
          && (forall r | r in results :: r.id != d.id) && forall c | c in s.preserved :: c.id != d.id)
      || exists r :: r in results && r.outcome.NotPass? && d == Disposition(r.id, true, Canonical(r.outcome.status), Strip(r.reason))
  }

  // The first result that is unresolved.
  ghost predicate UnresolvedAt(results: seq<UnitResult>, i: nat) {
    i < |results| && results[i].outcome == NotPass(Unresolved) && forall j | 0 <= j < i :: results[j].outcome != NotPass(Unresolved)
  }

  // The first unresolved unit is the run's first, or without one the earlier one if it still is unresolved.
  ghost predicate FirstRecorded(first: Option<string>, dispositions: seq<Disposition>, results: seq<UnitResult>, input: Option<Checkpoint>) {
    && (forall i: nat | UnresolvedAt(results, i) :: results[i].id.Some? && first == Some(Strip(results[i].id.value)))
    && ((forall r | r in results :: r.outcome != NotPass(Unresolved)) ==>
          first == if input.Some? && input.value.first.Some?
                      && exists d :: d in dispositions && d.id == input.value.first && d.status == Canonical(Unresolved)
                   then Some(Strip(input.value.first.value)) else None)
  }

  ghost predicate Records(m: Checkpoint, s: Selection, results: seq<UnitResult>, input: Option<Checkpoint>, runner: Runner) {
    && CreditsRecorded(m.credits, s, results, runner) && DispositionsRecorded(m.dispositions, s, results, input)
    && FirstRecorded(m.first, m.dispositions, results, input)
  }

  lemma CreditsAreRecorded(s: Selection, results: seq<UnitResult>, runner: Runner)
    requires WellFormedSelection(s) && WellFormedResults(results, s.units)
    ensures CreditsRecorded((if Uncertain(results) then [] else s.preserved) + PassCredits(results, s, runner), s, results, runner)
  {
    hide PassCredits, WellFormedResults, Sha256, IsCredit;
    var passes := PassCredits(results, s, runner);
    PassCreditsAre(results, s, runner);
    forall c
      ensures c in passes <==> exists u :: u in s.units && PassedUnit(results, u) && c == CreditFor(u, s.source, runner)
    {
      if c in passes {
        assert Ended(results, c.id, Pass) && OfUnit(s, runner, c);
        var u :| u in s.units && c == CreditFor(u, s.source, runner);
        assert PassedUnit(results, u);
      }
      if u :| u in s.units && PassedUnit(results, u) && c == CreditFor(u, s.source, runner) {
        assert HasCredit(passes, u.id);
        var d :| d in passes && d.id == u.id;
        assert OfUnit(s, runner, d);
      }
    }
  }

  lemma {:induction false} KeptHolds(prior: seq<Disposition>, results: seq<UnitResult>, preserved: seq<Credit>)
    ensures forall d :: d in Kept(prior, results, preserved) <==>
              d in prior && d.id.Some? && !HasResult(results, d.id) && !HasCredit(preserved, d.id)
  {
    if prior != [] {
      KeptHolds(Init(prior), results, preserved);
      assert prior == Init(prior) + [Last(prior)];
    }
  }

  lemma {:induction false} NewDispositionsHold(results: seq<UnitResult>)
    ensures forall d :: d in NewDispositions(results) <==>
              exists r :: r in results && r.outcome.NotPass? && d == Disposition(r.id, true, Canonical(r.outcome.status), Strip(r.reason))
  {
    if results != [] {
      NewDispositionsHold(Init(results));
      assert results == Init(results) + [Last(results)];
    }
  }

  lemma DispositionsAreRecorded(s: Selection, results: seq<UnitResult>, input: Option<Checkpoint>)
    ensures DispositionsRecorded(Kept(if input.Some? then input.value.dispositions else [], results, s.preserved) + NewDispositions(results),
                                 s, results, input)
  {
    hide Kept, NewDispositions;
    KeptHolds(if input.Some? then input.value.dispositions else [], results, s.preserved);
    NewDispositionsHold(results);
  }

  lemma {:induction false} FirstUnresolvedAt(results: seq<UnitResult>, i: nat)
    requires UnresolvedAt(results, i) && forall r | r in results :: r.id.Some?
    ensures FirstUnresolved(results) == results[i].id
  {
    var front, last := Init(results), Last(results);
    assert results == front + [last];
    if i < |front| {
      FirstUnresolvedAt(front, i);
    } else {
      FirstUnresolvedIs(front);
      forall r | r in front
        ensures r.outcome != NotPass(Unresolved)
      {
        var j :| 0 <= j < |front| && front[j] == r;
        assert results[j] == r;
      }
    }
  }

  lemma FirstIsRecorded(s: Selection, results: seq<UnitResult>, input: Option<Checkpoint>, runner: Runner)
    requires WellFormedSelection(s) && WellFormedResults(results, s.units)
    ensures var m := Merged(s, results, input, runner);
            FirstRecorded(if m.first.Some? then Some(Strip(m.first.value)) else None, m.dispositions, results, input)
  {
    hide Kept, NewDispositions, PassCredits, Sha256, Strip;
    var prior := if input.Some? then input.value.dispositions else [];
    var kept, news := Kept(prior, results, s.preserved), NewDispositions(results);
    WellFormedNames(s, results);
    FirstUnresolvedIs(results);
    forall i: nat | UnresolvedAt(results, i)
      ensures FirstUnresolved(results) == results[i].id
    {
      FirstUnresolvedAt(results, i);
    }
    if forall r | r in results :: r.outcome != NotPass(Unresolved) {
      NewDispositionsHold(results);
      assert forall d | d in news :: d.status != Canonical(Unresolved);
      assert forall d :: d in kept + news <==> d in kept || d in news;
    }
  }

  // Entry by entry the merge of well-formed records is what it should be.
  lemma MergedExactly(s: Selection, results: seq<UnitResult>, input: Option<Checkpoint>, runner: Runner)
    requires WellFormedSelection(s) && WellFormedResults(results, s.units)
    ensures var m := Merged(s, results, input, runner);
            Records(m.(first := if m.first.Some? then Some(Strip(m.first.value)) else None), s, results, input, runner)
  {
    hide CreditsRecorded, DispositionsRecorded, FirstRecorded, Kept, NewDispositions, PassCredits, WellFormedResults, WellFormedSelection,
         MergedFirst, Uncertain;
    CreditsAreRecorded(s, results, runner);
    DispositionsAreRecorded(s, results, input);
    FirstIsRecorded(s, results, input, runner);
  }

  /******* The merge itself *******/

  // What a run must look like: named selected units, no two alike; results of selected units, no two of
  // one unit, each with a status, with a reason unless it passed, and with a command and a digest to
  // record; and named preserved credits, no two alike, of units that were not selected.
  ghost predicate Presentable(s: Selection, results: seq<UnitResult>) {
    && (forall u | u in s.units :: u.id != None && u.id != Some(""))
    && (forall i, j | 0 <= i < |s.units| && 0 <= j < |s.units| && s.units[i].id == s.units[j].id :: i == j)
    && (forall r | r in results ::
          && r.outcome != BadStatus && (r.outcome != Pass ==> Strip(r.reason) != "")
          && exists u :: u in s.units && u.id == r.id && Recordable(u))
    && (forall i, j | 0 <= i < |results| && 0 <= j < |results| && results[i].id == results[j].id :: i == j)
    && (forall c | c in s.preserved :: c.id != None && c.id != Some("") && forall u | u in s.units :: u.id != c.id)
    && (forall i, j | 0 <= i < |s.preserved| && 0 <= j < |s.preserved| && s.preserved[i].id == s.preserved[j].id :: i == j)
  }

  ghost predicate Recordable(u: Unit) {
    u.command != [] && |u.fingerprint| == 64 && forall x | x in u.fingerprint :: '0' <= x <= '9' || 'a' <= x <= 'f'
  }

  lemma RecordableExactly(u: Unit)
    ensures Recordable(u) <==> u.command != [] && Sha256(u.fingerprint)
  {
    if Sha256(u.fingerprint) {
      forall x | x in u.fingerprint
        ensures '0' <= x <= '9' || 'a' <= x <= 'f'
      {
        var i :| 0 <= i < |u.fingerprint| && u.fingerprint[i] == x;
      }
    }
    if Recordable(u) {
      forall i | 0 <= i < |u.fingerprint|
        ensures '0' <= u.fingerprint[i] <= '9' || 'a' <= u.fingerprint[i] <= 'f'
      {
        assert u.fingerprint[i] in u.fingerprint;
      }
    }
  }

  lemma ResultExactly(r: UnitResult, units: seq<Unit>)
    requires DistinctUnits(units) && forall u | u in units :: u.id != None
    ensures WellFormedResult(r, units) <==>
            && r.outcome != BadStatus && (r.outcome != Pass ==> Strip(r.reason) != "")
            && exists u :: u in units && u.id == r.id && Recordable(u)
  {
    hide Sha256, Strip, Recordable;
    var found := UnitOf(units, r.id);
    forall u | u in units && u.id == r.id
      ensures found == Some(u)
    {
      var i :| 0 <= i < |units| && units[i] == u;
      var j :| 0 <= j < |units| && units[j] == found.value;
    }
    if found.Some? {
      RecordableExactly(found.value);
    }
  }

  lemma PresentableExactly(s: Selection, results: seq<UnitResult>)
    ensures WellFormedSelection(s) && WellFormedResults(results, s.units) <==> Presentable(s, results)
  {
    hide Strip, WellFormedResult, Recordable;
    if DistinctUnits(s.units) && forall u | u in s.units :: u.id != None {
      forall r
        ensures WellFormedResult(r, s.units) <==>
                && r.outcome != BadStatus && (r.outcome != Pass ==> Strip(r.reason) != "")
                && exists u :: u in s.units && u.id == r.id && Recordable(u)
      {
        ResultExactly(r, s.units);
      }
    }
  }

  method MergeCheckpointResults(s: Selection, results: seq<UnitResult>, input: Option<Checkpoint>, runner: Runner)
    returns (r: Result<Checkpoint, Refusal>)
    ensures var m := Merged(s, results, input, runner);
            && (r.Ok? <==> Presentable(s, results) && RecordsValid(m.credits, m.dispositions) && FirstValid(m.dispositions, m.first))
            && (r.Ok? ==> r.value == m.(first := if m.first.Some? then Some(Strip(m.first.value)) else None))
    ensures r.Ok? ==> ValidCheckpoint(r.value) && Records(r.value, s, results, input, runner)
  {
    hide UnitOf, PassCredits, NewDispositions, Kept, Sha256, Strip, RecordsValid, FirstValid, FirstUnresolved, WellFormedResult, Records,
         Presentable;
    PresentableExactly(s, results);
    var okUnits := CheckUnits(s.units);
    if !okUnits {
      return Err(Refused);
    }
    var okResults, passes, news := Normalize(s, results, runner);
    if !okResults {
      return Err(Refused);
    }
    var okPreserved := CheckPreserved(s);
    if !okPreserved {
      return Err(Refused);
    }
    var preserved := s.preserved;
    var uncertain := exists t :: t in results && t.outcome.NotPass? && t.outcome.status in {Unresolved, Skip};
    if uncertain {
      preserved := [];
    }
    var prior := if input.Some? then input.value.dispositions else [];
    var kept := KeepDispositions(prior, results, s.preserved);
    var first := FindFirst(results);
    if first.None? && input.Some? && input.value.first.Some?
       && exists d :: d in kept && d.id == input.value.first && d.status == Canonical(Unresolved)
    {
      first := input.value.first;
    }
    assert Merged(s, results, input, runner) == Checkpoint(preserved + passes, kept + news, first);
    MergedExactly(s, results, input, runner);
    r := CheckpointRecord(preserved + passes, kept + news, first);
  }

  // On well-formed input whose unit ids carry no surrounding white space, the merge always succeeds.
  method MergeTrimmedRun(s: Selection, results: seq<UnitResult>, input: Option<Checkpoint>, runner: Runner)
    returns (r: Result<Checkpoint, Refusal>)
    requires WellFormedSelection(s) && WellFormedResults(results, s.units)
    requires forall c | c in s.preserved :: c.asPass
    requires input.Some? ==> ValidCheckpoint(input.value)
    requires forall u | u in s.units :: u.id.Some? && Strip(u.id.value) == u.id.value
    ensures r.Ok? && ValidCheckpoint(r.value)
    ensures r.value.credits == Merged(s, results, input, runner).credits
    ensures r.value.dispositions == Merged(s, results, input, runner).dispositions
  {
    hide RecordsValid, FirstValid, Merged, Strip, WellFormedSelection, WellFormedResults, Presentable;
    PresentableExactly(s, results);
    MergeIsValidExactly(s, results, input, runner);
    FirstIsAUnit(s, results);
    r := MergeCheckpointResults(s, results, input, runner);
  }

  lemma FirstIsAUnit(s: Selection, results: seq<UnitResult>)
    requires WellFormedResults(results, s.units)
    ensures FirstUnresolved(results).Some? ==> exists u :: u in s.units && u.id == FirstUnresolved(results)
  {
    hide Strip, Sha256;
    forall r | r in results
      ensures r.id.Some? && exists u :: u in s.units && u.id == r.id
    {
      assert WellFormedResult(r, s.units) && UnitOf(s.units, r.id).value in s.units;
    }
    FirstUnresolvedIs(results);
  }

  // A single unit with a padded id that ends unresolved: its well-formed run is refused.
  method PaddedIdIsRefused(source: Source, runner: Runner, hash: string) returns (r: Result<Checkpoint, Refusal>)
    requires Sha256(hash)
    ensures var s, results := PaddedSelection(source, hash), [UnitResult(Some(" a"), NotPass(Unresolved), "lost")];
            WellFormedSelection(s) && WellFormedResults(results, s.units) && r.Err?
  {
    var s, results := PaddedSelection(source, hash), [UnitResult(Some(" a"), NotPass(Unresolved), "lost")];
    PaddedIsNotNameable(s, results);
    MergeIsValidExactly(s, results, None, runner);
    r := MergeCheckpointResults(s, results, None, runner);
  }

  function PaddedSelection(source: Source, hash: string): Selection {
    Selection(source, [Unit(Some(" a"), FastTier, ["run"], "contract", hash)], [])
  }

  lemma PaddedIsNotNameable(s: Selection, results: seq<UnitResult>)
    requires s.preserved == [] && |s.units| == 1 && s.units[0].id == Some(" a")
    requires s.units[0].command != [] && Sha256(s.units[0].fingerprint)
    requires results == [UnitResult(Some(" a"), NotPass(Unresolved), "lost")]
    ensures WellFormedSelection(s) && WellFormedResults(results, s.units) && !Nameable(s, results, None)
  {
    hide Sha256;
    var r := results[0];
    assert Last(s.units) == s.units[0] && UnitOf(s.units, r.id) == Some(s.units[0]);
    assert "lost"[0..4] == "lost" && " a"[1..2] == "a";
    StripIs("lost", 0, 4);
    StripIs(" a", 1, 2);
    assert Init(results) == [] && Last(results) == r;
    assert FirstUnresolved([]) == None;
  }

  method CheckUnits(units: seq<Unit>) returns (ok: bool)
    ensures ok <==> (forall u | u in units :: Named(u.id)) && DistinctUnits(units)
  {
    var seen: set<Option<string>> := {};
    for i := 0 to |units|
      invariant forall j | 0 <= j < i :: Named(units[j].id) && units[j].id in seen
      invariant forall id | id in seen :: exists j :: 0 <= j < i && units[j].id == id
      invariant DistinctUnits(units[..i])
    {
      if !Named(units[i].id) || units[i].id in seen {
        assert units[i] in units;
        return false;
      }
      seen := seen + {units[i].id};
    }
    assert units[..|units|] == units;
    return true;
  }

  // The results checked so far.
  ghost predicate Checked(results: seq<UnitResult>, i: nat, units: seq<Unit>, seen: set<Option<string>>) {
    && i <= |results| && WellFormedResults(results[..i], units)
    && forall id :: id in seen <==> HasResult(results[..i], id)
  }

  lemma CheckedGrows(results: seq<UnitResult>, i: nat, units: seq<Unit>, seen: set<Option<string>>)
    requires i < |results| && Checked(results, i, units, seen)
    ensures WellFormedResult(results[i], units) && results[i].id !in seen ==> Checked(results, i + 1, units, seen + {results[i].id})
    ensures !(WellFormedResult(results[i], units) && results[i].id !in seen) ==> !WellFormedResults(results, units)
  {
    hide WellFormedResult;
    var r, before, after := results[i], results[..i], results[..i + 1];
    assert after == before + [r] && r in results && r in after;
    if r.id in seen {
      var t :| t in before && t.id == r.id;
      var j :| 0 <= j < i && before[j] == t;
      assert results[j].id == results[i].id;
    } else if WellFormedResult(r, units) {
      assert forall j | 0 <= j < i :: before[j] in before;
      forall id
        ensures id in seen + {r.id} <==> HasResult(after, id)
      {
        if HasResult(before, id) {
          var t :| t in before && t.id == id;
          assert t in after;
        }
      }
    }
  }

  // The run's records, made result by result.
  method Normalize(s: Selection, results: seq<UnitResult>, runner: Runner)
    returns (ok: bool, passes: seq<Credit>, news: seq<Disposition>)
    ensures ok <==> WellFormedResults(results, s.units)
    ensures ok ==> passes == PassCredits(results, s, runner) && news == NewDispositions(results)
    ensures ok ==> forall r | r in results :: r.id.Some?
  {
    hide UnitOf, Sha256, Strip, Checked, WellFormedResults;
    var seen: set<Option<string>> := {};
    passes, news := [], [];
    NothingChecked(results, s.units);
    for i := 0 to |results|
      invariant Checked(results, i, s.units, seen)
      invariant forall j | 0 <= j < i :: results[j].id.Some?
      invariant passes == PassCredits(results[..i], s, runner) && news == NewDispositions(results[..i])
    {
      var r := results[i];
      assert Init(results[..i + 1]) == results[..i];
      CheckedGrows(results, i, s.units, seen);
      if !WellFormedResult(r, s.units) || r.id in seen {
        return false, [], [];
      }
      seen := seen + {r.id};
      if r.outcome.Pass? {
        passes := passes + [CreditFor(UnitOf(s.units, r.id).value, s.source, runner)];
      } else {
        news := news + [Disposition(r.id, true, Canonical(r.outcome.status), Strip(r.reason))];
      }
    }
    assert results[..|results|] == results;
    AllChecked(results, s.units, seen);
    ok := true;
  }

  lemma NothingChecked(results: seq<UnitResult>, units: seq<Unit>)
    ensures Checked(results, 0, units, {})
  {
  }

  lemma AllChecked(results: seq<UnitResult>, units: seq<Unit>, seen: set<Option<string>>)
    requires Checked(results, |results|, units, seen)
    ensures WellFormedResults(results, units)
  {
    assert results[..|results|] == results;
  }

  method CheckPreserved(s: Selection) returns (ok: bool)
    ensures ok <==> (forall c | c in s.preserved :: Named(c.id)) && DistinctCredits(s.preserved)
                    && forall u, c | u in s.units && c in s.preserved :: u.id != c.id
  {
    var seen: set<Option<string>> := {};
    for i := 0 to |s.preserved|
      invariant forall j | 0 <= j < i :: Named(s.preserved[j].id) && s.preserved[j].id in seen
      invariant forall id | id in seen :: exists j :: 0 <= j < i && s.preserved[j].id == id
      invariant DistinctCredits(s.preserved[..i])
      invariant forall u, j | u in s.units && 0 <= j < i :: u.id != s.preserved[j].id
    {
      var c := s.preserved[i];
      assert c in s.preserved;
      if !Named(c.id) || c.id in seen {
        return false;
      }
      if exists u :: u in s.units && u.id == c.id {
        return false;
      }
      seen := seen + {c.id};
    }
    assert s.preserved[..|s.preserved|] == s.preserved;
    return true;
  }

  method KeepDispositions(prior: seq<Disposition>, results: seq<UnitResult>, preserved: seq<Credit>) returns (kept: seq<Disposition>)
    ensures kept == Kept(prior, results, preserved)
  {
    kept := [];
    for i := 0 to |prior|
      invariant kept == Kept(prior[..i], results, preserved)
    {
      var d := prior[i];
      assert Init(prior[..i + 1]) == prior[..i];
      if d.id.None? || (exists r :: r in results && r.id == d.id) || (exists c :: c in preserved && c.id == d.id) {
        continue;
      }
      kept := kept + [d];
    }
    assert prior[..|prior|] == prior;
  }

  method FindFirst(results: seq<UnitResult>) returns (first: Option<string>)
    requires forall r | r in results :: r.id.Some?
    ensures first == FirstUnresolved(results)
  {
    first := None;
    for i := 0 to |results|
      invariant first == FirstUnresolved(results[..i])
    {
      assert results[i] in results && Init(results[..i + 1]) == results[..i];
      if first.None? && results[i].outcome == NotPass(Unresolved) {
        first := results[i].id;
      }
    }
    assert results[..|results|] == results;
  }

  /******* From one run to the next *******/

  function UnitFor(s: Selected): Unit {
    Unit(Some(s.spec.id), s.spec.tier, s.spec.command, s.spec.contract, s.fingerprint)
  }

  // The selection record that a decision is written as.
  ghost function SelectionOf(registry: seq<Spec>, q: Query): Selection
    requires forall i | 0 <= i < |registry| :: registry[i].id in q.world.fingerprints
  {
    var selected := SelectedOf(registry, q);
    Selection(q.world.source, seq(|selected|, i requires 0 <= i < |selected| => UnitFor(selected[i])), PreservedOf(registry, q))
  }

  ghost predicate DistinctSelected(selected: seq<Selected>) {
    forall i, j | 0 <= i < j < |selected| :: selected[i].spec.id != selected[j].spec.id
  }

  lemma RegistrySplits(registry: seq<Spec>, q: Query)
    requires registry != [] && DistinctIds(registry) && Fingerprinted(registry, q.world)
    ensures var front, s := Init(registry), Last(registry);
            && registry == front + [s] && DistinctIds(front) && Fingerprinted(front, q.world)
            && forall spec | spec in front :: spec.id != s.id
  {
    var front, s := Init(registry), Last(registry);
    assert forall i | 0 <= i < |front| :: front[i] == registry[i];
    assert forall i | 0 <= i < |front| :: front[i].id != s.id;
  }

  lemma DistinctSelectedGrows(selected: seq<Selected>, s: Selected)
    requires DistinctSelected(selected) && forall x | x in selected :: x.spec.id != s.spec.id
    ensures DistinctSelected(selected + [s])
  {
  }

  lemma {:induction false} SelectedDistinct(registry: seq<Spec>, q: Query)
    requires DistinctIds(registry) && Fingerprinted(registry, q.world)
    ensures DistinctSelected(SelectedOf(registry, q))
  {
    hide Chosen, ReasonOf, DistinctSelected, DistinctIds;
    if registry == [] {
      NoneSelected();
    } else {
      RegistrySplits(registry, q);
      var front, s := Init(registry), Last(registry);
      SelectedDistinct(front, q);
      SelectionNames(front, q);
      DistinctSelectedGrows(SelectedOf(front, q), Selected(s, q.world.fingerprints[s.id], ReasonOf(s, q)));
      assert SelectedOf(front, q) + [] == SelectedOf(front, q);
    }
  }

  lemma NoneSelected()
    ensures DistinctSelected([])
  {
  }

  // What the last check of the registry adds to the preserved credits.
  lemma PreservedStep(registry: seq<Spec>, q: Query)
    requires registry != [] && Fingerprinted(registry, q.world)
    ensures var before, s := PreservedOf(Init(registry), q), Last(registry);
            PreservedOf(registry, q) == if Preserved(s, q) then before + [LastCredit(q.credits, s.id).value] else before
  {
    hide Preserved, LastCredit;
    assert PreservedOf(Init(registry), q) + [] == PreservedOf(Init(registry), q);
  }

  lemma DistinctCreditsGrow(credits: seq<Credit>, c: Credit)
    requires DistinctCredits(credits) && forall d | d in credits :: d.id != c.id
    ensures DistinctCredits(credits + [c])
  {
  }

  lemma PreservedNames(registry: seq<Spec>, q: Query, id: string)
    requires Fingerprinted(registry, q.world) && forall s | s in registry :: s.id != id
    ensures forall c | c in PreservedOf(registry, q) :: c.id != Some(id)
  {
    hide PreservedOf, SelectedOf;
    SelectionNames(registry, q);
    forall c | c in PreservedOf(registry, q)
      ensures c.id != Some(id)
    {
      var i :| 0 <= i < |registry| && registry[i].id == c.id.value;
      assert registry[i] in registry;
    }
  }

  lemma NonePreserved()
    ensures DistinctCredits([])
  {
  }

  lemma {:induction false} PreservedDistinct(registry: seq<Spec>, q: Query)
    requires DistinctIds(registry) && Fingerprinted(registry, q.world)
    ensures DistinctCredits(PreservedOf(registry, q))
    ensures forall s | s in registry && Preserved(s, q) :: LastCredit(q.credits, s.id).value in PreservedOf(registry, q)
  {
    hide Preserved, LastCredit, DistinctCredits, DistinctIds, PreservedOf;
    if registry == [] {
      NonePreserved();
      assert PreservedOf([], q) == [] by { NothingYet([], q, map[]); }
    } else {
      RegistrySplits(registry, q);
      var front, s := Init(registry), Last(registry);
      PreservedDistinct(front, q);
      PreservedStep(registry, q);
      if Preserved(s, q) {
        KeptHasCredit(s, q);
        PreservedNames(front, q, s.id);
        DistinctCreditsGrow(PreservedOf(front, q), LastCredit(q.credits, s.id).value);
      }
    }
  }

  ghost predicate NamedRegistry(registry: seq<Spec>) {
    DistinctIds(registry) && forall s | s in registry :: s.id != ""
  }

  // A unit of the selection is a check of the registry.
  lemma UnitIsSpec(registry: seq<Spec>, q: Query, u: Unit)
    requires Fingerprinted(registry, q.world) && u in SelectionOf(registry, q).units
    ensures exists s :: s in registry && Chosen(s, q) && u == UnitFor(Selected(s, q.world.fingerprints[s.id], ReasonOf(s, q)))
  {
    var selected := SelectedOf(registry, q);
    var i :| 0 <= i < |selected| && u == UnitFor(selected[i]);
    SelectedAreChosen(registry, q, selected[i]);
  }

  lemma {:induction false} SelectedAreChosen(registry: seq<Spec>, q: Query, x: Selected)
    requires Fingerprinted(registry, q.world) && x in SelectedOf(registry, q)
    ensures x.spec in registry && Chosen(x.spec, q) && x == Selected(x.spec, q.world.fingerprints[x.spec.id], ReasonOf(x.spec, q))
  {
    hide Chosen, ReasonOf;
    assert registry == Init(registry) + [Last(registry)];
    if x in SelectedOf(Init(registry), q) {
      SelectedAreChosen(Init(registry), q, x);
    }
  }

  // Every decision is well-formed for the merge.
  lemma DecisionIsWellFormed(registry: seq<Spec>, q: Query)
    requires NamedRegistry(registry) && Fingerprinted(registry, q.world)
    ensures WellFormedSelection(SelectionOf(registry, q))
    ensures forall c | c in PreservedOf(registry, q) :: c.asPass
  {
    hide Chosen, ReasonOf, Preserved;
    var s, selected := SelectionOf(registry, q), SelectedOf(registry, q);
    SelectedDistinct(registry, q);
    PreservedDistinct(registry, q);
    SelectionNames(registry, q);
    assert forall i | 0 <= i < |selected| :: s.units[i].id == Some(selected[i].spec.id);
    forall u | u in s.units
      ensures Named(u.id)
    {
      UnitIsSpec(registry, q, u);
    }
    forall u, c | u in s.units && c in s.preserved
      ensures u.id != c.id
    {
      NotPreservedToo(registry, q, u, c);
    }
  }

  lemma NotPreservedToo(registry: seq<Spec>, q: Query, u: Unit, c: Credit)
    requires DistinctIds(registry) && Fingerprinted(registry, q.world)
    requires u in SelectionOf(registry, q).units && c in PreservedOf(registry, q)
    ensures u.id != c.id
  {
    hide ReasonOf, Preserved, PreservedOf, SelectedOf, IsPreserved;
    UnitIsSpec(registry, q, u);
    var spec :| spec in registry && Chosen(spec, q) && u == UnitFor(Selected(spec, q.world.fingerprints[spec.id], ReasonOf(spec, q)));
    SelectionExactly(registry, q, spec);
    NotAmongPreserved(PreservedOf(registry, q), spec.id, c);
  }

  lemma NotAmongPreserved(preserved: seq<Credit>, id: string, c: Credit)
    requires !IsPreserved(preserved, id) && c in preserved
    ensures c.id != Some(id)
  {
  }

  // In a checkpoint every id is credited once at most, by the credit of that id.
  lemma {:induction false} CountOfDistinct(credits: seq<Credit>, c: Credit)
    requires DistinctCredits(credits) && c in credits && c.id.Some?
    ensures CreditCount(credits, c.id.value) == 1 && LastCredit(credits, c.id.value) == Some(c)
  {
    var front := Init(credits);
    assert credits == front + [Last(credits)];
    if c in front {
      CountOfDistinct(front, c);
      var i :| 0 <= i < |front| && front[i] == c;
      assert credits[i].id != credits[|credits| - 1].id;
    } else {
      NoneCounted(front, c.id.value) by {
        forall d | d in front
          ensures d.id != c.id
        {
          var i :| 0 <= i < |front| && front[i] == d;
          assert credits[i].id != credits[|credits| - 1].id;
        }
      }
    }
  }

  lemma {:induction false} NoneCounted(credits: seq<Credit>, id: string)
    requires forall c | c in credits :: c.id != Some(id)
    ensures CreditCount(credits, id) == 0
  {
    if credits != [] {
      assert credits == Init(credits) + [Last(credits)];
      NoneCounted(Init(credits), id);
    }
  }

  // In a valid checkpoint a check is preserved exactly when its one credit is trusted.
  lemma PreservedFromCheckpoint(m: Checkpoint, spec: Spec, c: Credit, next: Query)
    requires RecordsValid(m.credits, m.dispositions) && c in m.credits && c.id == Some(spec.id)
    requires next.credits == m.credits && next.dispositions == m.dispositions && spec.id in next.world.fingerprints
    ensures Preserved(spec, next) <==> Trusted(c, spec, next.world, next.changes)
  {
    hide Trusted, IsCredit, IsDisposition;
    CountOfDistinct(m.credits, c);
    assert forall d | d in m.dispositions :: d.id != c.id;
  }

  // What the selector needs of its world to believe the credit that it has just issued.
  ghost predicate Consistent(world: World) {
    world.source.tip in world.ancestors && {"python", "ruff", "basedpyright"} <= world.runner.Keys
  }

  lemma {:induction false} KeysAreKnown(command: seq<string>)
    ensures RunnerKeys(command) <= {"python", "ruff", "basedpyright"}
  {
    if |command| >= 2 {
      KeysAreKnown(command[1..]);
    }
  }

  // A credit issued for a check is trusted, in the same world, exactly when the check needs nothing external.
  lemma IssuedIsTrusted(spec: Spec, world: World)
    requires spec.id in world.fingerprints && Sha256(world.fingerprints[spec.id]) && Consistent(world)
    ensures var u := Unit(Some(spec.id), spec.tier, spec.command, spec.contract, world.fingerprints[spec.id]);
            Trusted(CreditFor(u, world.source, world.runner), spec, world, Unknown) <==> !spec.external
  {
    KeysAreKnown(spec.command);
  }

  // After a run and its merge, with nothing changed since, the next selection keeps exactly the
  // units that passed and need nothing external, and, unless the run ended in uncertainty,
  // those that were kept before.
  lemma ResumeExactly(registry: seq<Spec>, q: Query, results: seq<UnitResult>, input: Option<Checkpoint>, spec: Spec)
    requires NamedRegistry(registry) && Fingerprinted(registry, q.world) && Consistent(q.world) && spec in registry
    requires WellFormedResults(results, SelectionOf(registry, q).units)
    requires input.Some? ==> ValidCheckpoint(input.value)
    ensures var m := Merged(SelectionOf(registry, q), results, input, q.world.runner);
            Preserved(spec, Query(Full, q.world, m.credits, m.dispositions, Unknown, {})) <==>
            || (Ended(results, Some(spec.id), Pass) && !spec.external)
            || (Preserved(spec, q) && !Uncertain(results))
  {
    hide Sha256, Strip, RecordsValid, Ended, Trusted, WellFormedSelection, WellFormedResults, Kept, CreditsMatch,
         NewDispositions, PassCredits, PreservedOf, SelectedOf, MergedFirst, IsCredit, Preserved, Uncertain;
    var s := SelectionOf(registry, q);
    var m, passes := Merged(s, results, input, q.world.runner), PassCredits(results, s, q.world.runner);
    var carried: seq<Credit> := if Uncertain(results) then [] else PreservedOf(registry, q);
    var next := Query(Full, q.world, m.credits, m.dispositions, Unknown, {});
    assert m.credits == carried + passes;
    DecisionIsWellFormed(registry, q);
    MergedRecordsAreValid(s, results, input, q.world.runner);
    PassCreditsAre(results, s, q.world.runner);
    if Ended(results, Some(spec.id), Pass) {
      PassedIsKept(registry, q, results, m, spec, next, passes);
      EndedIsNotPreserved(s, results, Some(spec.id), Pass);
      NotKeptBefore(registry, q, spec);
    } else if Preserved(spec, q) && !Uncertain(results) {
      CarriedIsKept(registry, q, m, spec, next);
    } else {
      OthersAreNotKept(registry, q, results, m, spec, next, carried, passes);
    }
  }

  lemma NotKeptBefore(registry: seq<Spec>, q: Query, spec: Spec)
    requires DistinctIds(registry) && Fingerprinted(registry, q.world) && spec in registry
    requires !HasCredit(PreservedOf(registry, q), Some(spec.id))
    ensures !Preserved(spec, q)
  {
    hide Preserved, PreservedOf;
    SelectionExactly(registry, q, spec);
  }

  lemma SpecOfId(registry: seq<Spec>, s: Spec, t: Spec)
    requires DistinctIds(registry) && s in registry && t in registry && s.id == t.id
    ensures s == t
  {
  }

  // The unit of a check's id is that check's.
  lemma UnitOfSpec(registry: seq<Spec>, q: Query, spec: Spec, u: Unit)
    requires DistinctIds(registry) && Fingerprinted(registry, q.world) && spec in registry
    requires u in SelectionOf(registry, q).units && u.id == Some(spec.id)
    ensures u == Unit(Some(spec.id), spec.tier, spec.command, spec.contract, q.world.fingerprints[spec.id])
  {
    hide ReasonOf, Chosen;
    UnitIsSpec(registry, q, u);
    var other :| other in registry && Chosen(other, q) && u == UnitFor(Selected(other, q.world.fingerprints[other.id], ReasonOf(other, q)));
    SpecOfId(registry, spec, other);
  }

  lemma PassedIsKept(registry: seq<Spec>, q: Query, results: seq<UnitResult>, m: Checkpoint, spec: Spec, next: Query, passes: seq<Credit>)
    requires DistinctIds(registry) && Fingerprinted(registry, q.world) && Consistent(q.world) && spec in registry
    requires var s := SelectionOf(registry, q);
             WellFormedResults(results, s.units) && CreditsMatch(passes, results, s, q.world.runner)
    requires RecordsValid(m.credits, m.dispositions) && forall c | c in passes :: c in m.credits
    requires Ended(results, Some(spec.id), Pass)
    requires next == Query(Full, q.world, m.credits, m.dispositions, Unknown, {})
    ensures Preserved(spec, next) <==> !spec.external
  {
    hide Sha256, Strip, Trusted, Preserved, RecordsValid, SelectedOf, PreservedOf;
    var s := SelectionOf(registry, q);
    var r :| r in results && r.id == Some(spec.id) && r.outcome.Pass?;
    assert HasCredit(passes, r.id) && WellFormedResult(r, s.units);
    UnitOfSpec(registry, q, spec, UnitOf(s.units, r.id).value);
    var c :| c in passes && c.id == Some(spec.id);
    assert OfUnit(s, q.world.runner, c);
    var u :| u in s.units && c == CreditFor(u, s.source, q.world.runner);
    UnitOfSpec(registry, q, spec, u);
    IssuedIsTrusted(spec, q.world);
    PreservedFromCheckpoint(m, spec, c, next);
  }

  lemma CarriedIsKept(registry: seq<Spec>, q: Query, m: Checkpoint, spec: Spec, next: Query)
    requires DistinctIds(registry) && Fingerprinted(registry, q.world) && spec in registry && Preserved(spec, q)
    requires RecordsValid(m.credits, m.dispositions) && forall c | c in PreservedOf(registry, q) :: c in m.credits
    requires next == Query(Full, q.world, m.credits, m.dispositions, Unknown, {})
    ensures Preserved(spec, next)
  {
    PreservedDistinct(registry, q);
    PreservedFromCheckpoint(m, spec, LastCredit(q.credits, spec.id).value, next);
  }

  lemma OthersAreNotKept(registry: seq<Spec>, q: Query, results: seq<UnitResult>, m: Checkpoint, spec: Spec, next: Query,
                         carried: seq<Credit>, passes: seq<Credit>)
    requires DistinctIds(registry) && Fingerprinted(registry, q.world) && spec in registry
    requires CreditsMatch(passes, results, SelectionOf(registry, q), q.world.runner)
    requires m.credits == carried + passes && !Ended(results, Some(spec.id), Pass)
    requires carried == [] || (carried == PreservedOf(registry, q) && !Preserved(spec, q))
    requires next == Query(Full, q.world, m.credits, m.dispositions, Unknown, {})
    ensures !Preserved(spec, next)
  {
    hide Trusted, PreservedOf, Ended, OfUnit, HasCredit;
    forall c | c in m.credits
      ensures c.id != Some(spec.id)
    {
      if c in carried {
        SelectionExactly(registry, q, spec);
        assert c.id == Some(spec.id) ==> IsPreserved(carried, spec.id);
      }
    }
    NoneCounted(m.credits, spec.id);
  }

  // Select, run, merge: for a registry whose ids carry no surrounding white space, every well-formed
  // run of the selected units yields a valid checkpoint.
  method RunAndMerge(registry: seq<Spec>, q: Query, results: seq<UnitResult>, input: Option<Checkpoint>)
    returns (r: Result<Checkpoint, Refusal>)
    requires NamedRegistry(registry) && Fingerprinted(registry, q.world)
    requires forall s | s in registry :: Strip(s.id) == s.id
    requires WellFormedResults(results, SelectionOf(registry, q).units)
    requires input.Some? ==> ValidCheckpoint(input.value)
    ensures r.Ok? && ValidCheckpoint(r.value)
    ensures r.value.credits == Merged(SelectionOf(registry, q), results, input, q.world.runner).credits
  {
    hide UnitFor, SelectionOf, Strip, WellFormedResults, WellFormedSelection, ValidCheckpoint, Merged, SelectedOf, PreservedOf, IsRejected, IsInvalidated;
    DecisionIsWellFormed(registry, q);
    UnitsAreTrimmed(registry, q);
    var d := SelectChecks(registry, q);
    var units := seq(|d.selected|, i requires 0 <= i < |d.selected| => UnitFor(d.selected[i]));
    var s := Selection(d.source, units, d.preserved);
    SameSelection(registry, q, s);
    r := MergeTrimmedRun(s, results, input, q.world.runner);
  }

  lemma SameSelection(registry: seq<Spec>, q: Query, s: Selection)
    requires Fingerprinted(registry, q.world)
    requires var selected := SelectedOf(registry, q);
             && s.source == q.world.source && s.preserved == PreservedOf(registry, q)
             && |s.units| == |selected| && forall i | 0 <= i < |selected| :: s.units[i] == UnitFor(selected[i])
    ensures s == SelectionOf(registry, q)
  {
    hide SelectedOf, PreservedOf, UnitFor;
    assert s.units == SelectionOf(registry, q).units;
  }

  lemma UnitsAreTrimmed(registry: seq<Spec>, q: Query)
    requires Fingerprinted(registry, q.world) && forall s | s in registry :: Strip(s.id) == s.id
    ensures forall u | u in SelectionOf(registry, q).units :: u.id.Some? && Strip(u.id.value) == u.id.value
  {
    hide Strip, Chosen, ReasonOf, SelectedOf;
    forall u | u in SelectionOf(registry, q).units
      ensures u.id.Some? && Strip(u.id.value) == u.id.value
    {
      UnitIsSpec(registry, q, u);
    }
  }
}
