/** The reconciler as it runs: `Prepare`, `Bootstrap`, `Apply` and `Reload` over a catalog
    store whose every forward call may fail (internal/reconcile/manager.go:89-301). */
module Manager {
  import opened Sources
  import opened Fingerprints
  import opened Ordering
  import opened Reconcile

  /** `now` extends the log `before` by entries outside `kept`. */
  ghost predicate Avoids(before: seq<string>, now: seq<string>, kept: set<string>) {
    before <= now && forall i :: |before| <= i < |now| ==> now[i] !in kept
  }

  /** What a forward call of `apply` or `Bootstrap` is for, and for which source. */
  datatype Role =
    | Attaching(id: string)
    | Detaching(id: string)
    | StagingAttach(id: string)
    | StagingCleanup(id: string)

  datatype Forward = Forward(role: Role, index: nat, ok: bool)

  /** The log of forward calls grew as the ending says: every new call but the last succeeded, the
      last failed exactly if the reload did, and a staged copy is stuck exactly if the call that
      failed was its cleanup. */
  ghost predicate Concluded(before: seq<Forward>, now: seq<Forward>, ending: Ending) {
    && before <= now
    && (forall i :: |before| <= i < |now| - 1 ==> now[i].ok)
    && (if ending.Applied? then |before| < |now| ==> now[|now| - 1].ok
        else |before| < |now| && !now[|now| - 1].ok)
    && (!ending.Applied? && now[|now| - 1].role.StagingCleanup? <==> ending.StagedCleanupFailed?)
    && (ending.StagedCleanupFailed? ==> now[|now| - 1].role == StagingCleanup(ending.id))
  }

  /** Forward calls concern only sources that are new, changed or gone. */
  ghost predicate Concerns(before: seq<Forward>, now: seq<Forward>, active: SourceSet, prepared: SourceSet) {
    before <= now && forall i :: |before| <= i < |now| ==> !Unchanged(active, prepared, now[i].role.id)
  }

  lemma ConcludedOne(before: seq<Forward>, role: Role, index: nat, ok: bool)
    ensures var ending := if role.StagingCleanup? then StagedCleanupFailed(role.id) else OtherFailure;
            Concluded(before, before + [Forward(role, index, ok)], if ok then Applied else ending)
  {
  }

  lemma ConcludedFurther(a: seq<Forward>, b: seq<Forward>, c: seq<Forward>, ending: Ending)
    requires Concluded(a, b, Applied) && Concluded(b, c, ending)
    ensures Concluded(a, c, ending)
  {
  }

  /** The engine's attached catalogs. `fails` decides the outcome of the n-th forward call;
      `changes` logs the alias of every call that changed something, `forward` every forward call. */
  class Catalogs {
    var attached: Mounts
    var calls: nat
    ghost var changes: seq<string>
    ghost var forward: seq<Forward>
    const fails: nat -> bool

    constructor (fails: nat -> bool)
      ensures attached == map[] && calls == 0 && changes == [] && forward == [] && this.fails == fails
    {
      attached, calls, changes, forward := map[], 0, [], [];
      this.fails := fails;
    }

    ghost predicate Quiet() {
      forall n :: !fails(n)
    }

    method Attach(c: Candidate, ghost role: Role) returns (ok: bool)
      modifies this
      ensures ok <==> c.Alias() !in old(attached) && !fails(old(calls))
      ensures AllOrNothing(old(attached), c.Alias(), c.ToMount(), ok, attached)
      ensures changes == if ok then old(changes) + [c.Alias()] else old(changes)
      ensures calls == old(calls) + 1 && forward == old(forward) + [Forward(role, old(calls), ok)]
    {
      ok := c.Alias() !in attached && !fails(calls);
      calls, forward := calls + 1, forward + [Forward(role, calls, ok)];
      if ok {
        attached, changes := attached[c.Alias() := c.ToMount()], changes + [c.Alias()];
      }
    }

    method Cleanup(c: Candidate, ghost role: Role) returns (ok: bool)
      modifies this
      ensures ok <==> c.Alias() in old(attached) && !fails(old(calls))
      ensures attached == if ok then Unmounted(old(attached), c) else old(attached)
      ensures changes == if ok then old(changes) + [c.Alias()] else old(changes)
      ensures calls == old(calls) + 1 && forward == old(forward) + [Forward(role, old(calls), ok)]
    {
      ok := c.Alias() in attached && !fails(calls);
      calls, forward := calls + 1, forward + [Forward(role, calls, ok)];
      if ok {
        attached, changes := Unmounted(attached, c), changes + [c.Alias()];
      }
    }

    /** An attach whose error is dropped (`_ = adapter.Attach(context.Background(), ...)`). */
    method UndoAttach(c: Candidate)
      modifies this
      ensures attached == Remounted(old(attached), c) && forward == old(forward)
      ensures changes == (if c.Alias() in old(attached) then old(changes) else old(changes) + [c.Alias()])
      ensures calls == old(calls) + 1
    {
      calls := calls + 1;
      if c.Alias() !in attached {
        attached, changes := attached[c.Alias() := c.ToMount()], changes + [c.Alias()];
      }
    }

    method UndoCleanup(c: Candidate)
      modifies this
      ensures attached == Unmounted(old(attached), c) && forward == old(forward)
      ensures changes == (if c.Alias() in old(attached) then old(changes) + [c.Alias()] else old(changes))
      ensures calls == old(calls) + 1
    {
      calls := calls + 1;
      if c.Alias() in attached {
        attached, changes := Unmounted(attached, c), changes + [c.Alias()];
      }
    }
  }

  // ---------------------------------------------------------------- preparing candidates

  datatype PrepareError = ConfigurationUnreadable | AdapterUnavailable | CredentialUnavailable
                        | ConfigurationInvalid | ValidationFailed

  datatype Result<+T> = Ok(value: T) | Err(error: PrepareError)

  /** What preparing a source consults: the adapter factories, the credential store, and
      whether building and validating the adapter succeed. */
  datatype Environment = Environment(
    factories: set<string>,
    credential: string -> Option<string>,
    builds: (Source, string) -> bool,
    validates: (Source, string) -> bool,
    sha: string -> Digest)

  function PrepareOne(env: Environment, s: Source): Result<Candidate> {
    if s.kind !in env.factories then Err(AdapterUnavailable) else
      var credential := if s.credentialRef == "" then Some("") else env.credential(s.credentialRef);
      if credential.None? then Err(CredentialUnavailable)
      else if !env.builds(s, credential.value) then Err(ConfigurationInvalid)
      else if !env.validates(s, credential.value) then Err(ValidationFailed)
      else Ok(Candidate(DefinitionOf(s), Fingerprint(env.sha, s, credential.value)))
  }

  lemma PreparedFiled(env: Environment, s: Source)
    ensures PrepareOne(env, s).Ok? ==>
              PrepareOne(env, s).value.definition.id == s.id && PrepareOne(env, s).value.Alias() == s.alias
  {
  }

  /** The four ways a source is refused, in the order they are looked for, and what a candidate
      carries over: the whole definition, and the hash of the identity with the credential. */
  lemma WhatIsPrepared(env: Environment, s: Source)
    ensures var r, known, named := PrepareOne(env, s), s.kind in env.factories, s.credentialRef != "";
            var found := named ==> env.credential(s.credentialRef).Some?;
            && (r == Err(AdapterUnavailable) <==> !known)
            && (r == Err(CredentialUnavailable) <==> known && !found)
            && (known && found ==>
                  var credential := if named then env.credential(s.credentialRef).value else "";
                  && (r == Err(ConfigurationInvalid) <==> !env.builds(s, credential))
                  && (r == Err(ValidationFailed) <==> env.builds(s, credential) && !env.validates(s, credential))
                  && (r.Ok? <==> env.builds(s, credential) && env.validates(s, credential))
                  && (r.Ok? ==> r.value.fingerprint == env.sha(Preimage(s, env.sha(credential)))))
            && (r.Ok? ==>
                  var d := r.value.definition;
                  && (d.id, d.name, d.alias, d.enabled) == (s.id, s.name, s.alias, s.enabled)
                  && (d.kind, d.databaseType) == (s.kind, s.databaseType))
  {
  }

  /** The snapshot a document stands for: one candidate for each enabled source. */
  ghost predicate Snapshot(env: Environment, sources: seq<Source>, prepared: SourceSet) {
    && (forall i :: 0 <= i < |sources| && sources[i].enabled ==>
          PrepareOne(env, sources[i]).Ok? && sources[i].id in prepared
          && prepared[sources[i].id] == PrepareOne(env, sources[i]).value)
    && (forall id :: id in prepared ==> EnabledId(sources, id))
  }

  ghost predicate Unpreparable(env: Environment, sources: seq<Source>) {
    exists i :: 0 <= i < |sources| && sources[i].enabled && PrepareOne(env, sources[i]).Err?
  }

  ghost predicate EnabledId(sources: seq<Source>, id: string) {
    exists i :: 0 <= i < |sources| && sources[i].enabled && sources[i].id == id
  }

  /** The whole candidate configuration is prepared before anything is touched; the first
      source that cannot be prepared decides the error. */
  method Prepare(env: Environment, document: Option<Document>) returns (r: Result<SourceSet>)
    requires document.Some? ==> DistinctIds(document.value.sources)
    ensures r.Ok? ==> document.Some? && Snapshot(env, document.value.sources, r.value) && Filed(r.value)
    ensures r.Err? && document.Some? ==>
              exists i :: 0 <= i < |document.value.sources| && document.value.sources[i].enabled
                && PrepareOne(env, document.value.sources[i]) == Err(r.error)
                && forall k :: 0 <= k < i && document.value.sources[k].enabled ==>
                     PrepareOne(env, document.value.sources[k]).Ok?
    ensures document.None? ==> r == Err(ConfigurationUnreadable)
  {
    if document.None? {
      return Err(ConfigurationUnreadable);
    }
    var sources := document.value.sources;
    var prepared: SourceSet := map[];
    for i := 0 to |sources|
      invariant Snapshot(env, sources[..i], prepared) && Filed(prepared)
    {
      if sources[i].enabled {
        var candidate := PrepareOne(env, sources[i]);
        if candidate.Err? {
          forall k | 0 <= k < i && sources[k].enabled ensures PrepareOne(env, sources[k]).Ok? {
            assert sources[..i][k] == sources[k];
          }
          return Err(candidate.error);
        }
        SnapshotGrows(env, sources, i, prepared);
        prepared := prepared[sources[i].id := candidate.value];
      } else {
        SnapshotGrows(env, sources, i, prepared);
      }
    }
    assert sources[..|sources|] == sources;
    return Ok(prepared);
  }

  lemma SnapshotGrows(env: Environment, sources: seq<Source>, i: nat, prepared: SourceSet)
    requires i < |sources| && DistinctIds(sources) && Snapshot(env, sources[..i], prepared)
    requires sources[i].enabled ==> PrepareOne(env, sources[i]).Ok?
    ensures sources[i].enabled ==>
              Snapshot(env, sources[..i + 1], prepared[sources[i].id := PrepareOne(env, sources[i]).value])
    ensures !sources[i].enabled ==> Snapshot(env, sources[..i + 1], prepared)
  {
    var candidate := PrepareOne(env, sources[i]);
    var prepared' := if sources[i].enabled then prepared[sources[i].id := candidate.value] else prepared;
    forall k | 0 <= k < i + 1 && sources[k].enabled
      ensures PrepareOne(env, sources[k]).Ok? && sources[k].id in prepared'
      ensures prepared'[sources[k].id] == PrepareOne(env, sources[k]).value
    {
      if k < i {
        assert sources[..i][k] == sources[k] && sources[k].id != sources[i].id;
      }
    }
    forall id | id in prepared' ensures EnabledId(sources[..i + 1], id) {
      if sources[i].enabled && id == sources[i].id {
        assert sources[..i + 1][i].id == id;
      } else {
        assert EnabledId(sources[..i], id);
        var k :| 0 <= k < i && sources[..i][k].enabled && sources[..i][k].id == id;
        assert sources[..i + 1][k] == sources[..i][k];
      }
    }
  }

  // ---------------------------------------------------------------- the manager

  ghost function EndingOf(ok: bool, stray: bool, id: string): Ending {
    if ok then Applied else if stray then StagedCleanupFailed(id) else OtherFailure
  }

  class Manager {
    const catalogs: Catalogs
    var active: SourceSet
    ghost var strays: Mounts

    constructor (catalogs: Catalogs)
      ensures this.catalogs == catalogs && active == map[] && strays == map[]
    {
      this.catalogs := catalogs;
      active, strays := map[], map[];
    }

    ghost function View(): State
      reads this, catalogs
    {
      State(catalogs.attached, active, strays)
    }

    /** The view without the entries of `stale`: sources still listed as active after a restart
        of the engine, although the bootstrap could not attach them anew. */
    ghost function Live(stale: set<string>): State
      reads this, catalogs
    {
      State(catalogs.attached, active - stale, strays)
    }

    /** Replays the undo stack, last step first. */
    method Rollback(undo: seq<Undo>, ghost kept: set<string>)
      requires forall a, i :: a in kept && 0 <= i < |undo| ==> !Drops(undo[i], a)
      requires kept <= catalogs.attached.Keys
      modifies catalogs
      ensures catalogs.attached == Replay(undo, old(catalogs.attached)) && catalogs.forward == old(catalogs.forward)
      ensures Avoids(old(catalogs.changes), catalogs.changes, kept)
    {
      var index := |undo|;
      assert undo[..index] == undo;
      while index > 0
        invariant 0 <= index <= |undo|
        invariant Replay(undo[..index], catalogs.attached) == Replay(undo, old(catalogs.attached))
        invariant catalogs.forward == old(catalogs.forward)
        invariant kept <= catalogs.attached.Keys
        invariant Avoids(old(catalogs.changes), catalogs.changes, kept)
      {
        index := index - 1;
        assert undo[..index + 1][..index] == undo[..index];
        assert forall a :: a in kept ==> !Drops(undo[index], a);
        match undo[index]
        case Drop(added) =>
          catalogs.UndoCleanup(added);
        case SwapBack(added, former) =>
          catalogs.UndoCleanup(added);
          catalogs.UndoAttach(former);
        case Restore(former) =>
          catalogs.UndoAttach(former);
      }
      assert undo[..0] == [];
    }

    /** One replaced source: try the candidate under a staging alias, take the current source
        away, attach the candidate for good. The current source is not touched unless both
        staging calls went through. */
    method Replace(current: Candidate, candidate: Candidate, ghost kept: set<string>)
      returns (ok: bool, ghost stray: bool)
      requires kept <= catalogs.attached.Keys && current.Alias() !in kept
      modifies catalogs
      ensures Avoids(old(catalogs.changes), catalogs.changes, kept)
      ensures ok ==> current.Alias() in old(catalogs.attached)
      ensures ok ==> candidate.Alias() !in Unmounted(old(catalogs.attached), current)
      ensures ok ==> catalogs.attached ==
                       Unmounted(old(catalogs.attached), current)[candidate.Alias() := candidate.ToMount()]
      ensures stray <==>
                && StageOf(candidate) !in old(catalogs.attached)
                && !catalogs.fails(old(catalogs.calls)) && catalogs.fails(old(catalogs.calls) + 1)
      ensures stray ==> !ok && catalogs.attached == old(catalogs.attached)[StageOf(candidate) := StagedMount(candidate)]
      ensures !ok && !stray && (current.Alias() in old(catalogs.attached) ==>
                                  old(catalogs.attached)[current.Alias()] == current.ToMount()) ==>
                catalogs.attached == old(catalogs.attached)
      ensures ok ==> StageOf(candidate) !in old(catalogs.attached)
      ensures ok ==> catalogs.changes == old(catalogs.changes) +
                       [StageOf(candidate), StageOf(candidate), current.Alias(), candidate.Alias()]
      ensures catalogs.fails(old(catalogs.calls)) ==> !ok && catalogs.changes == old(catalogs.changes)
      ensures catalogs.fails(old(catalogs.calls) + 1) ==>
                !ok && (stray <==> catalogs.changes != old(catalogs.changes))
      ensures !ok && catalogs.Quiet() ==>
                || current.Alias() !in old(catalogs.attached)
                || StageOf(candidate) in old(catalogs.attached)
                || candidate.Alias() in Unmounted(old(catalogs.attached), current)
      ensures Concluded(old(catalogs.forward), catalogs.forward, EndingOf(ok, stray, candidate.definition.id))
      ensures forall i :: |old(catalogs.forward)| <= i < |catalogs.forward| ==>
                catalogs.forward[i].role.id == candidate.definition.id
      ensures stray ==> catalogs.forward[|catalogs.forward| - 1].index == old(catalogs.calls) + 1
    {
      hide StageAlias, Concluded;
      stray := false;
      ghost var id, c, log := candidate.definition.id, catalogs.calls, catalogs.forward;
      var staged := Candidate(StagedDefinition(candidate), candidate.fingerprint);
      assert staged.ToMount() == StagedMount(candidate);
      hide StagedMount, StagedDefinition;
      ok := catalogs.Attach(staged, StagingAttach(id));
      ConcludedOne(log, StagingAttach(id), c, ok);
      if !ok {
        return;
      }
      ghost var log1 := catalogs.forward;
      ok := catalogs.Cleanup(staged, StagingCleanup(id));
      ConcludedOne(log1, StagingCleanup(id), c + 1, ok);
      ConcludedFurther(log, log1, catalogs.forward, EndingOf(ok, !ok, id));
      if !ok {
        stray := true;
        return;
      }
      assert catalogs.attached == old(catalogs.attached);
      ok := Swap(current, candidate, kept, log);
    }

    /** The second half of a replacement: the current source makes way for the candidate. */
    method Swap(current: Candidate, candidate: Candidate, ghost kept: set<string>, ghost log: seq<Forward>)
      returns (ok: bool)
      requires kept <= catalogs.attached.Keys && current.Alias() !in kept
      requires Concluded(log, catalogs.forward, Applied)
      modifies catalogs
      ensures Avoids(old(catalogs.changes), catalogs.changes, kept)
      ensures ok ==> current.Alias() in old(catalogs.attached)
      ensures ok ==> candidate.Alias() !in Unmounted(old(catalogs.attached), current)
      ensures ok ==> catalogs.attached ==
                       Unmounted(old(catalogs.attached), current)[candidate.Alias() := candidate.ToMount()]
      ensures !ok && (current.Alias() in old(catalogs.attached) ==>
                        old(catalogs.attached)[current.Alias()] == current.ToMount()) ==>
                catalogs.attached == old(catalogs.attached)
      ensures ok ==> catalogs.changes == old(catalogs.changes) + [current.Alias(), candidate.Alias()]
      ensures !ok && catalogs.Quiet() ==>
                || current.Alias() !in old(catalogs.attached)
                || candidate.Alias() in Unmounted(old(catalogs.attached), current)
      ensures Concluded(log, catalogs.forward, if ok then Applied else OtherFailure)
      ensures old(catalogs.forward) <= catalogs.forward
      ensures forall i :: |old(catalogs.forward)| <= i < |catalogs.forward| ==>
                catalogs.forward[i].role.id == candidate.definition.id
    {
      hide Concluded;
      ghost var id, c, log1 := candidate.definition.id, catalogs.calls, catalogs.forward;
      ok := catalogs.Cleanup(current, Detaching(id));
      ConcludedOne(log1, Detaching(id), c, ok);
      ConcludedFurther(log, log1, catalogs.forward, if ok then Applied else OtherFailure);
      if !ok {
        return;
      }
      ghost var log2 := catalogs.forward;
      ok := catalogs.Attach(candidate, Attaching(id));
      ConcludedOne(log2, Attaching(id), c + 1, ok);
      ConcludedFurther(log, log2, catalogs.forward, if ok then Applied else OtherFailure);
      if !ok {
        catalogs.UndoAttach(current);
        assert old(catalogs.attached)[current.Alias()] == current.ToMount() ==>
            catalogs.attached == old(catalogs.attached);
      }
    }

    /** The deferred function of `apply`: with an error on its way out, undo. `ending` names the
        source whose staged copy could not be cleaned up, if that was the error; `c` is then its
        candidate. The effect is known when the reload is `sound`. */
    method Abort(undo: seq<Undo>, ghost prepared: SourceSet, ghost start: State, ghost sound: bool,
                 ghost done: set<string>, ghost gone: set<string>, ghost before: Mounts, ghost ending: Ending,
                 ghost c: Candidate)
      requires sound ==> Filed(prepared) && Midpoint(start, prepared, done, gone, undo, before)
      requires sound && ending.OtherFailure? ==> catalogs.attached == before
      requires sound && ending.StagedCleanupFailed? ==>
                 StageOf(c) !in before && catalogs.attached == before[StageOf(c) := StagedMount(c)]
      requires !ending.Applied?
      modifies this`strays, catalogs
      ensures catalogs.forward == old(catalogs.forward)
      ensures ending.OtherFailure? ==> strays == old(strays) && (sound ==> catalogs.attached == start.attached)
      ensures ending.StagedCleanupFailed? ==> strays == old(strays)[StageOf(c) := StagedMount(c)]
      ensures sound && ending.StagedCleanupFailed? ==>
                catalogs.attached == start.attached[StageOf(c) := StagedMount(c)]
      ensures sound ==> Avoids(old(catalogs.changes), catalogs.changes, KeptAliases(start.active, prepared))
    {
      if sound {
        StepsSpareKept(start, prepared, done, gone, undo, before);
      }
      if ending.StagedCleanupFailed? {
        if sound {
          DropsOwnOnly(start, prepared, done, gone, undo, before, StageOf(c));
          ReplayAround(undo, before, StageOf(c), StagedMount(c));
        }
        strays := strays[StageOf(c) := StagedMount(c)];
      }
      Rollback(undo, if sound then KeptAliases(start.active, prepared) else {});
    }

    /** One iteration of the first loop of `apply`. */
    method ApplyOne(id: string, prepared: SourceSet, undo: seq<Undo>, ghost start: State, ghost stale: set<string>,
                    ghost sound: bool, ghost done: set<string>)
      returns (ok: bool, undo': seq<Undo>, ghost ending: Ending)
      requires Filed(prepared) && id in prepared && stale <= active.Keys
      requires active - stale == start.active && strays == start.strays
      requires sound ==>
                 && Holds(start) && StaleOk(active, prepared, stale, start)
                 && Midpoint(start, prepared - stale, done, {}, undo, catalogs.attached)
                 && id !in done && forall j :: j in done <==> j in prepared - stale && Lt(j, id)
      modifies this`strays, catalogs
      ensures ok <==> ending.Applied?
      ensures ok ==> strays == start.strays
      ensures ok && sound ==>
                && Midpoint(start, prepared - stale, done + ({id} - stale), {}, undo', catalogs.attached)
                && (id !in stale ==> Movable(start.active, prepared - stale, id))
                && (id !in stale ==> Stageable(start, prepared - stale, id))
                && (id in stale ==> Unchanged(active, prepared, id))
      ensures !ok && sound ==> Outcome(State(start.attached, active, start.strays), prepared, ending, View())
      ensures Concluded(old(catalogs.forward), catalogs.forward, ending)
      ensures ending.StagedCleanupFailed? ==> catalogs.fails(catalogs.forward[|catalogs.forward| - 1].index)
      ensures Concerns(old(catalogs.forward), catalogs.forward, active, prepared)
      ensures sound ==> Avoids(old(catalogs.changes), catalogs.changes, KeptAliases(start.active, prepared - stale))
      ensures Unchanged(active, prepared, id) ==>
                ok && catalogs.calls == old(catalogs.calls) && catalogs.attached == old(catalogs.attached)
      ensures (sound && StaleAside(active, prepared, stale) && Clean(start, prepared - stale)
              && Admissible(start, prepared - stale) && catalogs.Quiet()) ==> ok
    {
      hide Midpoint, Holds, Outcome, Clean, KeptAliases, Movable, Stageable, UnheldAlias;
      ghost var p, before := prepared - stale, catalogs.attached;
      var candidate := prepared[id];
      ok, undo', ending := true, undo, Applied;
      if id in active && active[id].fingerprint == candidate.fingerprint {
        if sound {
          KeepOrSkip(start, active, prepared, stale, done, undo, before, id);
        }
        return;
      }
      if sound {
        StepsSpareKept(start, p, done, {}, undo, before);
        if id in stale {
          UnheldIsFree(start, p, done, {}, undo, before, active[id].Alias());
        } else {
          assert {id} - stale == {id} && p[id] == candidate && !Unchanged(start.active, p, id);
          AttachableIffMovable(start, p, done, undo, before, id);
        }
      }
      if id !in active {
        ok := catalogs.Attach(candidate, Attaching(id));
        if ok {
          if sound {
            AddStep(start, p, done, undo, before, id);
          }
          undo' := undo + [Drop(candidate)];
        } else {
          ending := OtherFailure;
        }
      } else {
        ghost var stray;
        if sound && id !in stale {
          KeptIsNotReplaced(start, p, done, before, undo, id);
        }
        ok, stray := Replace(active[id], candidate, if sound then KeptAliases(start.active, p) else {});
        ending := EndingOf(ok, stray, id);
        if ok {
          if sound {
            SwapStep(start, p, done, undo, before, id);
          }
          undo' := undo + [SwapBack(candidate, active[id])];
        }
      }
      if !ok {
        if sound {
          StraysWithin(start, p, done, {}, undo, before);
        }
        Abort(undo, p, start, sound, done, {}, before, ending, candidate);
        if sound {
          FailedOutcome(State(start.attached, active, start.strays), prepared, ending, View());
        }
      }
    }

    /** The second loop of `apply`: active sources that are no longer configured, in any order. */
    method RemoveAbsent(prepared: SourceSet, undo: seq<Undo>, ghost start: State, ghost stale: set<string>,
                        ghost sound: bool) returns (ok: bool)
      requires Filed(prepared) && stale <= active.Keys
      requires active - stale == start.active && strays == start.strays
      requires sound ==>
                 && Holds(start) && StaleOk(active, prepared, stale, start)
                 && Midpoint(start, prepared - stale, (prepared - stale).Keys, {}, undo, catalogs.attached)
      modifies this`strays, catalogs
      ensures strays == start.strays
      ensures ok && sound ==>
                && stale <= prepared.Keys
                && Holds(State(catalogs.attached, Target(start.active, prepared - stale), strays))
      ensures !ok && sound ==> catalogs.attached == start.attached
      ensures ok ==> catalogs.attached == old(catalogs.attached) - AliasesOf(active, active.Keys - prepared.Keys)
      ensures Concluded(old(catalogs.forward), catalogs.forward, if ok then Applied else OtherFailure)
      ensures Concerns(old(catalogs.forward), catalogs.forward, active, prepared)
      ensures sound ==> Avoids(old(catalogs.changes), catalogs.changes, KeptAliases(start.active, prepared - stale))
      ensures active.Keys <= prepared.Keys ==> ok && catalogs.calls == old(catalogs.calls)
      ensures sound && stale <= prepared.Keys && catalogs.Quiet() ==> ok
      ensures catalogs.Quiet() && Removable(active, prepared, old(catalogs.attached)) ==> ok
    {
      hide Midpoint, Holds, KeptAliases, UnheldAlias, Removable, Concluded, Concerns, Avoids, AliasesOf, StaleOk;
      ghost var p := prepared - stale;
      NothingLogged(catalogs.forward, catalogs.changes, active, prepared, KeptAliases(start.active, p));
      NoAliases(active, catalogs.attached);
      var todo, undo' := active.Keys - prepared.Keys, undo;
      ghost var gone: set<string> := {};
      while todo != {}
        invariant todo + gone == active.Keys - prepared.Keys && todo !! gone
        invariant strays == start.strays
        invariant sound ==> gone !! stale && Midpoint(start, p, p.Keys, gone, undo', catalogs.attached)
        invariant catalogs.attached == old(catalogs.attached) - AliasesOf(active, gone)
        invariant Concluded(old(catalogs.forward), catalogs.forward, Applied)
        invariant Concerns(old(catalogs.forward), catalogs.forward, active, prepared)
        invariant sound ==> Avoids(old(catalogs.changes), catalogs.changes, KeptAliases(start.active, p))
        invariant active.Keys <= prepared.Keys ==> catalogs.calls == old(catalogs.calls)
      {
        var id :| id in todo;
        ghost var log, changes := catalogs.forward, catalogs.changes;
        NotYetRemoved(active, prepared, old(catalogs.attached), gone, id);
        ok, undo' := RemoveOne(id, prepared, undo', start, stale, sound, gone);
        ConcludedFurther(old(catalogs.forward), log, catalogs.forward, if ok then Applied else OtherFailure);
        LogsFurther(old(catalogs.forward), log, catalogs.forward, active, prepared,
                    old(catalogs.changes), changes, catalogs.changes, KeptAliases(start.active, p));
        if !ok {
          return;
        }
        OneAliasLess(active, gone, id, old(catalogs.attached));
        todo, gone := todo - {id}, gone + {id};
      }
      assert gone == active.Keys - prepared.Keys;
      if sound {
        assert gone == start.active.Keys - p.Keys;
        MidpointHolds(start, p, p.Keys, gone, undo', catalogs.attached);
        MidwayAtEnd(start.active, p);
      }
      ok := true;
    }

    /** One removal, or everything undone. */
    method RemoveOne(id: string, prepared: SourceSet, undo: seq<Undo>, ghost start: State, ghost stale: set<string>,
                     ghost sound: bool, ghost gone: set<string>) returns (ok: bool, undo': seq<Undo>)
      requires id in active && id !in prepared && stale <= active.Keys
      requires active - stale == start.active && strays == start.strays
      requires sound ==>
                 && Filed(prepared) && Holds(start) && StaleOk(active, prepared, stale, start) && id !in gone
                 && Midpoint(start, prepared - stale, (prepared - stale).Keys, gone, undo, catalogs.attached)
      modifies this`strays, catalogs
      ensures strays == start.strays
      ensures ok ==> catalogs.attached == old(catalogs.attached) - {active[id].Alias()}
      ensures ok && sound ==>
                && id !in stale
                && Midpoint(start, prepared - stale, (prepared - stale).Keys, gone + {id}, undo', catalogs.attached)
      ensures !ok && sound ==> catalogs.attached == start.attached
      ensures Concluded(old(catalogs.forward), catalogs.forward, if ok then Applied else OtherFailure)
      ensures Concerns(old(catalogs.forward), catalogs.forward, active, prepared)
      ensures sound ==> Avoids(old(catalogs.changes), catalogs.changes, KeptAliases(start.active, prepared - stale))
      ensures catalogs.Quiet() && active[id].Alias() in old(catalogs.attached) ==> ok
      ensures sound && id !in stale && catalogs.Quiet() ==> ok
    {
      hide Midpoint, Holds, KeptAliases, UnheldAlias;
      ghost var p, before := prepared - stale, catalogs.attached;
      if sound {
        StepsSpareKept(start, p, p.Keys, gone, undo, before);
        if id in stale {
          UnheldIsFree(start, p, p.Keys, gone, undo, before, active[id].Alias());
        } else {
          GoneIsNotKept(start, p, gone, undo, before, id);
        }
      }
      undo' := undo;
      ok := catalogs.Cleanup(active[id], Detaching(id));
      if !ok {
        Abort(undo, p, start, sound, p.Keys, gone, before, OtherFailure, active[id]);
        return;
      }
      if sound {
        RemoveStep(start, p, gone, undo, before, id);
      }
      undo' := undo + [Restore(active[id])];
    }

    /** Moves the attachments to the prepared set, or back to where they were. `stale` are entries
        of `active` that are not attached; without any, `Live(stale)` is the whole view. Stale
        entries the snapshot leaves unchanged are kept as they are and never attached. If one is
        changed or gone and nobody else uses the alias of any, the reload fails. */
    method Apply(prepared: SourceSet, ghost stale: set<string>) returns (ok: bool, ghost ending: Ending)
      requires Filed(prepared) && stale <= active.Keys && Holds(Live(stale))
      modifies this, catalogs
      ensures ok <==> ending.Applied?
      ensures active == if ok then Target(old(active), prepared) else old(active)
      ensures old(StaleOk(active, prepared, stale, Live(stale))) ==>
                if ok then
                  && StaleAside(old(active), prepared, stale)
                  && Outcome(old(Live(stale)), prepared - stale, Applied, Live(stale))
                else Outcome(old(View()), prepared, ending, View())
      ensures Concluded(old(catalogs.forward), catalogs.forward, ending)
      ensures ending.StagedCleanupFailed? ==> catalogs.fails(catalogs.forward[|catalogs.forward| - 1].index)
      ensures Concerns(old(catalogs.forward), catalogs.forward, old(active), prepared)
      ensures old(StaleOk(active, prepared, stale, Live(stale))) ==>
                Avoids(old(catalogs.changes), catalogs.changes, KeptAliases(old(active) - stale, prepared - stale))
      ensures Settled(old(active), prepared) ==>
                ok && active == old(active) && catalogs.calls == old(catalogs.calls)
      ensures (StaleAside(old(active), prepared, stale) && Clean(old(Live(stale)), prepared - stale)
               && catalogs.Quiet()) ==> (ok <==> Admissible(old(Live(stale)), prepared - stale))
      ensures !ok && catalogs.Quiet() && old(StaleOk(active, prepared, stale, Live(stale))) ==> View() == old(View())
      ensures ok && OnlyRemoves(old(active), prepared) ==>
                catalogs.attached == old(catalogs.attached) - AliasesOf(old(active), old(active).Keys - prepared.Keys)
      ensures (catalogs.Quiet() && OnlyRemoves(old(active), prepared)
               && Removable(old(active), prepared, old(catalogs.attached))) ==> ok
    {
      ghost var start, p := Live(stale), prepared - stale;
      ghost var sound := StaleOk(active, prepared, stale, start);
      assert StaleAside(active, prepared, stale) ==> sound && stale <= prepared.Keys;
      hide Midpoint, Holds, KeptAliases, Clean, Movable, Stageable, Elements, Outcome, Target, Settled, StrictlySorted,
        Restricted, Filed, UnheldAlias, Removable, Concluded, Avoids, Concerns, StaleOk, StaleAside, OnlyRemoves;
      NothingLogged(catalogs.forward, catalogs.changes, active, prepared, KeptAliases(start.active, p));
      var next, undo;
      ok, undo, next, ending := AttachAll(prepared, start, stale, sound);
      if !ok {
        return;
      }
      ghost var log, changes := catalogs.forward, catalogs.changes;
      ok := RemoveAbsent(prepared, undo, start, stale, sound);
      ending := if ok then Applied else OtherFailure;
      ConcludedFurther(old(catalogs.forward), log, catalogs.forward, ending);
      LogsFurther(old(catalogs.forward), log, catalogs.forward, active, prepared,
                  old(catalogs.changes), changes, catalogs.changes, KeptAliases(start.active, p));
      if !ok {
        if sound {
          OutcomeOf(old(View()), prepared, ending, View());
        }
        return;
      }
      TargetWhole(active, prepared);
      if sound {
        AllAside(active, prepared, stale);
        TargetComplete(active, prepared, stale);
      }
      active := next;
      if sound {
        assert p.Keys == prepared.Keys - stale;
        OutcomeOf(start, p, Applied, Live(stale));
      }
    }

    /** The first loop of `apply`: the prepared sources in the order of their ids. */
    method AttachAll(prepared: SourceSet, ghost start: State, ghost stale: set<string>, ghost sound: bool)
      returns (ok: bool, undo: seq<Undo>, next: SourceSet, ghost ending: Ending)
      requires Filed(prepared) && stale <= active.Keys && start == Live(stale) && Holds(start)
      requires sound ==> StaleOk(active, prepared, stale, start)
      modifies this`strays, catalogs
      ensures ok <==> ending.Applied?
      ensures ok ==> strays == start.strays && next == Target(active, prepared)
      ensures ok && sound ==>
                && Midpoint(start, prepared - stale, (prepared - stale).Keys, {}, undo, catalogs.attached)
                && StaleAside(active, prepared, prepared.Keys * stale)
                && forall id :: id in prepared - stale ==>
                     Movable(start.active, prepared - stale, id) && Stageable(start, prepared - stale, id)
      ensures !ok && sound ==> Outcome(old(View()), prepared, ending, View())
      ensures !ok && sound && catalogs.Quiet() ==> View() == old(View())
      ensures Concluded(old(catalogs.forward), catalogs.forward, ending)
      ensures ending.StagedCleanupFailed? ==> catalogs.fails(catalogs.forward[|catalogs.forward| - 1].index)
      ensures Concerns(old(catalogs.forward), catalogs.forward, active, prepared)
      ensures sound ==> Avoids(old(catalogs.changes), catalogs.changes, KeptAliases(start.active, prepared - stale))
      ensures Settled(active, prepared) ==> ok && catalogs.calls == old(catalogs.calls)
      ensures OnlyRemoves(active, prepared) ==> ok && catalogs.attached == old(catalogs.attached)
      ensures (sound && StaleAside(active, prepared, stale) && Clean(start, prepared - stale)
               && Admissible(start, prepared - stale) && catalogs.Quiet()) ==> ok
    {
      hide Midpoint, Holds, KeptAliases, Clean, Movable, Stageable, Elements, Outcome, Target, Settled, StrictlySorted,
        Restricted, Filed, UnheldAlias, Concluded, Avoids, Concerns, StaleOk, StaleAside, OnlyRemoves, Admissible;
      ghost var p := prepared - stale;
      NothingLogged(catalogs.forward, catalogs.changes, active, prepared, KeptAliases(start.active, p));
      var ids := SortSet(prepared.Keys);
      next, undo, ok, ending := map[], [], true, Applied;
      MidpointAtStart(start, p);
      RestrictedToNone(Target(active, prepared));
      assert Elements(ids[..0]) - stale == {};
      for i := 0 to |ids|
        invariant active - stale == start.active && strays == start.strays
        invariant ids[..0] == [] && ids[..|ids|] == ids && Elements(ids[..i]) <= prepared.Keys
        invariant sound ==> Midpoint(start, p, Elements(ids[..i]) - stale, {}, undo, catalogs.attached)
        invariant next == Restricted(Target(active, prepared), Elements(ids[..i]))
        invariant Concluded(old(catalogs.forward), catalogs.forward, Applied)
        invariant Concerns(old(catalogs.forward), catalogs.forward, active, prepared)
        invariant sound ==> Avoids(old(catalogs.changes), catalogs.changes, KeptAliases(start.active, p))
        invariant Settled(active, prepared) ==> catalogs.calls == old(catalogs.calls)
        invariant OnlyRemoves(active, prepared) ==> catalogs.attached == old(catalogs.attached)
        invariant sound ==> forall id :: id in Elements(ids[..i]) - stale ==>
                    Movable(start.active, p, id) && Stageable(start, p, id)
        invariant sound ==> StaleAside(active, prepared, Elements(ids[..i]) * stale)
      {
        var id := ids[i];
        ghost var log, changes := catalogs.forward, catalogs.changes;
        DoneBefore(ids, i, prepared);
        SettledUnchanged(active, prepared, id);
        KeptWhenOnlyRemoved(active, prepared, id);
        ok, undo, ending := ApplyOne(id, prepared, undo, start, stale, sound, Elements(ids[..i]) - stale);
        ConcludedFurther(old(catalogs.forward), log, catalogs.forward, ending);
        LogsFurther(old(catalogs.forward), log, catalogs.forward, active, prepared,
                    old(catalogs.changes), changes, catalogs.changes, KeptAliases(start.active, p));
        if !ok {
          if sound {
            OutcomeOf(old(View()), prepared, ending, View());
          }
          return;
        }
        assert Elements(ids[..i + 1]) - stale == Elements(ids[..i]) - stale + ({id} - stale);
        if sound {
          AsideGrows(active, prepared, Elements(ids[..i]), id, stale);
        }
        TargetGrows(active, prepared, Elements(ids[..i]), id);
        next := next[id := if Unchanged(active, prepared, id) then active[id] else prepared[id]];
      }
      ok, ending := true, Applied;
      assert p.Keys == prepared.Keys - stale;
      TargetWhole(active, prepared);
    }

    /** A reload prepares everything first; nothing is called before every enabled source of the
        document is ready. */
    method Reload(env: Environment, document: Option<Document>, ghost stale: set<string>)
      returns (ok: bool, ghost prepared: SourceSet, ghost ending: Ending)
      requires document.Some? ==> DistinctIds(document.value.sources)
      requires Holds(Live(stale)) && stale <= active.Keys
      modifies this, catalogs
      ensures ok <==> ending.Applied?
      ensures Filed(prepared) && ((document.Some? ==> Ordinary(document.value)) ==> Unstaged(prepared))
      ensures document.Some? && !Unpreparable(env, document.value.sources) ==>
                Snapshot(env, document.value.sources, prepared)
      ensures active == if ok then Target(old(active), prepared) else old(active)
      ensures ok ==> document.Some? && Snapshot(env, document.value.sources, prepared) && Settled(active, prepared)
      ensures document.None? || Unpreparable(env, document.value.sources) ==>
                !ok && prepared == map[] && View() == old(View()) && catalogs.calls == old(catalogs.calls)
      ensures old(StaleOk(active, prepared, stale, Live(stale))) ==>
                if ok then
                  && StaleAside(old(active), prepared, stale)
                  && Outcome(old(Live(stale)), prepared - stale, Applied, Live(stale))
                else Outcome(old(View()), prepared, ending, View())
      ensures old(StaleOk(active, prepared, stale, Live(stale))) ==>
                Avoids(old(catalogs.changes), catalogs.changes, KeptAliases(old(active) - stale, prepared - stale))
      ensures !ok && catalogs.Quiet() && old(StaleOk(active, prepared, stale, Live(stale))) ==> View() == old(View())
      ensures (document.Some? && !Unpreparable(env, document.value.sources) && catalogs.Quiet()
               && StaleAside(old(active), prepared, stale) && Clean(old(Live(stale)), prepared - stale)) ==>
                (ok <==> Admissible(old(Live(stale)), prepared - stale))
      ensures ok && OnlyRemoves(old(active), prepared) ==>
                catalogs.attached == old(catalogs.attached) - AliasesOf(old(active), old(active).Keys - prepared.Keys)
      ensures (document.Some? && !Unpreparable(env, document.value.sources) && catalogs.Quiet()
               && OnlyRemoves(old(active), prepared) && Removable(old(active), prepared, old(catalogs.attached))) ==> ok
    {
      hide Holds, Outcome, Clean, Admissible, Removable, Snapshot;
      prepared, ending := map[], OtherFailure;
      var r := Prepare(env, document);
      if r.Err? {
        OutcomeOf(old(View()), prepared, ending, View());
        return false, prepared, ending;
      }
      prepared := r.value;
      SnapshotUnstaged(env, document.value, prepared);
      ok, ending := Apply(r.value, stale);
    }

    /** The source can be prepared and its own attach, in a bootstrap from call `c` on, works. */
    ghost predicate Boots(env: Environment, sources: seq<Source>, i: nat, c: nat)
      requires i < |sources|
    {
      PrepareOne(env, sources[i]).Ok? && !catalogs.fails(c + Attempts(env, sources, i))
    }

    lemma BootsIff(env: Environment, sources: seq<Source>, i: nat, c: nat)
      requires i < |sources|
      ensures Boots(env, sources, i, c) <==>
                PrepareOne(env, sources[i]).Ok? && !catalogs.fails(c + Attempts(env, sources, i))
    {
    }

    /** The tolerant first pass over a freshly started engine: each enabled source is attached on
        its own, and the failures are listed. `booted` is what got attached. Sources still listed
        as active from before an engine restart are not attached again by this pass unless the
        document attaches them, so the invariant then holds exactly if it does. */
    method Bootstrap(env: Environment, document: Document)
      returns (failures: seq<string>, ghost booted: SourceSet)
      requires DistinctIds(document.sources) && catalogs.attached == map[] && Filed(active)
      modifies this, catalogs
      ensures active == old(active) + booted
      ensures strays == map[] && Holds(State(catalogs.attached, booted, map[]))
      ensures forall id :: id in booted || id in failures ==> EnabledId(document.sources, id)
      ensures forall i :: 0 <= i < |document.sources| && document.sources[i].enabled ==>
                (document.sources[i].id in failures <==> document.sources[i].id !in booted)
      ensures forall i :: 0 <= i < |document.sources| && document.sources[i].id in booted ==>
                PrepareOne(env, document.sources[i]) == Ok(booted[document.sources[i].id])
      ensures Holds(View()) <==> old(active).Keys <= booted.Keys
      ensures DistinctAliases(document.sources) ==>
                forall i :: 0 <= i < |document.sources| && document.sources[i].enabled ==>
                  (document.sources[i].id in booted <==> Boots(env, document.sources, i, old(catalogs.calls)))
    {
      hide Booted, Holds, PrepareOne, Boots, EnabledId, Filed;
      failures, booted, strays := [], map[], map[];
      NothingBooted(env, document.sources, catalogs.attached);
      var sources := document.sources;
      for i := 0 to |sources|
        invariant strays == map[] && active == old(active) + booted
        invariant Holds(State(catalogs.attached, booted, map[]))
        invariant Booted(env, sources, i, failures, booted)
        invariant catalogs.calls == old(catalogs.calls) + Attempts(env, sources, i)
        invariant DistinctAliases(sources) ==>
                    forall k :: 0 <= k < i && sources[k].enabled ==>
                      (sources[k].id in booted <==> Boots(env, sources, k, old(catalogs.calls)))
      {
        BootsIff(env, sources, i, old(catalogs.calls));
        if sources[i].enabled {
          var candidate := PrepareOne(env, sources[i]);
          var ok := candidate.Ok?;
          PreparedFiled(env, sources[i]);
          ghost var before := catalogs.attached;
          BootedFresh(env, sources, i, failures, booted);
          ghost var listed, mounted := failures, booted;
          if ok {
            if DistinctAliases(sources) {
              BootAliasFree(env, sources, i, failures, booted, before);
            }
            ok := catalogs.Attach(candidate.value, Attaching(sources[i].id));
          }
          if ok {
            MountHolds(State(before, booted, map[]), sources[i].id, candidate.value);
            booted := booted[sources[i].id := candidate.value];
            active := active[sources[i].id := candidate.value];
          } else {
            failures := failures + [sources[i].id];
          }
          BootedGrows(env, sources, i, listed, mounted, ok);
        } else {
          BootedSkips(env, sources, i, failures, booted);
        }
      }
      BootedAll(env, sources, failures, booted);
      StaleActive(catalogs.attached, old(active), booted);
    }
  }

  /** Documents that validation lets through and that leave the staging prefix alone. */
  ghost predicate Ordinary(document: Document) {
    DistinctIds(document.sources) &&
    forall i :: 0 <= i < |document.sources| ==> !StagePrefixed(document.sources[i].alias)
  }

  /** How many of the first `n` sources come to an attach: the enabled ones that can be prepared. */
  function Attempts(env: Environment, sources: seq<Source>, n: nat): nat
    requires n <= |sources|
  {
    if n == 0 then 0
    else Attempts(env, sources, n - 1) + if sources[n - 1].enabled && PrepareOne(env, sources[n - 1]).Ok? then 1 else 0
  }

  datatype Attempt = Attempt(env: Environment, document: Option<Document>)

  /** One bootstrap and then any number of reloads, each with its own document and surroundings
      and with every call failing as `fails` says: throughout, the catalogs are exactly the
      active sources plus strays under staging aliases. */
  method AnyRun(fails: nat -> bool, env: Environment, first: Document, later: seq<Attempt>) returns (m: Manager)
    requires Ordinary(first)
    requires forall i :: 0 <= i < |later| && later[i].document.Some? ==> Ordinary(later[i].document.value)
    ensures HoldsApart(m.View())
  {
    hide Holds, Outcome, Snapshot, Unstaged, PrepareOne;
    var catalogs := new Catalogs(fails);
    m := new Manager(catalogs);
    var _, booted := m.Bootstrap(env, first);
    BootedUnstaged(env, first, booted);
    assert m.active == booted;
    for i := 0 to |later|
      invariant fresh(m) && fresh(m.catalogs) && HoldsApart(m.View())
    {
      ghost var before := m.View();
      NothingStale(m.active);
      var ok, prepared, ending := m.Reload(later[i].env, later[i].document, {});
      NothingStale(m.active);
      NothingStale(prepared);
      OutcomeHoldsApart(before, prepared, ending, m.View());
    }
  }

  lemma NothingStale(sources: SourceSet)
    ensures sources - {} == sources
  {
  }

  /** No source of the document takes over the alias of another one listed. */
  ghost predicate LeavesAliases(document: Document, listed: SourceSet) {
    forall i, id :: 0 <= i < |document.sources| && id in listed && document.sources[i].id != id ==>
      document.sources[i].alias != listed[id].Alias()
  }

  /** A restart of the engine while `Manager.active` stays filled, and any number of reloads after
      it. Sources the bootstrap could not attach are listed as active throughout, and no reload
      attaches them, however often one succeeds; a reload whose snapshot changes or drops one of
      them fails. Aliases are not handed on between sources here; see `AliasUsurped`. */
  method Restarted(m: Manager, env: Environment, first: Document, later: seq<Attempt>)
    returns (failures: seq<string>, oks: seq<bool>, ghost stale: set<string>)
    requires Ordinary(first) && m.catalogs.attached == map[] && Filed(m.active) && Unstaged(m.active)
    requires LeavesAliases(first, m.active)
    requires forall i :: 0 <= i < |later| && later[i].document.Some? ==>
               Ordinary(later[i].document.value) && LeavesAliases(later[i].document.value, m.active)
    modifies m, m.catalogs
    ensures HoldsApart(m.Live(stale)) && stale <= old(m.active).Keys
    ensures forall id :: id in old(m.active) && id in failures ==> id in stale
    ensures forall id :: id in stale ==> id in m.active && m.active[id] == old(m.active)[id]
    ensures forall a :: a in m.catalogs.attached && a !in m.strays ==> m.catalogs.attached[a].id !in stale
    ensures |oks| == |later| && forall i :: 0 <= i < |later| && oks[i] ==>
              later[i].document.Some? && Untouching(later[i].env, later[i].document.value, old(m.active), stale)
  {
    hide Holds, Outcome, Snapshot, Unstaged, PrepareOne, HoldsApart, Untouching, Elsewhere, LeavesAliases;
    ghost var booted;
    failures, booted := m.Bootstrap(env, first);
    stale, oks := old(m.active).Keys - booted.Keys, [];
    assert m.active - stale == booted;
    BootedApart(env, first, booted, old(m.active), stale, m.Live(stale));
    for i := 0 to |later|
      invariant HoldsApart(m.Live(stale)) && |oks| == i && Elsewhere(m.Live(stale), old(m.active), stale)
      invariant forall id :: id in stale ==> id in m.active && m.active[id] == old(m.active)[id]
      invariant forall k :: 0 <= k < i && oks[k] ==>
                  later[k].document.Some? && Untouching(later[k].env, later[k].document.value, old(m.active), stale)
    {
      var ok := ReloadAside(m, later[i], old(m.active), stale);
      oks := oks + [ok];
    }
    NotAttached(m.Live(stale), stale);
  }

  /** One reload of such a run. */
  method ReloadAside(m: Manager, attempt: Attempt, ghost listed: SourceSet, ghost stale: set<string>)
    returns (ok: bool)
    requires HoldsApart(m.Live(stale)) && Elsewhere(m.Live(stale), listed, stale)
    requires stale <= listed.Keys && Unstaged(listed)
    requires forall id :: id in stale ==> id in m.active && m.active[id] == listed[id]
    requires attempt.document.Some? ==>
               Ordinary(attempt.document.value) && LeavesAliases(attempt.document.value, listed)
    modifies m, m.catalogs
    ensures HoldsApart(m.Live(stale)) && Elsewhere(m.Live(stale), listed, stale)
    ensures forall id :: id in stale ==> id in m.active && m.active[id] == listed[id]
    ensures ok ==> attempt.document.Some? && Untouching(attempt.env, attempt.document.value, listed, stale)
  {
    hide Holds, Outcome, Snapshot, Untouching, Elsewhere, LeavesAliases, UnheldAlias, StaleAside;
    hide Avoids, OnlyRemoves, Removable, Admissible, Clean, Unpreparable, Settled, Target;
    ghost var before, view, prepared, ending := m.Live(stale), m.View(), map[], OtherFailure;
    ok, prepared, ending := m.Reload(attempt.env, attempt.document, stale);
    StaleIsOk(attempt, listed, view.active, stale, prepared, before);
    if ok {
      OutcomeHoldsApart(before, prepared - stale, Applied, m.Live(stale));
      AppliedAside(attempt, listed, view.active, stale, prepared, before, m.View());
    } else {
      FailedAside(listed, view, stale, prepared, ending, m.View());
    }
  }

  /** Every snapshot of the document leaves the stale sources as they are listed. */
  ghost predicate Untouching(env: Environment, document: Document, active: SourceSet, stale: set<string>) {
    forall prepared: SourceSet :: Snapshot(env, document.sources, prepared) ==> StaleAside(active, prepared, stale)
  }

  /** Nobody in the view uses the alias of a stale source. */
  ghost predicate Elsewhere(s: State, listed: SourceSet, stale: set<string>) {
    forall id, j :: id in stale && id in listed && j in s.active ==> s.active[j].Alias() != listed[id].Alias()
  }

  lemma StaleIsOk(attempt: Attempt, listed: SourceSet, active: SourceSet, stale: set<string>, prepared: SourceSet,
                  s: State)
    requires HoldsApart(s) && Elsewhere(s, listed, stale) && stale <= listed.Keys && Unstaged(listed)
    requires forall id :: id in stale ==> id in active && active[id] == listed[id]
    requires prepared == map[] || (attempt.document.Some? && LeavesAliases(attempt.document.value, listed)
                                   && Snapshot(attempt.env, attempt.document.value.sources, prepared))
    ensures StaleOk(active, prepared, stale, s)
  {
    forall id, j | id in stale && j in prepared - stale ensures prepared[j].Alias() != listed[id].Alias() {
      var sources := attempt.document.value.sources;
      assert EnabledId(sources, j);
      var i :| 0 <= i < |sources| && sources[i].enabled && sources[i].id == j;
      PreparedFiled(attempt.env, sources[i]);
    }
  }

  lemma AppliedAside(attempt: Attempt, listed: SourceSet, active: SourceSet, stale: set<string>, prepared: SourceSet,
                     before: State, now: State)
    requires attempt.document.Some? && Snapshot(attempt.env, attempt.document.value.sources, prepared)
    requires LeavesAliases(attempt.document.value, listed) && Elsewhere(before, listed, stale)
    requires stale <= listed.Keys && forall id :: id in stale ==> id in active && active[id] == listed[id]
    requires StaleAside(active, prepared, stale) && before.active == active - stale
    requires now.active == Target(active, prepared)
    ensures Elsewhere(now.(active := now.active - stale), listed, stale)
    ensures forall id :: id in stale ==> id in now.active && now.active[id] == listed[id]
    ensures Untouching(attempt.env, attempt.document.value, listed, stale)
  {
    hide PrepareOne;
    var sources := attempt.document.value.sources;
    forall id, j | id in stale && j in now.active - stale ensures now.active[j].Alias() != listed[id].Alias() {
      assert now.active[j] == if Unchanged(active, prepared, j) then before.active[j] else prepared[j];
      assert EnabledId(sources, j);
      var i :| 0 <= i < |sources| && sources[i].enabled && sources[i].id == j;
      PreparedFiled(attempt.env, sources[i]);
    }
    forall other: SourceSet | Snapshot(attempt.env, sources, other) ensures StaleAside(listed, other, stale) {
      OneSnapshot(attempt.env, sources, prepared, other);
    }
  }

  lemma OneSnapshot(env: Environment, sources: seq<Source>, a: SourceSet, b: SourceSet)
    requires Snapshot(env, sources, a) && Snapshot(env, sources, b)
    ensures a == b
  {
  }

  lemma FailedAside(listed: SourceSet, view: State, stale: set<string>, prepared: SourceSet, ending: Ending, now: State)
    requires HoldsApart(view.(active := view.active - stale))
    requires Elsewhere(view.(active := view.active - stale), listed, stale)
    requires !ending.Applied? && Outcome(view, prepared, ending, now)
    ensures HoldsApart(now.(active := now.active - stale))
    ensures Elsewhere(now.(active := now.active - stale), listed, stale) && now.active == view.active
  {
  }

  lemma BootedApart(env: Environment, document: Document, booted: SourceSet, listed: SourceSet, stale: set<string>,
                    s: State)
    requires Ordinary(document) && LeavesAliases(document, listed) && stale == listed.Keys - booted.Keys
    requires forall id :: id in booted ==> EnabledId(document.sources, id)
    requires forall i :: 0 <= i < |document.sources| && document.sources[i].id in booted ==>
               PrepareOne(env, document.sources[i]) == Ok(booted[document.sources[i].id])
    requires s.active == booted && s.strays == map[] && Holds(s)
    ensures HoldsApart(s) && Elsewhere(s, listed, stale)
  {
    BootedUnstaged(env, document, booted);
    forall id, j | id in stale && j in booted ensures booted[j].Alias() != listed[id].Alias() {
      assert EnabledId(document.sources, j);
      var i :| 0 <= i < |document.sources| && document.sources[i].enabled && document.sources[i].id == j;
      PreparedFiled(env, document.sources[i]);
    }
  }

  /** The aliases matter: a source that was active before the restart is gone from the document, and
      another one has taken its alias and is booted under it. The next reload of that same document
      succeeds, detaches the new source as if it were the old one, and leaves it listed as active. */
  method AliasUsurped(m: Manager, env: Environment, document: Document, ghost gone: string, ghost heir: nat)
    returns (failures: seq<string>, ok: bool)
    requires Ordinary(document) && DistinctAliases(document.sources) && !Unpreparable(env, document.sources)
    requires m.catalogs.attached == map[] && m.catalogs.Quiet() && Filed(m.active)
    requires m.active.Keys == {gone} && heir < |document.sources| && document.sources[heir].enabled
    requires document.sources[heir].alias == m.active[gone].Alias()
    requires forall i :: 0 <= i < |document.sources| ==> document.sources[i].id != gone
    modifies m, m.catalogs
    ensures (forall id :: id !in failures) && ok
    ensures document.sources[heir].id in m.active && m.active[document.sources[heir].id].Alias() !in m.catalogs.attached
    ensures !Holds(m.View())
  {
    hide Holds, Outcome, Snapshot, PrepareOne, StaleAside, StaleOk, OnlyRemoves, Removable, Target, Manager.Boots;
    hide Avoids, Clean, Admissible, UnheldAlias, Settled, StrictlySorted, Unstaged;
    ghost var booted, prepared, ending;
    ghost var was := m.active;
    failures, booted := m.Bootstrap(env, document);
    AllBooted(m, env, document, failures, booted, old(m.catalogs.calls));
    PreparedFiled(env, document.sources[heir]);
    OneGone(was, booted, gone, document.sources[heir].id, m.catalogs.attached);
    ghost var attached := m.catalogs.attached;
    ok, prepared, ending := m.Reload(env, Some(document), {gone});
    BootedIsSnapshot(env, document.sources, booted, prepared);
    OneLost(was, booted, gone, document.sources[heir].id, attached, m.View());
  }

  /** When everything can be prepared and nothing fails, every enabled source is booted. */
  lemma AllBooted(m: Manager, env: Environment, document: Document, failures: seq<string>, booted: SourceSet, c: nat)
    requires m.catalogs.Quiet() && !Unpreparable(env, document.sources)
    requires forall id :: id in failures ==> EnabledId(document.sources, id)
    requires forall i :: 0 <= i < |document.sources| && document.sources[i].enabled ==>
               (document.sources[i].id in failures <==> document.sources[i].id !in booted)
    requires forall i :: 0 <= i < |document.sources| && document.sources[i].enabled ==>
               (document.sources[i].id in booted <==> m.Boots(env, document.sources, i, c))
    ensures forall id :: id !in failures
    ensures forall i :: 0 <= i < |document.sources| && document.sources[i].enabled ==> document.sources[i].id in booted
  {
  }

  lemma BootedIsSnapshot(env: Environment, sources: seq<Source>, booted: SourceSet, prepared: SourceSet)
    requires Snapshot(env, sources, prepared)
    requires forall id :: id in booted ==> EnabledId(sources, id)
    requires forall i :: 0 <= i < |sources| && sources[i].enabled ==> sources[i].id in booted
    requires forall i :: 0 <= i < |sources| && sources[i].id in booted ==>
               PrepareOne(env, sources[i]) == Ok(booted[sources[i].id])
    ensures prepared == booted
  {
    hide PrepareOne;
    OneSnapshot(env, sources, booted, prepared);
  }

  lemma OneGone(was: SourceSet, booted: SourceSet, gone: string, heir: string, m: Mounts)
    requires was.Keys == {gone} && gone !in booted && heir in booted && booted[heir].Alias() == was[gone].Alias()
    requires Holds(State(m, booted, map[]))
    ensures (was + booted) - {gone} == booted && (was + booted).Keys == {gone} + booted.Keys
    ensures OnlyRemoves(was + booted, booted) && Removable(was + booted, booted, m)
  {
  }

  lemma OneLost(was: SourceSet, booted: SourceSet, gone: string, heir: string, m: Mounts, after: State)
    requires was.Keys == {gone} && gone !in booted && heir in booted && booted[heir].Alias() == was[gone].Alias()
    requires after.active == Target(was + booted, booted)
    requires after.attached == m - AliasesOf(was + booted, (was + booted).Keys - booted.Keys)
    ensures heir in after.active && after.active[heir].Alias() !in after.attached && !Holds(after)
  {
  }

  /** A source without NUL whose stored credential changes under the same reference is seen as
      changed, and only then. */
  lemma CredentialChangeIsSeen(before: Environment, now: Environment, s: Source, credential: string, other: string,
                               active: SourceSet, prepared: SourceSet)
    requires s.id in active && PrepareOne(before, s) == Ok(active[s.id])
    requires s.id in prepared && PrepareOne(now, s) == Ok(prepared[s.id])
    requires s.credentialRef != "" && before.sha == now.sha
    requires before.credential(s.credentialRef) == Some(credential) && now.credential(s.credentialRef) == Some(other)
    requires NulFreeSource(s) && NoCollision(now.sha, s, credential, s, other)
    ensures Unchanged(active, prepared, s.id) <==> credential == other
  {
    FingerprintDetermines(now.sha, s, credential, s, other);
  }

  /** After a successful reload the catalog of such a source stands for the new credential: it has
      been attached anew. */
  method CredentialRotated(m: Manager, before: Environment, now: Environment, document: Document, ghost i: nat,
                           ghost credential: string, ghost other: string) returns (ok: bool)
    requires Ordinary(document) && i < |document.sources| && document.sources[i].enabled
    requires HoldsApart(m.View()) && document.sources[i].id in m.active
    requires PrepareOne(before, document.sources[i]) == Ok(m.active[document.sources[i].id])
    requires document.sources[i].credentialRef != "" && before.sha == now.sha && credential != other
    requires before.credential(document.sources[i].credentialRef) == Some(credential)
    requires now.credential(document.sources[i].credentialRef) == Some(other)
    requires NulFreeSource(document.sources[i])
    requires NoCollision(now.sha, document.sources[i], credential, document.sources[i], other)
    modifies m, m.catalogs
    ensures ok ==> var s := document.sources[i];
                   && s.alias in m.catalogs.attached && s.alias in old(m.catalogs.attached)
                   && m.catalogs.attached[s.alias] == Mount(s.id, now.sha(Preimage(s, now.sha(other))))
                   && m.catalogs.attached[s.alias] != old(m.catalogs.attached)[s.alias]
  {
    hide Avoids, OnlyRemoves, Removable, Admissible, Clean, Unpreparable, Settled, UnheldAlias, Preimage, Unstaged;
    hide NoCollision, NulFreeSource, StrictlySorted, StageAlias, Outcome, Holds, Snapshot, PrepareOne, Target;
    ghost var s, start, prepared, ending := document.sources[i], m.View(), map[], OtherFailure;
    NothingStale(m.active);
    ok, prepared, ending := m.Reload(now, Some(document), {});
    NothingStale(m.active);
    NothingStale(prepared);
    if ok {
      PreparedAt(now, document.sources, i, prepared);
      PreparedAs(before, s);
      PreparedAs(now, s);
      CredentialChangeIsSeen(before, now, s, credential, other, start.active, prepared);
      Reattached(start, prepared, m.View(), s.id);
    }
  }

  lemma PreparedAs(env: Environment, s: Source)
    requires PrepareOne(env, s).Ok? && s.credentialRef != ""
    ensures env.credential(s.credentialRef).Some?
    ensures var c := PrepareOne(env, s).value;
            && c.Alias() == s.alias && c.definition.id == s.id
            && c.fingerprint == env.sha(Preimage(s, env.sha(env.credential(s.credentialRef).value)))
  {
  }

  lemma PreparedAt(env: Environment, sources: seq<Source>, i: nat, prepared: SourceSet)
    requires Snapshot(env, sources, prepared) && i < |sources| && sources[i].enabled
    ensures sources[i].id in prepared && PrepareOne(env, sources[i]) == Ok(prepared[sources[i].id])
  {
  }

  /** A changed source runs as prepared after an applied reload. */
  lemma Reattached(s: State, prepared: SourceSet, t: State, id: string)
    requires HoldsApart(s) && Outcome(s, prepared, Applied, t)
    requires id in s.active && id in prepared && !Unchanged(s.active, prepared, id)
    ensures s.active[id].Alias() in s.attached && s.attached[s.active[id].Alias()] == s.active[id].ToMount()
    ensures prepared[id].Alias() in t.attached && t.attached[prepared[id].Alias()] == prepared[id].ToMount()
  {
    assert t.active[id] == prepared[id];
  }

  lemma NotAttached(s: State, stale: set<string>)
    requires HoldsApart(s) && s.active.Keys !! stale
    ensures forall a :: a in s.attached && a !in s.strays ==> s.attached[a].id !in stale
  {
  }

  lemma BootedUnstaged(env: Environment, document: Document, booted: SourceSet)
    requires Ordinary(document)
    requires forall id :: id in booted ==> EnabledId(document.sources, id)
    requires forall i :: 0 <= i < |document.sources| && document.sources[i].id in booted ==>
               PrepareOne(env, document.sources[i]) == Ok(booted[document.sources[i].id])
    ensures Unstaged(booted)
  {
  }

  lemma SnapshotUnstaged(env: Environment, document: Document, prepared: SourceSet)
    requires Snapshot(env, document.sources, prepared)
    ensures Ordinary(document) ==> Unstaged(prepared)
  {
  }

  /** The first `n` sources are dealt with: each enabled one is booted or listed as failed. */
  ghost predicate Booted(env: Environment, sources: seq<Source>, n: nat, failures: seq<string>, booted: SourceSet)
    requires n <= |sources|
  {
    && (forall id :: id in booted || id in failures ==> EnabledId(sources[..n], id))
    && (forall i :: 0 <= i < n && sources[i].enabled ==> (sources[i].id in failures <==> sources[i].id !in booted))
    && (forall i :: 0 <= i < n && sources[i].id in booted ==> PrepareOne(env, sources[i]) == Ok(booted[sources[i].id]))
  }

  lemma NothingBooted(env: Environment, sources: seq<Source>, m: Mounts)
    requires m == map[]
    ensures Booted(env, sources, 0, [], map[]) && Holds(State(m, map[], map[]))
  {
  }

  lemma BootedAll(env: Environment, sources: seq<Source>, failures: seq<string>, booted: SourceSet)
    requires Booted(env, sources, |sources|, failures, booted)
    ensures forall id :: id in booted || id in failures ==> EnabledId(sources, id)
    ensures forall i :: 0 <= i < |sources| && sources[i].enabled ==>
              (sources[i].id in failures <==> sources[i].id !in booted)
    ensures forall i :: 0 <= i < |sources| && sources[i].id in booted ==>
              PrepareOne(env, sources[i]) == Ok(booted[sources[i].id])
  {
  }

  lemma BootedGrows(env: Environment, sources: seq<Source>, n: nat, failures: seq<string>,
                    booted: SourceSet, attached: bool)
    requires n < |sources| && DistinctIds(sources) && Booted(env, sources, n, failures, booted)
    requires attached ==> PrepareOne(env, sources[n]).Ok?
    requires sources[n].enabled
    ensures attached ==>
              Booted(env, sources, n + 1, failures, booted[sources[n].id := PrepareOne(env, sources[n]).value])
    ensures !attached ==> Booted(env, sources, n + 1, failures + [sources[n].id], booted)
  {
  }

  lemma BootedSkips(env: Environment, sources: seq<Source>, n: nat, failures: seq<string>, booted: SourceSet)
    requires n < |sources| && DistinctIds(sources) && Booted(env, sources, n, failures, booted)
    requires !sources[n].enabled
    ensures Booted(env, sources, n + 1, failures, booted)
  {
  }

  lemma BootedFresh(env: Environment, sources: seq<Source>, n: nat, failures: seq<string>, booted: SourceSet)
    requires n < |sources| && DistinctIds(sources) && Booted(env, sources, n, failures, booted)
    ensures sources[n].id !in booted && sources[n].id !in failures
  {
  }

  lemma BootAliasFree(env: Environment, sources: seq<Source>, n: nat, failures: seq<string>,
                      booted: SourceSet, m: Mounts)
    requires n < |sources| && DistinctAliases(sources) && Booted(env, sources, n, failures, booted)
    requires Holds(State(m, booted, map[])) && PrepareOne(env, sources[n]).Ok?
    ensures PrepareOne(env, sources[n]).value.Alias() !in m
  {
  }

  /** Active entries that outlive their engine break the invariant unless they are attached anew. */
  lemma StaleActive(m: Mounts, stale: SourceSet, booted: SourceSet)
    requires Holds(State(m, booted, map[])) && Filed(stale)
    ensures Holds(State(m, stale + booted, map[])) <==> stale.Keys <= booted.Keys
  {
    if stale.Keys <= booted.Keys {
      assert stale + booted == booted;
    } else {
      var id :| id in stale && id !in booted;
      assert (stale + booted)[id] == stale[id];
    }
  }

  // ---------------------------------------------------------------- facts `Apply` uses

  lemma DoneBefore(ids: seq<string>, i: nat, prepared: SourceSet)
    requires StrictlySorted(ids) && Elements(ids) == prepared.Keys && i < |ids|
    ensures forall j :: j in Elements(ids[..i]) <==> j in prepared && Lt(j, ids[i])
    ensures ids[i] in prepared && ids[i] !in Elements(ids[..i])
    ensures Elements(ids[..i + 1]) == Elements(ids[..i]) + {ids[i]}
  {
    assert ids[i] in Elements(ids) && ids[..i + 1] == ids[..i] + [ids[i]];
    forall j: string ensures j in Elements(ids[..i]) <==> j in prepared && Lt(j, ids[i]) {
      BeforeIndex(ids, i, j);
      assert j in ids <==> j in Elements(ids);
    }
    LtIrreflexive(ids[i]);
  }

  lemma StepsSpareKept(s: State, prepared: SourceSet, done: set<string>, gone: set<string>,
                       undo: seq<Undo>, m: Mounts)
    requires Midpoint(s, prepared, done, gone, undo, m) && Filed(prepared)
    ensures forall a, i :: a in KeptAliases(s.active, prepared) && 0 <= i < |undo| ==> !Drops(undo[i], a)
    ensures KeptAliases(s.active, prepared) <= m.Keys
  {
    forall a | a in KeptAliases(s.active, prepared)
      ensures a in m && forall i :: 0 <= i < |undo| ==> !Drops(undo[i], a)
    {
      DropsOwnOnly(s, prepared, done, gone, undo, m, a);
    }
  }

  lemma KeptIsNotReplaced(s: State, prepared: SourceSet, done: set<string>, m: Mounts, undo: seq<Undo>, id: string)
    requires Midpoint(s, prepared, done, {}, undo, m) && Holds(s)
    requires id in prepared && id in s.active && id !in done && !Unchanged(s.active, prepared, id)
    ensures s.active[id].Alias() in m && m[s.active[id].Alias()] == s.active[id].ToMount()
    ensures s.active[id].Alias() !in KeptAliases(s.active, prepared)
  {
    MidwayDone(s.active, prepared, done, id);
  }

  ghost function Restricted(m: SourceSet, ids: set<string>): SourceSet {
    map id | id in ids && id in m :: m[id]
  }

  lemma RestrictedToNone(m: SourceSet)
    ensures Restricted(m, {}) == map[]
  {
  }

  lemma TargetGrows(active: SourceSet, prepared: SourceSet, done: set<string>, id: string)
    requires id in prepared
    ensures Restricted(Target(active, prepared), done + {id}) == Restricted(Target(active, prepared), done)
              [id := if Unchanged(active, prepared, id) then active[id] else prepared[id]]
  {
  }

  lemma SettledUnchanged(active: SourceSet, prepared: SourceSet, id: string)
    requires id in prepared
    ensures Settled(active, prepared) ==> Unchanged(active, prepared, id)
  {
  }

  /** Stale entries are listed as active and left unchanged by the snapshot. */
  ghost predicate StaleAside(active: SourceSet, prepared: SourceSet, stale: set<string>) {
    forall id :: id in stale ==> Unchanged(active, prepared, id)
  }

  /** Nothing that a reload keeps or makes uses the alias. */
  ghost predicate UnheldAlias(s: State, prepared: SourceSet, alias: string) {
    && alias !in s.strays
    && (forall j :: j in s.active ==> s.active[j].Alias() != alias)
    && (forall j :: j in prepared ==> prepared[j].Alias() != alias)
  }

  /** The stale entries are no danger to a reload: it leaves them unchanged, or nobody else uses
      their aliases. */
  ghost predicate StaleOk(active: SourceSet, prepared: SourceSet, stale: set<string>, s: State) {
    || StaleAside(active, prepared, stale)
    || forall id :: id in stale && id in active ==> UnheldAlias(s, prepared - stale, active[id].Alias())
  }

  lemma UnheldIsFree(s: State, prepared: SourceSet, done: set<string>, gone: set<string>,
                     undo: seq<Undo>, m: Mounts, alias: string)
    requires Midpoint(s, prepared, done, gone, undo, m) && UnheldAlias(s, prepared, alias)
    ensures alias !in m
  {
  }

  lemma StraysWithin(s: State, prepared: SourceSet, done: set<string>, gone: set<string>, undo: seq<Undo>, m: Mounts)
    requires Midpoint(s, prepared, done, gone, undo, m)
    ensures s.strays.Keys <= m.Keys
  {
  }

  lemma FailedOutcome(s: State, prepared: SourceSet, ending: Ending, t: State)
    requires ending.OtherFailure? ==> t == s
    requires ending.StagedCleanupFailed? ==>
               && Replaced(s.active, prepared, ending.id) && t.active == s.active
               && var c := prepared[ending.id];
                  && StageOf(c) !in s.strays && t.strays == s.strays[StageOf(c) := StagedMount(c)]
                  && t.attached == s.attached[StageOf(c) := StagedMount(c)]
    requires !ending.Applied?
    ensures Outcome(s, prepared, ending, t)
  {
  }

  ghost function AliasesOf(active: SourceSet, ids: set<string>): set<string> {
    set id | id in ids && id in active :: active[id].Alias()
  }

  /** Every configured source runs as it is. */
  ghost predicate OnlyRemoves(active: SourceSet, prepared: SourceSet) {
    forall id :: id in prepared ==> Unchanged(active, prepared, id)
  }

  /** The aliases of the sources to remove are attached, for whomever, and distinct. */
  ghost predicate Removable(active: SourceSet, prepared: SourceSet, m: Mounts) {
    && (forall id :: id in active && id !in prepared ==> active[id].Alias() in m)
    && (forall i, j :: i in active && j in active && i !in prepared && j !in prepared && i != j ==>
          active[i].Alias() != active[j].Alias())
  }

  lemma KeptWhenOnlyRemoved(active: SourceSet, prepared: SourceSet, id: string)
    requires id in prepared
    ensures OnlyRemoves(active, prepared) ==> Unchanged(active, prepared, id)
  {
  }

  lemma AsideGrows(active: SourceSet, prepared: SourceSet, done: set<string>, id: string, stale: set<string>)
    requires StaleAside(active, prepared, done * stale) && (id in stale ==> Unchanged(active, prepared, id))
    ensures StaleAside(active, prepared, (done + {id}) * stale)
  {
  }

  lemma NothingLogged(forward: seq<Forward>, changes: seq<string>, active: SourceSet, prepared: SourceSet,
                      kept: set<string>)
    ensures Concluded(forward, forward, Applied) && Concerns(forward, forward, active, prepared)
    ensures Avoids(changes, changes, kept) && forall stale :: StaleAside(active, prepared, {} * stale)
  {
  }

  lemma LogsFurther(a: seq<Forward>, b: seq<Forward>, c: seq<Forward>, active: SourceSet, prepared: SourceSet,
                    x: seq<string>, y: seq<string>, z: seq<string>, kept: set<string>)
    requires Concerns(a, b, active, prepared) && Concerns(b, c, active, prepared)
    ensures Concerns(a, c, active, prepared)
    ensures Avoids(x, y, kept) && Avoids(y, z, kept) ==> Avoids(x, z, kept)
  {
  }

  lemma NoAliases(active: SourceSet, m: Mounts)
    ensures m - AliasesOf(active, {}) == m
  {
  }

  lemma OneAliasLess(active: SourceSet, ids: set<string>, id: string, m: Mounts)
    requires id in active
    ensures m - AliasesOf(active, ids + {id}) == m - AliasesOf(active, ids) - {active[id].Alias()}
  {
  }

  lemma AllAside(active: SourceSet, prepared: SourceSet, stale: set<string>)
    requires StaleAside(active, prepared, prepared.Keys * stale) && stale <= prepared.Keys
    ensures StaleAside(active, prepared, stale)
  {
  }

  lemma NotYetRemoved(active: SourceSet, prepared: SourceSet, m: Mounts, gone: set<string>, id: string)
    requires gone <= active.Keys - prepared.Keys && id in active && id !in prepared && id !in gone
    ensures Removable(active, prepared, m) ==> active[id].Alias() in m - AliasesOf(active, gone)
  {
  }

  /** An unchanged source needs no step, whether it is attached or stale. */
  lemma KeepOrSkip(s: State, active: SourceSet, prepared: SourceSet, stale: set<string>,
                   done: set<string>, undo: seq<Undo>, m: Mounts, id: string)
    requires active - stale == s.active && Midpoint(s, prepared - stale, done, {}, undo, m)
    requires id !in done && Unchanged(active, prepared, id)
    ensures Midpoint(s, prepared - stale, done + ({id} - stale), {}, undo, m)
    ensures id !in stale ==> Movable(s.active, prepared - stale, id) && Stageable(s, prepared - stale, id)
  {
    if id in stale {
      assert done + ({id} - stale) == done;
    } else {
      assert {id} - stale == {id};
      KeepStep(s, prepared - stale, done, undo, m, id);
    }
  }

  lemma OutcomeOf(s: State, prepared: SourceSet, ending: Ending, t: State)
    ensures ending.OtherFailure? ==> (Outcome(s, prepared, ending, t) <==> t == s)
    ensures ending.Applied? ==>
              (Outcome(s, prepared, ending, t) <==>
              Holds(t) && t.active == Target(s.active, prepared) && t.strays == s.strays
              && forall id :: id in prepared ==> Movable(s.active, prepared, id) && Stageable(s, prepared, id))
    ensures ending.Applied? && Outcome(s, prepared, ending, t) ==> Admissible(s, prepared)
  {
  }

  lemma TargetWhole(active: SourceSet, prepared: SourceSet)
    ensures Restricted(Target(active, prepared), prepared.Keys) == Target(active, prepared)
    ensures Settled(active, prepared) ==> Target(active, prepared) == active && active.Keys <= prepared.Keys
  {
  }

  lemma TargetComplete(active: SourceSet, prepared: SourceSet, stale: set<string>)
    requires StaleAside(active, prepared, stale)
    ensures Target(active, prepared) - stale == Target(active - stale, prepared - stale)
  {
  }

  lemma GoneIsNotKept(s: State, prepared: SourceSet, gone: set<string>, undo: seq<Undo>, m: Mounts, id: string)
    requires Midpoint(s, prepared, prepared.Keys, gone, undo, m) && Holds(s)
    requires id in s.active && id !in prepared && id !in gone
    ensures s.active[id].Alias() in m && s.active[id].Alias() !in KeptAliases(s.active, prepared)
  {
    MidwayGone(s.active, prepared, gone, id);
  }

  lemma MidpointHolds(s: State, prepared: SourceSet, done: set<string>, gone: set<string>, undo: seq<Undo>, m: Mounts)
    requires Midpoint(s, prepared, done, gone, undo, m)
    ensures Holds(State(m, Midway(s.active, prepared, done, gone), s.strays))
  {
  }

  lemma MidpointAtStart(s: State, prepared: SourceSet)
    requires Holds(s)
    ensures Elements([]) == {} && Midpoint(s, prepared, {}, {}, [], s.attached)
  {
  }

  lemma MidwayAtEnd(active: SourceSet, prepared: SourceSet)
    ensures Midway(active, prepared, prepared.Keys, active.Keys - prepared.Keys) == Target(active, prepared)
  {
  }

  /** Under the invariant, an alias apart from the strays is free for `id` exactly if no other
      source has it; a free alias is nobody's in any case. */
  lemma FreeIffNobody(m: Mounts, now: SourceSet, strays: Mounts, id: string, alias: string)
    requires Holds(State(m, now, strays))
    ensures id !in now && alias !in m ==> forall j :: j in now && j != id ==> now[j].Alias() != alias
    ensures id in now && alias !in Unmounted(m, now[id]) ==> forall j :: j in now && j != id ==> now[j].Alias() != alias
    ensures alias !in strays && (forall j :: j in now && j != id ==> now[j].Alias() != alias) ==>
              if id in now then alias !in Unmounted(m, now[id]) else alias !in m
  {
  }

  /** When the next attach finds its aliases free, the source is movable and stageable; in a clean
      reload a movable and stageable source finds them free. */
  lemma AttachableIffMovable(s: State, prepared: SourceSet, done: set<string>, undo: seq<Undo>, m: Mounts, id: string)
    requires Midpoint(s, prepared, done, {}, undo, m)
    requires id in prepared && id !in done && !Unchanged(s.active, prepared, id)
    requires forall j :: j in done <==> j in prepared && Lt(j, id)
    ensures id !in s.active && prepared[id].Alias() !in m ==>
              Movable(s.active, prepared, id) && Stageable(s, prepared, id)
    ensures id in s.active && prepared[id].Alias() !in Unmounted(m, s.active[id]) && StageOf(prepared[id]) !in m ==>
              Movable(s.active, prepared, id) && Stageable(s, prepared, id)
    ensures Clean(s, prepared) && Movable(s.active, prepared, id) && Stageable(s, prepared, id) ==>
              if id in s.active then prepared[id].Alias() !in Unmounted(m, s.active[id]) && StageOf(prepared[id]) !in m
              else prepared[id].Alias() !in m
  {
    var now := Midway(s.active, prepared, done, {});
    MidwayDone(s.active, prepared, done, id);
    FreeIffMovable(s, prepared, done, id, now);
    FreeIffNobody(m, now, s.strays, id, prepared[id].Alias());
    StagesFree(s, prepared, done, now, m);
    StageAliasPrefixed(prepared[id].Alias(), prepared[id].fingerprint);
  }

  lemma StagesFree(s: State, prepared: SourceSet, done: set<string>, now: SourceSet, m: Mounts)
    requires done <= prepared.Keys && now == Midway(s.active, prepared, done, {})
    requires Holds(State(m, now, s.strays))
    ensures s.strays.Keys <= m.Keys
    ensures Clean(s, prepared) ==> forall a :: a in m && StagePrefixed(a) ==> a in s.strays
  {
  }
}
