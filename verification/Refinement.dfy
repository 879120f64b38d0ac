/** The source manager of `AppRuntime` is the reconciler: its clauses, stated there over sets of
    sources, follow from the contract of `Manager.Manager.Reload` over fingerprinted candidates. */
module Refinement {
  import opened Sources
  import opened Fingerprints
  import R = Reconcile
  import M = Manager
  import A = AppRuntime

  function CredentialOf(env: M.Environment, s: Source): string {
    if s.credentialRef == "" then ""
    else if env.credential(s.credentialRef).Some? then env.credential(s.credentialRef).value
    else ""
  }

  function Now(env: M.Environment): Source -> Digest {
    s => Fingerprint(env.sha, s, CredentialOf(env, s))
  }

  lemma PreparedNow(env: M.Environment, s: Source)
    requires M.PrepareOne(env, s).Ok?
    ensures M.PrepareOne(env, s).value == R.Candidate(DefinitionOf(s), Now(env)(s))
  {
  }

  lemma EnabledOnce(d: Document)
    requires DistinctIds(d.sources)
    ensures A.OneEach(A.Enabled(d))
  {
  }

  /** What preparing a document yields is its set of enabled sources, as candidates. */
  lemma SnapshotIsCandidates(env: M.Environment, d: Document, prepared: R.SourceSet)
    requires DistinctIds(d.sources) && M.Snapshot(env, d.sources, prepared)
    ensures A.OneEach(A.Enabled(d)) && prepared == A.Candidates(A.Enabled(d), Now(env))
  {
    hide M.PrepareOne, Fingerprint, CredentialOf;
    EnabledOnce(d);
    var next := A.Enabled(d);
    var c := A.Candidates(next, Now(env));
    forall i | 0 <= i < |d.sources| && d.sources[i].enabled
      ensures d.sources[i].id in c && d.sources[i].id in prepared && c[d.sources[i].id] == prepared[d.sources[i].id]
    {
      PreparedNow(env, d.sources[i]);
      assert d.sources[i] in next;
    }
    forall id | id in prepared ensures id in c && c[id] == prepared[id] {
      assert M.EnabledId(d.sources, id);
    }
    forall id | id in c ensures id in prepared {
      var s :| s in next && s.id == id;
    }
  }

  /** The aliases of enabled sources keep off the staging prefix and are distinct. */
  lemma EnabledClean(env: M.Environment, d: Document, s: R.State, prepared: R.SourceSet)
    requires R.HoldsApart(s) && M.Ordinary(d) && DistinctAliases(d.sources) && M.Snapshot(env, d.sources, prepared)
    ensures R.Clean(s, prepared)
  {
    hide M.PrepareOne;
    forall id | id in prepared
      ensures exists i :: 0 <= i < |d.sources| && d.sources[i].id == id && prepared[id].Alias() == d.sources[i].alias
    {
      assert M.EnabledId(d.sources, id);
      var i :| 0 <= i < |d.sources| && d.sources[i].enabled && d.sources[i].id == id;
      M.PreparedFiled(env, d.sources[i]);
    }
  }

  lemma SameTarget(active: set<Source>, before: Source -> Digest, next: set<Source>, now: Source -> Digest)
    requires A.OneEach(active) && A.OneEach(next) && A.Told(active, before, next, now)
    ensures R.Target(A.Candidates(active, before), A.Candidates(next, now)) == A.Candidates(next, now)
  {
  }

  /** A source whose staged copy is newly stuck is one that is being replaced. */
  lemma StrayIsReplaced(active: set<Source>, before: Source -> Digest, next: set<Source>, now: Source -> Digest,
                        strays: set<Source>, s: R.State, id: string, t: R.State) returns (u: Source)
    requires A.OneEach(active) && A.OneEach(next) && s.active == A.Candidates(active, before)
    requires A.Told(active, before, next, now) && A.Stuck(next, now, strays, s.strays)
    requires R.StrayLeft(s, A.Candidates(next, now), id, t)
    ensures u.id == id && u in next && u !in active && u !in strays && exists r :: r in active && r.id == u.id
    ensures t.strays.Keys == s.strays.Keys + {StageAlias(u.alias, now(u))}
  {
    hide StageAlias;
    u :| u in next && u.id == id;
    var r :| r in active && r.id == id;
    assert before(r) != now(u);
  }

  /** The reconciler's reload with the clauses of `SourceManager.Reload`. `active` stands for the
      sources that are attached, `before` for their fingerprints from when they were, `strays` for
      the sources whose staged copies are stuck. */
  method Reload(m: M.Manager, env: M.Environment, document: Option<Document>, ghost active: set<Source>,
                ghost before: Source -> Digest, ghost strays: set<Source>) returns (ok: bool)
    requires document.Some? ==> M.Ordinary(document.value) && DistinctAliases(document.value.sources)
    requires R.HoldsApart(m.View()) && A.OneEach(active) && m.active == A.Candidates(active, before)
    requires document.Some? ==>
               && A.Told(active, before, A.Enabled(document.value), Now(env))
               && A.Stuck(A.Enabled(document.value), Now(env), strays, m.strays)
    modifies m, m.catalogs
    ensures R.HoldsApart(m.View())
    ensures ok ==> document.Some? && !M.Unpreparable(env, document.value.sources)
    ensures ok ==> A.OneEach(A.Enabled(document.value)) &&
                   m.active == A.Candidates(A.Enabled(document.value), Now(env))
    ensures ok ==> A.AdmissibleIn(active, A.Enabled(document.value), strays)
    ensures !ok ==> m.active == old(m.active)
    ensures ok || m.catalogs.Quiet() ==> m.strays == old(m.strays)
    ensures m.strays != old(m.strays) ==> document.Some?
    ensures m.strays != old(m.strays) ==>
              exists u :: MayStray(active, A.Enabled(document.value), strays, u)
                && m.strays.Keys == old(m.strays).Keys + {StageAlias(u.alias, Now(env)(u))}
    ensures m.catalogs.Quiet() ==>
              (ok <==> && document.Some? && !M.Unpreparable(env, document.value.sources)
                       && A.AdmissibleIn(active, A.Enabled(document.value), strays))
  {
    hide A.AdmissibleIn, A.Told, A.Stuck, R.Clean, R.Admissible, M.Snapshot, M.Unpreparable, StageAlias, MayStray;
    hide R.Target, M.Avoids, A.Enabled, A.OneEach, R.HoldsApart, R.Outcome, R.Holds, M.Ordinary, R.Unstaged, R.Filed;
    hide DistinctAliases, R.Settled, M.OnlyRemoves, M.Removable, M.UnheldAlias, Now;
    ghost var start, prepared, ending := m.View(), map[], R.OtherFailure;
    M.NothingStale(m.active);
    ApartHolds(start);
    OrdinaryIsDistinct(document);
    ok, prepared, ending := m.Reload(env, document, {});
    M.NothingStale(m.active);
    M.NothingStale(prepared);
    R.OutcomeHoldsApart(start, prepared, ending, m.View());
    if document.Some? && !M.Unpreparable(env, document.value.sources) {
      AsSeen(env, document.value, active, before, strays, start, prepared, ending, m.View());
    }
  }

  predicate MayStray(active: set<Source>, next: set<Source>, strays: set<Source>, u: Source) {
    u in next && u !in active && u !in strays && exists r :: r in active && r.id == u.id
  }

  lemma ApartHolds(s: R.State)
    requires R.HoldsApart(s)
    ensures R.Holds(s)
  {
  }

  lemma OrdinaryIsDistinct(document: Option<Document>)
    requires document.Some? ==> M.Ordinary(document.value)
    ensures document.Some? ==> DistinctIds(document.value.sources)
  {
  }

  /** The outcome of a reload of a document that can be prepared, in terms of sets of sources. */
  lemma AsSeen(env: M.Environment, d: Document, active: set<Source>, before: Source -> Digest, strays: set<Source>,
               s: R.State, prepared: R.SourceSet, ending: R.Ending, t: R.State)
    requires M.Ordinary(d) && DistinctAliases(d.sources) && M.Snapshot(env, d.sources, prepared)
    requires R.HoldsApart(s) && A.OneEach(active) && s.active == A.Candidates(active, before)
    requires A.Told(active, before, A.Enabled(d), Now(env)) && A.Stuck(A.Enabled(d), Now(env), strays, s.strays)
    requires R.Outcome(s, prepared, ending, t)
    ensures R.Clean(s, prepared) && A.OneEach(A.Enabled(d))
    ensures A.AdmissibleIn(active, A.Enabled(d), strays) <==> R.Admissible(s, prepared)
    ensures ending.Applied? ==> R.Admissible(s, prepared) && t.active == A.Candidates(A.Enabled(d), Now(env))
    ensures !ending.StagedCleanupFailed? ==> t.strays == s.strays
    ensures ending.StagedCleanupFailed? ==>
              exists u :: MayStray(active, A.Enabled(d), strays, u)
                && t.strays.Keys == s.strays.Keys + {StageAlias(u.alias, Now(env)(u))}
  {
    hide A.AdmissibleIn, A.Told, A.Stuck, R.Clean, R.Admissible, M.Snapshot, StageAlias, R.Target, A.Enabled, A.OneEach;
    hide Now;
    var next := A.Enabled(d);
    SnapshotIsCandidates(env, d, prepared);
    A.SameCondition(active, before, next, Now(env), strays, s);
    SameTarget(active, before, next, Now(env));
    EnabledClean(env, d, s, prepared);
    if ending.StagedCleanupFailed? {
      var u := StrayIsReplaced(active, before, next, Now(env), strays, s, ending.id, t);
      assert MayStray(active, next, strays, u);
    }
  }
}
