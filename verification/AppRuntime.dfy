/** The application runtime: start, reload, and the replacement of a locked engine with probe
    and restore (internal/app/runtime.go). The configuration store is read once per operation;
    `live` is what it yields. The reconciler appears by its contract: a reload makes exactly
    the enabled sources of its document active or changes nothing but, perhaps, leaves a stray. */
module AppRuntime {
  import opened Sources
  import opened Ordering
  import opened EngineHost
  import opened Fingerprints
  import Reconcile
  import SqlText

  // ---------------------------------------------------------------- file allowlists

  function PathsOf(s: Source): seq<string> {
    if !s.enabled || (s.kind != "sqlite" && s.kind != "duckdb") || s.path == "" then []
    else if s.kind == "duckdb" then [s.path, s.path + ".wal"]
    else [s.path]
  }

  function FilePaths(sources: seq<Source>): seq<string> {
    if sources == [] then [] else FilePaths(sources[..|sources| - 1]) + PathsOf(sources[|sources| - 1])
  }

  method CollectFilePaths(document: Document) returns (paths: seq<string>)
    ensures paths == FilePaths(document.sources)
  {
    paths := [];
    for i := 0 to |document.sources|
      invariant paths == FilePaths(document.sources[..i])
    {
      assert document.sources[..i + 1][..i] == document.sources[..i];
      paths := paths + PathsOf(document.sources[i]);
    }
    assert document.sources[..|document.sources|] == document.sources;
  }

  /** The files a source needs: what an enabled file source opens, and the write-ahead log beside a
      DuckDB file. */
  predicate Needs(s: Source, path: string) {
    && s.enabled && s.kind in {"sqlite", "duckdb"} && s.path != ""
    && (path == s.path || (s.kind == "duckdb" && path == s.path + ".wal"))
  }

  ghost predicate NeedsFile(sources: seq<Source>, path: string) {
    exists i :: 0 <= i < |sources| && Needs(sources[i], path)
  }

  /** The collected paths are exactly the files a document needs. */
  lemma {:induction false} FilePathsAre(sources: seq<Source>, path: string)
    ensures path in FilePaths(sources) <==> NeedsFile(sources, path)
  {
    if sources != [] {
      var n := |sources| - 1;
      FilePathsAre(sources[..n], path);
      assert path in PathsOf(sources[n]) <==> Needs(sources[n], path);
      hide PathsOf, Needs;
      if NeedsFile(sources[..n], path) {
        var i :| 0 <= i < n && Needs(sources[..n][i], path);
        assert sources[..n][i] == sources[i];
      }
      if NeedsFile(sources, path) {
        var i :| 0 <= i < |sources| && Needs(sources[i], path);
        assert i < n ==> sources[..n][i] == sources[i];
      }
    }
  }

  /** An allowlist holds exactly the given paths and the files of the document. */
  ghost predicate Allows(allowed: seq<string>, base: seq<string>, d: Document) {
    && StrictlySorted(allowed)
    && forall p :: p in allowed <==> p != "" && (p in base || NeedsFile(d.sources, p))
  }

  lemma MergedAllows(base: seq<string>, d: Document)
    ensures Allows(Merged(base, FilePaths(d.sources)), base, d)
  {
    forall p ensures p in Merged(base, FilePaths(d.sources)) <==> p != "" && (p in base || NeedsFile(d.sources, p)) {
      MergedMember(base, FilePaths(d.sources), p);
      FilePathsAre(d.sources, p);
    }
  }

  ghost function Merged(a: seq<string>, b: seq<string>): seq<string> {
    Sorted(set p | p in a + b && p != "")
  }

  method MergePaths(a: seq<string>, b: seq<string>) returns (paths: seq<string>)
    ensures paths == Merged(a, b)
    ensures StrictlySorted(paths) && forall p :: p in paths <==> p != "" && (p in a || p in b)
  {
    var merged := set p | p in a + b && p != "";
    paths := SortSet(merged);
    assert forall p :: p in paths <==> p in Elements(paths);
  }

  /** Merging twice changes nothing, so a base list that is itself merged stays as it is. */
  lemma MergedAgain(a: seq<string>, b: seq<string>)
    ensures Merged(Merged(a, []), b) == Merged(a, b)
  {
    var m := Merged(a, []);
    assert forall p :: p in m <==> p in Elements(m);
    assert (set p | p in m + b && p != "") == (set p | p in a + b && p != "");
  }

  lemma MergedMember(a: seq<string>, b: seq<string>, p: string)
    ensures p in Merged(a, b) <==> p != "" && (p in a || p in b)
  {
    assert p in Merged(a, b) <==> p in Elements(Merged(a, b));
  }

  /** The allowlist as a starting engine prints it reads back as exactly the recorded one: it has
      no empty entry to lose. */
  lemma AllowlistReadsBack(a: seq<string>, b: seq<string>)
    ensures SqlText.ReadStringList(SqlText.StringList(SqlText.NonEmpty(Merged(a, b)))) == Some(Merged(a, b))
  {
    MergedMember(a, b, "");
    NothingEmpty(Merged(a, b));
    SqlText.StringListReadsBack(Merged(a, b));
  }

  lemma {:induction false} NothingEmpty(paths: seq<string>)
    requires "" !in paths
    ensures SqlText.NonEmpty(paths) == paths
  {
    if paths != [] {
      var n := |paths| - 1;
      NothingEmpty(paths[..n]);
      assert paths == paths[..n] + [paths[n]];
    }
  }

  // ---------------------------------------------------------------- sources on one engine

  datatype Loader = Live | Fixed(document: Document)

  function Enabled(d: Document): set<Source> {
    set s | s in d.sources && s.enabled
  }

  // The reconciler's conditions, for sets of sources instead of fingerprinted candidates.

  predicate ReplacedIn(next: set<Source>, r: Source) {
    r !in next && exists t :: t in next && t.id == r.id
  }

  predicate MovableIn(active: set<Source>, next: set<Source>, s: Source) {
    s in active ||
    forall r :: r in active && r.id != s.id && r.alias == s.alias ==> ReplacedIn(next, r) && Lt(r.id, s.id)
  }

  predicate StageableIn(active: set<Source>, strays: set<Source>, s: Source) {
    s in active || s !in strays || forall r :: r in active ==> r.id != s.id
  }

  predicate AdmissibleIn(active: set<Source>, next: set<Source>, strays: set<Source>) {
    forall s :: s in next ==> MovableIn(active, next, s) && StageableIn(active, strays, s)
  }

  lemma SettledIsAdmissible(active: set<Source>, strays: set<Source>)
    ensures AdmissibleIn(active, active, strays)
  {
  }

  lemma NothingBlocks(next: set<Source>)
    ensures AdmissibleIn({}, next, {})
  {
  }

  predicate OneEach(sources: set<Source>) {
    forall s, t :: s in sources && t in sources && s.id == t.id ==> s == t
  }

  ghost function ById(sources: set<Source>, id: string): (s: Source)
    requires exists s :: s in sources && s.id == id
    ensures s in sources && s.id == id
  {
    var s :| s in sources && s.id == id;
    s
  }

  ghost function Candidates(sources: set<Source>, fingerprint: Source -> Digest): (c: Reconcile.SourceSet)
    requires OneEach(sources)
    ensures forall s :: s in sources ==>
              s.id in c && c[s.id] == Reconcile.Candidate(DefinitionOf(s), fingerprint(s))
    ensures forall id :: id in c ==> exists s :: s in sources && s.id == id
  {
    var ids := set s | s in sources :: s.id;
    map id | id in ids :: Reconcile.Candidate(DefinitionOf(ById(sources, id)), fingerprint(ById(sources, id)))
  }

  /** Fingerprints from when the sources were attached and from now tell the sources apart: same
      configuration, same credential, and no two that collide. */
  ghost predicate Told(active: set<Source>, before: Source -> Digest, next: set<Source>, now: Source -> Digest) {
    forall a, b :: a in active && b in next && a.id == b.id ==> (before(a) == now(b) <==> a == b)
  }

  /** The strays among the sources at hand are those whose staging alias is taken. */
  ghost predicate Stuck(next: set<Source>, now: Source -> Digest, strays: set<Source>, mounts: Reconcile.Mounts) {
    forall t :: t in next ==> (t in strays <==> StageAlias(t.alias, now(t)) in mounts)
  }

  /** The conditions are the reconciler's own, as long as fingerprints tell the sources apart. */
  lemma SameCondition(active: set<Source>, before: Source -> Digest, next: set<Source>, now: Source -> Digest,
                      strays: set<Source>, s: Reconcile.State)
    requires OneEach(active) && OneEach(next) && s.active == Candidates(active, before)
    requires Told(active, before, next, now) && Stuck(next, now, strays, s.strays)
    ensures AdmissibleIn(active, next, strays) <==> Reconcile.Admissible(s, Candidates(next, now))
  {
    hide StageAlias, Told;
    var p := Candidates(next, now);
    forall t | t in next
      ensures MovableIn(active, next, t) <==> Reconcile.Movable(s.active, p, t.id)
      ensures StageableIn(active, strays, t) <==> Reconcile.Stageable(s, p, t.id)
    {
      SameMove(active, before, next, now, t);
      SameStage(active, before, next, now, strays, s, t);
    }
    if AdmissibleIn(active, next, strays) {
      forall id | id in p ensures Reconcile.Movable(s.active, p, id) && Reconcile.Stageable(s, p, id) {
        var t :| t in next && t.id == id;
      }
    }
    if Reconcile.Admissible(s, p) {
      forall t | t in next ensures MovableIn(active, next, t) && StageableIn(active, strays, t) {
        assert t.id in p;
      }
    }
  }

  lemma SameMove(active: set<Source>, before: Source -> Digest, next: set<Source>, now: Source -> Digest, t: Source)
    requires OneEach(active) && OneEach(next) && t in next && Told(active, before, next, now)
    ensures MovableIn(active, next, t) <==>
              Reconcile.Movable(Candidates(active, before), Candidates(next, now), t.id)
  {
  }

  lemma SameStage(active: set<Source>, before: Source -> Digest, next: set<Source>, now: Source -> Digest,
                  strays: set<Source>, s: Reconcile.State, t: Source)
    requires OneEach(active) && OneEach(next) && s.active == Candidates(active, before) && t in next
    requires Told(active, before, next, now) && Stuck(next, now, strays, s.strays)
    ensures StageableIn(active, strays, t) <==> Reconcile.Stageable(s, Candidates(next, now), t.id)
  {
  }

  predicate Unstaged(sources: set<Source>) {
    forall s :: s in sources ==> !StagePrefixed(s.alias)
  }

  /** A document that validation lets through (`Validated`) and that leaves the staging prefix alone. */
  ghost predicate Orderly(d: Document) {
    Validated(d) && Unstaged(Enabled(d))
  }

  predicate Validated(d: Document) {
    DistinctIds(d.sources) && DistinctAliases(d.sources)
  }

  class SourceManager {
    const engine: Engine
    var loader: Loader
    var active: set<Source>

    constructor (engine: Engine, loader: Loader)
      ensures this.engine == engine && this.loader == loader && active == {}
    {
      this.engine, this.loader, active := engine, loader, {};
    }

    function Reads(live: Option<Document>): Option<Document>
      reads this`loader
    {
      if loader.Live? then live else Some(loader.document)
    }

    ghost predicate Synced()
      reads this`active, engine`running, engine`sources
    {
      engine.running ==> engine.sources == active
    }

    predicate Preparable(d: Document) {
      forall s :: s in d.sources && s.enabled ==> engine.host.preparable(s)
    }

    /** A reload of `d` goes through: everything can be prepared, the next call does not fail, and
        either there is nothing to move or the moves are admissible and do not fail. */
    ghost predicate Succeeds(d: Document)
      reads this`active, engine`running, engine`strays, engine.host`calls
    {
      && Preparable(d) && !engine.host.fails(engine.host.calls)
      && (active != Enabled(d) ==>
            && !engine.host.fails(engine.host.calls + 1) && engine.running
            && AdmissibleIn(active, Enabled(d), engine.strays))
    }

    /** A source whose staged copy a reload of `d` may leave behind. */
    ghost predicate MayStray(d: Document, s: Source)
      reads this`active, engine`strays
    {
      s in Enabled(d) && s !in active && s !in engine.strays && exists r :: r in active && r.id == s.id
    }

    /** The move fails, and so does the cleanup of a staged copy. */
    ghost predicate LeavesStray(d: Document)
      reads this`active, engine`running, engine`strays, engine.host`calls
    {
      && Preparable(d) && !engine.host.fails(engine.host.calls) && engine.running
      && engine.host.fails(engine.host.calls + 1) && engine.host.fails(engine.host.calls + 2)
      && exists s :: MayStray(d, s)
    }

    method Reload(live: Option<Document>) returns (ok: bool)
      requires engine.host.Ok() && engine in engine.host.engines
      modifies this`active, engine`sources, engine`strays, engine.host`calls
      ensures engine.host.Ok()
      ensures ok ==> Reads(live).Some? && active == Enabled(Reads(live).value) && Preparable(Reads(live).value)
      ensures ok && old(Synced()) ==> Synced() && old(Succeeds(Reads(live).value))
      ensures (old(Synced()) && Reads(live).Some? && Validated(Reads(live).value)
               && (old(active) == {} || (Unstaged(Enabled(Reads(live).value)) && Unstaged(old(active))))) ==>
                (ok <==> old(Succeeds(Reads(live).value)))
      ensures engine.running && old(active) == {} && Reads(live).Some? && Preparable(Reads(live).value) ==>
                var settled := Enabled(Reads(live).value) == {};
                engine.host.calls == old(engine.host.calls)
                  + if engine.host.fails(old(engine.host.calls)) || settled then 1 else 2
      ensures ok ==> engine.host.calls == old(engine.host.calls) + if active == old(active) then 1 else 2
      ensures !ok ==> active == old(active) && (old(Synced()) ==> engine.sources == old(engine.sources))
      ensures !engine.running ==>
                active == old(active) && engine.sources == old(engine.sources) && engine.strays == old(engine.strays)
      ensures ok || engine.host.Quiet() ==> engine.strays == old(engine.strays)
      ensures engine.strays != old(engine.strays) <==> Reads(live).Some? && old(LeavesStray(Reads(live).value))
      ensures engine.strays != old(engine.strays) ==>
                exists s :: old(MayStray(Reads(live).value, s)) && engine.strays == old(engine.strays) + {s}
    {
      hide Host.OkBut, Host.Ok, Engine.Sound, AdmissibleIn;
      var document := Reads(live);
      var broken := engine.host.Fails();
      if document.None? || broken || !Preparable(document.value) {
        return false;
      }
      var next := Enabled(document.value);
      if active == next {
        return true;
      }
      broken := engine.host.Fails();
      if broken || !engine.running || !AdmissibleIn(active, next, engine.strays) {
        if broken && engine.running {
          assert forall s :: MayStray(document.value, s) <==> old(MayStray(Reads(live).value, s));
          LeaveStray(document.value, next);
        }
        return false;
      }
      engine.SetSources((engine.sources - (active - next)) + (next - active));
      active := next;
      ok := true;
    }

    /** The call that failed may have been the cleanup of a staged copy. */
    method LeaveStray(ghost d: Document, next: set<Source>)
      requires engine.host.Ok() && engine in engine.host.engines && engine.running && next == Enabled(d)
      modifies engine`strays, engine.host`calls
      ensures engine.host.Ok()
      ensures engine.strays != old(engine.strays) ==>
                exists s :: old(MayStray(d, s)) && engine.strays == old(engine.strays) + {s}
      ensures engine.strays != old(engine.strays) <==>
                engine.host.fails(old(engine.host.calls)) && exists s :: old(MayStray(d, s))
      ensures active == {} ==> engine.host.calls == old(engine.host.calls)
    {
      hide Host.OkBut, Host.Ok, Engine.Sound, Enabled;
      var replaced := set s | s in next && s !in active && exists r :: r in active && r.id == s.id;
      var candidates := replaced - engine.strays;
      assert forall s :: s in candidates <==> MayStray(d, s);
      if candidates != {} {
        var stuck := engine.host.Fails();
        if stuck {
          var s :| s in candidates;
          engine.AddStray(s);
        }
      }
    }

    /** How many of the first `n` sources come to an attach: the enabled ones that can be prepared. */
    ghost function Attempts(sources: seq<Source>, n: nat): nat
      requires n <= |sources|
    {
      if n == 0 then 0
      else Attempts(sources, n - 1) + if sources[n - 1].enabled && engine.host.preparable(sources[n - 1]) then 1 else 0
    }

    /** The i-th source can be prepared and its own attach, in a bootstrap from call `c` on, works. */
    ghost predicate Boots(sources: seq<Source>, i: nat, c: nat)
      requires i < |sources|
    {
      engine.host.preparable(sources[i]) && !engine.host.fails(c + Attempts(sources, i))
    }

    /** Attaches each enabled source on its own, in the order of the document, and lists those that
        fail; sources active from before stay listed unless replaced. */
    method Bootstrap(live: Option<Document>) returns (ok: bool, failures: set<Source>)
      requires engine.host.Ok() && engine in engine.host.engines && engine.running
      requires Reads(live).Some? ==> Validated(Reads(live).value)
      modifies this`active, engine`sources, engine.host`calls
      ensures engine.host.Ok()
      ensures ok <==> Reads(live).Some?
      ensures ok ==> failures <= Enabled(Reads(live).value)
      ensures ok ==> forall i :: 0 <= i < |Reads(live).value.sources| && Reads(live).value.sources[i].enabled ==>
                       (Reads(live).value.sources[i] in failures <==>
                        !Boots(Reads(live).value.sources, i, old(engine.host.calls)))
      ensures ok ==> engine.sources == Enabled(Reads(live).value) - failures
      ensures ok && old(active) == {} ==> active == engine.sources
      ensures !ok ==> engine.sources == old(engine.sources) && active == old(active)
      ensures engine.host.calls == old(engine.host.calls) + if !ok then 0 else
                Attempts(Reads(live).value.sources, |Reads(live).value.sources|)
    {
      hide Host.OkBut, Host.Ok, Engine.Sound, Enabled, Tried;
      failures := {};
      if Reads(live).None? {
        return false, {};
      }
      var sources := Reads(live).value.sources;
      ghost var c := engine.host.calls;
      var booted: set<Source> := {};
      NothingTried(sources, c);
      for n := 0 to |sources|
        invariant engine.host.Ok() && active == old(active) && engine.host.calls == c + Attempts(sources, n)
        invariant Tried(sources, n, c, booted, failures)
      {
        var s := sources[n];
        TriedOneMore(sources, n, c, booted, failures);
        if s.enabled {
          var broken := !engine.host.preparable(s);
          if !broken {
            broken := engine.host.Fails();
          }
          if broken {
            failures := failures + {s};
          } else {
            booted := booted + {s};
          }
        }
      }
      AllTried(Reads(live).value, c, booted, failures);
      engine.SetSources(booted);
      active := booted + set s | s in active && forall b :: b in booted ==> b.id != s.id;
      ok := true;
    }

    /** The first `n` sources are dealt with in a bootstrap from call `c` on. */
    ghost predicate Tried(sources: seq<Source>, n: nat, c: nat, booted: set<Source>, failures: set<Source>)
      requires n <= |sources|
    {
      && booted !! failures
      && (forall s :: s in booted + failures ==> s.enabled && exists i :: 0 <= i < n && sources[i] == s)
      && (forall i :: 0 <= i < n && sources[i].enabled ==>
            sources[i] in if Boots(sources, i, c) then booted else failures)
    }

    lemma NothingTried(sources: seq<Source>, c: nat)
      ensures Tried(sources, 0, c, {}, {})
    {
    }

    lemma TriedOneMore(sources: seq<Source>, n: nat, c: nat, booted: set<Source>, failures: set<Source>)
      requires n < |sources| && DistinctIds(sources) && Tried(sources, n, c, booted, failures)
      ensures var s := sources[n];
              if !s.enabled then Tried(sources, n + 1, c, booted, failures)
              else if Boots(sources, n, c) then Tried(sources, n + 1, c, booted + {s}, failures)
              else Tried(sources, n + 1, c, booted, failures + {s})
    {
      hide Boots;
    }

    lemma AllTried(d: Document, c: nat, booted: set<Source>, failures: set<Source>)
      requires Tried(d.sources, |d.sources|, c, booted, failures)
      ensures failures <= Enabled(d) && booted == Enabled(d) - failures
      ensures forall i :: 0 <= i < |d.sources| && d.sources[i].enabled ==>
                (d.sources[i] in failures <==> !Boots(d.sources, i, c))
    {
      hide Boots;
      forall s ensures s in booted + failures <==> s in Enabled(d) {
        if s in Enabled(d) {
          var i :| 0 <= i < |d.sources| && d.sources[i] == s;
        }
      }
    }
  }

  // ---------------------------------------------------------------- the runtime

  /** How a reload ends. Every value but `Reloaded` is an error to the caller. */
  datatype ReloadResult =
    | Reloaded
    | Rejected    // nothing changed
    | Unrecorded  // the sources moved, then the engine check failed
    | Restored    // the previous configuration runs on a new engine
    | Lost        // no engine runs

  /** Whether an engine runs after a reload that ends like this. */
  predicate RunsAfter(ending: ReloadResult, before: bool) {
    ending.Reloaded? || ending.Restored? || (!ending.Lost? && before)
  }

  class Runtime {
    const host: Host
    var engine: Engine
    var manager: SourceManager
    var failures: set<Source>
    var options: Options
    var basePaths: seq<string>
    var document: Document

    constructor (host: Host)
      requires host.Ok() && forall e :: e in host.engines ==> !e.running
      modifies host`engines
      ensures this.host == host && Valid() && !engine.running && manager.active == {}
      ensures fresh(engine) && fresh(manager) && host.engines == old(host.engines) + {engine}
    {
      this.host := host;
      var created := new Engine(host);
      engine := created;
      manager := new SourceManager(created, Live);
      failures, options, basePaths, document := {}, Options([], "", 0, ""), [], Document(1, []);
      host.engines := host.engines + {created};
    }

    /** At rest at most one engine runs, and it is the runtime's. */
    ghost predicate Valid()
      reads this, host, host.engines, manager
    {
      && host.Ok() && engine.host == host && engine in host.engines
      && manager.engine == engine && manager.loader == Live
      && (forall e :: e in host.engines && e.running ==> e == engine)
    }

    /** The recorded allowlist is what the recorded document and the base paths call for, and a
        running engine has exactly the recorded options. */
    ghost predicate Aligned()
      reads this, engine
    {
      && options.allowed == Merged(basePaths, FilePaths(document.sources))
      && (engine.running ==>
            && engine.allowed == options.allowed
            && engine.token == options.token
            && engine.endpoint == Endpoint(options.host, options.port))
    }

    /** The runtime has been started once: address and token are fixed from then on. */
    ghost predicate Pinned()
      reads this`options
    {
      options.host != "" && options.port != 0 && options.token != "" && host.loopback(options.host)
    }

    predicate Preparable(d: Document) {
      forall s :: s in d.sources && s.enabled ==> host.preparable(s)
    }

    // How long an undisturbed launch is, and where one that starts at call `c` ends: engine start
    // in two steps, preparation, the attaches if there are any; a failed reload stops the engine.

    ghost function Span(d: Document): nat { if Enabled(d) == {} then 3 else 4 }

    ghost function LaunchEnd(d: Document, c: nat): nat {
      if host.fails(c) then c + 1
      else if host.fails(c + 1) then c + 2
      else if host.fails(c + 2) then c + 4
      else if Enabled(d) != {} && host.fails(c + 3) then c + 5
      else c + Span(d)
    }

    /** How the swap of a rebuild ends, if it starts at call `s`: stop, install, and after a failure
        of either, restore. */
    ghost function SwapEnding(next: Document, s: nat): ReloadResult
      reads this`engine, this`document, engine`running
    {
      var install := if engine.running then s + 1 else s;
      var stopped := engine.running ==> !host.fails(s);
      var restore := if stopped then LaunchEnd(next, install) else install;
      if stopped && host.FaultFree(install, Span(next)) then Reloaded
      else if Preparable(document) && host.FaultFree(restore, Span(document)) then Restored
      else Lost
    }

    /** How a whole rebuild ends: the probe is a launch and a stop. */
    ghost function RebuildEnding(next: Document): ReloadResult
      reads this`engine, this`document, engine`running, host`calls
    {
      if Preparable(next) && host.FaultFree(host.calls, Span(next) + 1) then
        SwapEnding(next, host.calls + Span(next) + 1)
      else Rejected
    }

    ghost predicate TwoFaults() {
      exists m, n :: 0 <= m < n && host.fails(m) && host.fails(n)
    }

    /** As long as the recorded document can be prepared, a single failing step never loses the engine. */
    lemma LosingTakesTwo(next: Document, s: nat)
      requires SwapEnding(next, s) == Lost
      ensures Preparable(document) ==> TwoFaults()
    {
    }

    ghost predicate InSync()
      reads this`manager, this`engine, manager, engine
    {
      engine.running ==> engine.sources == manager.active
    }

    method NewEngine(loader: Loader) returns (created: Engine, sources: SourceManager)
      requires host.Ok()
      modifies host`engines
      ensures fresh(created) && fresh(sources) && host.Ok() && host.engines == old(host.engines) + {created}
      ensures created.host == host && !created.running && !created.serving && created.sources == {}
      ensures sources.engine == created && sources.loader == loader && sources.active == {}
    {
      created := new Engine(host);
      sources := new SourceManager(created, loader);
      host.engines := host.engines + {created};
    }

    /** Starts an engine and attaches what its manager reads, or stops it again. */
    method Launch(e: Engine, sources: SourceManager, live: Option<Document>, wanted: Options) returns (ok: bool)
      requires host.Ok() && e in host.engines && e.host == host && sources.engine == e && !e.running
      requires sources.active == {}
      requires wanted.port == 0 || Endpoint(Address(wanted), wanted.port) !in host.served
      modifies e, sources`active, host`calls, host`served, host`clashes
      ensures host.Ok() && host.clashes == old(host.clashes)
      ensures ok ==> e.running && e.serving && e.allowed == wanted.allowed && sources.Reads(live).Some?
      ensures ok ==> e.sources == sources.active == Enabled(sources.Reads(live).value)
      ensures ok && wanted.token != "" ==> e.token == wanted.token
      ensures ok && wanted.port != 0 ==> e.endpoint == Endpoint(Address(wanted), wanted.port)
      ensures ok ==> e.strays == {} && sources.Preparable(sources.Reads(live).value)
      ensures !ok ==> !e.running
      ensures (host.loopback(Address(wanted)) && sources.Reads(live).Some? && Validated(sources.Reads(live).value)
               && Preparable(sources.Reads(live).value)) ==>
                && (ok <==> host.FaultFree(old(host.calls), Span(sources.Reads(live).value)))
                && host.calls == LaunchEnd(sources.Reads(live).value, old(host.calls))
    {
      hide Enabled, Validated, AdmissibleIn, Unstaged, Host.OkBut, Host.Ok, Engine.Sound;
      ok := e.Start(wanted);
      if !ok {
        return;
      }
      if sources.Reads(live).Some? {
        NothingBlocks(Enabled(sources.Reads(live).value));
      }
      ok := sources.Reload(live);
      if !ok {
        var _ := e.Stop();
      }
    }

    /** A disposable engine on a port and token of its own proves that a document can be run. */
    method Probe(next: Document, wanted: Options) returns (ok: bool)
      requires Valid() && wanted.port == 0 && wanted.token == ""
      modifies host
      ensures host.Ok() && host.clashes == old(host.clashes) && old(host.engines) <= host.engines
      ensures forall e :: e in host.engines - old(host.engines) ==> fresh(e) && !e.running
      ensures ok ==> Preparable(next)
      ensures host.loopback(Address(wanted)) && Preparable(next) && Validated(next) ==>
                && (ok <==> host.FaultFree(old(host.calls), Span(next) + 1))
                && (ok ==> host.calls == old(host.calls) + Span(next) + 1)
    {
      hide Validated, Enabled;
      var probe, sources := NewEngine(Live);
      ok := Launch(probe, sources, Some(next), wanted);
      if ok {
        ok := probe.Stop();
      }
    }

    method StopEngine() returns (ok: bool)
      requires Valid() && Aligned()
      modifies host`calls, host`served, engine
      ensures Valid() && Aligned() && !engine.running && host.served == map[]
      ensures ok <==> (old(engine.running) ==> !host.fails(old(host.calls)))
      ensures host.calls == old(host.calls) + if old(engine.running) then 1 else 0
    {
      ok := engine.Stop();
    }

    /** Brings the recorded document back on a new engine with the recorded options; the new
        manager then reads the live configuration again. */
    method Restore() returns (result: ReloadResult)
      requires Valid() && Pinned() && Aligned() && !engine.running
      modifies this`engine, this`manager, host
      ensures Valid() && Pinned() && Aligned() && InSync() && host.clashes == old(host.clashes)
      ensures result in {Restored, Lost}
      ensures result == Restored ==> fresh(engine) && fresh(manager) && engine.running && engine.serving
      ensures result == Restored ==> engine.sources == Enabled(document)
      ensures result == Lost ==> engine == old(engine) && !engine.running && manager == old(manager)
      ensures Validated(document) ==>
                (result == Restored <==> Preparable(document) && host.FaultFree(old(host.calls), Span(document)))
      ensures failures == old(failures)
    {
      hide Sorted, FilePaths, Merged, Enabled, Validated;
      var restored, sources := NewEngine(Fixed(document));
      var ok := Launch(restored, sources, None, options);
      if !ok {
        return Lost;
      }
      sources.loader := Live;
      engine, manager := restored, sources;
      result := Restored;
    }

    lemma IdleServesNothing()
      requires Valid() && !engine.running
      ensures host.served == map[]
    {
    }

    /** The configuration is read twice: `live` decides the allowlist, `again` the sources. */
    method Start(requested: Options, live: Option<Document>, again: Option<Document>) returns (ok: bool)
      requires Valid() && (again.Some? ==> Validated(again.value))
      modifies this, host, engine, manager
      ensures Valid() && engine == old(engine) && manager == old(manager)
      ensures ok ==> !old(engine.running) && engine.running && engine.serving && live.Some?
      ensures ok ==> Aligned() && Pinned() && document == live.value
      ensures ok ==> again.Some? && engine.sources == Enabled(again.value) - failures
      ensures ok ==> engine.strays == {}
      ensures ok ==> Allows(engine.allowed, requested.allowed, live.value) && options.allowed == engine.allowed
      ensures ok ==> basePaths == Merged(requested.allowed, []) && options.host == Address(requested)
      ensures ok && requested.port != 0 ==> options.port == requested.port
      ensures ok && old(manager.active) == {} ==> InSync()
      ensures ok && requested.token != "" ==> engine.token == requested.token
      ensures !ok && !old(engine.running) ==> !engine.running
      ensures ok ==> failures <= Enabled(again.value)
      ensures ok ==> forall i :: 0 <= i < |again.value.sources| && again.value.sources[i].enabled ==>
                       (again.value.sources[i] in failures <==>
                        !manager.Boots(again.value.sources, i, old(host.calls) + 2))
      ensures host.loopback(Address(requested)) && !old(engine.running) && live.Some? && again.Some? ==>
                (ok <==> host.FaultFree(old(host.calls), 2))
      ensures ok ==> host.calls == old(host.calls) + 2 + manager.Attempts(again.value.sources, |again.value.sources|)
      ensures old(engine.running) ==> !ok && engine.running && options == old(options) && document == old(document)
      ensures old(engine.running) && live.Some? && old(Aligned()) ==>
                (Aligned() <==> Merged(requested.allowed, FilePaths(document.sources)) == options.allowed)
      ensures host.clashes == old(host.clashes)
    {
      hide Sorted, FilePaths, Merged, Host.OkBut, Host.Ok, Engine.Sound, Enabled, Validated, Allows;
      hide SourceManager.Boots, SourceManager.Attempts;
      if live.None? {
        return false;
      }
      basePaths := MergePaths(requested.allowed, []);
      MergedAgain(requested.allowed, FilePaths(document.sources));
      MergedAllows(requested.allowed, live.value);
      MergedAgain(requested.allowed, FilePaths(live.value.sources));
      var files := CollectFilePaths(live.value);
      var allowed := MergePaths(basePaths, files);
      var wanted := requested.(allowed := allowed);
      if !engine.running {
        IdleServesNothing();
      }
      ok := engine.Start(wanted);
      if !ok {
        return;
      }
      options := wanted.(host := engine.endpoint.host, port := engine.endpoint.port, token := engine.token);
      document := live.value;
      ok := Boot(again);
    }

    /** The sources of a freshly started engine; without a readable configuration it is stopped. */
    method Boot(again: Option<Document>) returns (ok: bool)
      requires Valid() && engine.running && engine.serving && engine.sources == {}
      requires again.Some? ==> Validated(again.value)
      modifies this`failures, host`calls, host`served, engine, manager
      ensures Valid() && (ok <==> again.Some?)
      ensures ok ==> engine.running && engine.serving && engine.token == old(engine.token)
      ensures engine.strays == old(engine.strays) || !ok
      ensures ok ==> engine.allowed == old(engine.allowed) && engine.endpoint == old(engine.endpoint)
      ensures ok ==> engine.sources == Enabled(again.value) - failures
      ensures ok && old(manager.active) == {} ==> InSync()
      ensures ok ==> failures <= Enabled(again.value)
      ensures ok ==> forall i :: 0 <= i < |again.value.sources| && again.value.sources[i].enabled ==>
                       (again.value.sources[i] in failures <==> !manager.Boots(again.value.sources, i, old(host.calls)))
      ensures ok ==> host.calls == old(host.calls) + manager.Attempts(again.value.sources, |again.value.sources|)
      ensures !ok ==> !engine.running
    {
      hide Enabled, Host.Ok, Engine.Sound;
      var failed;
      ok, failed := manager.Bootstrap(again);
      if ok {
        failures := failed;
      } else {
        var _ := engine.Stop();
      }
    }

    method Stop() returns (ok: bool)
      requires Valid()
      modifies this`failures, host, engine
      ensures Valid() && !engine.running && failures == {} && engine == old(engine) && manager == old(manager)
      ensures manager.active == old(manager.active) && (old(Aligned()) ==> Aligned())
      ensures host.clashes == old(host.clashes)
    {
      ok := engine.Stop();
      failures := {};
    }

    /** May be called in any state; without a running engine it fails. */
    method RotateToken() returns (ok: bool)
      requires Valid()
      modifies this`options, host`calls, host`served, engine
      ensures Valid() && engine == old(engine) && engine.running == old(engine.running)
      ensures old(Aligned()) ==> Aligned()
      ensures old(Pinned()) ==> Pinned()
      ensures ok ==> old(engine.running) && engine.serving && engine.servedToken == options.token != ""
      ensures !ok ==> options == old(options) && engine.token == old(engine.token)
      ensures host.Quiet() && old(engine.serving) ==> ok
      ensures options == old(options).(token := options.token)
    {
      Rotatable();
      ok := engine.RotateToken();
      if ok {
        Rotatable();
        options := options.(token := engine.token);
      }
    }

    /** A serving engine answers to its token on an endpoint nobody else serves. */
    lemma Rotatable()
      requires Valid()
      ensures engine.serving ==> engine.running && engine.token == engine.servedToken
    {
    }

    /** Without a change of the allowlist the sources move in place; otherwise the engine is
        rebuilt. `Unrecorded` is the ending in which the sources have moved but the check of the
        engine after it fails, so that document and failure list stay behind. */
    method Reload(live: Option<Document>) returns (result: ReloadResult)
      requires Valid() && Pinned() && Aligned()
      modifies this, host, engine, manager
      ensures Valid() && Pinned() && Aligned() && host.clashes == old(host.clashes)
      ensures (engine == old(engine) || fresh(engine)) && (manager == old(manager) || fresh(manager))
      ensures basePaths == old(basePaths) && options == old(options).(allowed := options.allowed)
      ensures result == Reloaded ==> live.Some? && document == live.value && engine.running && failures == {}
      ensures engine.running ==> Allows(engine.allowed, basePaths, document)
      ensures result == Reloaded && (old(InSync()) || engine != old(engine)) ==> engine.sources == Enabled(document)
      ensures old(InSync()) ==> InSync()
      ensures result == Rejected ==> old(InSync()) ==> Untouched(old(engine), old(manager))
      ensures result == Rejected ==> options == old(options) && document == old(document) && failures == old(failures)
      ensures result == Rejected && old(engine).strays != old(engine.strays) ==>
                live.Some? && old(InPlace(live.value)) && !host.Quiet()
      ensures result == Restored ==> engine.running && options == old(options) && document == old(document)
      ensures result == Restored ==> engine.sources == Enabled(document) && failures == old(failures)
      ensures result == Unrecorded ==> live.Some? && manager.active == Enabled(live.value)
      ensures result == Unrecorded ==> host.calls == old(CheckCall(live.value)) + 1 && manager == old(manager)
      ensures result == Unrecorded ==> old(InPlace(live.value)) && failures == old(failures)
      ensures engine.running == RunsAfter(result, old(engine.running))
      ensures result == Unrecorded ==> engine == old(engine) && options == old(options) && document == old(document)
      ensures result == Unrecorded ==> !engine.running || (host.calls > 0 && host.fails(host.calls - 1))
      ensures old(InSync()) && live.Some? && Orderly(live.value) && Unstaged(old(manager.active)) ==>
                (result == Unrecorded <==>
                && old(InPlace(live.value)) && old(manager.Succeeds(live.value))
                && (!old(engine.running) || host.fails(old(CheckCall(live.value)))))
      ensures result == Lost ==> !engine.running && options == old(options) && document == old(document)
      ensures live.Some? && !old(InPlace(live.value)) && Validated(live.value) && Validated(old(document)) ==>
                result == old(RebuildEnding(live.value))
      ensures (live.Some? && Validated(live.value) && Validated(old(document)) && Preparable(old(document))
               && result == Lost) ==> TwoFaults()
      ensures host.Quiet() && live.Some? && old(engine.running) && old(InSync())
              && Orderly(live.value) && Unstaged(old(manager.active)) && Preparable(live.value) ==>
                var admissible := old(AdmissibleIn(manager.active, Enabled(live.value), engine.strays));
                result == if old(InPlace(live.value)) && !admissible then Rejected else Reloaded
    {
      hide Sorted, FilePaths, Merged, Enabled, Host.OkBut, Host.Ok, Engine.Sound, AdmissibleIn, Validated, Unstaged;
      hide Allows;
      if live.None? {
        MergedAllows(basePaths, document);
        return Rejected;
      }
      var files := CollectFilePaths(live.value);
      var nextPaths := MergePaths(basePaths, files);
      if nextPaths != options.allowed {
        result := Rebuild(live.value, nextPaths);
        MergedAllows(basePaths, document);
        return;
      }
      SettledIsAdmissible(manager.active, engine.strays);
      result := MoveInPlace(live.value);
      MergedAllows(basePaths, document);
    }

    /** The document calls for the allowlist the engine has. */
    ghost predicate InPlace(d: Document)
      reads this`basePaths, this`options
    {
      Merged(basePaths, FilePaths(d.sources)) == options.allowed
    }

    /** The call that checks the engine after the sources have moved. */
    ghost function CheckCall(d: Document): nat
      reads this`manager, manager`active, host`calls
    {
      host.calls + if manager.active == Enabled(d) then 1 else 2
    }

    /** The reload of an engine whose allowlist stays. */
    method MoveInPlace(next: Document) returns (result: ReloadResult)
      requires Valid() && Pinned() && Aligned() && InPlace(next)
      modifies this`failures, this`document, host`calls, engine`sources, engine`strays, manager`active
      ensures Valid() && Pinned() && Aligned() && (old(InSync()) ==> InSync())
      ensures result in {Reloaded, Rejected, Unrecorded}
      ensures result == Reloaded ==> document == next && engine.running && failures == {}
      ensures result == Reloaded && old(InSync()) ==> engine.sources == Enabled(document)
      ensures result == Rejected ==> manager.active == old(manager.active)
      ensures result == Rejected && old(InSync()) ==> engine.sources == old(engine.sources)
      ensures result != Reloaded ==> failures == old(failures) && document == old(document)
      ensures engine.strays != old(engine.strays) ==> result == Rejected && !host.Quiet()
      ensures result == Unrecorded ==> manager.active == Enabled(next)
      ensures result != Rejected ==> host.calls == old(CheckCall(next)) + 1
      ensures result == Unrecorded ==> !engine.running || (host.calls > 0 && host.fails(host.calls - 1))
      ensures old(InSync()) && Orderly(next) && Unstaged(old(manager.active)) ==>
                && (result == Rejected <==> !old(manager.Succeeds(next)))
                && (result == Unrecorded <==>
                    old(manager.Succeeds(next)) && (!engine.running || host.fails(old(CheckCall(next)))))
    {
      hide Sorted, FilePaths, Merged, Enabled, Host.OkBut, Host.Ok, Engine.Sound, AdmissibleIn, Validated, Unstaged;
      hide SourceManager.Succeeds;
      var ok := manager.Reload(Some(next));
      if !ok {
        return Rejected;
      }
      var broken := host.Fails();
      if broken || !engine.running {
        return Unrecorded;
      }
      failures, document := {}, next;
      result := Reloaded;
    }

    /** The engine and its sources are the given ones, exactly as they were but for strays. */
    twostate predicate Untouched(e: Engine, m: SourceManager)
      reads this, e, m
    {
      && engine == e && manager == m && unchanged(m)
      && unchanged(e`running, e`serving, e`endpoint, e`token, e`servedToken, e`allowed, e`sources)
    }

    /** A probe engine proves the new document first; then the locked engine is stopped and
        replaced on the same endpoint with the same token; if that fails the previous document
        is brought back. */
    method Rebuild(next: Document, allowed: seq<string>) returns (result: ReloadResult)
      requires Valid() && Pinned() && Aligned()
      requires allowed == Merged(basePaths, FilePaths(next.sources))
      modifies this, host, engine
      ensures Valid() && Pinned() && Aligned() && host.clashes == old(host.clashes)
      ensures (engine == old(engine) || fresh(engine)) && (manager == old(manager) || fresh(manager))
      ensures result != Rejected ==> InSync()
      ensures result in {Reloaded, Rejected, Restored, Lost} && basePaths == old(basePaths)
      ensures unchanged(old(manager))
      ensures result == Rejected ==> unchanged(old(engine)) && Untouched(old(engine), old(manager))
      ensures result == Rejected ==> options == old(options) && document == old(document) && failures == old(failures)
      ensures result in {Reloaded, Restored} ==> fresh(engine) && engine.running && engine.serving
      ensures result == Reloaded ==> options == old(options).(allowed := allowed) && failures == {}
      ensures result == Reloaded ==> document == next && engine.sources == Enabled(next)
      ensures result in {Restored, Lost} ==> options == old(options) && document == old(document)
      ensures result == Restored ==> engine.sources == Enabled(document) && failures == old(failures)
      ensures result == Lost ==> engine == old(engine) && !engine.running
      ensures Validated(next) && Validated(old(document)) ==>
                && result == old(RebuildEnding(next))
                && (result == Lost && Preparable(old(document)) ==> TwoFaults())
      ensures host.Quiet() && Preparable(next) && Validated(next) ==> result == Reloaded
    {
      hide Sorted, FilePaths, Merged, Enabled, Host.OkBut, Host.Ok, Engine.Sound, Validated;
      var proved := Probe(next, options.(allowed := allowed, port := 0, token := ""));
      if !proved {
        return Rejected;
      }
      result := Swap(next, allowed);
    }

    /** The second half of a rebuild, once the probe has gone through. */
    method Swap(next: Document, allowed: seq<string>) returns (result: ReloadResult)
      requires Valid() && Pinned() && Aligned()
      requires allowed == Merged(basePaths, FilePaths(next.sources))
      modifies this, host, engine
      ensures Valid() && Pinned() && Aligned() && host.clashes == old(host.clashes)
      ensures (engine == old(engine) || fresh(engine)) && (manager == old(manager) || fresh(manager))
      ensures result != Rejected ==> InSync()
      ensures result in {Reloaded, Restored, Lost} && basePaths == old(basePaths)
      ensures unchanged(old(manager))
      ensures result in {Reloaded, Restored} ==> fresh(engine) && engine.running && engine.serving
      ensures result == Reloaded ==> options == old(options).(allowed := allowed) && failures == {}
      ensures result == Reloaded ==> document == next && engine.sources == Enabled(next)
      ensures result in {Restored, Lost} ==> options == old(options) && document == old(document)
      ensures result == Restored ==> engine.sources == Enabled(document) && failures == old(failures)
      ensures result == Lost ==> engine == old(engine) && !engine.running
      ensures Validated(next) && Preparable(next) && Validated(old(document)) ==>
                && result == old(SwapEnding(next, host.calls))
                && (result == Lost && Preparable(old(document)) ==> TwoFaults())
      ensures host.Quiet() && Preparable(next) && Validated(next) ==> result == Reloaded
    {
      hide Sorted, FilePaths, Merged, Enabled, Host.OkBut, Host.Ok, Engine.Sound, Validated;
      var stopped := StopEngine();
      if stopped {
        var installed := Install(next, allowed);
        if installed {
          return Reloaded;
        }
      }
      result := Restore();
    }

    /** The replacement engine takes over where the old one stopped. */
    method Install(next: Document, allowed: seq<string>) returns (ok: bool)
      requires Valid() && Pinned() && Aligned() && !engine.running && host.served == map[]
      requires allowed == Merged(basePaths, FilePaths(next.sources))
      modifies this, host
      ensures Valid() && Pinned() && Aligned() && host.clashes == old(host.clashes) && basePaths == old(basePaths)
      ensures ok ==> fresh(engine) && fresh(manager) && engine.running && engine.serving && InSync()
      ensures ok ==> options == old(options).(allowed := allowed) && failures == {}
      ensures ok ==> document == next && engine.sources == Enabled(next)
      ensures !ok ==> engine == old(engine) && manager == old(manager) && !engine.running
      ensures !ok ==> options == old(options) && document == old(document) && failures == old(failures)
      ensures Preparable(next) && Validated(next) ==>
                && (ok <==> host.FaultFree(old(host.calls), Span(next)))
                && host.calls == LaunchEnd(next, old(host.calls))
    {
      hide Sorted, FilePaths, Merged, Enabled, Host.OkBut, Host.Ok, Engine.Sound, Validated;
      var replacement, sources := NewEngine(Live);
      ok := Launch(replacement, sources, Some(next), options.(allowed := allowed));
      if ok {
        engine, manager, options := replacement, sources, options.(allowed := allowed);
        failures, document := {}, next;
      }
    }
  }

  /** An unrecorded reload and then a reload that ends in a restore: the sources that had moved are
      taken back to the document from before both, and sources listed as unavailable since the
      start are still listed although the restored engine has them. */
  method UnrecordedThenRestored(r: Runtime, moved: Document, later: Option<Document>)
    returns (first: ReloadResult, second: ReloadResult, ghost between: set<Source>)
    requires r.Valid() && r.Pinned() && r.Aligned() && r.InSync() && r.engine.running
    modifies r, r.host, r.engine, r.manager
    ensures first == Unrecorded ==> between == Enabled(moved)
    ensures first == Unrecorded && second == Restored ==>
              && r.document == old(r.document) && r.engine.sources == Enabled(old(r.document))
              && r.failures == old(r.failures) && r.failures * Enabled(old(r.document)) <= r.engine.sources
  {
    hide Host.OkBut, Host.Ok, Engine.Sound, Sorted, Merged, FilePaths, Enabled, AdmissibleIn, Orderly, Unstaged;
    first := r.Reload(Some(moved));
    between := r.engine.sources;
    second := r.Reload(later);
  }

  function Remote(): Source { Source("r", "remote", "remote", "postgres", "", true, "", "{}", "") }

  function Local(): Source { Source("l", "local", "local", "sqlite", "", true, "", "{}", "/file") }

  /** A runtime started without sources. */
  method StartedEmpty(host: Host) returns (r: Runtime)
    requires host.Ok() && host.engines == {} && host.calls == 0 && host.loopback("127.0.0.1") && host.FaultFree(0, 2)
    modifies host
    ensures fresh(r) && fresh(r.engine) && fresh(r.manager) && r.host == host && host.calls == 2
    ensures r.Valid() && r.Pinned() && r.Aligned() && r.InSync() && r.engine.running
    ensures r.document == Document(1, []) && r.basePaths == Merged([], [])
    ensures r.manager.active == r.engine.sources == r.engine.strays == {}
  {
    hide Host.OkBut, Host.Ok, Engine.Sound, Sorted, Merged, AdmissibleIn, FilePaths;
    r := new Runtime(host);
    var empty := Document(1, []);
    assert Enabled(empty) == {};
    var started := r.Start(Options([], "", 0, ""), Some(empty), Some(empty));
    assert started && r.engine.sources == {};
  }

  lemma FilesOfTheRun(base: seq<string>)
    requires base == Merged([], [])
    ensures Merged(base, FilePaths([Remote()])) == Merged(base, FilePaths([]))
    ensures Merged(base, FilePaths([Local()])) != Merged(base, FilePaths([]))
  {
    hide Merged;
    assert [Remote()][..0] == [] && [Local()][..0] == [];
    assert FilePaths([Remote()]) == [] && FilePaths([Local()]) == ["/file"];
    MergedMember([], [], "/file");
    MergedMember(base, [], "/file");
    MergedMember(base, ["/file"], "/file");
  }

  /** Then a remote source is attached in place, and the engine check after it fails. */
  method MovedUnrecorded(r: Runtime) returns (result: ReloadResult)
    requires r.Valid() && r.Pinned() && r.Aligned() && r.engine.running && r.document == Document(1, [])
    requires r.manager.active == r.engine.sources == r.engine.strays == {} && r.basePaths == Merged([], [])
    requires r.host.calls == 2 && r.host.FaultFree(2, 2) && r.host.fails(4) && r.host.preparable(Remote())
    modifies r, r.host, r.engine, r.manager
    ensures result == Unrecorded && r.host.calls == 5 && r.document == Document(1, [])
    ensures r.Valid() && r.Pinned() && r.Aligned() && r.engine.running && r.basePaths == Merged([], [])
    ensures r.engine == old(r.engine) && r.manager == old(r.manager) && r.engine.sources == {Remote()}
  {
    hide Host.OkBut, Host.Ok, Engine.Sound, Sorted, Merged, AdmissibleIn, FilePaths;
    var remote := Document(1, [Remote()]);
    FilesOfTheRun(r.basePaths);
    assert Enabled(remote) == {Remote()};
    NothingBlocks(Enabled(remote));
    result := r.Reload(Some(remote));
  }

  lemma EndingOfTheRun(r: Runtime, twice: bool)
    requires r.document == Document(1, []) && r.engine.running && r.host.calls == 5
    requires forall n :: r.host.fails(n) <==> n == 4 || n == 11 || (twice && n == 12)
    requires r.host.preparable(Local())
    ensures r.RebuildEnding(Document(1, [Local()])) == if twice then Lost else Restored
  {
    var local := Document(1, [Local()]);
    assert Enabled(local) == {Local()} && Enabled(r.document) == {};
    assert r.SwapEnding(local, 10) == if twice then Lost else Restored by {
      assert r.LaunchEnd(local, 11) == 12;
      assert r.host.fails(11) && !r.host.FaultFree(11, 4);
      assert r.host.fails(12) <==> twice;
      assert r.host.FaultFree(12, 3) <==> !twice;
    }
  }

  /** Concrete runs that end in both ways. A runtime starts without sources; a reload to one remote
      source fails at the engine check, after the source is attached; a reload to a file needs a new
      engine, and its first step fails. The restore then takes the remote source away again. If its
      first step fails too, no engine runs. */
  method FailedRebuild(twice: bool) returns (r: Runtime, first: ReloadResult, second: ReloadResult)
    ensures first == Unrecorded && second == if twice then Lost else Restored
    ensures r.document == Document(1, []) && r.engine.running == !twice
    ensures !twice ==> r.engine.sources == {}
  {
    hide Host.OkBut, Host.Ok, Engine.Sound, Sorted, Merged, AdmissibleIn, FilePaths, Enabled;
    hide Runtime.RebuildEnding, Runtime.SwapEnding;
    var host := new Host(n => n == 4 || n == 11 || (twice && n == 12), n => "token", h => true, s => true);
    r := StartedEmpty(host);
    first := MovedUnrecorded(r);
    FilesOfTheRun(r.basePaths);
    EndingOfTheRun(r, twice);
    second := r.Reload(Some(Document(1, [Local()])));
    NothingEnabled(1);
  }

  lemma NothingEnabled(version: int)
    ensures Enabled(Document(version, [])) == {}
  {
  }

  datatype Operation =
    | Start(requested: Options, live: Option<Document>, again: Option<Document>)
    | Reload(live: Option<Document>)
    | RotateToken
    | Stop

  /** Any run: operations in any order; a start only while stopped and a reload only while started,
      as the service lets them through, a token rotation at any time, because the control socket
      rotates on the runtime directly. Each fallible step fails as `host.fails` says.
      At the end, and so at every point of a run, at most the runtime's own engine runs, no two
      engines ever competed for an endpoint, and a started runtime is aligned. */
  method AnyRun(host: Host, operations: seq<Operation>) returns (r: Runtime, started: bool)
    requires host.Ok() && host.engines == {} && host.clashes == 0
    requires forall i :: 0 <= i < |operations| && operations[i].Start? && operations[i].again.Some? ==>
               Validated(operations[i].again.value)
    modifies host
    ensures r.Valid() && r.host == host && host.clashes == 0
    ensures started ==> r.Pinned() && r.Aligned()
    ensures !started ==> !r.engine.running
  {
    hide Host.OkBut, Host.Ok, Engine.Sound, Sorted, Merged, FilePaths, Enabled;
    r := new Runtime(host);
    started := false;
    for i := 0 to |operations|
      invariant r.Valid() && r.host == host && host.clashes == 0
      invariant fresh(r) && fresh(r.engine) && fresh(r.manager)
      invariant started ==> r.Pinned() && r.Aligned()
      invariant !started ==> !r.engine.running
    {
      match operations[i] {
        case Start(requested, live, again) =>
          if !started {
            started := r.Start(requested, live, again);
          }
        case Reload(live) =>
          if started {
            var _ := r.Reload(live);
          }
        case RotateToken =>
          var _ := r.RotateToken();
        case Stop =>
          var _ := r.Stop();
          started := false;
      }
    }
  }
}
