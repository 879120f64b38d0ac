/** The transactional source reconciler (internal/reconcile/manager.go).

    `Catalogs` is the engine as the reconciler sees it: which alias is attached, and for whom.
    Every forward call may fail, as `fails` decides call by call; a call that fails leaves the
    catalogs as they were. The calls made while undoing fail only when they cannot apply. */
module Reconcile {
  import opened Sources
  import opened Fingerprints
  import opened Ordering

  /** What occupies an attached alias: the definition's id and the configuration it stands for. */
  datatype Mount = Mount(id: string, fingerprint: Digest)

  /** `activeSource` and `preparedSource`; the adapter is determined by the fingerprint. */
  datatype Candidate = Candidate(definition: Definition, fingerprint: Digest) {
    function Alias(): string { definition.alias }
    function ToMount(): Mount { Mount(definition.id, fingerprint) }
  }

  type Mounts = map<string, Mount>
  type SourceSet = map<string, Candidate>

  /** Everything a reload may change. `strays` are staged aliases whose own cleanup failed. */
  datatype State = State(attached: Mounts, active: SourceSet, strays: Mounts)

  // ---------------------------------------------------------------- the invariant

  /** The attached catalogs are exactly the active definitions and the strays, and no two
      of them share an alias. */
  ghost predicate Holds(s: State) {
    && (forall a :: a in s.strays ==> a in s.attached && s.attached[a] == s.strays[a])
    && (forall id :: id in s.active ==>
          && s.active[id].definition.id == id
          && s.active[id].Alias() !in s.strays
          && s.active[id].Alias() in s.attached
          && s.attached[s.active[id].Alias()] == s.active[id].ToMount())
    && (forall a :: a in s.attached && a !in s.strays ==>
          s.attached[a].id in s.active && s.active[s.attached[a].id].Alias() == a)
  }

  lemma ActiveAliasesDistinct(s: State, i: string, j: string)
    requires Holds(s) && i in s.active && j in s.active && i != j
    ensures s.active[i].Alias() != s.active[j].Alias()
  {
  }

  /** Prepared candidates are filed under their own ids. */
  ghost predicate Filed(prepared: SourceSet) {
    forall id :: id in prepared ==> prepared[id].definition.id == id
  }

  /** The source is configured as it already runs. */
  predicate Unchanged(active: SourceSet, prepared: SourceSet, id: string) {
    id in active && id in prepared && active[id].fingerprint == prepared[id].fingerprint
  }

  ghost function KeptAliases(active: SourceSet, prepared: SourceSet): set<string> {
    set id | id in active && Unchanged(active, prepared, id) :: active[id].Alias()
  }

  predicate Settled(active: SourceSet, prepared: SourceSet) {
    active.Keys == prepared.Keys && forall id :: id in prepared ==> Unchanged(active, prepared, id)
  }

  /** What a successful reload makes active. */
  function Target(active: SourceSet, prepared: SourceSet): SourceSet {
    map id | id in prepared :: if Unchanged(active, prepared, id) then active[id] else prepared[id]
  }

  function StagedDefinition(c: Candidate): Definition {
    c.definition.(id := "stage_" + c.definition.id, alias := StageAlias(c.Alias(), c.fingerprint))
  }

  function StagedMount(c: Candidate): Mount {
    Mount("stage_" + c.definition.id, c.fingerprint)
  }

  /** How `apply` ended. `StagedCleanupFailed` names the source whose staged copy could not be
      detached again; every other failure is alike. */
  datatype Ending = Applied | StagedCleanupFailed(id: string) | OtherFailure

  /** The source runs now and is configured differently, so it is tried under a staging alias. */
  predicate Replaced(active: SourceSet, prepared: SourceSet, id: string) {
    id in active && id in prepared && !Unchanged(active, prepared, id)
  }

  function StageOf(c: Candidate): string {
    StageAlias(c.Alias(), c.fingerprint)
  }

  /** The one way a failed reload may leave something behind: the staged copy of a replaced
      source stays attached under its staging alias. */
  ghost predicate StrayLeft(s: State, prepared: SourceSet, id: string, t: State) {
    && Replaced(s.active, prepared, id)
    && var alias := StageOf(prepared[id]);
       && alias !in s.strays
       && t == s.(attached := s.attached[alias := StagedMount(prepared[id])],
                  strays := s.strays[alias := StagedMount(prepared[id])])
  }

  /** What `apply` promises of every prepared set and every failure. */
  ghost predicate Outcome(s: State, prepared: SourceSet, ending: Ending, t: State) {
    match ending
    case Applied =>
      Holds(t) && t.active == Target(s.active, prepared) && t.strays == s.strays && Admissible(s, prepared)
    case StagedCleanupFailed(id) => StrayLeft(s, prepared, id, t)
    case OtherFailure => t == s
  }

  // ---------------------------------------------------------------- which reloads can succeed

  /** A source may take an alias that another active source holds only if that other source is
      itself being replaced, earlier in the order of ids. A removal comes too late. */
  predicate Movable(active: SourceSet, prepared: SourceSet, id: string)
    requires id in prepared
  {
    Unchanged(active, prepared, id) ||
    forall j :: j in active && j != id && active[j].Alias() == prepared[id].Alias() ==>
      j in prepared && !Unchanged(active, prepared, j) && Lt(j, id)
  }

  /** No stray occupies the staging alias the source would be tried under. */
  predicate Stageable(s: State, prepared: SourceSet, id: string)
    requires id in prepared
  {
    Replaced(s.active, prepared, id) ==> StageOf(prepared[id]) !in s.strays
  }

  predicate Admissible(s: State, prepared: SourceSet) {
    forall id :: id in prepared ==> Movable(s.active, prepared, id) && Stageable(s, prepared, id)
  }

  /** Validation lets through only snapshots with distinct aliases; `Clean` adds that nothing but
      strays uses the reconciler's own staging prefix. */
  ghost predicate Clean(s: State, prepared: SourceSet) {
    && (forall a :: a in s.strays ==> StagePrefixed(a))
    && Unstaged(s.active) && Unstaged(prepared)
    && (forall i, j :: i in prepared && j in prepared && i != j ==> prepared[i].Alias() != prepared[j].Alias())
  }

  ghost predicate Unstaged(sources: SourceSet) {
    forall id :: id in sources ==> !StagePrefixed(sources[id].Alias())
  }

  // ---------------------------------------------------------------- the undo stack

  datatype Undo =
    | Drop(added: Candidate)
    | SwapBack(added: Candidate, former: Candidate)
    | Restore(former: Candidate)

  function Unmounted(m: Mounts, c: Candidate): Mounts { m - {c.Alias()} }

  function Remounted(m: Mounts, c: Candidate): Mounts {
    if c.Alias() in m then m else m[c.Alias() := c.ToMount()]
  }

  function Undone(u: Undo, m: Mounts): Mounts {
    match u
    case Drop(added) => Unmounted(m, added)
    case SwapBack(added, former) => Remounted(Unmounted(m, added), former)
    case Restore(former) => Remounted(m, former)
  }

  /** Undo steps replayed last first. */
  function Replay(undo: seq<Undo>, m: Mounts): Mounts {
    if undo == [] then m else Replay(undo[..|undo| - 1], Undone(undo[|undo| - 1], m))
  }

  /** The same steps replayed in the order they were recorded. */
  function ReplayForwards(undo: seq<Undo>, m: Mounts): Mounts {
    if undo == [] then m else ReplayForwards(undo[1..], Undone(undo[0], m))
  }

  predicate Drops(u: Undo, alias: string) {
    !u.Restore? && u.added.Alias() == alias
  }

  /** Replaying around an alias that is stuck attached restores everything else: the stuck
      alias neither disturbs nor is disturbed by the other steps. */
  lemma {:induction false} ReplayAround(undo: seq<Undo>, m: Mounts, alias: string, x: Mount)
    requires forall i :: 0 <= i < |undo| ==> !Drops(undo[i], alias)
    ensures Replay(undo, m[alias := x]) == Replay(undo, m)[alias := x]
  {
    if undo != [] {
      var u, rest := undo[|undo| - 1], undo[..|undo| - 1];
      assert !Drops(u, alias);
      assert Undone(u, m[alias := x])[alias := x] == Undone(u, m)[alias := x] == Undone(u, m[alias := x]);
      ReplayAround(rest, Undone(u, m), alias, x);
    }
  }

  /** Two sources hand an alias on in one reload: `a` moves from x to z, then `b` moves from y
      to x. Undone last first, both come back; undone in recorded order, `a` is lost. */
  lemma OnlyBackwardsRestores(a: Candidate, a': Candidate, b: Candidate, b': Candidate)
    requires a.Alias() == b'.Alias()
    requires a.Alias() != b.Alias() && a'.Alias() !in {a.Alias(), b.Alias()}
    ensures var before := map[a.Alias() := a.ToMount(), b.Alias() := b.ToMount()];
            var after := map[a'.Alias() := a'.ToMount(), b'.Alias() := b'.ToMount()];
            var undo := [SwapBack(a', a), SwapBack(b', b)];
            && Replay(undo, after) == before
            && ReplayForwards(undo, after) == map[b.Alias() := b.ToMount()]
  {
    var x, y, z := a.Alias(), b.Alias(), a'.Alias();
    var after := map[z := a'.ToMount(), x := b'.ToMount()];
    var undo := [SwapBack(a', a), SwapBack(b', b)];
    assert undo[..1] == [SwapBack(a', a)] && undo[1..] == [SwapBack(b', b)];
    assert undo[..1][..0] == [] && undo[1..][1..] == [];
    assert Undone(undo[1], after) == map[z := a'.ToMount(), y := b.ToMount()];
    assert Undone(undo[0], after) == map[x := b'.ToMount()];
    assert Replay(undo, after) == Replay(undo[..1], Undone(undo[1], after));
    assert Replay(undo[..1], Undone(undo[1], after)) == Undone(undo[0], Undone(undo[1], after));
    assert ReplayForwards(undo, after) == ReplayForwards(undo[1..], Undone(undo[0], after));
    assert ReplayForwards(undo[1..], Undone(undo[0], after)) == Undone(undo[1], Undone(undo[0], after));
  }

  // ---------------------------------------------------------------- inside one reload

  /** The sources as they stand once the ids of `done` are processed, those of `gone` are
      removed, and the others are as they were. */
  function Midway(active: SourceSet, prepared: SourceSet, done: set<string>, gone: set<string>): SourceSet
    requires done <= prepared.Keys
  {
    (active - done - gone) + map id | id in done :: Target(active, prepared)[id]
  }

  /** What holds between any two calls of `apply`: the invariant for the sources as they then
      stand, an undo stack that leads back to the start, and undo steps that only take away
      what this reload put there. */
  ghost predicate Midpoint(s: State, prepared: SourceSet, done: set<string>, gone: set<string>,
                           undo: seq<Undo>, m: Mounts)
  {
    && done <= prepared.Keys && gone <= s.active.Keys - prepared.Keys
    && Holds(State(m, Midway(s.active, prepared, done, gone), s.strays))
    && Recorded(s, prepared, done, undo, m)
  }

  ghost predicate Recorded(s: State, prepared: SourceSet, done: set<string>, undo: seq<Undo>, m: Mounts)
    requires done <= prepared.Keys
  {
    && Replay(undo, m) == s.attached
    && forall i :: 0 <= i < |undo| ==> UndoesOwn(s, prepared, done, undo[i])
  }

  /** Pushing the step that takes `m'` back to `m` keeps the stack leading back to the start. */
  lemma Record(s: State, prepared: SourceSet, done: set<string>, done': set<string>,
               undo: seq<Undo>, m: Mounts, u: Undo, m': Mounts)
    requires done <= done' <= prepared.Keys && Recorded(s, prepared, done, undo, m)
    requires Undone(u, m') == m && UndoesOwn(s, prepared, done', u)
    ensures Recorded(s, prepared, done', undo + [u], m')
  {
  }

  ghost predicate UndoesOwn(s: State, prepared: SourceSet, done: set<string>, u: Undo)
    requires done <= prepared.Keys
  {
    u.Restore? ||
    exists id :: id in done && !Unchanged(s.active, prepared, id) && u.added == prepared[id]
  }

  lemma MountHolds(s: State, id: string, c: Candidate)
    requires Holds(s) && c.definition.id == id && id !in s.active && c.Alias() !in s.attached
    ensures Holds(State(s.attached[c.Alias() := c.ToMount()], s.active[id := c], s.strays))
  {
  }

  lemma UnmountHolds(s: State, id: string)
    requires Holds(s) && id in s.active
    ensures Holds(State(Unmounted(s.attached, s.active[id]), s.active - {id}, s.strays))
    ensures Remounted(Unmounted(s.attached, s.active[id]), s.active[id]) == s.attached
  {
  }

  lemma SwapHolds(s: State, id: string, c: Candidate)
    requires Holds(s) && id in s.active && c.definition.id == id
    requires c.Alias() !in Unmounted(s.attached, s.active[id])
    ensures Holds(State(Unmounted(s.attached, s.active[id])[c.Alias() := c.ToMount()], s.active[id := c], s.strays))
    ensures var after := Unmounted(s.attached, s.active[id])[c.Alias() := c.ToMount()];
            Undone(SwapBack(c, s.active[id]), after) == s.attached
  {
    var between := State(Unmounted(s.attached, s.active[id]), s.active - {id}, s.strays);
    UnmountHolds(s, id);
    MountHolds(between, id, c);
    assert between.active[id := c] == s.active[id := c];
    assert Unmounted(between.attached[c.Alias() := c.ToMount()], c) == between.attached;
  }

  lemma MidwayDone(active: SourceSet, prepared: SourceSet, done: set<string>, id: string)
    requires done <= prepared.Keys && id in prepared && id !in done
    ensures Midway(active, prepared, done + {id}, {}) ==
              Midway(active, prepared, done, {})[id := Target(active, prepared)[id]]
    ensures id in active ==>
              id in Midway(active, prepared, done, {}) && Midway(active, prepared, done, {})[id] == active[id]
    ensures id !in active ==> id !in Midway(active, prepared, done, {})
  {
  }

  lemma MidwayGone(active: SourceSet, prepared: SourceSet, gone: set<string>, id: string)
    requires id in active && id !in prepared && id !in gone
    ensures var now := Midway(active, prepared, prepared.Keys, gone);
            && id in now && now[id] == active[id]
            && Midway(active, prepared, prepared.Keys, gone + {id}) == now - {id}
  {
  }

  lemma KeepStep(s: State, prepared: SourceSet, done: set<string>, undo: seq<Undo>, m: Mounts, id: string)
    requires Midpoint(s, prepared, done, {}, undo, m)
    requires id !in done && Unchanged(s.active, prepared, id)
    ensures Midpoint(s, prepared, done + {id}, {}, undo, m)
  {
    var now := Midway(s.active, prepared, done, {});
    MidwayDone(s.active, prepared, done, id);
    assert now[id := s.active[id]] == now;
    OwnGrows(s, prepared, done, undo, id);
  }

  lemma AddStep(s: State, prepared: SourceSet, done: set<string>, undo: seq<Undo>, m: Mounts, id: string)
    requires Midpoint(s, prepared, done, {}, undo, m) && Filed(prepared)
    requires id in prepared && id !in done && id !in s.active && prepared[id].Alias() !in m
    ensures Midpoint(s, prepared, done + {id}, {}, undo + [Drop(prepared[id])],
                     m[prepared[id].Alias() := prepared[id].ToMount()])
  {
    hide Holds, Midway, Recorded;
    var c := prepared[id];
    var m' := m[c.Alias() := c.ToMount()];
    MidwayDone(s.active, prepared, done, id);
    MountHolds(State(m, Midway(s.active, prepared, done, {}), s.strays), id, c);
    assert Undone(Drop(c), m') == m;
    Record(s, prepared, done, done + {id}, undo, m, Drop(c), m');
  }

  lemma SwapStep(s: State, prepared: SourceSet, done: set<string>, undo: seq<Undo>, m: Mounts, id: string)
    requires Midpoint(s, prepared, done, {}, undo, m) && Filed(prepared)
    requires id in prepared && id !in done && id in s.active && !Unchanged(s.active, prepared, id)
    requires prepared[id].Alias() !in Unmounted(m, s.active[id])
    ensures Midpoint(s, prepared, done + {id}, {}, undo + [SwapBack(prepared[id], s.active[id])],
                     Unmounted(m, s.active[id])[prepared[id].Alias() := prepared[id].ToMount()])
  {
    hide Holds, Midway, Recorded;
    var c, former := prepared[id], s.active[id];
    var m' := Unmounted(m, former)[c.Alias() := c.ToMount()];
    MidwayDone(s.active, prepared, done, id);
    SwapHolds(State(m, Midway(s.active, prepared, done, {}), s.strays), id, c);
    Record(s, prepared, done, done + {id}, undo, m, SwapBack(c, former), m');
  }

  lemma RemoveStep(s: State, prepared: SourceSet, gone: set<string>, undo: seq<Undo>, m: Mounts, id: string)
    requires Midpoint(s, prepared, prepared.Keys, gone, undo, m)
    requires id in s.active && id !in prepared && id !in gone
    ensures Midpoint(s, prepared, prepared.Keys, gone + {id}, undo + [Restore(s.active[id])],
                     Unmounted(m, s.active[id]))
  {
    hide Holds, Midway, Recorded;
    MidwayGone(s.active, prepared, gone, id);
    UnmountHolds(State(m, Midway(s.active, prepared, prepared.Keys, gone), s.strays), id);
    Record(s, prepared, prepared.Keys, prepared.Keys, undo, m, Restore(s.active[id]), Unmounted(m, s.active[id]));
  }

  lemma OwnGrows(s: State, prepared: SourceSet, done: set<string>, undo: seq<Undo>, id: string)
    requires done <= prepared.Keys && id in prepared
    requires forall i :: 0 <= i < |undo| ==> UndoesOwn(s, prepared, done, undo[i])
    ensures forall i :: 0 <= i < |undo| ==> UndoesOwn(s, prepared, done + {id}, undo[i])
  {
  }

  /** An undo step takes away only aliases that are attached now and belong to a changed source,
      so neither a free alias nor a kept one. */
  lemma DropsOwnOnly(s: State, prepared: SourceSet, done: set<string>, gone: set<string>,
                     undo: seq<Undo>, m: Mounts, alias: string)
    requires Midpoint(s, prepared, done, gone, undo, m) && Filed(prepared)
    requires alias !in m || alias in KeptAliases(s.active, prepared)
    ensures forall i :: 0 <= i < |undo| ==> !Drops(undo[i], alias)
    ensures alias in KeptAliases(s.active, prepared) ==> alias in m
  {
    var now := Midway(s.active, prepared, done, gone);
    if alias in KeptAliases(s.active, prepared) {
      var k :| k in s.active && Unchanged(s.active, prepared, k) && s.active[k].Alias() == alias;
      assert k in now && now[k] == s.active[k];
    }
    forall i | 0 <= i < |undo| ensures !Drops(undo[i], alias) {
      if !undo[i].Restore? {
        assert UndoesOwn(s, prepared, done, undo[i]);
        var id :| id in done && !Unchanged(s.active, prepared, id) && undo[i].added == prepared[id];
        assert now[id] == prepared[id];
      }
    }
  }

  // ---------------------------------------------------------------- refused reloads

  /** When `id` is about to be attached, an alias nobody holds makes it movable; if the snapshot's
      aliases are distinct, being movable means that nobody holds the alias. */
  lemma FreeIffMovable(s: State, prepared: SourceSet, done: set<string>, id: string, now: SourceSet)
    requires done <= prepared.Keys && now == Midway(s.active, prepared, done, {})
    requires id in prepared && id !in done && !Unchanged(s.active, prepared, id)
    requires forall j :: j in done <==> j in prepared && Lt(j, id)
    ensures (forall j :: j in now && j != id ==> now[j].Alias() != prepared[id].Alias()) ==>
              Movable(s.active, prepared, id)
    ensures Clean(s, prepared) && Movable(s.active, prepared, id) ==>
              forall j :: j in now && j != id ==> now[j].Alias() != prepared[id].Alias()
  {
    assert forall j :: j in s.active && (j !in done || Unchanged(s.active, prepared, j)) ==>
                         j in now && now[j] == s.active[j];
    assert forall j :: j in done && !Unchanged(s.active, prepared, j) ==>
                         j in now && now[j] == prepared[j];
    var alias := prepared[id].Alias();
    if Movable(s.active, prepared, id) && Clean(s, prepared) {
      forall j | j in now && j != id ensures now[j].Alias() != alias {
        assert j !in done || Unchanged(s.active, prepared, j) ==> now[j] == s.active[j];
      }
    }
    if forall j :: j in now && j != id ==> now[j].Alias() != alias {
      forall j | j in s.active && j != id && s.active[j].Alias() == alias
        ensures j in prepared && !Unchanged(s.active, prepared, j) && Lt(j, id)
      {
      }
    }
  }

  /** A reload in which two sources trade aliases is never applied. */
  lemma TradedAliasesRefused(s: State, prepared: SourceSet, ending: Ending, t: State, a: string, b: string)
    requires Outcome(s, prepared, ending, t)
    requires a in s.active && a in prepared && b in s.active && b in prepared && a != b
    requires prepared[a].Alias() == s.active[b].Alias() && prepared[b].Alias() == s.active[a].Alias()
    requires !Unchanged(s.active, prepared, a) && !Unchanged(s.active, prepared, b)
    ensures !ending.Applied?
  {
    if ending.Applied? {
      assert Movable(s.active, prepared, a) && Movable(s.active, prepared, b);
      LtTransitive(a, b, a);
      LtIrreflexive(a);
    }
  }

  /** A reload in which a new or changed source takes over the alias of one it removes is never
      applied. */
  lemma TakenOverAliasRefused(s: State, prepared: SourceSet, ending: Ending, t: State, gone: string, heir: string)
    requires Outcome(s, prepared, ending, t)
    requires gone in s.active && gone !in prepared && heir in prepared
    requires prepared[heir].Alias() == s.active[gone].Alias()
    requires !Unchanged(s.active, prepared, heir)
    ensures !ending.Applied?
  {
  }

  /** Two reloads do it: once one without the heir is applied, the same snapshot with the heir on
      the alias that has become free is admissible. */
  lemma TakenOverInTwo(s: State, first: SourceSet, t: State, c: Candidate)
    requires Outcome(s, first, Applied, t) && Filed(first) && c.definition.id !in first
    requires forall id :: id in first ==> first[id].Alias() != c.Alias()
    requires forall id :: id in first && Unchanged(s.active, first, id) ==> s.active[id].Alias() != c.Alias()
    ensures Admissible(t, first[c.definition.id := c])
  {
    var second := first[c.definition.id := c];
    forall id | id in second ensures Movable(t.active, second, id) && Stageable(t, second, id) {
      assert id in first ==> Unchanged(t.active, second, id);
    }
  }

  // ---------------------------------------------------------------- whole runs

  /** A failed staged cleanup leaves exactly the staged copy and rolls everything else back. It
      keeps the invariant if and only if nothing was attached under the staging alias before.
      Every other failure leaves nothing. */
  lemma StrayIsTheOnlyException(s: State, prepared: SourceSet, ending: Ending, t: State)
    requires Holds(s) && Filed(prepared) && Outcome(s, prepared, ending, t) && !ending.Applied?
    ensures t != s ==> ending.StagedCleanupFailed?
    ensures ending.StagedCleanupFailed? ==> Replaced(s.active, prepared, ending.id) && t.active == s.active
    ensures ending.StagedCleanupFailed? ==>
              var alias := StageOf(prepared[ending.id]);
              && (forall a :: a in s.attached && a != alias ==> a in t.attached && t.attached[a] == s.attached[a])
              && t.attached.Keys == s.attached.Keys + {alias}
              && (Holds(t) <==> alias !in s.attached)
  {
  }

  /** A run: each state follows from the one before by one reload, successful or not. */
  ghost predicate Run(trace: seq<State>, snapshots: seq<SourceSet>, endings: seq<Ending>) {
    && |trace| == |snapshots| + 1 == |endings| + 1
    && forall i :: 0 <= i < |snapshots| ==> Outcome(trace[i], snapshots[i], endings[i], trace[i + 1])
  }

  ghost predicate OrdinarySnapshots(snapshots: seq<SourceSet>) {
    forall i :: 0 <= i < |snapshots| ==> Filed(snapshots[i]) && Unstaged(snapshots[i])
  }

  /** The part of the invariant that says strays stay under staging aliases. */
  ghost predicate HoldsApart(s: State) {
    Holds(s) && Unstaged(s.active) && forall a :: a in s.strays ==> StagePrefixed(a)
  }

  lemma OutcomeHoldsApart(s: State, prepared: SourceSet, ending: Ending, t: State)
    requires HoldsApart(s) && Filed(prepared) && Unstaged(prepared) && Outcome(s, prepared, ending, t)
    ensures HoldsApart(t)
    ensures ending.Applied? ==> Settled(t.active, prepared)
    ensures !ending.Applied? ==> t.active == s.active
  {
    if ending.StagedCleanupFailed? {
      StageAliasPrefixed(prepared[ending.id].Alias(), prepared[ending.id].fingerprint);
      StrayIsTheOnlyException(s, prepared, ending, t);
    }
  }

  /** Over any run of reloads, failing wherever they may, the catalogs are exactly the active
      sources plus strays; a success makes the snapshot's ids and fingerprints active, and a
      failure leaves the active set alone. */
  lemma {:induction false} EveryRunHolds(trace: seq<State>, snapshots: seq<SourceSet>, endings: seq<Ending>)
    requires Run(trace, snapshots, endings) && OrdinarySnapshots(snapshots) && HoldsApart(trace[0])
    ensures forall i :: 0 <= i < |trace| ==> HoldsApart(trace[i])
    ensures forall i :: 0 <= i < |endings| && endings[i].Applied? ==> Settled(trace[i + 1].active, snapshots[i])
    ensures forall i :: 0 <= i < |endings| && !endings[i].Applied? ==> trace[i + 1].active == trace[i].active
  {
    if snapshots != [] {
      var n := |snapshots| - 1;
      EveryRunHolds(trace[..n + 1], snapshots[..n], endings[..n]);
      assert trace[..n + 1][n] == trace[n];
      assert Outcome(trace[n], snapshots[n], endings[n], trace[n + 1]);
      OutcomeHoldsApart(trace[n], snapshots[n], endings[n], trace[n + 1]);
      forall i | 0 <= i < |trace| ensures HoldsApart(trace[i]) {
        if i <= n { assert trace[..n + 1][i] == trace[i]; }
      }
      forall i | 0 <= i < |endings|
        ensures if endings[i].Applied? then Settled(trace[i + 1].active, snapshots[i])
                else trace[i + 1].active == trace[i].active
      {
        if i < n {
          assert trace[..n + 1][i] == trace[i] && trace[..n + 1][i + 1] == trace[i + 1];
          assert endings[..n][i] == endings[i] && snapshots[..n][i] == snapshots[i];
        }
      }
    }
  }

  /** A source every snapshot of a run configures the same way stays attached, unreplaced,
      under its alias in every state of the run. */
  lemma {:induction false} UnchangedSourceStays(
      trace: seq<State>, snapshots: seq<SourceSet>, endings: seq<Ending>, id: string, i: nat)
    requires Run(trace, snapshots, endings) && OrdinarySnapshots(snapshots) && HoldsApart(trace[0])
    requires id in trace[0].active && i < |trace|
    requires forall k :: 0 <= k < |snapshots| ==> Unchanged(trace[0].active, snapshots[k], id)
    ensures id in trace[i].active && trace[i].active[id] == trace[0].active[id]
    ensures var a := trace[0].active[id].Alias();
            a in trace[i].attached && trace[i].attached[a] == trace[0].attached[a]
  {
    EveryRunHolds(trace, snapshots, endings);
    if i > 0 {
      UnchangedSourceStays(trace, snapshots, endings, id, i - 1);
      assert Outcome(trace[i - 1], snapshots[i - 1], endings[i - 1], trace[i]);
      assert Unchanged(trace[i - 1].active, snapshots[i - 1], id);
    }
    assert HoldsApart(trace[i]) && HoldsApart(trace[0]);
  }

  /** Strays never go away during a run. */
  lemma {:induction false} StraysStay(
      trace: seq<State>, snapshots: seq<SourceSet>, endings: seq<Ending>, i: nat, j: nat)
    requires Run(trace, snapshots, endings) && i <= j < |trace|
    ensures trace[i].strays.Keys <= trace[j].strays.Keys
  {
    if i < j {
      StraysStay(trace, snapshots, endings, i, j - 1);
      assert Outcome(trace[j - 1], snapshots[j - 1], endings[j - 1], trace[j]);
    }
  }

  /** Once the staged copy of a candidate is stuck, every later reload of the run that would
      replace a source by a candidate with the same alias and fingerprint fails: its staging alias
      is taken for good. */
  lemma StrayBlocksRetries(trace: seq<State>, snapshots: seq<SourceSet>, endings: seq<Ending>,
                           i: nat, id: string, j: nat, other: string)
    requires Run(trace, snapshots, endings) && i < j < |endings|
    requires endings[i] == StagedCleanupFailed(id) && Replaced(trace[j].active, snapshots[j], other)
    requires id in snapshots[i]
    requires snapshots[j][other].Alias() == snapshots[i][id].Alias()
    requires snapshots[j][other].fingerprint == snapshots[i][id].fingerprint
    ensures !endings[j].Applied?
  {
    StraysStay(trace, snapshots, endings, i + 1, j);
    assert Outcome(trace[i], snapshots[i], endings[i], trace[i + 1]);
    assert Outcome(trace[j], snapshots[j], endings[j], trace[j + 1]);
    assert !Stageable(trace[j], snapshots[j], other);
  }
}
