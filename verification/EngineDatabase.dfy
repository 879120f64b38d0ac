/** What one engine keeps in its database: attached catalogs, ephemeral secrets, the source
    registry and ODBC connection handles (internal/engine/engine.go:239-386, 447-472, 519-537).

    `fails` decides the outcome of each SQL call a caller checks. Calls whose error the program
    drops (compensating DETACH, DROP SECRET, DELETE, odbc_close) succeed when they apply. */
module EngineDatabase {
  import opened Sources

  datatype Attachment = Attachment(
    sourceId: string, alias: string, kind: string, secret: bool, secretPrintable: bool)

  datatype OdbcObject = OdbcObject(schema: string, name: string, kind: string)

  datatype OdbcAttachment = OdbcAttachment(
    sourceId: string, alias: string, databaseType: string, objects: seq<OdbcObject>)

  predicate SafeCatalogIdentifier(s: string) { s != "" && |s| <= 255 && '\0' !in s }

  predicate SafeObject(o: OdbcObject) {
    SafeCatalogIdentifier(o.schema) && SafeCatalogIdentifier(o.name) && (o.kind == "table" || o.kind == "view")
  }

  /** How an attach goes, from the state it finds and the calls that will fail. `next` is the index
      of the call after it. */
  datatype Fate =
    | Refused(next: nat)       // invalid identifiers or no engine: nothing is called
    | Recorded(next: nat)      // failed before or at the ATTACH; the last call records the failure
    | NotListed(next: nat)    // the registry row was refused
    | Listed(next: nat)        // the row is in, but its object types failed
    | Attached(next: nat)

  function FateOf(a: Attachment, open: bool, catalogs: map<string, string>, registry: map<string, string>,
                  fails: nat -> bool, c: nat): Fate
  {
    var mount := if a.secret then c + 2 else c + 1;
    if !open || !ValidIdentifier(a.alias) || !ValidIdentifier(a.kind) then Refused(c)
    else if fails(c) || (a.secret && !a.secretPrintable) then Recorded(c + 2)
    else if a.secret && fails(c + 1) then Recorded(c + 3)
    else MountFate(a, catalogs, registry, fails, mount)
  }

  function MountFate(a: Attachment, catalogs: map<string, string>, registry: map<string, string>,
                     fails: nat -> bool, mount: nat): Fate
  {
    if fails(mount) || a.alias in catalogs then Recorded(mount + 2)
    else if fails(mount + 1) || !Nameable(a.sourceId, a.alias, registry) then NotListed(mount + 2)
    else if fails(mount + 2) then Listed(mount + 3)
    else Attached(mount + 4)
  }

  /** Whether a failed attach leaves a registry row for its source: its recording went through, or
      only the object types failed. */
  predicate LeavesRow(a: Attachment, fate: Fate, registry: map<string, string>, fails: nat -> bool) {
    fate.Listed? ||
    (fate.Recorded? && fate.next > 0 && !fails(fate.next - 1) && Nameable(a.sourceId, a.alias, registry))
  }

  class Database {
    var open: bool
    var catalogs: map<string, string>  // alias -> id of the source attached there
    var secrets: set<string>           // aliases that own a secret
    var registry: map<string, string>  // quackridge_sources: source_id -> catalog_name
    var openHandles: set<int>          // ODBC connections open in the database
    var odbcHandles: map<string, int>  // the engine's record of them, by source id
    var calls: nat
    const fails: nat -> bool

    constructor (fails: nat -> bool)
      ensures Valid() && open && catalogs == map[] && registry == map[] && this.fails == fails && calls == 0
    {
      open, catalogs, secrets, registry := true, map[], {}, map[];
      openHandles, odbcHandles, calls := {}, map[], 0;
      this.fails := fails;
    }

    /** Apart from the handles in `extra`, every open handle is recorded for exactly one source.
        Every recorded handle is open, a source with a handle has its registry row, and a catalog
        name is registered once. */
    ghost predicate ValidWith(extra: set<int>)
      reads this`open, this`catalogs, this`registry, this`openHandles, this`odbcHandles
    {
      && openHandles == odbcHandles.Values + extra && odbcHandles.Values !! extra
      && (forall i, j :: i in odbcHandles && j in odbcHandles && odbcHandles[i] == odbcHandles[j] ==> i == j)
      && odbcHandles.Keys <= registry.Keys
      && (forall i, j :: i in registry && j in registry && registry[i] == registry[j] ==> i == j)
      && (!open ==> odbcHandles == map[] && catalogs == map[])
    }

    ghost predicate Valid()
      reads this`open, this`catalogs, this`registry, this`openHandles, this`odbcHandles
    {
      ValidWith({})
    }

    /** None of the next `count` calls from the n-th on fails. */
    ghost predicate Quiet(n: nat, count: nat) {
      forall m :: n <= m < n + count ==> !fails(m)
    }

    method Fails() returns (f: bool)
      modifies this`calls
      ensures f == fails(old(calls)) && calls == old(calls) + 1
    {
      f := fails(calls);
      calls := calls + 1;
    }

    /** `ATTACH ... AS alias`. */
    method AttachCatalog(alias: string, id: string, ghost extra: set<int>) returns (ok: bool)
      requires ValidWith(extra) && open
      modifies this`calls, this`catalogs
      ensures ValidWith(extra)
      ensures ok <==> alias !in old(catalogs) && !fails(old(calls))
      ensures catalogs == if ok then old(catalogs)[alias := id] else old(catalogs)
      ensures calls == old(calls) + 1
    {
      var f := Fails();
      ok := !f && alias !in catalogs;
      if ok {
        catalogs := catalogs[alias := id];
      }
    }

    /** The compensating `DETACH`. */
    method DropCatalog(alias: string)
      requires Valid()
      modifies this`catalogs
      ensures Valid() && catalogs == old(catalogs) - {alias}
    {
      catalogs := catalogs - {alias};
    }

    /** `INSERT ... ON CONFLICT (source_id) DO UPDATE`: refused if another source has the name. */
    method Upsert(id: string, alias: string) returns (ok: bool)
      requires Valid()
      modifies this`calls, this`registry
      ensures Valid() && registry == if ok then old(registry)[id := alias] else old(registry)
      ensures ok <==> !fails(old(calls)) && Nameable(id, alias, old(registry))
      ensures calls == old(calls) + 1
    {
      var f := Fails();
      ok := !f && Nameable(id, alias, registry);
      if ok {
        registry := registry[id := alias];
      }
    }

    /** `INSERT` without a conflict clause: refused if the source or the name is there already. */
    method Insert(id: string, alias: string, ghost extra: set<int>) returns (ok: bool)
      requires ValidWith(extra) && open
      modifies this`calls, this`registry
      ensures ValidWith(extra) && registry == if ok then old(registry)[id := alias] else old(registry)
      ensures ok <==> !fails(old(calls)) && Unregistered(id, alias, old(registry))
      ensures calls == old(calls) + 1
    {
      var f := Fails();
      ok := !f && Unregistered(id, alias, registry);
      if ok {
        registry := registry[id := alias];
      }
    }

    /** Attaching a database. Most failures are recorded in the registry as an unavailable
        source, if that insert goes through; `rowLeft` says whether a failure left a row. */
    method Attach(a: Attachment) returns (ok: bool, rowLeft: bool)
      requires Valid()
      modifies this`calls, this`catalogs, this`registry, this`secrets
      ensures Valid() && AllOrNothing(old(catalogs), a.alias, a.sourceId, ok, catalogs)
      ensures var fate := FateOf(a, open, old(catalogs), old(registry), fails, old(calls));
              && calls == fate.next
              && (ok <==> fate.Attached?)
              && (rowLeft <==> LeavesRow(a, fate, old(registry), fails))
      ensures registry == if ok || rowLeft then old(registry)[a.sourceId := a.alias] else old(registry)
      ensures secrets ==
                if !a.secret || !open || !ValidIdentifier(a.alias) || !ValidIdentifier(a.kind) || !a.secretPrintable
                   || fails(old(calls)) || fails(old(calls) + 1) then old(secrets)
                else if fails(old(calls) + 2) || a.alias in old(catalogs) then old(secrets) - {a.alias}
                else old(secrets) + {a.alias}
    {
      hide ValidIdentifier, Nameable, Database.ValidWith;
      if !open || !ValidIdentifier(a.alias) || !ValidIdentifier(a.kind) {
        return false, false;
      }
      var f := Fails();
      if f || (a.secret && !a.secretPrintable) {
        rowLeft := Upsert(a.sourceId, a.alias);
        return false, rowLeft;
      }
      if a.secret {
        f := Fails();
        if f {
          rowLeft := Upsert(a.sourceId, a.alias);
          return false, rowLeft;
        }
        secrets := secrets + {a.alias};
      }
      ok, rowLeft := MountAndRegister(a);
    }

    /** `ATTACH`, then the registry row, then the object types; detached again if those fail. */
    method MountAndRegister(a: Attachment) returns (ok: bool, rowLeft: bool)
      requires Valid() && open
      modifies this`calls, this`catalogs, this`registry, this`secrets
      ensures Valid() && AllOrNothing(old(catalogs), a.alias, a.sourceId, ok, catalogs)
      ensures var fate := MountFate(a, old(catalogs), old(registry), fails, old(calls));
              && calls == fate.next
              && (ok <==> fate.Attached?)
              && (rowLeft <==> LeavesRow(a, fate, old(registry), fails))
      ensures registry == if ok || rowLeft then old(registry)[a.sourceId := a.alias] else old(registry)
      ensures secrets == if a.secret && (fails(old(calls)) || a.alias in old(catalogs)) then old(secrets) - {a.alias}
                         else old(secrets)
    {
      hide ValidIdentifier, Database.ValidWith;
      rowLeft := false;
      ok := AttachCatalog(a.alias, a.sourceId, {});
      if !ok {
        secrets := if a.secret then secrets - {a.alias} else secrets;
        rowLeft := Upsert(a.sourceId, a.alias);
        return;
      }
      ok := Upsert(a.sourceId, a.alias);
      if !ok {
        DropCatalog(a.alias);
        return;
      }
      var f := Fails();
      if f {
        DropCatalog(a.alias);
        return false, true;
      }
      var _ := Upsert(a.sourceId, a.alias);
    }

    /** `odbc_connect` yields a handle that is not open yet. */
    method OdbcConnect() returns (ok: bool, handle: int)
      requires Valid() && open
      modifies this`calls, this`openHandles
      ensures ok <==> !fails(old(calls))
      ensures ok ==> ValidWith({handle}) && handle !in old(openHandles)
      ensures !ok ==> Valid()
      ensures openHandles == old(openHandles) + if ok then {handle} else {}
      ensures calls == old(calls) + 1
    {
      var f := Fails();
      ok, handle := !f, 0;
      if ok {
        ghost var passed: set<int> := {};
        while handle in openHandles
          invariant passed <= openHandles && forall h :: h in passed ==> h < handle
          decreases openHandles - passed
        {
          assert handle in openHandles - passed;
          passed, handle := passed + {handle}, handle + 1;
        }
        openHandles := openHandles + {handle};
      }
    }

    /** What every failure past the connection does: detach, then close the handle. */
    method Abandon(alias: string, handle: int)
      requires ValidWith({handle})
      modifies this`catalogs, this`openHandles
      ensures Valid() && catalogs == old(catalogs) - {alias} && openHandles == old(openHandles) - {handle}
    {
      catalogs, openHandles := catalogs - {alias}, openHandles - {handle};
    }

    method CloseOnly(handle: int)
      requires ValidWith({handle})
      modifies this`openHandles
      ensures Valid() && openHandles == old(openHandles) - {handle}
    {
      openHandles := openHandles - {handle};
    }

    method Keep(id: string, handle: int)
      requires ValidWith({handle}) && id in registry && id !in odbcHandles && open
      modifies this`odbcHandles
      ensures Valid() && odbcHandles == old(odbcHandles)[id := handle]
    {
      HandleAdded(odbcHandles, id, handle);
      odbcHandles := odbcHandles[id := handle];
    }

    /** The views of an ODBC catalog, one per discovered object. */
    method CreateViews(objects: seq<OdbcObject>) returns (ok: bool)
      modifies this`calls
      ensures ok <==> Quiet(old(calls), 2 * |objects|) && forall i :: 0 <= i < |objects| ==> SafeObject(objects[i])
      ensures calls >= old(calls) && (ok ==> calls == old(calls) + 2 * |objects|)
    {
      for i := 0 to |objects|
        invariant forall k :: 0 <= k < i ==> SafeObject(objects[k])
        invariant calls == old(calls) + 2 * i && Quiet(old(calls), 2 * i)
      {
        var schemaFails, viewFails := false, false;
        if SafeObject(objects[i]) {
          schemaFails := Fails();
          if !schemaFails {
            viewFails := Fails();
          }
        }
        if !SafeObject(objects[i]) || schemaFails || viewFails {
          return false;
        }
      }
      return true;
    }

    /** Attaching an ODBC source. Its registry insert has no conflict clause, so it is refused
        while any row for the source or its catalog name is left. */
    method AttachOdbc(a: OdbcAttachment) returns (ok: bool)
      requires Valid()
      modifies this`calls, this`catalogs, this`registry, this`openHandles, this`odbcHandles
      ensures Valid() && AllOrNothing(old(catalogs), a.alias, a.sourceId, ok, catalogs)
      ensures ok ==> a.sourceId in odbcHandles && odbcHandles[a.sourceId] !in old(openHandles)
      ensures ok ==> odbcHandles == old(odbcHandles)[a.sourceId := odbcHandles[a.sourceId]]
      ensures ok ==> registry == old(registry)[a.sourceId := a.alias]
      ensures !ok && registry != old(registry) ==>
                && Attachable(a, old(open), old(catalogs), old(registry))
                && registry == old(registry)[a.sourceId := a.alias] && fails(old(calls) + 4 + 2 * |a.objects|)
      ensures Quiet(old(calls), 4 + 2 * |a.objects|) && fails(old(calls) + 4 + 2 * |a.objects|)
              && Attachable(a, old(open), old(catalogs), old(registry)) ==>
                !ok && registry == old(registry)[a.sourceId := a.alias]
      ensures !ok ==> odbcHandles == old(odbcHandles) && openHandles == old(openHandles)
      ensures ok <==> Attachable(a, old(open), old(catalogs), old(registry)) && Quiet(old(calls), 5 + 2 * |a.objects|)
      ensures ok ==> calls == old(calls) + 5 + 2 * |a.objects|
    {
      hide ValidIdentifier, SafeObject, Database.ValidWith;
      if !open || !ValidIdentifier(a.alias) || !ValidIdentifier(a.databaseType) {
        return false;
      }
      var f := Fails();
      if f {
        return false;
      }
      var handle;
      ok, handle := OdbcConnect();
      if !ok {
        return;
      }
      ok := AttachCatalog(a.alias, a.sourceId, {handle});
      if !ok {
        CloseOnly(handle);
        return;
      }
      ok := Register(a, handle);
      if !ok {
        Abandon(a.alias, handle);
      }
    }

    /** The views, the registry row and the object types of an ODBC source, and then its handle. */
    method Register(a: OdbcAttachment, handle: int) returns (ok: bool)
      requires ValidWith({handle}) && open
      modifies this`calls, this`registry, this`odbcHandles
      ensures if ok then Valid() else ValidWith({handle})
      ensures odbcHandles == if ok then old(odbcHandles)[a.sourceId := handle] else old(odbcHandles)
      ensures ok ==> registry == old(registry)[a.sourceId := a.alias]
      ensures ok || registry != old(registry) ==>
                && Unregistered(a.sourceId, a.alias, old(registry))
                && forall i :: 0 <= i < |a.objects| ==> SafeObject(a.objects[i])
      ensures !ok && registry != old(registry) ==>
                registry == old(registry)[a.sourceId := a.alias] && fails(old(calls) + 1 + 2 * |a.objects|)
      ensures Quiet(old(calls), 1 + 2 * |a.objects|) && Unregistered(a.sourceId, a.alias, old(registry))
              && (forall i :: 0 <= i < |a.objects| ==> SafeObject(a.objects[i])) ==>
                && (ok <==> !fails(old(calls) + 1 + 2 * |a.objects|))
                && registry == old(registry)[a.sourceId := a.alias]
      ensures ok ==> calls == old(calls) + 2 + 2 * |a.objects| && Quiet(old(calls), 2 + 2 * |a.objects|)
    {
      hide SafeObject, Database.ValidWith;
      ok := CreateViews(a.objects);
      if !ok {
        return;
      }
      HandlesAreRegistered({handle});
      ok := Insert(a.sourceId, a.alias, {handle});
      if !ok {
        return;
      }
      var f := Fails();
      if f {
        return false;
      }
      Keep(a.sourceId, handle);
    }

    lemma HandlesAreRegistered(extra: set<int>)
      requires ValidWith(extra)
      ensures odbcHandles.Keys <= registry.Keys
    {
    }

    /** Closes the handle a source has, if it has one. */
    method CloseRecorded(id: string)
      requires Valid()
      modifies this`openHandles, this`odbcHandles
      ensures Valid() && odbcHandles == old(odbcHandles) - {id}
    {
      if id in odbcHandles {
        HandleRemoved(odbcHandles, id);
        openHandles := openHandles - {odbcHandles[id]};
        odbcHandles := odbcHandles - {id};
      }
    }

    method Detach(alias: string, id: string) returns (ok: bool)
      requires Valid()
      modifies this`calls, this`catalogs, this`secrets, this`registry, this`openHandles, this`odbcHandles
      ensures Valid()
      ensures catalogs == if ok then old(catalogs) - {alias} else old(catalogs)
      ensures odbcHandles == if ok then old(odbcHandles) - {id} else old(odbcHandles)
      ensures registry == if ok then old(registry) - {id} else old(registry)
      ensures secrets == if ok then old(secrets) - {alias} else old(secrets)
      ensures ok <==> open && ValidIdentifier(alias) && alias in old(catalogs) && !fails(old(calls))
      ensures ok ==> calls == old(calls) + 1
    {
      hide ValidIdentifier;
      if !open || !ValidIdentifier(alias) {
        return false;
      }
      var f := Fails();
      ok := !f && alias in catalogs;
      if ok {
        CloseRecorded(id);
        catalogs, secrets, registry := catalogs - {alias}, secrets - {alias}, registry - {id};
      }
    }

    /** Every recorded handle is closed, in any order; nothing stays open. */
    method Stop()
      requires Valid()
      modifies this
      ensures Valid() && !open && openHandles == {} && odbcHandles == map[] && catalogs == map[]
      ensures if old(open) then registry == map[] && secrets == {}
              else registry == old(registry) && secrets == old(secrets)
    {
      if !open {
        assert odbcHandles.Values == {};
        return;
      }
      var todo := odbcHandles.Keys;
      while todo != {}
        invariant todo <= odbcHandles.Keys && odbcHandles == old(odbcHandles)
        invariant openHandles <= set id | id in todo && id in odbcHandles :: odbcHandles[id]
      {
        var id :| id in todo;
        openHandles := openHandles - {odbcHandles[id]};
        todo := todo - {id};
      }
      assert openHandles == {};
      open, catalogs, secrets, registry, odbcHandles := false, map[], {}, map[], map[];
      assert odbcHandles.Values == {};
    }

    /** Replacing an ODBC source by one of another kind, as the reconciler does it after staging:
        detach, attach the new one, and on failure attach the old one again. The fate of the attach
        is settled by the state after the detach. A row it leaves keeps the ODBC source from coming
        back; without one the source does come back, unless a later call fails too. */
    method ReplaceOdbc(former: OdbcAttachment, next: Attachment) returns (replaced: bool, rowLeft: bool, restored: bool)
      requires Valid() && former.sourceId == next.sourceId
      requires former.alias in catalogs && former.sourceId in registry && registry[former.sourceId] == former.alias
      modifies this`calls, this`catalogs, this`secrets, this`registry, this`openHandles, this`odbcHandles
      ensures Valid()
      ensures !ValidIdentifier(former.alias) || fails(old(calls)) ==>
                !replaced && !rowLeft && !restored && catalogs == old(catalogs) && registry == old(registry)
      ensures var between := old(registry) - {former.sourceId};
              var fate := FateOf(next, open, old(catalogs) - {former.alias}, between, fails, old(calls) + 1);
              ValidIdentifier(former.alias) && !fails(old(calls)) ==>
                && (replaced <==> fate.Attached?) && (replaced ==> calls == fate.next)
                && (rowLeft <==> LeavesRow(next, fate, between, fails))
                && (WellFormed(former) && Quiet(fate.next, 5 + 2 * |former.objects|) ==>
                      (restored <==> !replaced && !rowLeft))
      ensures replaced ==> catalogs == (old(catalogs) - {former.alias})[next.alias := next.sourceId]
      ensures replaced || rowLeft ==> registry == (old(registry) - {former.sourceId})[next.sourceId := next.alias]
      ensures rowLeft ==> !replaced && !restored && catalogs == old(catalogs) - {former.alias}
      ensures restored ==> !replaced && catalogs == old(catalogs)[former.alias := former.sourceId]
      ensures restored ==> registry == old(registry)
    {
      hide ValidIdentifier, SafeObject, FateOf, LeavesRow;
      rowLeft, restored := false, false;
      var detached := Detach(former.alias, former.sourceId);
      if !detached {
        return false, false, false;
      }
      FailsOrLeavesRow(next, open, catalogs, registry, fails, calls);
      replaced, rowLeft := Attach(next);
      if !replaced {
        restored := AttachOdbc(former);
      }
    }
  }

  datatype Operation =
    | Attaching(database: Attachment)
    | AttachingOdbc(odbc: OdbcAttachment)
    | Detaching(alias: string, id: string)
    | Stopping

  /** Any run of one engine, each call failing as `fails` says: the open ODBC handles are exactly
      the recorded ones, one for each source that has one, and none outlives a stop. */
  method AnyRun(fails: nat -> bool, operations: seq<Operation>) returns (e: Database)
    ensures e.openHandles == e.odbcHandles.Values
    ensures forall i, j :: i in e.odbcHandles && j in e.odbcHandles && i != j ==> e.odbcHandles[i] != e.odbcHandles[j]
    ensures operations != [] && operations[|operations| - 1] == Stopping ==> e.openHandles == {}
  {
    e := new Database(fails);
    for i := 0 to |operations|
      invariant fresh(e) && e.Valid()
      invariant i > 0 && operations[i - 1] == Stopping ==> e.openHandles == {}
    {
      match operations[i]
      case Attaching(database) =>
        var _, _ := e.Attach(database);
      case AttachingOdbc(odbc) =>
        var _ := e.AttachOdbc(odbc);
      case Detaching(alias, id) =>
        var _ := e.Detach(alias, id);
      case Stopping =>
        e.Stop();
    }
  }

  /** When only the `nth` call of an attach fails, and nothing else stands in its way, a row is left
      exactly if that call came before the row insert, or was the one that registers the object
      types. The attach succeeds only if it was the recording at the end, or came after it. */
  lemma OneFailingCall(a: Attachment, catalogs: map<string, string>, registry: map<string, string>,
                       fails: nat -> bool, c: nat, nth: nat)
    requires ValidIdentifier(a.alias) && ValidIdentifier(a.kind) && (a.secret ==> a.secretPrintable)
    requires a.alias !in catalogs && forall n :: fails(n) <==> n == c + nth
    ensures var fate, row := FateOf(a, true, catalogs, registry, fails, c), if a.secret then 3 else 2;
            && (LeavesRow(a, fate, registry, fails) <==>
                Nameable(a.sourceId, a.alias, registry) && (nth < row || nth == row + 1))
            && (fate.Attached? <==> Nameable(a.sourceId, a.alias, registry) && nth > row + 1)
  {
  }

  /** A concrete run: an ODBC source is attached, its replacement fails at the ATTACH and nowhere
      else, and the source is gone. */
  method OdbcSourceLost() returns (e: Database, replaced: bool, restored: bool)
    ensures !replaced && !restored && e.open && e.catalogs == map[] && e.registry == map["s" := "a"]
  {
    e := new Database(n => n == 7);
    var odbc := OdbcAttachment("s", "a", "postgres", []);
    assert ValidIdentifier("a") && ValidIdentifier("postgres") && ValidIdentifier("duckdb");
    assert Attachable(odbc, true, map[], map[]);
    var attached := e.AttachOdbc(odbc);
    var rowLeft;
    replaced, rowLeft, restored := e.ReplaceOdbc(odbc, Attachment("s", "a", "duckdb", false, true));
  }

  /** A registry row bars its catalog name for every other source, and its source from coming back
      through ODBC, until the source itself is attached or detached by name or the engine stops. */
  method BarredName(e: Database, id: string, alias: string, operations: seq<Operation>) returns (oks: seq<bool>)
    requires e.Valid() && id in e.registry && e.registry[id] == alias
    requires forall i :: 0 <= i < |operations| ==> !Frees(operations[i], id)
    modifies e
    ensures id in e.registry && e.registry[id] == alias && |oks| == |operations|
    ensures forall i :: 0 <= i < |operations| && Barred(operations[i], id, alias) ==> !oks[i]
  {
    hide ValidIdentifier, SafeObject, FateOf, LeavesRow, Database.ValidWith;
    oks := [];
    for i := 0 to |operations|
      invariant e.Valid() && |oks| == i && id in e.registry && e.registry[id] == alias
      invariant forall k :: 0 <= k < i && Barred(operations[k], id, alias) ==> !oks[k]
    {
      assert !Frees(operations[i], id);
      var ok := true;
      match operations[i] {
        case Attaching(database) =>
          FailsOrLeavesRow(database, e.open, e.catalogs, e.registry, e.fails, e.calls);
          var rowLeft;
          ok, rowLeft := e.Attach(database);
        case AttachingOdbc(odbc) =>
          ok := e.AttachOdbc(odbc);
        case Detaching(name, source) =>
          ok := e.Detach(name, source);
        case Stopping =>
          assert false;
      }
      oks := oks + [ok];
    }
  }

  predicate Frees(o: Operation, id: string) {
    o.Stopping? || (o.Attaching? && o.database.sourceId == id) || (o.Detaching? && o.id == id)
  }

  predicate Barred(o: Operation, id: string, alias: string) {
    || (o.Attaching? && o.database.alias == alias)
    || (o.AttachingOdbc? && (o.odbc.alias == alias || o.odbc.sourceId == id))
  }

  /** A source whose name another source has is neither attached nor recorded. */
  lemma FailsOrLeavesRow(a: Attachment, open: bool, catalogs: map<string, string>, registry: map<string, string>,
                         fails: nat -> bool, c: nat)
    ensures var fate := FateOf(a, open, catalogs, registry, fails, c);
            && !(fate.Attached? && LeavesRow(a, fate, registry, fails))
            && (fate.Attached? || LeavesRow(a, fate, registry, fails) ==> Nameable(a.sourceId, a.alias, registry))
  {
  }

  /** When an ODBC attach can succeed at all. */
  predicate Attachable(a: OdbcAttachment, open: bool, catalogs: map<string, string>, registry: map<string, string>) {
    && open && WellFormed(a)
    && a.alias !in catalogs && Unregistered(a.sourceId, a.alias, registry)
  }

  predicate WellFormed(a: OdbcAttachment) {
    && ValidIdentifier(a.alias) && ValidIdentifier(a.databaseType)
    && forall i :: 0 <= i < |a.objects| ==> SafeObject(a.objects[i])
  }

  /** What an ODBC attach asks of its input and of the state it finds: an alias and a database type
      of at most 63 lower-case letters, digits and underscores that start with a letter, only
      tables and views with printable names of at most 255 characters, and nothing of the source
      or its name left in the catalogs or the registry. */
  lemma WhatIsAttachable(a: OdbcAttachment, open: bool, catalogs: map<string, string>, registry: map<string, string>)
    ensures Attachable(a, open, catalogs, registry) <==>
              && open
              && 1 <= |a.alias| <= 63 && 'a' <= a.alias[0] <= 'z'
              && (forall c :: c in a.alias ==> 'a' <= c <= 'z' || '0' <= c <= '9' || c == '_')
              && 1 <= |a.databaseType| <= 63 && 'a' <= a.databaseType[0] <= 'z'
              && (forall c :: c in a.databaseType ==> 'a' <= c <= 'z' || '0' <= c <= '9' || c == '_')
              && (forall o :: o in a.objects ==>
                    && o.kind in {"table", "view"} && 1 <= |o.schema| <= 255 && 1 <= |o.name| <= 255
                    && '\0' !in o.schema && '\0' !in o.name)
              && a.alias !in catalogs
              && a.sourceId !in registry && a.alias !in registry.Values
  {
    IdentifierIs(a.alias);
    IdentifierIs(a.databaseType);
  }

  /** No other source has the catalog name. */
  predicate Nameable(id: string, alias: string, registry: map<string, string>) {
    forall i :: i in registry && i != id ==> registry[i] != alias
  }

  predicate Unregistered(id: string, alias: string, registry: map<string, string>) {
    id !in registry && forall i :: i in registry ==> registry[i] != alias
  }

  lemma HandleAdded(m: map<string, int>, id: string, handle: int)
    requires handle !in m.Values && id !in m
    ensures m[id := handle].Values == m.Values + {handle}
  {
    forall v | v in m.Values + {handle} ensures v in m[id := handle].Values {
      if v == handle {
        assert m[id := handle][id] == handle;
      } else {
        var k :| k in m && m[k] == v;
        assert m[id := handle][k] == v;
      }
    }
  }

  lemma HandleRemoved(m: map<string, int>, id: string)
    requires id in m && forall i, j :: i in m && j in m && m[i] == m[j] ==> i == j
    ensures (m - {id}).Values == m.Values - {m[id]}
  {
    forall v | v in m.Values - {m[id]} ensures v in (m - {id}).Values {
      var k :| k in m && m[k] == v;
      assert (m - {id})[k] == v;
    }
  }
}
