/** The configuration document, its backup, and the credential store beside it
    (internal/config/config.go:46-79, 133-215; internal/config/service.go:21-99).

    Each store call either fails, as `fails` says, and then changes nothing, or takes effect.
    The process may crash before any call, as `crashes` says; from then on nothing changes.
    A file is replaced by rename, so it holds its old or its new bytes. After the rename the
    directory is synced; if that fails, as `syncFails` says write by write, the caller is told of
    a failure although the file is new. */
module ConfigStore {
  import opened Sources
  import opened JsonTrees

  const CURRENT_VERSION := 1

  /** A file: missing, not decodable as a document, or decodable. */
  datatype File = Absent | Undecodable | Readable(document: Document)

  // ---------------------------------------------------------------- documents

  predicate ValidDocument(d: Document, optionsOk: string -> bool) {
    && d.version == CURRENT_VERSION
    && (forall i :: 0 <= i < |d.sources| ==> ValidSource(d.sources[i], optionsOk))
    && DistinctIds(d.sources) && DistinctAliases(d.sources) && DistinctRefs(d.sources)
  }

  /** A valid document, written out: the current version, sources with id, name, kind and a short
      lower-case alias, and ids, aliases and credential references that never repeat. */
  lemma WhatIsValid(d: Document, optionsOk: string -> bool)
    ensures ValidDocument(d, optionsOk) <==>
              && d.version == 1
              && (forall s :: s in d.sources ==>
                    && s.id != "" && s.name != "" && s.kind != "" && optionsOk(s.options)
                    && 1 <= |s.alias| <= 63 && 'a' <= s.alias[0] <= 'z'
                    && forall c :: c in s.alias ==> 'a' <= c <= 'z' || '0' <= c <= '9' || c == '_')
              && (forall i, j :: 0 <= i < j < |d.sources| ==>
                    var s, t := d.sources[i], d.sources[j];
                    s.id != t.id && s.alias != t.alias && (s.credentialRef == "" || s.credentialRef != t.credentialRef))
  {
    forall i | 0 <= i < |d.sources| {
      IdentifierIs(d.sources[i].alias);
    }
  }

  /** `Document.Validate`: one pass with three sets of what was seen. */
  method Validate(d: Document, optionsOk: string -> bool) returns (ok: bool)
    ensures ok <==> ValidDocument(d, optionsOk)
  {
    hide Seen, ValidSource, ValidDocument;
    if d.version != CURRENT_VERSION {
      SeenRefuses(d, optionsOk, 0, {}, {}, {});
      return false;
    }
    var ids, aliases, refs: set<string> := {}, {}, {};
    SeenNothing(d, optionsOk);
    for i := 0 to |d.sources|
      invariant Seen(d, optionsOk, i, ids, aliases, refs)
    {
      var s := d.sources[i];
      SeenRefuses(d, optionsOk, i, ids, aliases, refs);
      if
        || !ValidSource(s, optionsOk) || s.id in ids || s.alias in aliases
        || (s.credentialRef != "" && s.credentialRef in refs)
      {
        return false;
      }
      SeenGrows(d, optionsOk, i, ids, aliases, refs);
      ids, aliases := ids + {s.id}, aliases + {s.alias};
      if s.credentialRef != "" {
        refs := refs + {s.credentialRef};
      }
    }
    SeenAll(d, optionsOk, ids, aliases, refs);
    ok := true;
  }

  /** The first `n` sources are valid and distinct, and the sets hold what was seen of them. */
  ghost predicate Seen(d: Document, optionsOk: string -> bool, n: int,
                       ids: set<string>, aliases: set<string>, refs: set<string>)
  {
    && 0 <= n <= |d.sources|
    && (forall k :: 0 <= k < n ==> ValidSource(d.sources[k], optionsOk))
    && DistinctIds(d.sources[..n]) && DistinctAliases(d.sources[..n]) && DistinctRefs(d.sources[..n])
    && (forall x :: x in ids <==> exists k :: 0 <= k < n && d.sources[k].id == x)
    && (forall x :: x in aliases <==> exists k :: 0 <= k < n && d.sources[k].alias == x)
    && (forall x :: x in refs <==> x != "" && exists k :: 0 <= k < n && d.sources[k].credentialRef == x)
  }

  lemma SeenNothing(d: Document, optionsOk: string -> bool)
    ensures Seen(d, optionsOk, 0, {}, {}, {})
  {
  }

  lemma SeenGrows(d: Document, optionsOk: string -> bool, n: int,
                  ids: set<string>, aliases: set<string>, refs: set<string>)
    requires Seen(d, optionsOk, n, ids, aliases, refs) && n < |d.sources|
    requires ValidSource(d.sources[n], optionsOk) && d.sources[n].id !in ids && d.sources[n].alias !in aliases
    requires d.sources[n].credentialRef !in refs
    ensures Seen(d, optionsOk, n + 1, ids + {d.sources[n].id}, aliases + {d.sources[n].alias},
                 if d.sources[n].credentialRef == "" then refs else refs + {d.sources[n].credentialRef})
  {
  }

  lemma SeenRefuses(d: Document, optionsOk: string -> bool, n: int,
                    ids: set<string>, aliases: set<string>, refs: set<string>)
    ensures d.version != CURRENT_VERSION ==> !ValidDocument(d, optionsOk)
    ensures Seen(d, optionsOk, n, ids, aliases, refs) && n < |d.sources| ==>
              var s := d.sources[n];
              !ValidSource(s, optionsOk) || s.id in ids || s.alias in aliases || s.credentialRef in refs ==>
                !ValidDocument(d, optionsOk)
    ensures Seen(d, optionsOk, n, ids, aliases, refs) ==> "" !in refs
  {
  }

  lemma SeenAll(d: Document, optionsOk: string -> bool, ids: set<string>, aliases: set<string>, refs: set<string>)
    requires Seen(d, optionsOk, |d.sources|, ids, aliases, refs) && d.version == CURRENT_VERSION
    ensures ValidDocument(d, optionsOk)
  {
  }

  // ---------------------------------------------------------------- secrets in options

  const SECRET_KEYS: set<string> := {"password", "passwd", "secret", "token", "connection_string", "uri"}

  function Underscored(key: string): string {
    seq(|key|, i requires 0 <= i < |key| => if key[i] == '-' then '_' else key[i])
  }

  /** `plain` is `key` with an underscore for every hyphen. */
  predicate Unhyphened(key: string, plain: string) {
    |plain| == |key| && forall i :: 0 <= i < |key| ==> plain[i] == if key[i] == '-' then '_' else key[i]
  }

  /** A secret field is one of six names in any case, a hyphen standing for an underscore. */
  lemma WhatIsSecret(fields: map<string, Json>, lower: string -> string)
    ensures SecretNode(lower)(Obj(fields)) <==>
              exists key, plain :: key in fields && Unhyphened(key, plain)
                && lower(plain) in {"password", "passwd", "secret", "token", "connection_string", "uri"}
  {
    hide Unhyphened, Underscored;
    forall key, plain ensures Unhyphened(key, plain) <==> plain == Underscored(key) {
      UnhyphenedIs(key, plain);
    }
  }

  lemma UnhyphenedIs(key: string, plain: string)
    ensures Unhyphened(key, plain) <==> plain == Underscored(key)
  {
  }

  function SecretNode(lower: string -> string): Json -> bool {
    (node: Json) => node.Obj? && exists k :: k in node.fields && lower(Underscored(k)) in SECRET_KEYS
  }

  /** Finds a secret-bearing field exactly if some object at some depth has one. */
  method ContainsSecretField(v: Json, lower: string -> string) returns (found: bool)
    ensures found <==> Somewhere(v, SecretNode(lower))
    decreases v
  {
    hide Somewhere, Underscored;
    SomewhereInside(v, SecretNode(lower));
    match v {
      case Obj(fields) =>
        var todo := fields.Keys;
        while todo != {}
          invariant todo <= fields.Keys
          invariant forall k :: k in fields && k !in todo ==>
                      lower(Underscored(k)) !in SECRET_KEYS && !Somewhere(fields[k], SecretNode(lower))
        {
          var k :| k in todo;
          if lower(Underscored(k)) in SECRET_KEYS {
            return true;
          }
          found := ContainsSecretField(fields[k], lower);
          if found {
            return;
          }
          todo := todo - {k};
        }
      case Arr(items) =>
        for i := 0 to |items|
          invariant forall k: nat :: k < i ==> !Somewhere(items[k], SecretNode(lower))
        {
          found := ContainsSecretField(items[i], lower);
          if found {
            return;
          }
        }
      case _ =>
    }
    found := false;
  }

  /** Version 0 becomes the current version; anything else must be current already. */
  function Migrated(d: Document, optionsOk: string -> bool): Option<Document> {
    var d' := if d.version == 0 then d.(version := CURRENT_VERSION) else d;
    if ValidDocument(d', optionsOk) then Some(d') else None
  }

  /** The document the two files stand for. */
  function Loaded(main: File, backup: File, optionsOk: string -> bool): Option<Document> {
    match main
    case Readable(d) => Migrated(d, optionsOk)
    case Absent => Some(Document(CURRENT_VERSION, []))
    case Undecodable => if backup.Readable? then Migrated(backup.document, optionsOk) else None
  }

  /** A main file in an unknown version, or a damaged one without a readable backup. */
  predicate Unloadable(main: File, backup: File) {
    || (main.Readable? && main.document.version !in {0, 1})
    || (main.Undecodable? && !backup.Readable?)
  }

  lemma UnloadableStays(main: File, backup: File, optionsOk: string -> bool)
    ensures Unloadable(main, backup) ==> !Migrates(main, optionsOk)
  {
  }

  lemma CurrentLoads(d: Document, backup: File, optionsOk: string -> bool)
    ensures ValidDocument(d, optionsOk) ==> Loaded(Readable(d), backup, optionsOk) == Some(d)
  {
  }

  function AsCurrent(d: Document): Document { d.(version := CURRENT_VERSION) }

  function InPlace(main: File, optionsOk: string -> bool): File {
    if Migrates(main, optionsOk) then Readable(AsCurrent(main.document)) else main
  }

  /** Loading has to write the document back in the current version. */
  predicate Migrates(main: File, optionsOk: string -> bool) {
    main.Readable? && main.document.version == 0 && Migrated(main.document, optionsOk).Some?
  }

  function Refs(d: Document): set<string> {
    set s | s in d.sources && s.credentialRef != "" :: s.credentialRef
  }

  class Stores {
    var main: File
    var backup: File
    var credentials: map<string, string>
    var crashed: bool
    var calls: nat
    var writes: nat  // files replaced so far
    const fails: nat -> bool
    const syncFails: nat -> bool
    const crashes: nat -> bool
    const optionsOk: string -> bool

    constructor (main: File, backup: File, credentials: map<string, string>, optionsOk: string -> bool,
                 fails: nat -> bool, syncFails: nat -> bool, crashes: nat -> bool)
      ensures this.main == main && this.backup == backup && this.credentials == credentials
      ensures !crashed && calls == 0 && writes == 0 && this.optionsOk == optionsOk
      ensures this.fails == fails && this.syncFails == syncFails && this.crashes == crashes
    {
      this.main, this.backup, this.credentials := main, backup, credentials;
      crashed, calls, writes, this.optionsOk := false, 0, 0, optionsOk;
      this.fails, this.syncFails, this.crashes := fails, syncFails, crashes;
    }

    /** Every credential a readable main document refers to is there. */
    ghost predicate NoDangling()
      reads this`main, this`credentials
    {
      FileRefs(main) <= credentials.Keys
    }

    /** And there is no other. */
    ghost predicate Balanced()
      reads this`main, this`credentials
    {
      main.Readable? && FileRefs(main) == credentials.Keys
    }

    ghost predicate NoCrash()
      reads this`crashed
    {
      !crashed && forall n :: !crashes(n)
    }

    ghost predicate SyncsWork() {
      forall w :: !syncFails(w)
    }

    /** At most one store call or directory sync fails. */
    ghost predicate OneFaultAtMost() {
      && (forall m, n :: fails(m) && fails(n) ==> m == n)
      && (forall m, n :: syncFails(m) && syncFails(n) ==> m == n)
      && (forall m, n :: !(fails(m) && syncFails(n)))
    }

    ghost predicate Quiet()
      reads this`crashed
    {
      NoCrash() && forall n :: !fails(n) && !syncFails(n)
    }

    /** One store call: does it take effect? */
    method Enter() returns (ok: bool)
      modifies this`crashed, this`calls
      ensures crashed == (old(crashed) || crashes(old(calls))) && (ok <==> !crashed && !fails(old(calls)))
      ensures old(NoCrash()) ==> NoCrash()
      ensures calls == old(calls) + 1
    {
      if !crashed && crashes(calls) {
        crashed := true;
      }
      ok := !crashed && !fails(calls);
      calls := calls + 1;
    }

    method Put(reference: string, credential: string) returns (ok: bool)
      modifies this`crashed, this`calls, this`credentials
      ensures credentials == if ok then old(credentials)[reference := credential] else old(credentials)
      ensures old(crashed) ==> crashed && !ok
      ensures old(NoCrash()) ==>
                NoCrash() && (ok <==> !fails(old(calls)) && reference != "" && credential != "")
      ensures calls == old(calls) + 1
    {
      ok := Enter();
      ok := ok && reference != "" && credential != "";
      if ok {
        credentials := credentials[reference := credential];
      }
    }

    method Delete(reference: string) returns (ok: bool)
      modifies this`crashed, this`calls, this`credentials
      ensures credentials == if ok then old(credentials) - {reference} else old(credentials)
      ensures ok ==> reference in old(credentials)
      ensures old(crashed) ==> crashed && !ok
      ensures old(NoCrash()) ==> NoCrash() && (ok <==> !fails(old(calls)) && reference in old(credentials))
      ensures calls == old(calls) + 1
    {
      ok := Enter();
      ok := ok && reference in credentials;
      if ok {
        credentials := credentials - {reference};
      }
    }

    // A save of a valid document that starts at call `c`, after `w` writes, and is not cut short by
    // a crash: does it back up what is there, replace the main file, succeed?

    ghost predicate BacksUp(absent: bool, c: nat) { !absent && !fails(c) && !fails(c + 1) }

    ghost predicate WritesMain(absent: bool, c: nat, w: nat) {
      if absent then !fails(c) && !fails(c + 1)
      else BacksUp(absent, c) && !syncFails(w) && !fails(c + 2)
    }

    ghost predicate Saves(absent: bool, c: nat, w: nat) {
      WritesMain(absent, c, w) && !syncFails(if absent then w else w + 1)
    }

    /** How many calls that save makes. */
    ghost function SaveCalls(absent: bool, c: nat, w: nat): nat {
      if fails(c) then 1
      else if absent || fails(c + 1) || syncFails(w) then 2
      else 3
    }

    /** If the only fault is spent on the save, the delete after it goes through. */
    /** Backs up what is there, then replaces the main file. The main file never changes before its
        old contents are in the backup. A damaged main file is backed up like any other, so a save
        that fails after that step has replaced the last good copy. */
    method Save(d: Document) returns (ok: bool)
      modifies this`main, this`backup, this`crashed, this`calls, this`writes
      ensures main == old(main) || (main == Readable(d) && ValidDocument(d, optionsOk))
      ensures backup == old(backup) || (backup == old(main) && !old(main).Absent?)
      ensures main != old(main) && !old(main).Absent? ==> backup == old(main)
      ensures ok ==> main == Readable(d) && !crashed && (old(main).Absent? || backup == old(main))
      ensures ok ==> ValidDocument(d, optionsOk) && writes == old(writes) + if old(main).Absent? then 1 else 2
      ensures ok ==> calls == old(calls) + if old(main).Absent? then 2 else 3
      ensures old(crashed) ==> crashed && !ok && main == old(main) && backup == old(backup)
      ensures !ok && main != old(main) ==> writes > 0 && syncFails(writes - 1)
      ensures !ValidDocument(d, optionsOk) ==>
                !ok && main == old(main) && backup == old(backup) && writes == old(writes) && calls == old(calls)
      ensures old(writes) <= writes <= old(writes) + 2
      ensures old(NoCrash()) ==> NoCrash()
      ensures old(NoCrash()) && ValidDocument(d, optionsOk) ==>
                && (ok <==> Saves(old(main).Absent?, old(calls), old(writes)))
                && main == (if WritesMain(old(main).Absent?, old(calls), old(writes)) then Readable(d) else old(main))
                && backup == (if BacksUp(old(main).Absent?, old(calls)) then old(main) else old(backup))
                && calls == old(calls) + SaveCalls(old(main).Absent?, old(calls), old(writes))
      ensures main == old(main) && !old(main).Undecodable? ==>
                Loaded(main, backup, optionsOk) == Loaded(old(main), old(backup), optionsOk)
      ensures main.Undecodable? && Loaded(old(main), old(backup), optionsOk).Some? ==>
                && (Loaded(main, backup, optionsOk) == Loaded(old(main), old(backup), optionsOk) <==>
                    writes == old(writes))
                && (Loaded(main, backup, optionsOk).None? <==> writes != old(writes))
      ensures old(NoCrash()) && ValidDocument(d, optionsOk) && old(main).Undecodable?
              && Loaded(old(main), old(backup), optionsOk).Some? ==>
                (Loaded(main, backup, optionsOk).None? <==>
                && !fails(old(calls)) && !fails(old(calls) + 1)
                && (syncFails(old(writes)) || fails(old(calls) + 2)))
    {
      CurrentLoads(d, main, optionsOk);
      hide ValidDocument;
      ok := Validate(d, optionsOk);
      if !ok {
        return;
      }
      ok := Enter();
      if !ok {
        return;
      }
      if !main.Absent? {
        ok := Enter();
        if !ok {
          return;
        }
        backup, writes := main, writes + 1;
        if syncFails(writes - 1) {
          return false;
        }
      }
      ok := Enter();
      if !ok {
        return;
      }
      main, writes := Readable(d), writes + 1;
      ok := !syncFails(writes - 1);
    }

    /** Loading migrates an old main file in place. */
    method Load() returns (r: Option<Document>)
      modifies this`main, this`backup, this`crashed, this`calls, this`writes
      ensures old(main).Absent? ==> r == Some(Document(1, []))
      ensures old(main).Readable? && old(main).document.version !in {0, 1} ==> r.None?
      ensures old(main).Readable? && old(main).document.version == 1 ==>
                r == if ValidDocument(old(main).document, optionsOk) then Some(old(main).document) else None
      ensures old(main).Readable? && r.Some? ==> r.value.version == 1 && r.value.sources == old(main).document.sources
      ensures old(main).Undecodable? && !old(backup).Readable? ==> r.None?
      ensures old(main).Undecodable? && r.Some? ==>
                r.value.version == 1 && r.value.sources == old(backup).document.sources
      ensures old(main).Undecodable? && old(backup).Readable? && ValidDocument(old(backup).document, optionsOk) ==>
                r == Some(old(backup).document)
      ensures r.Some? ==> r == Loaded(old(main), old(backup), optionsOk)
      ensures r.Some? ==> r == Loaded(main, backup, optionsOk) && ValidDocument(r.value, optionsOk)
      ensures main in {old(main), InPlace(old(main), optionsOk)}
      ensures Migrates(old(main), optionsOk) && r.Some? ==> main == Readable(r.value)
      ensures !Migrates(old(main), optionsOk) ==>
                && r == Loaded(main, backup, optionsOk) && main == old(main) && backup == old(backup)
                && writes == old(writes) && calls == old(calls) && crashed == old(crashed)
      ensures Migrates(old(main), optionsOk) && r.Some? ==> writes == old(writes) + 2 && calls == old(calls) + 3
      ensures Migrates(old(main), optionsOk) && old(NoCrash()) ==> (r.Some? <==> Saves(false, old(calls), old(writes)))
      ensures !old(main).Undecodable? ==>
                Loaded(main, backup, optionsOk) == Loaded(old(main), old(backup), optionsOk)
      ensures backup == old(backup) || backup == old(main)
      ensures r.Some? && !main.Undecodable? ==> Refs(r.value) == FileRefs(main)
      ensures old(NoDangling()) ==> NoDangling()
      ensures old(Balanced()) ==> Balanced()
      ensures main.Absent? == old(main).Absent? && main.Undecodable? == old(main).Undecodable?
      ensures old(crashed) ==> crashed
      ensures old(NoCrash()) ==> NoCrash()
      ensures old(Quiet()) ==> Quiet() && r == Loaded(old(main), old(backup), optionsOk)
    {
      r := Loaded(main, backup, optionsOk);
      if main.Readable? && main.document.version != CURRENT_VERSION && r.Some? {
        var saved := Save(r.value);
        if !saved {
          r := None;
        }
      }
    }

    // The call after a load, and how many writes there were before it.

    ghost function LoadedCall(main: File, c: nat): nat { if Migrates(main, optionsOk) then c + 3 else c }

    ghost function LoadedWrites(main: File, w: nat): nat { if Migrates(main, optionsOk) then w + 2 else w }

    // An add that is not cut short by a crash: whether the call that stores the credential takes
    // effect, and whether the compensating delete does.

    ghost predicate Puts(main: File, backup: File, c: nat, w: nat, configured: Source, credential: string,
                         hasStore: bool, validates: (Source, string) -> bool)
    {
      && hasStore && credential != "" && validates(configured, credential)
      && Addable(Loaded(main, backup, optionsOk), configured, optionsOk)
      && (Migrates(main, optionsOk) ==> Saves(false, c, w))
      && !fails(LoadedCall(main, c))
    }

    ghost predicate DeletesAfter(main: File, c: nat, w: nat) {
      !fails(LoadedCall(main, c) + 1 + SaveCalls(main.Absent?, LoadedCall(main, c) + 1, LoadedWrites(main, w)))
    }

    /** Adding a source: credential first, document second, credential away again if the
        document could not be saved. */
    method Add(configured: Source, credential: string, hasStore: bool, validates: (Source, string) -> bool)
      returns (ok: bool)
      modifies this
      ensures !old(main).Undecodable? ==> !main.Undecodable?
      ensures Unloadable(old(main), old(backup)) ==>
                !ok && main == old(main) && backup == old(backup) && credentials == old(credentials)
      ensures old(NoDangling()) && !old(main).Undecodable? && SyncsWork() ==> NoDangling()
      ensures ok && old(Balanced()) ==> Balanced()
      ensures ok ==> Loaded(old(main), old(backup), optionsOk).Some? && validates(configured, credential)
      ensures ok ==> main == Readable(With(Loaded(old(main), old(backup), optionsOk).value, configured))
      ensures ok ==> credentials == if configured.credentialRef == "" then old(credentials)
                                    else old(credentials)[configured.credentialRef := credential]
      ensures !ok && !old(main).Undecodable? && SyncsWork() ==>
                Loaded(main, backup, optionsOk) == Loaded(old(main), old(backup), optionsOk)
      ensures configured.credentialRef == "" ==> credentials == old(credentials)
      ensures old(NoCrash()) && configured.credentialRef != "" ==>
                var c, w := old(calls), old(writes);
                var puts := Puts(old(main), old(backup), c, w, configured, credential, hasStore, validates);
                var saves := Saves(old(main).Absent?, LoadedCall(old(main), c) + 1, LoadedWrites(old(main), w));
                && (ok <==> puts && saves)
                && (if puts && WritesMain(old(main).Absent?, LoadedCall(old(main), c) + 1,
                                          LoadedWrites(old(main), w)) then
                      main == Readable(With(Loaded(old(main), old(backup), optionsOk).value, configured))
                    else main in {old(main), InPlace(old(main), optionsOk)})
                && credentials == if !puts then old(credentials)
                                  else if saves || !DeletesAfter(old(main), c, w) then
                                    old(credentials)[configured.credentialRef := credential]
                                  else old(credentials) - {configured.credentialRef}
      ensures old(NoCrash()) && OneFaultAtMost() && !ok && configured.credentialRef !in old(credentials) ==>
                credentials == old(credentials)
      ensures old(NoCrash()) && configured.credentialRef != "" && old(NoDangling()) && !old(main).Undecodable? ==>
                var c, w := old(calls), old(writes);
                var written := WritesMain(old(main).Absent?, LoadedCall(old(main), c) + 1, LoadedWrites(old(main), w));
                NoDangling() <==>
                  !(&& Puts(old(main), old(backup), c, w, configured, credential, hasStore, validates)
                    && written && !ok && DeletesAfter(old(main), c, w))
      ensures old(Quiet()) ==>
                (ok <==> && Addable(Loaded(old(main), old(backup), optionsOk), configured, optionsOk)
                         && validates(configured, credential)
                         && (configured.credentialRef != "" ==> hasStore && credential != ""))
    {
      UnloadableStays(main, backup, optionsOk);
      hide Loaded, Migrates, InPlace, Refs, FileRefs, ValidDocument, Stores.Saves, Stores.WritesMain, Stores.SaveCalls;
      hide Stores.NoCrash, Stores.Quiet, Stores.OneFaultAtMost, Stores.SyncsWork;
      if configured.credentialRef != "" && !hasStore {
        return false;
      }
      var document := Load();
      if document.None? {
        return false;
      }
      var candidate := With(document.value, configured);
      ok := Validate(candidate, optionsOk);
      if !ok || !validates(configured, credential) {
        return false;
      }
      assert old(NoCrash()) ==>
          calls == LoadedCall(old(main), old(calls)) && writes == LoadedWrites(old(main), old(writes));
      assert old(NoCrash()) && configured.credentialRef != "" ==>
          (credential != "" && !fails(calls) <==>
          Puts(old(main), old(backup), old(calls), old(writes), configured, credential, hasStore, validates));
      assert old(NoCrash()) ==> (DeletesAfter(old(main), old(calls), old(writes)) <==>
                                 !fails(calls + 1 + SaveCalls(main.Absent?, calls + 1, writes)));
      hide Stores.LoadedCall, Stores.LoadedWrites, Stores.Puts, Stores.DeletesAfter, With, Addable;
      ghost var file, secrets := main, credentials;
      ok := AddTo(document.value, configured, credential);
      NewRefIsUnused(document.value, configured, optionsOk);
      if !file.Undecodable? {
        AddedRefs(file, secrets, document.value, configured, main, credentials);
      }
    }

    /** The second half of an add, once everything is validated. */
    method AddTo(d: Document, configured: Source, credential: string) returns (ok: bool)
      requires ValidDocument(With(d, configured), optionsOk)
      modifies this
      ensures main == old(main) || main == Readable(With(d, configured))
      ensures ok ==> main == Readable(With(d, configured))
      ensures main == old(main) && !old(main).Undecodable? ==>
                Loaded(main, backup, optionsOk) == Loaded(old(main), old(backup), optionsOk)
      ensures !ok && SyncsWork() ==> main == old(main)
      ensures ok ==> credentials == if configured.credentialRef == "" then old(credentials)
                                    else old(credentials)[configured.credentialRef := credential]
      ensures configured.credentialRef == "" ==> credentials == old(credentials)
      ensures old(credentials).Keys - {configured.credentialRef} <= credentials.Keys
      ensures old(NoCrash()) && configured.credentialRef != "" ==>
                (ok <==>
                && credential != "" && !fails(old(calls))
                && Saves(old(main).Absent?, old(calls) + 1, old(writes)))
      ensures old(NoCrash()) && configured.credentialRef != "" ==>
                var written := WritesMain(old(main).Absent?, old(calls) + 1, old(writes));
                main == if credential != "" && !fails(old(calls)) && written
                        then Readable(With(d, configured)) else old(main)
      ensures old(NoCrash()) && configured.credentialRef != "" ==>
                var c, absent, w := old(calls), old(main).Absent?, old(writes);
                credentials == if credential == "" || fails(c) then old(credentials)
                               else if Saves(absent, c + 1, w) || fails(c + 1 + SaveCalls(absent, c + 1, w)) then
                                 old(credentials)[configured.credentialRef := credential]
                               else old(credentials) - {configured.credentialRef}
      ensures old(NoCrash()) && OneFaultAtMost() && !ok && configured.credentialRef !in old(credentials) ==>
                credentials == old(credentials)
      ensures old(Quiet()) ==> (ok <==> configured.credentialRef != "" ==> credential != "")
    {
      hide ValidDocument, Loaded, Stores.Saves, Stores.WritesMain, Stores.SaveCalls, Stores.BacksUp;
      hide Stores.NoCrash, Stores.OneFaultAtMost, Stores.SyncsWork, With;
      if configured.credentialRef != "" {
        ok := Put(configured.credentialRef, credential);
        if !ok {
          return;
        }
      }
      ok := SaveOrTakeBack(With(d, configured), configured.credentialRef);
    }

    /** The last step of an add: if the save fails, the credential goes. */
    method SaveOrTakeBack(d: Document, reference: string) returns (ok: bool)
      requires ValidDocument(d, optionsOk)
      modifies this
      ensures main == old(main) || main == Readable(d)
      ensures ok ==> main == Readable(d)
      ensures main == old(main) && !old(main).Undecodable? ==>
                Loaded(main, backup, optionsOk) == Loaded(old(main), old(backup), optionsOk)
      ensures !ok && SyncsWork() ==> main == old(main)
      ensures ok || reference == "" ==> credentials == old(credentials)
      ensures credentials in {old(credentials), old(credentials) - {reference}}
      ensures old(NoCrash()) ==> (ok <==> Saves(old(main).Absent?, old(calls), old(writes)))
      ensures old(NoCrash()) ==>
                main == if WritesMain(old(main).Absent?, old(calls), old(writes)) then Readable(d) else old(main)
      ensures old(NoCrash()) && !ok && reference in old(credentials) && reference != "" ==>
                credentials == if fails(old(calls) + SaveCalls(old(main).Absent?, old(calls), old(writes)))
                               then old(credentials) else old(credentials) - {reference}
      ensures old(NoCrash()) && OneFaultAtMost() && !ok && reference in old(credentials) && reference != "" ==>
                credentials == old(credentials) - {reference}
      ensures old(Quiet()) ==> ok
    {
      hide ValidDocument, Loaded;
      ok := Save(d);
      if !ok && reference != "" {
        var _ := Delete(reference);
      }
    }

    /** The load a removal begins with goes through and finds the source. */
    ghost predicate Found(sourceId: string)
      reads this`main, this`backup, this`calls, this`writes
    {
      && (Migrates(main, optionsOk) ==> Saves(false, calls, writes))
      && exists i :: Removes(Loaded(main, backup, optionsOk), sourceId, i)
    }

    // A removal that is not cut short by a crash, from call `c` on after `w` writes: whether the
    // deletion goes through, and whether a failed one is answered by putting the document back.

    ghost predicate Deletes(reference: string, hasStore: bool, held: bool, absent: bool, c: nat, w: nat) {
      reference == "" || (hasStore && held && !fails(c + SaveCalls(absent, c, w)))
    }

    ghost predicate PutsBack(hasStore: bool, absent: bool, c: nat, w: nat) {
      WritesMain(false, c + SaveCalls(absent, c, w) + if hasStore then 1 else 0, if absent then w + 1 else w + 2)
    }

    /** The saved document is taken back again. */
    ghost predicate GoesBack(reference: string, hasStore: bool, held: bool, absent: bool, c: nat, w: nat) {
      && Saves(absent, c, w) && !Deletes(reference, hasStore, held, absent, c, w) && PutsBack(hasStore, absent, c, w)
    }

    /** With syncs working, a single fault never leaves the document without a source whose
        removal failed. */
    lemma OneFaultIsUndone(reference: string, hasStore: bool, held: bool, absent: bool, c: nat, w: nat)
      ensures (reference == "" || (hasStore && held)) && OneFaultAtMost() && SyncsWork() && WritesMain(absent, c, w) ==>
                || (Saves(absent, c, w) && Deletes(reference, hasStore, held, absent, c, w))
                || GoesBack(reference, hasStore, held, absent, c, w)
    {
    }

    /** Removing a source: document first, credential second, the document back again if the
        credential could not be deleted. */
    method Remove(sourceId: string, hasStore: bool) returns (ok: bool, index: nat)
      modifies this
      ensures !old(main).Undecodable? ==> !main.Undecodable?
      ensures Unloadable(old(main), old(backup)) ==>
                !ok && main == old(main) && backup == old(backup) && credentials == old(credentials)
      ensures old(NoDangling()) && !old(main).Undecodable? ==> NoDangling()
      ensures ok && old(Balanced()) ==> Balanced()
      ensures ok ==> Removes(Loaded(old(main), old(backup), optionsOk), sourceId, index)
      ensures ok ==> main == Readable(Without(Loaded(old(main), old(backup), optionsOk).value, index))
      ensures ok ==> var reference := Loaded(old(main), old(backup), optionsOk).value.sources[index].credentialRef;
                     && credentials == (if reference == "" then old(credentials) else old(credentials) - {reference})
                     && (reference != "" ==> reference in old(credentials))
      ensures !ok && !old(main).Undecodable? ==>
                || Loaded(main, backup, optionsOk) == Loaded(old(main), old(backup), optionsOk)
                || (&& Removes(Loaded(old(main), old(backup), optionsOk), sourceId, index)
                    && main == Readable(Without(Loaded(old(main), old(backup), optionsOk).value, index)))
      ensures !ok ==> credentials == old(credentials)
      ensures old(Quiet()) && !ok && !old(main).Undecodable? ==>
                Loaded(main, backup, optionsOk) == Loaded(old(main), old(backup), optionsOk)
      ensures old(Quiet()) ==>
                (ok <==> Removable(Loaded(old(main), old(backup), optionsOk), sourceId, hasStore, old(credentials)))
      ensures old(NoCrash()) && old(Found(sourceId)) ==>
                && Removes(Loaded(old(main), old(backup), optionsOk), sourceId, index)
                && var d, absent := Loaded(old(main), old(backup), optionsOk).value, old(main).Absent?;
                   var c, w := LoadedCall(old(main), old(calls)), LoadedWrites(old(main), old(writes));
                   var reference := d.sources[index].credentialRef;
                   var held := reference in old(credentials);
                   && (ok <==> Saves(absent, c, w) && Deletes(reference, hasStore, held, absent, c, w))
                   && if !WritesMain(absent, c, w) then main in {old(main), InPlace(old(main), optionsOk)}
                      else if GoesBack(reference, hasStore, held, absent, c, w) then main == Readable(d)
                      else main == Readable(Without(d, index))
      ensures (old(NoCrash()) && OneFaultAtMost() && SyncsWork() && !ok && !old(main).Undecodable?
               && Removable(Loaded(old(main), old(backup), optionsOk), sourceId, hasStore, old(credentials))) ==>
                Loaded(main, backup, optionsOk) == Loaded(old(main), old(backup), optionsOk)
    {
      UnloadableStays(main, backup, optionsOk);
      hide Loaded, Migrates, InPlace, Refs, FileRefs, ValidDocument, Without, Stores.Saves, Stores.Deletes;
      hide Stores.WritesMain, Stores.SaveCalls, Stores.NoCrash, Stores.GoesBack, Stores.SyncsWork;
      hide Stores.OneFaultAtMost;
      index := 0;
      var document := Load();
      if document.None? {
        return false, 0;
      }
      var sources := document.value.sources;
      while index < |sources| && sources[index].id != sourceId
        invariant 0 <= index <= |sources| && forall k :: 0 <= k < index ==> sources[k].id != sourceId
      {
        index := index + 1;
      }
      if index == |sources| {
        return false, 0;
      }
      assert Removes(document, sourceId, index);
      hide Removable;
      RemovableAt(document.value, sourceId, index, hasStore, credentials, optionsOk);
      ok := RemoveAt(document.value, index, hasStore);
      CurrentLoads(document.value, backup, optionsOk);
    }

    /** The second half of a removal, once the source is found. */
    method RemoveAt(d: Document, index: nat, hasStore: bool) returns (ok: bool)
      requires index < |d.sources| && ValidDocument(d, optionsOk)
      modifies this
      ensures !old(main).Undecodable? ==> !main.Undecodable?
      ensures ok && old(credentials).Keys == Refs(d) ==> Balanced()
      ensures old(credentials).Keys >= Refs(d) && (main != old(main) || FileRefs(main) == Refs(d)) ==> NoDangling()
      ensures main == old(main) || main == Readable(d) || main == Readable(Without(d, index))
      ensures ok ==> main == Readable(Without(d, index))
      ensures ok ==> var reference := d.sources[index].credentialRef;
                     && credentials == (if reference == "" then old(credentials) else old(credentials) - {reference})
                     && (reference != "" ==> reference in old(credentials))
      ensures !ok ==> credentials == old(credentials)
      ensures main == old(main) && !main.Undecodable? ==>
                Loaded(main, backup, optionsOk) == Loaded(old(main), old(backup), optionsOk)
      ensures old(Quiet()) ==>
                (ok <==> d.sources[index].credentialRef == "" ||
                         (hasStore && d.sources[index].credentialRef in old(credentials)))
      ensures old(Quiet()) && !ok ==> main == Readable(d)
      ensures old(NoCrash()) ==>
                var c, w, absent := old(calls), old(writes), old(main).Absent?;
                var reference := d.sources[index].credentialRef;
                var held := reference in old(credentials);
                && (ok <==> Saves(absent, c, w) && Deletes(reference, hasStore, held, absent, c, w))
                && main == if !WritesMain(absent, c, w) then old(main)
                           else if GoesBack(reference, hasStore, held, absent, c, w) then Readable(d)
                           else Readable(Without(d, index))
      ensures (old(NoCrash()) && OneFaultAtMost() && SyncsWork() && !ok
               && (d.sources[index].credentialRef == "" ||
                   (hasStore && d.sources[index].credentialRef in old(credentials)))) ==>
                main == old(main) || main == Readable(d)
    {
      var reference := d.sources[index].credentialRef;
      RemovedRefIsUnused(d, index, optionsOk);
      OneFaultIsUndone(reference, hasStore, reference in credentials, main.Absent?, calls, writes);
      hide ValidDocument, Loaded, Refs, Without, Stores.Saves, Stores.WritesMain, Stores.SaveCalls, Stores.BacksUp;
      hide Stores.OneFaultAtMost, Stores.SyncsWork;
      ok := Save(Without(d, index));
      if ok {
        ok := DeleteOrPutBack(d, reference, hasStore);
      }
    }

    /** The last step of a removal: if the credential cannot be deleted, the document comes back. */
    method DeleteOrPutBack(d: Document, reference: string, hasStore: bool) returns (ok: bool)
      requires ValidDocument(d, optionsOk) && main.Readable?
      modifies this
      ensures main == old(main) || main == Readable(d)
      ensures ok ==> main == old(main) && (reference != "" ==> reference in old(credentials))
      ensures credentials == if ok && reference != "" then old(credentials) - {reference} else old(credentials)
      ensures old(Quiet()) ==> Quiet() && (ok <==> reference == "" || (hasStore && reference in old(credentials)))
      ensures old(Quiet()) && !ok ==> main == Readable(d)
      ensures old(NoCrash()) ==>
                (ok <==> reference == "" || (hasStore && reference in old(credentials) && !fails(old(calls))))
      ensures old(NoCrash()) && !ok ==>
                var back := WritesMain(false, if hasStore then old(calls) + 1 else old(calls), old(writes));
                main == if back then Readable(d) else old(main)
    {
      hide ValidDocument, Loaded, Stores.SaveCalls;
      ok := true;
      if reference != "" {
        ok := hasStore;
        if ok {
          ok := Delete(reference);
        }
        if !ok {
          var _ := Save(d);
        }
      }
    }
  }

  /** After two successful saves, whatever was there before them, a main file that gets damaged
      is answered with the document of the first. */
  method DamageAfterTwoSaves(stores: Stores, first: Document, second: Document)
    returns (saved: bool, loaded: Option<Document>)
    modifies stores
    ensures saved ==> loaded == Some(first)
  {
    loaded := None;
    saved := stores.Save(first);
    if saved {
      saved := stores.Save(second);
    }
    if saved {
      stores.main := Undecodable;
      loaded := stores.Load();
    }
  }

  /** Loading again yields the same document and replaces no file, even after a migration. */
  method LoadTwice(stores: Stores) returns (once: Option<Document>, again: Option<Document>, rewrites: nat)
    modifies stores
    ensures once.Some? ==> again == once && rewrites == 0
    ensures once.Some? ==> once == Loaded(old(stores.main), old(stores.backup), stores.optionsOk)
  {
    once := stores.Load();
    var writes := stores.writes;
    again, rewrites := None, 0;
    if once.Some? {
      again := stores.Load();
      rewrites := stores.writes - writes;
    }
  }

  function OneSource(): Source { Source("id", "name", "alias", "duckdb", "", true, "ref", "{}", "") }

  lemma OneSourceIsValid(optionsOk: string -> bool)
    requires optionsOk("{}")
    ensures ValidDocument(Document(CURRENT_VERSION, [OneSource()]), optionsOk)
    ensures With(Document(CURRENT_VERSION, []), OneSource()) == Document(CURRENT_VERSION, [OneSource()])
    ensures Refs(Document(CURRENT_VERSION, [OneSource()])) == {"ref"}
  {
  }

  /** A run in which a value that was stored before is lost: the save fails, and the compensation
      takes away what the put had overwritten. */
  method StoredValueLost() returns (s: Stores, ok: bool)
    ensures !ok && s.main == Absent && s.credentials == map[]
  {
    s := new Stores(Absent, Absent, map["ref" := "before"], o => true, n => n == 1, w => false, n => false);
    OneSourceIsValid(s.optionsOk);
    ok := s.Add(OneSource(), "now", true, (source, credential) => true);
  }

  /** A run in which a save loses the last good copy: main damaged, backup good, replacing main fails. */
  method LastGoodCopyLost() returns (s: Stores, before: Option<Document>, ok: bool, after: Option<Document>)
    ensures before.Some? && !ok && after.None? && s.main == s.backup == Undecodable
  {
    var d := Document(CURRENT_VERSION, [OneSource()]);
    s := new Stores(Undecodable, Readable(d), map["ref" := "value"], o => true, n => n == 2, w => false, n => false);
    OneSourceIsValid(s.optionsOk);
    before := s.Load();
    ok := s.Save(d);
    after := s.Load();
  }

  /** A run in which an add leaves a dangling reference: the document is replaced, syncing the
      directory fails, and the credential is taken away. */
  method LateSyncDangles() returns (s: Stores, ok: bool)
    ensures !ok && s.main == Readable(Document(CURRENT_VERSION, [OneSource()])) && s.credentials == map[]
    ensures !s.NoDangling()
  {
    s := new Stores(Absent, Absent, map[], o => true, n => false, w => w == 0, n => false);
    OneSourceIsValid(s.optionsOk);
    assert s.NoDangling();
    ok := s.Add(OneSource(), "now", true, (source, credential) => true);
  }

  datatype Edit =
    | Adding(source: Source, credential: string, hasStore: bool)
    | Removing(sourceId: string, hasStore: bool)

  /** Any run of edits, every store call failing as it may, and crashing anywhere. */
  method AnyEdits(stores: Stores, edits: seq<Edit>, validates: (Source, string) -> bool)
    requires stores.NoDangling() && !stores.main.Undecodable?
    modifies stores
    ensures !stores.main.Undecodable? && (stores.SyncsWork() ==> stores.NoDangling())
  {
    hide Stores.SyncsWork, Stores.NoDangling, Stores.NoCrash, Stores.Quiet, Loaded, Stores.Saves, Stores.Puts;
    for i := 0 to |edits|
      invariant !stores.main.Undecodable? && (stores.SyncsWork() ==> stores.NoDangling())
    {
      match edits[i]
      case Adding(source, credential, hasStore) =>
        var _ := stores.Add(source, credential, hasStore, validates);
      case Removing(sourceId, hasStore) =>
        var _, _ := stores.Remove(sourceId, hasStore);
    }
  }

  function With(d: Document, s: Source): Document { d.(sources := d.sources + [s]) }

  function Without(d: Document, i: nat): Document
    requires i < |d.sources|
  {
    d.(sources := d.sources[..i] + d.sources[i + 1..])
  }

  predicate Addable(d: Option<Document>, s: Source, optionsOk: string -> bool) {
    d.Some? && ValidDocument(With(d.value, s), optionsOk)
  }

  predicate Removes(d: Option<Document>, id: string, i: nat) {
    d.Some? && i < |d.value.sources| && d.value.sources[i].id == id
  }

  /** The source is there, and its credential, if it has one, can be deleted. */
  predicate Removable(d: Option<Document>, id: string, hasStore: bool, credentials: map<string, string>) {
    d.Some? && exists i :: (0 <= i < |d.value.sources| && d.value.sources[i].id == id
      && (d.value.sources[i].credentialRef == "" || (hasStore && d.value.sources[i].credentialRef in credentials)))
  }

  ghost function FileRefs(f: File): set<string> {
    if f.Readable? then Refs(f.document) else {}
  }

  /** After an add whose credential may have been taken away again, a reference dangles exactly if
      the new document is in place and its credential is gone. */
  lemma AddedRefs(before: File, secrets: map<string, string>, d: Document, s: Source,
                  now: File, left: map<string, string>)
    requires Refs(d) == FileRefs(before)
    requires Refs(With(d, s)) == Refs(d) + if s.credentialRef == "" then {} else {s.credentialRef}
    requires s.credentialRef != "" ==> s.credentialRef !in Refs(d)
    requires now == before || now == Readable(With(d, s))
    requires secrets.Keys - {s.credentialRef} <= left.Keys && (s.credentialRef == "" ==> left == secrets)
    ensures FileRefs(before) <= secrets.Keys ==>
              (FileRefs(now) <= left.Keys <==>
               !(now == Readable(With(d, s)) && s.credentialRef != "" && s.credentialRef !in left))
    ensures s.credentialRef != "" ==> before != Readable(With(d, s))
    ensures now == Readable(With(d, s)) && FileRefs(before) == secrets.Keys
            && left.Keys == secrets.Keys + (if s.credentialRef == "" then {} else {s.credentialRef}) ==>
              FileRefs(now) == left.Keys
  {
  }

  /** Ids are distinct, so the source that is found is the one that can be removed. */
  lemma RemovableAt(d: Document, id: string, i: nat, hasStore: bool, credentials: map<string, string>,
                    optionsOk: string -> bool)
    requires ValidDocument(d, optionsOk) && i < |d.sources| && d.sources[i].id == id
    ensures Removable(Some(d), id, hasStore, credentials) <==>
              d.sources[i].credentialRef == "" || (hasStore && d.sources[i].credentialRef in credentials)
  {
  }

  lemma NewRefIsUnused(d: Document, s: Source, optionsOk: string -> bool)
    requires ValidDocument(With(d, s), optionsOk)
    ensures s.credentialRef != "" ==> s.credentialRef !in Refs(d)
    ensures Refs(With(d, s)) == Refs(d) + if s.credentialRef == "" then {} else {s.credentialRef}
  {
    var all := With(d, s).sources;
    assert all[|d.sources|] == s && forall i :: 0 <= i < |d.sources| ==> all[i] == d.sources[i];
  }

  lemma RemovedRefIsUnused(d: Document, i: nat, optionsOk: string -> bool)
    requires ValidDocument(d, optionsOk) && i < |d.sources|
    ensures Refs(Without(d, i)) == Refs(d) - {d.sources[i].credentialRef}
    ensures ValidDocument(Without(d, i), optionsOk)
  {
  }
}
