/** The configured sources and the definitions the adapters receive
    (internal/config/config.go, internal/source/source.go). */
module Sources {

  /** One entry of the configuration document. `path` is what decoding `options` as
      `{"path": ...}` yields, "" when that fails (internal/app/runtime.go reads it). */
  datatype Source = Source(
    id: string, name: string, alias: string, kind: string, databaseType: string,
    enabled: bool, credentialRef: string, options: string, path: string)

  datatype Document = Document(version: int, sources: seq<Source>)

  datatype Definition = Definition(
    id: string, name: string, alias: string, kind: string, databaseType: string, enabled: bool)

  function DefinitionOf(s: Source): Definition {
    Definition(s.id, s.name, s.alias, s.kind, s.databaseType, s.enabled)
  }

  datatype Option<+T> = None | Some(value: T)

  predicate LowerLetter(c: char) { 'a' <= c <= 'z' }

  predicate IdentifierChar(c: char) { LowerLetter(c) || '0' <= c <= '9' || c == '_' }

  /** `^[a-z][a-z0-9_]{0,62}$`: the alias pattern, and the engine's own identifier test. */
  predicate ValidIdentifier(s: string) {
    0 < |s| <= 63 && LowerLetter(s[0]) && forall i :: 1 <= i < |s| ==> IdentifierChar(s[i])
  }

  lemma IdentifierIs(s: string)
    ensures ValidIdentifier(s) <==>
              && 1 <= |s| <= 63 && 'a' <= s[0] <= 'z'
              && forall c :: c in s ==> 'a' <= c <= 'z' || '0' <= c <= '9' || c == '_'
  {
    if ValidIdentifier(s) {
      forall c | c in s ensures 'a' <= c <= 'z' || '0' <= c <= '9' || c == '_' {
        var i :| 0 <= i < |s| && s[i] == c;
        assert i == 0 ==> LowerLetter(c);
        assert i > 0 ==> IdentifierChar(s[i]);
      }
    } else if 1 <= |s| <= 63 && LowerLetter(s[0]) {
      var i :| 1 <= i < |s| && !IdentifierChar(s[i]);
      assert s[i] in s;
    }
  }

  /** What validation asks of one source; `optionsOk` says whether its options decode to an object
      without secret fields. */
  predicate ValidSource(s: Source, optionsOk: string -> bool) {
    s.id != "" && s.name != "" && s.kind != "" && ValidIdentifier(s.alias) && optionsOk(s.options)
  }

  /** `strings.Contains`. */
  predicate Contains(s: string, word: string) {
    word <= s || (s != "" && Contains(s[1..], word))
  }

  lemma {:induction false} ContainsIs(s: string, word: string)
    ensures Contains(s, word) <==> exists p, q :: s == p + word + q
  {
    if word <= s {
      assert s == "" + word + s[|word|..];
    } else if s != "" {
      ContainsIs(s[1..], word);
      if exists p, q :: s[1..] == p + word + q {
        var p, q :| s[1..] == p + word + q;
        assert s == ([s[0]] + p) + word + q;
      }
      if exists p, q :: s == p + word + q {
        var p, q :| s == p + word + q;
        assert p != "";
        assert s[1..] == p[1..] + word + q;
      }
    }
  }

  predicate DistinctIds(sources: seq<Source>) {
    forall i, j :: 0 <= i < j < |sources| ==> sources[i].id != sources[j].id
  }

  predicate DistinctAliases(sources: seq<Source>) {
    forall i, j :: 0 <= i < j < |sources| ==> sources[i].alias != sources[j].alias
  }

  /** Credential references are unique where they are present. */
  predicate DistinctRefs(sources: seq<Source>) {
    forall i, j :: 0 <= i < j < |sources| && sources[i].credentialRef != "" ==>
      sources[i].credentialRef != sources[j].credentialRef
  }

  /** The contract between the engine and the reconciler: an attach adds exactly its own catalog,
      under an alias that was free, or leaves the attached catalogs as they were. */
  predicate AllOrNothing<T(==)>(before: map<string, T>, alias: string, value: T, ok: bool, now: map<string, T>) {
    if ok then alias !in before && now == before[alias := value] else now == before
  }
}
