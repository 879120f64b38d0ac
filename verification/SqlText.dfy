/** SQL the engine and the ODBC adapter print, against readers that take it apart again
    (internal/engine/engine.go:366-367, 810-859; internal/source/odbc/odbc.go:151, 173-183). */
module SqlText {
  import opened Sources
  import opened Ordering
  import opened Quoting

  function QuoteIdentifier(value: string): string { Quoted(value, '"', '"') }

  function Literal(value: string): string { Quoted(value, '\'', '\'') }

  // ---------------------------------------------------------------- views over ODBC relations

  function RemoteQuote(databaseType: string): char {
    if databaseType == "mysql" || databaseType == "mariadb" then '`' else '"'
  }

  function RemoteName(databaseType: string, schema: string, name: string): string {
    var q := RemoteQuote(databaseType);
    if databaseType == "sqlite" then Quoted(name, q, q)
    else Quoted(schema, q, q) + "." + Quoted(name, q, q)
  }

  function RemoteSelect(databaseType: string, schema: string, name: string): string {
    "SELECT * FROM " + RemoteName(databaseType, schema, name)
  }

  datatype View = View(alias: string, schema: string, name: string, handle: string, select: string)

  function ViewStatement(v: View): string {
    "CREATE VIEW " + QuoteIdentifier(v.alias) + "." + QuoteIdentifier(v.schema) + "." + QuoteIdentifier(v.name) +
    " AS SELECT * FROM odbc_query(" + v.handle + ", " + Literal(v.select) + ")"
  }

  /** A dot-separated name, each part quoted with `q`. */
  function ReadName(text: string, q: char): Option<(seq<string>, string)>
    decreases |text|
  {
    var part := ReadQuoted(text, q, q);
    if part.None? then None
    else if part.value.rest == "" || part.value.rest[0] != '.' then Some(([part.value.value], part.value.rest))
    else
      var others := ReadName(part.value.rest[1..], q);
      if others.None? then None else Some(([part.value.value] + others.value.0, others.value.1))
  }

  function ReadRemoteSelect(databaseType: string, text: string): Option<seq<string>> {
    var body := Skip(text, "SELECT * FROM ");
    if body.None? then None else
      var name := ReadName(body.value, RemoteQuote(databaseType));
      if name.None? || name.value.1 != "" then None else Some(name.value.0)
  }

  function ReadView(text: string): Option<View> {
    var body := Skip(text, "CREATE VIEW ");
    if body.None? then None else
      var name := ReadName(body.value, '"');
      if name.None? || |name.value.0| != 3 then None else
        var call := Skip(name.value.1, " AS SELECT * FROM odbc_query(");
        if call.None? then None else
          var handle := Until(call.value, {','});
          var argument := Skip(handle.rest, ", ");
          if argument.None? then None else
            var select := ReadQuoted(argument.value, '\'', '\'');
            if select.None? || select.value.rest != ")" then None
            else Some(View(name.value.0[0], name.value.0[1], name.value.0[2], handle.value, select.value.value))
  }

  lemma {:induction false} NamePartReadsBack(part: string, q: char, rest: string)
    requires q != '.' && (rest == "" || rest[0] != q)
    ensures rest == "" || rest[0] != '.' ==> ReadName(Quoted(part, q, q) + rest, q) == Some(([part], rest))
    ensures rest != "" && rest[0] == '.' && ReadName(rest[1..], q).Some? ==>
              ReadName(Quoted(part, q, q) + rest, q) ==
                Some(([part] + ReadName(rest[1..], q).value.0, ReadName(rest[1..], q).value.1))
  {
    ReadsBack(part, q, q, rest);
  }

  lemma TwoPartsReadBack(schema: string, name: string, q: char)
    requires q != '.'
    ensures ReadName(Quoted(schema, q, q) + "." + Quoted(name, q, q), q) == Some(([schema, name], ""))
  {
    hide ReadName, Quoted;
    var second := Quoted(name, q, q);
    NamePartReadsBack(name, q, "");
    assert second + "" == second && ("." + second)[1..] == second;
    NamePartReadsBack(schema, q, "." + second);
    assert Quoted(schema, q, q) + "." + second == Quoted(schema, q, q) + ("." + second);
    assert [schema] + [name] == [schema, name];
  }

  /** Reading the select with the dialect's quote gives back schema and name, or for SQLite the
      name alone, whatever they contain. */
  lemma RemoteSelectReadsBack(databaseType: string, schema: string, name: string)
    ensures ReadRemoteSelect(databaseType, RemoteSelect(databaseType, schema, name)) ==
              Some(if databaseType == "sqlite" then [name] else [schema, name])
  {
    var q := RemoteQuote(databaseType);
    SkipsBack("SELECT * FROM ", RemoteName(databaseType, schema, name));
    if databaseType == "sqlite" {
      NamePartReadsBack(name, q, "");
      assert Quoted(name, q, q) + "" == Quoted(name, q, q);
    } else {
      TwoPartsReadBack(schema, name, q);
    }
  }

  /** MySQL and MariaDB quote remote names with backticks, every other dialect with double quotes;
      the schema is there unless the dialect is SQLite. */
  lemma RemoteQuoting(databaseType: string, schema: string, name: string)
    ensures databaseType in {"mysql", "mariadb"} ==>
              RemoteSelect(databaseType, schema, name) ==
                "SELECT * FROM `" + Doubled(schema, '`') + "`.`" + Doubled(name, '`') + "`"
    ensures databaseType == "sqlite" ==>
              RemoteSelect(databaseType, schema, name) == "SELECT * FROM \"" + Doubled(name, '"') + "\""
    ensures databaseType !in {"mysql", "mariadb", "sqlite"} ==>
              RemoteSelect(databaseType, schema, name) ==
                "SELECT * FROM \"" + Doubled(schema, '"') + "\".\"" + Doubled(name, '"') + "\""
  {
    var s, n := Doubled(schema, '`'), Doubled(name, '`');
    assert "SELECT * FROM " + (['`'] + s + ['`'] + "." + (['`'] + n + ['`'])) ==
           "SELECT * FROM `" + s + "`.`" + n + "`";
    var s', n' := Doubled(schema, '"'), Doubled(name, '"');
    assert "SELECT * FROM " + (['"'] + s' + ['"'] + "." + (['"'] + n' + ['"'])) ==
           "SELECT * FROM \"" + s' + "\".\"" + n' + "\"";
    assert "SELECT * FROM " + (['"'] + n' + ['"']) == "SELECT * FROM \"" + n' + "\"";
  }

  lemma ThreePartsReadBack(a: string, b: string, c: string, rest: string)
    requires rest != "" && rest[0] == ' '
    ensures ReadName(QuoteIdentifier(a) + "." + QuoteIdentifier(b) + "." + QuoteIdentifier(c) + rest, '"') ==
              Some(([a, b, c], rest))
  {
    hide ReadName, Quoted;
    var third := QuoteIdentifier(c) + rest;
    var second := QuoteIdentifier(b) + ("." + third);
    NamePartReadsBack(c, '"', rest);
    assert ("." + third)[1..] == third && ("." + second)[1..] == second;
    NamePartReadsBack(b, '"', "." + third);
    NamePartReadsBack(a, '"', "." + second);
    assert QuoteIdentifier(a) + "." + QuoteIdentifier(b) + "." + QuoteIdentifier(c) + rest ==
           QuoteIdentifier(a) + ("." + second);
    assert [a] + ([b] + [c]) == [a, b, c];
  }

  /** The view statement reads back part by part, the remote select included. */
  lemma ViewReadsBack(v: View)
    requires ',' !in v.handle
    ensures ReadView(ViewStatement(v)) == Some(v)
  {
    hide ReadName, Quoted, Unquote, ReadQuoted, Until, Skip;
    var last := ", " + (Literal(v.select) + ")");
    var call := " AS SELECT * FROM odbc_query(" + (v.handle + last);
    var name := QuoteIdentifier(v.alias) + "." + QuoteIdentifier(v.schema) + "." + QuoteIdentifier(v.name);
    assert ViewStatement(v) == "CREATE VIEW " + (name + call);
    SkipsBack("CREATE VIEW ", name + call);
    ThreePartsReadBack(v.alias, v.schema, v.name, call);
    SkipsBack(" AS SELECT * FROM odbc_query(", v.handle + last);
    UntilStops(v.handle, {','}, last);
    SkipsBack(", ", Literal(v.select) + ")");
    ReadsBack(v.select, '\'', '\'', ")");
  }

  /** Both layers of quoting are undone in turn: reading the view gives the remote select, and
      reading that gives the remote schema and name. */
  lemma {:induction false} NestedQuotingUndone(
      databaseType: string, alias: string, schema: string, name: string, handle: string)
    requires ',' !in handle
    ensures var select := RemoteSelect(databaseType, schema, name);
            var view := ReadView(ViewStatement(View(alias, schema, name, handle, select)));
            && view.Some? && view.value.schema == schema && view.value.name == name
            && ReadRemoteSelect(databaseType, view.value.select) ==
                 Some(if databaseType == "sqlite" then [name] else [schema, name])
  {
    hide ReadView, ViewStatement, RemoteSelect, ReadRemoteSelect;
    ViewReadsBack(View(alias, schema, name, handle, RemoteSelect(databaseType, schema, name)));
    RemoteSelectReadsBack(databaseType, schema, name);
  }

  // ---------------------------------------------------------------- secrets

  const POSTGRES_OPTIONS: set<string> := {
    "HOST", "HOSTADDR", "PORT", "DATABASE", "DBNAME", "USER", "PASSWORD", "SSLMODE", "SSLROOTCERT",
    "CONNECT_TIMEOUT", "APPLICATION_NAME", "KEEPALIVES", "KEEPALIVES_IDLE", "OPTIONS"}

  const MYSQL_OPTIONS: set<string> := {
    "HOST", "PORT", "DATABASE", "USER", "PASSWORD", "SSL_MODE", "SSL_CA", "SSL_CAPATH", "SSL_CERT",
    "SSL_CIPHER", "SSL_CRL", "SSL_CRLPATH", "SSL_KEY"}

  function AllowedOptions(kind: string): set<string> {
    if kind == "mysql" then MYSQL_OPTIONS else POSTGRES_OPTIONS
  }

  /** Five options are for both kinds of database; the others belong to one of them. */
  lemma WhatIsAllowed(kind: string, option: string)
    ensures option in AllowedOptions(kind) <==>
              || option in {"HOST", "PORT", "DATABASE", "USER", "PASSWORD"}
              || (kind == "mysql" && option in {"SSL_MODE", "SSL_CA", "SSL_CAPATH", "SSL_CERT", "SSL_CIPHER", "SSL_CRL",
                                                "SSL_CRLPATH", "SSL_KEY"})
              || (kind != "mysql" && option in {"HOSTADDR", "DBNAME", "SSLMODE", "SSLROOTCERT", "CONNECT_TIMEOUT",
                                                "APPLICATION_NAME", "KEEPALIVES", "KEEPALIVES_IDLE", "OPTIONS"})
  {
  }

  datatype SecretError = InvalidType | InvalidOption | DuplicatedOption

  datatype SecretResult = Statement(text: string, options: map<string, string>) | Refused(error: SecretError)

  predicate AllAllowed(upper: string -> string, kind: string, values: map<string, string>) {
    forall k :: k in values ==> upper(k) in AllowedOptions(kind)
  }

  predicate AllDistinct(upper: string -> string, keys: set<string>) {
    forall j, k :: j in keys && k in keys && j != k ==> upper(j) != upper(k)
  }

  /** `options` is `values` with its keys upper-cased. */
  ghost predicate UpperCased(upper: string -> string, values: map<string, string>, keys: set<string>,
                             options: map<string, string>)
    requires keys <= values.Keys
  {
    && (forall k :: k in keys ==> upper(k) in options && options[upper(k)] == values[k])
    && (forall u :: u in options ==> exists k :: k in keys && upper(k) == u)
  }

  function OptionText(key: string, value: string): string { key + " " + Literal(value) }

  function OptionTexts(options: map<string, string>, keys: seq<string>): seq<string>
    requires forall k :: k in keys ==> k in options
  {
    seq(|keys|, i requires 0 <= i < |keys| => OptionText(keys[i], options[keys[i]]))
  }

  /** The statement a normalized option map prints as: it depends on nothing else. */
  ghost function SecretText(name: string, kind: string, options: map<string, string>): string {
    var keys := Sorted(options.Keys);
    assert forall k :: k in keys ==> k in Elements(keys);
    "CREATE OR REPLACE SECRET " + QuoteIdentifier(name) + " (" +
    Join(["TYPE " + kind] + OptionTexts(options, keys), ", ") + ")"
  }

  /** Upper-cases the keys, in whatever order the map is walked. */
  method Normalize(upper: string -> string, kind: string, values: map<string, string>)
    returns (error: Option<SecretError>, normalized: map<string, string>)
    ensures error.None? <==> AllAllowed(upper, kind, values) && AllDistinct(upper, values.Keys)
    ensures error.None? ==>
              UpperCased(upper, values, values.Keys, normalized) && normalized.Keys <= AllowedOptions(kind)
    ensures error.Some? ==>
              || (error.value == InvalidOption && !AllAllowed(upper, kind, values))
              || (error.value == DuplicatedOption && !AllDistinct(upper, values.Keys))
  {
    hide AllowedOptions;
    normalized := map[];
    var todo := values.Keys;
    ghost var done: set<string> := {};
    while todo != {}
      invariant todo + done == values.Keys && todo !! done
      invariant UpperCased(upper, values, done, normalized)
      invariant normalized.Keys <= AllowedOptions(kind)
      invariant AllDistinct(upper, done)
    {
      var rawKey :| rawKey in todo;
      var key := upper(rawKey);
      if key !in AllowedOptions(kind) {
        return Some(InvalidOption), normalized;
      }
      if key in normalized {
        return Some(DuplicatedOption), normalized;
      }
      OneMoreKey(upper, values, done, normalized, rawKey);
      normalized := normalized[key := values[rawKey]];
      todo, done := todo - {rawKey}, done + {rawKey};
    }
    assert done == values.Keys;
    assert forall k :: k in values ==> upper(k) in normalized.Keys;
    error := None;
  }

  lemma OneMoreKey(upper: string -> string, values: map<string, string>, keys: set<string>,
                   options: map<string, string>, k: string)
    requires keys <= values.Keys && k in values && UpperCased(upper, values, keys, options)
    requires upper(k) !in options
    ensures UpperCased(upper, values, keys + {k}, options[upper(k) := values[k]])
    ensures AllDistinct(upper, keys) ==> AllDistinct(upper, keys + {k})
  {
  }

  method PrintSecret(name: string, kind: string, options: map<string, string>) returns (text: string)
    ensures text == SecretText(name, kind, options)
  {
    hide StrictlySorted, OptionText, Quoted, Join;
    var keys := SortSet(options.Keys);
    assert forall k :: k in keys ==> k in Elements(keys);
    var parts := ["TYPE " + kind];
    for i := 0 to |keys|
      invariant parts == ["TYPE " + kind] + OptionTexts(options, keys[..i])
    {
      assert keys[i] in keys;
      assert OptionTexts(options, keys[..i + 1]) ==
             OptionTexts(options, keys[..i]) + [OptionText(keys[i], options[keys[i]])];
      parts := parts + [OptionText(keys[i], options[keys[i]])];
    }
    assert keys[..|keys|] == keys;
    text := "CREATE OR REPLACE SECRET " + QuoteIdentifier(name) + " (" + Join(parts, ", ") + ")";
  }

  method CreateSecretStatement(upper: string -> string, name: string, kind: string, values: map<string, string>)
    returns (r: SecretResult)
    ensures r.Statement? <==>
              ValidIdentifier(kind) && AllAllowed(upper, kind, values) && AllDistinct(upper, values.Keys)
    ensures r.Statement? ==> UpperCased(upper, values, values.Keys, r.options)
    ensures r.Statement? ==> r.text == SecretText(name, kind, r.options) && r.options.Keys <= AllowedOptions(kind)
    ensures r.Refused? ==>
              match r.error
              case InvalidType => !ValidIdentifier(kind)
              case InvalidOption => !AllAllowed(upper, kind, values)
              case DuplicatedOption => !AllDistinct(upper, values.Keys)
  {
    hide AllowedOptions, ValidIdentifier, StrictlySorted, OptionText, AllAllowed, AllDistinct, UpperCased, Quoted, Join;
    if !ValidIdentifier(kind) {
      return Refused(InvalidType);
    }
    var error, normalized := Normalize(upper, kind, values);
    if error.Some? {
      return Refused(error.value);
    }
    var text := PrintSecret(name, kind, normalized);
    r := Statement(text, normalized);
  }

  /** Two option maps with the same keys up to case, printed in whatever order they are walked,
      give the same statement. */
  lemma OrderDoesNotMatter(upper: string -> string, values: map<string, string>,
                           first: map<string, string>, second: map<string, string>)
    requires UpperCased(upper, values, values.Keys, first) && UpperCased(upper, values, values.Keys, second)
    ensures first == second
  {
  }

  // ---------------------------------------------------------------- reading a secret back

  datatype Secret = Secret(name: string, kind: string, options: seq<(string, string)>)

  function ReadOptions(text: string): Option<seq<(string, string)>>
    decreases |text|
  {
    if text == ")" then Some([]) else
      var body := Skip(text, ", ");
      if body.None? then None else
        var key := Until(body.value, {' '});
        var literal := Skip(key.rest, " ");
        if literal.None? then None else
          var value := ReadQuoted(literal.value, '\'', '\'');
          if value.None? then None else
            var others := ReadOptions(value.value.rest);
            if others.None? then None else Some([(key.value, value.value.value)] + others.value)
  }

  function ReadSecret(text: string): Option<Secret> {
    var body := Skip(text, "CREATE OR REPLACE SECRET ");
    if body.None? then None else
      var name := ReadQuoted(body.value, '"', '"');
      if name.None? then None else
        var kind := Skip(name.value.rest, " (TYPE ");
        if kind.None? then None else
          var word := Until(kind.value, {',', ')'});
          var options := ReadOptions(word.rest);
          if options.None? then None else Some(Secret(name.value.value, word.value, options.value))
  }

  ghost function SortedOptions(options: map<string, string>, keys: seq<string>): seq<(string, string)>
    requires forall k :: k in keys ==> k in options
  {
    seq(|keys|, i requires 0 <= i < |keys| => (keys[i], options[keys[i]]))
  }

  lemma {:induction false} OptionsReadBack(options: map<string, string>, keys: seq<string>)
    requires forall k :: k in keys ==> k in options && ' ' !in k
    ensures ReadOptions(Tail(OptionTexts(options, keys))) == Some(SortedOptions(options, keys))
  {
    hide Quoted, Unquote, ReadQuoted, Until, Skip;
    if keys != [] {
      var key, rest := keys[0], Tail(OptionTexts(options, keys[1..]));
      OptionsReadBack(options, keys[1..]);
      var value := Literal(options[key]);
      assert OptionTexts(options, keys) == [OptionText(key, options[key])] + OptionTexts(options, keys[1..]);
      assert Tail(OptionTexts(options, keys)) == ", " + (key + (" " + (value + rest)));
      SkipsBack(", ", key + (" " + (value + rest)));
      UntilStops(key, {' '}, " " + (value + rest));
      SkipsBack(" ", value + rest);
      ReadsBack(options[key], '\'', '\'', rest);
      assert SortedOptions(options, keys) == [(key, options[key])] + SortedOptions(options, keys[1..]);
    }
  }

  /** What follows the first element of a joined, parenthesised list. */
  function Tail(parts: seq<string>): (r: string)
    ensures r != "" && r[0] in {',', ')'}
  {
    if parts == [] then ")" else ", " + parts[0] + Tail(parts[1..])
  }

  lemma {:induction false} JoinIsTail(first: string, parts: seq<string>)
    ensures Join([first] + parts, ", ") + ")" == first + Tail(parts)
    decreases |parts|
  {
    var all := [first] + parts;
    assert all[0] == first && all[1..] == parts;
    if parts != [] {
      JoinIsTail(parts[0], parts[1..]);
      assert parts == [parts[0]] + parts[1..];
      assert Join(all, ", ") + ")" == first + ", " + (Join(parts, ", ") + ")");
      assert first + ", " + (parts[0] + Tail(parts[1..])) == first + (", " + parts[0] + Tail(parts[1..]));
    }
  }

  lemma OptionNamesHaveNoSpace(kind: string, option: string)
    requires option in AllowedOptions(kind)
    ensures ' ' !in option
  {
  }

  /** A printed secret reads back as exactly its name, its type and its sorted options. */
  lemma SecretReadsBack(name: string, kind: string, options: map<string, string>)
    requires ValidIdentifier(kind) && options.Keys <= AllowedOptions(kind)
    ensures var keys := Sorted(options.Keys);
            && (forall k :: k in keys <==> k in options)
            && ReadSecret(SecretText(name, kind, options)) == Some(Secret(name, kind, SortedOptions(options, keys)))
  {
    hide StrictlySorted, Quoted, Unquote, ReadQuoted, Until, Skip, Join, ReadOptions, OptionText, SortedOptions, Tail;
    var keys := Sorted(options.Keys);
    assert forall k :: k in keys <==> k in Elements(keys);
    forall k | k in keys ensures ' ' !in k { OptionNamesHaveNoSpace(kind, k); }
    var texts := OptionTexts(options, keys);
    JoinIsTail("TYPE " + kind, texts);
    OptionsReadBack(options, keys);
    var body := QuoteIdentifier(name) + (" (TYPE " + (kind + Tail(texts)));
    assert " (" + "TYPE " == " (TYPE ";
    assert " (" + ("TYPE " + kind + Tail(texts)) == " (TYPE " + (kind + Tail(texts));
    var parts := Join(["TYPE " + kind] + texts, ", ");
    assert SecretText(name, kind, options) ==
           "CREATE OR REPLACE SECRET " + (QuoteIdentifier(name) + (" (" + (parts + ")")));
    SkipsBack("CREATE OR REPLACE SECRET ", body);
    ReadsBack(name, '"', '"', " (TYPE " + (kind + Tail(texts)));
    SkipsBack(" (TYPE ", kind + Tail(texts));
    assert forall i :: 0 <= i < |kind| ==> kind[i] != ',' && kind[i] != ')';
    UntilStops(kind, {',', ')'}, Tail(texts));
  }

  // ---------------------------------------------------------------- lists of paths

  function NonEmpty(values: seq<string>): seq<string> {
    if values == [] then [] else
      var last := values[|values| - 1];
      NonEmpty(values[..|values| - 1]) + if last == "" then [] else [last]
  }

  function Literals(values: seq<string>): (r: seq<string>)
    ensures |r| == |values| && forall i :: 0 <= i < |r| ==> r[i] == Literal(values[i])
  {
    seq(|values|, i requires 0 <= i < |values| => Literal(values[i]))
  }

  function StringList(values: seq<string>): string {
    "[" + Join(Literals(values), ", ") + "]"
  }

  /** The list the allowlists of a starting engine are set to; empty entries are left out. */
  method QuoteStringList(values: seq<string>) returns (text: string)
    ensures text == StringList(NonEmpty(values))
  {
    var quoted: seq<string> := [];
    for i := 0 to |values|
      invariant quoted == Literals(NonEmpty(values[..i]))
    {
      assert values[..i + 1][..i] == values[..i];
      if values[i] != "" {
        quoted := quoted + [Literal(values[i])];
      }
    }
    assert values[..|values|] == values;
    text := "[" + Join(quoted, ", ") + "]";
  }

  /** A non-empty list, after its opening bracket. */
  function ReadItems(text: string): Option<seq<string>>
    decreases |text|
  {
    var item := ReadQuoted(text, '\'', '\'');
    if item.None? then None
    else if item.value.rest == "]" then Some([item.value.value])
    else
      var more := Skip(item.value.rest, ", ");
      if more.None? then None else
        var others := ReadItems(more.value);
        if others.None? then None else Some([item.value.value] + others.value)
  }

  function ReadStringList(text: string): Option<seq<string>> {
    var items := Skip(text, "[");
    if items.None? then None else if items.value == "]" then Some([]) else ReadItems(items.value)
  }

  lemma {:induction false} ItemsReadBack(values: seq<string>)
    requires values != []
    ensures ReadItems(Join(Literals(values), ", ") + "]") == Some(values)
  {
    hide Quoted, Unquote, ReadQuoted, Skip;
    var all, first := Literals(values), Literal(values[0]);
    if |values| == 1 {
      assert Join(all, ", ") + "]" == first + "]";
      ReadsBack(values[0], '\'', '\'', "]");
      assert values == [values[0]];
    } else {
      var rest := Join(Literals(values[1..]), ", ") + "]";
      assert all[1..] == Literals(values[1..]);
      assert Join(all, ", ") + "]" == first + (", " + rest);
      ReadsBack(values[0], '\'', '\'', ", " + rest);
      SkipsBack(", ", rest);
      ItemsReadBack(values[1..]);
      assert values == [values[0]] + values[1..];
    }
  }

  /** Every printed list of paths reads back, whatever quotes, commas and brackets the paths hold. */
  lemma StringListReadsBack(values: seq<string>)
    ensures ReadStringList(StringList(values)) == Some(values)
  {
    hide Quoted, Unquote, ReadQuoted, ReadItems, Skip;
    var body := Join(Literals(values), ", ") + "]";
    SkipsBack("[", body);
    assert StringList(values) == "[" + body;
    if values == [] {
      assert body == "]";
    } else {
      ItemsReadBack(values);
      NotClosed(values);
    }
  }

  lemma NotClosed(values: seq<string>)
    requires values != []
    ensures Join(Literals(values), ", ") + "]" != "]"
  {
  }
}
