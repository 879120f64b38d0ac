/** ODBC connection strings (internal/source/odbc/odbc.go:58-108, 185-217 and
    internal/engine/engine.go:896-905) against a reader of the connection-string grammar of
    section 2 of [MS-ODBCSTR]: `keyword=value` pairs separated by semicolons, a value either in
    braces with `}` doubled, or plain with surrounding white space ignored. */
module ConnectionStrings {
  import opened Sources
  import opened Ordering
  import opened Quoting

  datatype Config = Config(dsn: string, driver: string, properties: map<string, string>, databaseType: string)

  // ---------------------------------------------------------------- white space

  /** White space as Go's unicode package has it. */
  predicate IsSpace(c: char) {
    || '\t' <= c <= '\r' || c == ' ' || c == '\U{0085}' || c == '\U{00A0}' || c == '\U{1680}'
    || '\U{2000}' <= c <= '\U{200A}' || c == '\U{2028}' || c == '\U{2029}' || c == '\U{202F}'
    || c == '\U{205F}' || c == '\U{3000}'
  }

  /** The 25 characters with Unicode's White_Space property. */
  lemma WhatIsSpace(c: char)
    ensures IsSpace(c) <==> c in {
              '\t', '\n', '\U{000B}', '\U{000C}', '\r', ' ', '\U{0085}', '\U{00A0}', '\U{1680}',
              '\U{2000}', '\U{2001}', '\U{2002}', '\U{2003}', '\U{2004}', '\U{2005}', '\U{2006}', '\U{2007}',
              '\U{2008}', '\U{2009}', '\U{200A}', '\U{2028}', '\U{2029}', '\U{202F}', '\U{205F}', '\U{3000}'}
  {
  }

  function TrimLeft(s: string): string {
    if s != "" && IsSpace(s[0]) then TrimLeft(s[1..]) else s
  }

  function TrimRight(s: string): string {
    if s != "" && IsSpace(s[|s| - 1]) then TrimRight(s[..|s| - 1]) else s
  }

  /** `strings.TrimSpace`. */
  function Trim(s: string): string { TrimRight(TrimLeft(s)) }

  // ---------------------------------------------------------------- validation

  predicate ContainsAny(s: string, chars: set<char>) {
    exists i :: 0 <= i < |s| && s[i] in chars
  }

  predicate ValidDsn(s: string) {
    s == Trim(s) && s != "" && !ContainsAny(s, {';', '=', '{', '}', '\r', '\n'})
  }

  predicate PropertyChar(c: char) {
    'A' <= c <= 'Z' || 'a' <= c <= 'z' || '0' <= c <= '9' || c == '_'
  }

  predicate ValidPropertyKey(key: string) {
    key != "" && key == Trim(key) && forall i :: 0 <= i < |key| ==> PropertyChar(key[i])
  }

  predicate CredentialKey(upper: string) {
    || upper in {"UID", "USER", "PWD", "PASSWORD"}
    || Contains(upper, "PASS") || Contains(upper, "SECRET") || Contains(upper, "TOKEN") || Contains(upper, "CREDENTIAL")
  }

  function DatabaseType(cfg: Config): string {
    if cfg.databaseType == "" then "odbc" else cfg.databaseType
  }

  /** What the adapter accepts; `upper` stands for `strings.ToUpper`. */
  predicate Accepts(cfg: Config, definition: Definition, upper: string -> string) {
    && definition.id != "" && definition.name != "" && ValidIdentifier(definition.alias)
    && ((cfg.dsn == "") != (cfg.driver == ""))
    && (cfg.dsn != "" ==> ValidDsn(cfg.dsn))
    && DatabaseType(cfg) in {"odbc", "postgres", "mysql", "mariadb", "sqlite", "duckdb", "sqlserver", "oracle"}
    && forall key :: key in cfg.properties ==>
         ValidPropertyKey(key) && !CredentialKey(upper(Trim(key))) && !ContainsAny(key, {';', '{', '}'})
  }

  // ---------------------------------------------------------------- printing

  function ConnectionValue(value: string): string {
    if value == "" || value != Trim(value) || ContainsAny(value, {';', '{', '}'})
    then Quoted(value, '{', '}')
    else value
  }

  /** Without white space at either end. */
  predicate Tidy(s: string) {
    s == "" || (!IsSpace(s[0]) && !IsSpace(s[|s| - 1]))
  }

  lemma TidyIsTrimmed(s: string)
    ensures s == Trim(s) <==> Tidy(s)
  {
    TrimmedLeft(s);
    TrimmedRight(TrimLeft(s));
    if Tidy(s) && s != "" {
      assert TrimLeft(s) == s && TrimRight(s) == s;
    }
  }

  lemma {:induction false} TrimmedLeft(s: string)
    ensures |TrimLeft(s)| <= |s| && (TrimLeft(s) == "" || !IsSpace(TrimLeft(s)[0]))
  {
    if s != "" && IsSpace(s[0]) {
      TrimmedLeft(s[1..]);
    }
  }

  lemma {:induction false} TrimmedRight(s: string)
    ensures TrimRight(s) <= s && (TrimRight(s) == "" || !IsSpace(TrimRight(s)[|TrimRight(s)| - 1]))
  {
    if s != "" && IsSpace(s[|s| - 1]) {
      TrimmedRight(s[..|s| - 1]);
    }
  }

  /** A value is printed as it is exactly if it has something in it, no white space at its ends and
      neither a semicolon nor a brace; otherwise it is printed in braces. */
  lemma PlainExactly(value: string)
    ensures ConnectionValue(value) ==
              if value != "" && Tidy(value) && ';' !in value && '{' !in value && '}' !in value then value
              else "{" + Doubled(value, '}') + "}"
  {
    TidyIsTrimmed(value);
    assert ContainsAny(value, {';', '{', '}'}) <==> ';' in value || '{' in value || '}' in value;
  }

  /** What the adapter accepts, character by character: exactly one of source name and driver, a
      source name that cannot break out of its pair, one of eight database types, and property
      keys of ASCII letters, digits and underscores that do not speak of credentials. The test of
      keys for braces and semicolons adds nothing. */
  lemma WhatIsAccepted(cfg: Config, definition: Definition, upper: string -> string)
    ensures Accepts(cfg, definition, upper) <==>
              && definition.id != "" && definition.name != ""
              && 1 <= |definition.alias| <= 63 && 'a' <= definition.alias[0] <= 'z'
              && (forall c :: c in definition.alias ==> 'a' <= c <= 'z' || '0' <= c <= '9' || c == '_')
              && ((cfg.dsn != "" && cfg.driver == "") || (cfg.dsn == "" && cfg.driver != ""))
              && Tidy(cfg.dsn) && (forall c :: c in cfg.dsn ==> c !in {';', '=', '{', '}', '\r', '\n'})
              && cfg.databaseType in {"", "odbc", "postgres", "mysql", "mariadb", "sqlite", "duckdb", "sqlserver",
                                      "oracle"}
              && (forall key :: key in cfg.properties ==> key != "" && Ascii(key) && !Suspicious(upper(key)))
  {
    hide ContainsAny, ValidPropertyKey, CredentialKey, ValidIdentifier, Trim;
    IdentifierIs(definition.alias);
    DsnIs(cfg.dsn);
    forall key {
      KeyIs(key, upper);
    }
  }

  /** Letters, digits and underscores only. */
  predicate Ascii(key: string) {
    forall c :: c in key ==> 'A' <= c <= 'Z' || 'a' <= c <= 'z' || '0' <= c <= '9' || c == '_'
  }

  /** Says user or password, or has a word for a credential in it. */
  ghost predicate Suspicious(key: string) {
    || key in {"UID", "USER", "PWD", "PASSWORD"}
    || exists p, q :: key == p + "PASS" + q || key == p + "SECRET" + q || key == p + "TOKEN" + q
                      || key == p + "CREDENTIAL" + q
  }

  lemma AnyIs(s: string, chars: set<char>)
    ensures ContainsAny(s, chars) <==> exists c :: c in s && c in chars
  {
    if c :| c in s && c in chars {
      var i :| 0 <= i < |s| && s[i] == c;
    }
  }

  lemma DsnIs(dsn: string)
    ensures (dsn != "" ==> ValidDsn(dsn)) <==>
              Tidy(dsn) && forall c :: c in dsn ==> c !in {';', '=', '{', '}', '\r', '\n'}
  {
    hide Trim;
    TidyIsTrimmed(dsn);
    AnyIs(dsn, {';', '=', '{', '}', '\r', '\n'});
  }

  lemma KeyIs(key: string, upper: string -> string)
    ensures ValidPropertyKey(key) && !CredentialKey(upper(Trim(key))) && !ContainsAny(key, {';', '{', '}'}) <==>
              key != "" && Ascii(key) && !Suspicious(upper(key))
  {
    hide Trim, CredentialKey, Suspicious;
    TidyIsTrimmed(key);
    SuspiciousIs(upper(key));
    assert key != "" && Ascii(key) ==> key[0] in key && key[|key| - 1] in key && Tidy(key);
    AnyIs(key, {';', '{', '}'});
    forall c | c in key ensures (forall i :: 0 <= i < |key| ==> PropertyChar(key[i])) ==> PropertyChar(c) {
      var i :| 0 <= i < |key| && key[i] == c;
    }
    forall i | 0 <= i < |key| ensures Ascii(key) ==> PropertyChar(key[i]) {
      assert key[i] in key;
    }
  }

  lemma SuspiciousIs(key: string)
    ensures CredentialKey(key) <==> Suspicious(key)
  {
    hide Contains;
    ContainsIs(key, "PASS");
    ContainsIs(key, "SECRET");
    ContainsIs(key, "TOKEN");
    ContainsIs(key, "CREDENTIAL");
  }

  datatype Pair = Pair(key: string, value: string)

  function Braced(p: Pair): string { p.key + "=" + Quoted(p.value, '{', '}') }

  function Plain(p: Pair): string { p.key + "=" + ConnectionValue(p.value) }

  function Head(cfg: Config): Pair {
    if cfg.dsn != "" then Pair("DSN", cfg.dsn) else Pair("Driver", cfg.driver)
  }

  ghost function PropertyPairs(properties: map<string, string>, keys: seq<string>): seq<Pair>
    requires forall k :: k in keys ==> k in properties
  {
    seq(|keys|, i requires 0 <= i < |keys| => Pair(keys[i], properties[keys[i]]))
  }

  function PlainTexts(pairs: seq<Pair>): seq<string> {
    seq(|pairs|, i requires 0 <= i < |pairs| => Plain(pairs[i]))
  }

  /** The pairs a configuration stands for: the source or driver, then the sorted properties. */
  ghost function Pairs(cfg: Config): seq<Pair> {
    var keys := Sorted(cfg.properties.Keys);
    assert forall k :: k in keys ==> k in Elements(keys);
    [Head(cfg)] + PropertyPairs(cfg.properties, keys)
  }

  /** The printed pairs: the head always in braces, each property as its value requires. */
  ghost function Texts(cfg: Config): seq<string> {
    [Braced(Head(cfg))] + PlainTexts(Pairs(cfg)[1..])
  }

  method ConnectionString(cfg: Config) returns (s: string)
    ensures s == Join(Texts(cfg), ";")
  {
    hide ConnectionValue, StrictlySorted, Braced;
    var parts := [Braced(Head(cfg))];
    var keys := SortSet(cfg.properties.Keys);
    assert forall k :: k in keys ==> k in Elements(keys);
    ghost var pairs := PropertyPairs(cfg.properties, keys);
    assert Pairs(cfg) == [Head(cfg)] + pairs;
    assert Pairs(cfg)[1..] == pairs;
    for i := 0 to |keys|
      invariant parts == [Braced(Head(cfg))] + PlainTexts(pairs[..i])
    {
      PlainTextsGrow(pairs, i);
      assert keys[i] in keys && pairs[i] == Pair(keys[i], cfg.properties[keys[i]]);
      parts := parts + [keys[i] + "=" + ConnectionValue(cfg.properties[keys[i]])];
    }
    assert pairs[..|keys|] == pairs;
    s := Join(parts, ";");
  }

  lemma PlainTextsGrow(pairs: seq<Pair>, i: nat)
    requires i < |pairs|
    ensures PlainTexts(pairs[..i + 1]) == PlainTexts(pairs[..i]) + [Plain(pairs[i])]
  {
  }

  /** `strings.TrimSuffix(s, ";")`. */
  function TrimSemicolon(s: string): string {
    if s != "" && s[|s| - 1] == ';' then s[..|s| - 1] else s
  }

  function OdbcConnectionString(connection: string, username: string, password: string): string {
    var value := TrimSemicolon(connection);
    var withUser := if username != "" then value + ";UID=" + Quoted(username, '{', '}') else value;
    if password != "" then withUser + ";PWD=" + Quoted(password, '{', '}') else withUser
  }

  /** One semicolon at the end of a connection string makes no difference. */
  lemma OneSemicolonIsTrimmed(connection: string, username: string, password: string)
    requires connection == "" || connection[|connection| - 1] != ';'
    ensures OdbcConnectionString(connection + ";", username, password) ==
              OdbcConnectionString(connection, username, password)
  {
    assert (connection + ";")[..|connection|] == connection;
  }

  // ---------------------------------------------------------------- reading

  function ReadValue(text: string): (r: Option<Scan>)
    ensures r.Some? ==> |r.value.rest| <= |text|
  {
    if text != "" && text[0] == '{' then Unquote(text[1..], '}')
    else
      var r := Until(text, {';'});
      Some(Scan(Trim(r.value), r.rest))
  }

  function Read(text: string): Option<seq<Pair>>
    decreases |text|
  {
    if text == "" then Some([]) else
      var key := Until(text, {'='});
      if key.rest == "" then None else
        var value := ReadValue(key.rest[1..]);
        if value.None? then None
        else if value.value.rest == "" then Some([Pair(Trim(key.value), value.value.value)])
        else if value.value.rest[0] != ';' then None
        else
          var others := Read(value.value.rest[1..]);
          if others.None? then None else Some([Pair(Trim(key.value), value.value.value)] + others.value)
  }

  // ---------------------------------------------------------------- round trip

  /** `text` is a printing of the pair that the reader can delimit. */
  predicate Prints(text: string, p: Pair) {
    && p.key == Trim(p.key) && '=' !in p.key
    && (text == Braced(p) || text == Plain(p))
  }

  lemma ValueReadsBack(p: Pair, text: string, rest: string)
    requires text == Quoted(p.value, '{', '}') || text == ConnectionValue(p.value)
    requires rest == "" || rest[0] == ';'
    ensures ReadValue(text + rest) == Some(Scan(p.value, rest))
  {
    if text == Quoted(p.value, '{', '}') {
      ReadsBack(p.value, '{', '}', rest);
    } else {
      assert forall c :: c in p.value ==> c !in {';', '{', '}'};
      assert p.value[0] in p.value;
      UntilStops(p.value, {';'}, rest);
    }
  }

  lemma {:induction false} PairReadsBack(p: Pair, text: string, rest: string)
    requires Prints(text, p) && (rest == "" || rest[0] == ';')
    ensures Read(text + rest) ==
              if rest == "" then Some([p])
              else if Read(rest[1..]).None? then None
              else Some([p] + Read(rest[1..]).value)
  {
    hide ConnectionValue, Quoted, ReadValue, TrimLeft, TrimRight;
    var value := if text == Braced(p) then Quoted(p.value, '{', '}') else ConnectionValue(p.value);
    assert text + rest == p.key + ("=" + (value + rest));
    UntilStops(p.key, {'='}, "=" + (value + rest));
    assert ("=" + (value + rest))[1..] == value + rest;
    ValueReadsBack(p, value, rest);
  }

  lemma {:induction false} ListReadsBack(texts: seq<string>, pairs: seq<Pair>)
    requires |texts| == |pairs| > 0
    requires forall i :: 0 <= i < |texts| ==> Prints(texts[i], pairs[i])
    ensures Read(Join(texts, ";")) == Some(pairs)
  {
    if |texts| == 1 {
      PairReadsBack(pairs[0], texts[0], "");
      assert texts[0] + "" == texts[0] && pairs == [pairs[0]];
    } else {
      var rest := ";" + Join(texts[1..], ";");
      ListReadsBack(texts[1..], pairs[1..]);
      assert rest[1..] == Join(texts[1..], ";");
      assert Join(texts, ";") == texts[0] + rest;
      PairReadsBack(pairs[0], texts[0], rest);
      assert pairs == [pairs[0]] + pairs[1..];
    }
  }

  lemma NoSemicolonAtEnd(text: string, p: Pair)
    requires Prints(text, p)
    ensures text != "" && text[|text| - 1] != ';'
  {
  }

  lemma {:induction false} TrimRemovesNothing(texts: seq<string>, pairs: seq<Pair>)
    requires |texts| == |pairs| > 0
    requires forall i :: 0 <= i < |texts| ==> Prints(texts[i], pairs[i])
    ensures TrimSemicolon(Join(texts, ";")) == Join(texts, ";")
  {
    var last := |texts| - 1;
    NoSemicolonAtEnd(texts[last], pairs[last]);
    if last > 0 {
      assert texts == texts[..last] + [texts[last]];
      JoinAppend(texts[..last], ";", texts[last]);
    }
  }

  /** What a reader should find: the configuration's pairs, then the credentials that are set. */
  ghost function Expected(cfg: Config, username: string, password: string): seq<Pair> {
    Pairs(cfg)
    + (if username != "" then [Pair("UID", username)] else [])
    + (if password != "" then [Pair("PWD", password)] else [])
  }

  lemma PairsPrint(cfg: Config, definition: Definition, upper: string -> string, i: nat)
    requires Accepts(cfg, definition, upper) && i < |Pairs(cfg)|
    ensures Prints(Texts(cfg)[i], Pairs(cfg)[i])
  {
  }

  ghost function CredentialTexts(username: string, password: string): seq<string> {
    (if username != "" then [Braced(Pair("UID", username))] else [])
    + (if password != "" then [Braced(Pair("PWD", password))] else [])
  }

  lemma CredentialsAppend(texts: seq<string>, username: string, password: string)
    requires texts != [] && TrimSemicolon(Join(texts, ";")) == Join(texts, ";")
    ensures OdbcConnectionString(Join(texts, ";"), username, password) ==
              Join(texts + CredentialTexts(username, password), ";")
  {
    hide Join, Quoted, TrimSemicolon;
    var uid, pwd := Braced(Pair("UID", username)), Braced(Pair("PWD", password));
    assert uid == "UID=" + Quoted(username, '{', '}') && pwd == "PWD=" + Quoted(password, '{', '}');
    var withUser := texts + if username != "" then [uid] else [];
    if username != "" {
      JoinAppend(texts, ";", uid);
      assert Join(withUser, ";") == Join(texts, ";") + ";UID=" + Quoted(username, '{', '}');
    } else {
      assert withUser == texts;
    }
    if password != "" {
      JoinAppend(withUser, ";", pwd);
      assert texts + CredentialTexts(username, password) == withUser + [pwd];
      assert Join(withUser + [pwd], ";") == Join(withUser, ";") + ";PWD=" + Quoted(password, '{', '}');
    } else {
      assert texts + CredentialTexts(username, password) == withUser;
    }
  }

  /** For every accepted configuration and all credentials, reading the printed connection
      string gives exactly its pairs and the credentials, and trimming the semicolon removes
      nothing. */
  lemma {:induction false} ConnectionRoundTrip(cfg: Config, definition: Definition, upper: string -> string,
                            username: string, password: string)
    requires Accepts(cfg, definition, upper)
    ensures TrimSemicolon(Join(Texts(cfg), ";")) == Join(Texts(cfg), ";")
    ensures Read(OdbcConnectionString(Join(Texts(cfg), ";"), username, password)) ==
              Some(Expected(cfg, username, password))
  {
    hide Accepts, Read, OdbcConnectionString, Pairs, Join, TrimSemicolon, Head, PlainTexts, ConnectionValue;
    var texts, pairs := Texts(cfg), Pairs(cfg);
    SameLength(cfg);
    forall i | 0 <= i < |texts| ensures Prints(texts[i], pairs[i]) {
      PairsPrint(cfg, definition, upper, i);
    }
    TrimRemovesNothing(texts, pairs);
    CredentialsAppend(texts, username, password);
    var extra := CredentialTexts(username, password);
    var all, expected := texts + extra, Expected(cfg, username, password);
    CredentialsPrint(username, password);
    forall i | 0 <= i < |all| ensures |all| == |expected| && Prints(all[i], expected[i]) {
      if i < |texts| {
        assert all[i] == texts[i] && expected[i] == pairs[i];
      } else {
        assert all[i] == extra[i - |texts|];
      }
    }
    ListReadsBack(all, expected);
  }

  lemma SameLength(cfg: Config)
    ensures |Texts(cfg)| == |Pairs(cfg)| > 0
  {
  }

  lemma CredentialsPrint(username: string, password: string)
    ensures Prints(Braced(Pair("UID", username)), Pair("UID", username))
    ensures Prints(Braced(Pair("PWD", password)), Pair("PWD", password))
  {
  }

  /** What a reader of the connection string should see, pair by pair: the source or the driver
      first, then every property under its own key and with its own value, sorted by key, then
      the credentials that are set. */
  predicate Shows(read: seq<Pair>, cfg: Config, username: string, password: string) {
    var n := |cfg.properties|;
    var user := if username != "" then n + 1 else n;
    && |read| == user + (if password != "" then 2 else 1)
    && read[0] == (if cfg.dsn != "" then Pair("DSN", cfg.dsn) else Pair("Driver", cfg.driver))
    && (forall i :: 1 <= i <= n ==>
          read[i].key in cfg.properties && read[i].value == cfg.properties[read[i].key])
    && (forall i, j :: 1 <= i < j <= n ==> Lt(read[i].key, read[j].key))
    && (username != "" ==> read[n + 1] == Pair("UID", username))
    && (password != "" ==> read[user + 1] == Pair("PWD", password))
  }

  lemma WhatIsRead(cfg: Config, definition: Definition, upper: string -> string, username: string, password: string)
    requires Accepts(cfg, definition, upper)
    ensures var read := Read(OdbcConnectionString(Join(Texts(cfg), ";"), username, password));
            read.Some? && Shows(read.value, cfg, username, password)
  {
    hide *;
    ConnectionRoundTrip(cfg, definition, upper, username, password);
    ExpectedShows(cfg, username, password);
  }

  lemma ExpectedShows(cfg: Config, username: string, password: string)
    ensures Shows(Expected(cfg, username, password), cfg, username, password)
  {
    hide Pairs, Sorted, Shows, StrictlySorted;
    var keys := Sorted(cfg.properties.Keys);
    SortedHasAll(cfg.properties.Keys);
    PairsAre(cfg, keys);
    KeysShow(cfg, keys, Pairs(cfg), username, password);
  }

  lemma KeysShow(cfg: Config, keys: seq<string>, pairs: seq<Pair>, username: string, password: string)
    requires StrictlySorted(keys) && |keys| == |cfg.properties| && |pairs| == |keys| + 1
    requires pairs[0] == (if cfg.dsn != "" then Pair("DSN", cfg.dsn) else Pair("Driver", cfg.driver))
    requires forall i :: 1 <= i < |pairs| ==>
               keys[i - 1] in cfg.properties && pairs[i] == Pair(keys[i - 1], cfg.properties[keys[i - 1]])
    ensures Shows(pairs + (if username != "" then [Pair("UID", username)] else [])
                    + (if password != "" then [Pair("PWD", password)] else []), cfg, username, password)
  {
    hide Lt;
  }

  lemma PairsAre(cfg: Config, keys: seq<string>)
    requires keys == Sorted(cfg.properties.Keys)
    ensures var pairs := Pairs(cfg);
            && |pairs| == |keys| + 1
            && pairs[0] == (if cfg.dsn != "" then Pair("DSN", cfg.dsn) else Pair("Driver", cfg.driver))
            && forall i :: 1 <= i < |pairs| ==>
                 keys[i - 1] in cfg.properties && pairs[i] == Pair(keys[i - 1], cfg.properties[keys[i - 1]])
  {
    hide Sorted, StrictlySorted;
    assert forall k :: k in keys ==> k in Elements(keys);
    assert forall i :: 0 <= i < |keys| ==> keys[i] in keys;
  }

  /** Every property is read: there is a pair for each key. */
  lemma EveryPropertyIsRead(cfg: Config, definition: Definition, upper: string -> string,
                            username: string, password: string, key: string)
    requires Accepts(cfg, definition, upper) && key in cfg.properties
    ensures var read := Read(OdbcConnectionString(Join(Texts(cfg), ";"), username, password));
            read.Some? && Pair(key, cfg.properties[key]) in read.value
  {
    hide Accepts, Read, OdbcConnectionString, Texts, Join, TrimSemicolon;
    ConnectionRoundTrip(cfg, definition, upper, username, password);
    var keys := Sorted(cfg.properties.Keys);
    assert key in Elements(keys);
    var i :| 0 <= i < |keys| && keys[i] == key;
    assert forall k :: k in keys ==> k in Elements(keys);
    assert Expected(cfg, username, password)[i + 1] == Pair(key, cfg.properties[key]);
  }

  lemma PasswordExpected(cfg: Config, definition: Definition, upper: string -> string,
                         username: string, password: string, p: Pair)
    requires Accepts(cfg, definition, upper)
    requires upper("DSN") == "DSN" && upper("Driver") == "DRIVER" && upper("UID") == "UID" && upper("PWD") == "PWD"
    ensures p in Expected(cfg, username, password) && upper(p.key) == "PWD" <==>
              password != "" && p == Pair("PWD", password)
  {
  }

  /** No property can stand in for a credential: after reading, a keyword that upper-cases to
      PWD is there exactly if a password was given, and it carries that password. */
  lemma PasswordIsTheGivenOne(cfg: Config, definition: Definition, upper: string -> string,
                              username: string, password: string, p: Pair)
    requires Accepts(cfg, definition, upper)
    requires upper("DSN") == "DSN" && upper("Driver") == "DRIVER" && upper("UID") == "UID" && upper("PWD") == "PWD"
    ensures var read := Read(OdbcConnectionString(Join(Texts(cfg), ";"), username, password));
            && read.Some?
            && (p in read.value && upper(p.key) == "PWD" <==> password != "" && p == Pair("PWD", password))
  {
    hide *;
    ConnectionRoundTrip(cfg, definition, upper, username, password);
    PasswordExpected(cfg, definition, upper, username, password, p);
  }
}
