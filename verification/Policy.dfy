/** The walk that authorizes a serialized statement tree, and the list of catalogs it touches
    (internal/policy/policy.go:23-37, 150-223). `lower` stands for `strings.ToLower`. */
module Policy {
  import opened Sources
  import opened Ordering
  import opened JsonTrees

  // ---------------------------------------------------------------- nodes

  const FORBIDDEN_FUNCTIONS: set<string> := {
    "getenv", "glob", "http_get", "http_post",
    "postgres_attach", "postgres_execute", "postgres_query", "postgres_scan",
    "mysql_attach", "mysql_execute", "mysql_query", "mysql_scan",
    "odbc_begin_transaction", "odbc_close", "odbc_commit", "odbc_connect", "odbc_copy", "odbc_query", "odbc_rollback",
    "quackridge_odbc_connection",
    "query", "query_table", "read_blob", "read_csv", "read_csv_auto",
    "read_json", "read_json_auto", "read_ndjson", "read_parquet", "read_text",
    "setvariable", "which_secret"}

  const ALLOWED_TABLE_FUNCTIONS: set<string> := {
    "duckdb_columns", "duckdb_schemas", "duckdb_tables", "duckdb_types", "duckdb_views",
    "generate_series", "quackridge_active_queries_v1", "quackridge_metadata_v2", "range", "unnest", "whoami"}

  const FORBIDDEN_PREFIXES: set<string> := {"postgres_", "mysql_", "odbc_", "read_", "http_"}

  const FILE_SUFFIXES: set<string> := {".csv", ".json", ".parquet", ".duckdb"}

  const NAME_FIELDS := ["catalog_name", "schema_name", "table_name"]

  /** `value.(string)`, "" when it is no string. */
  function Text(v: Json): string { if v.Str? then v.s else "" }

  function FieldOf(node: Json, key: string): Json {
    if node.Obj? && key in node.fields then node.fields[key] else Null
  }

  predicate ForbiddenFunction(name: string) {
    name in FORBIDDEN_FUNCTIONS || exists p :: p in FORBIDDEN_PREFIXES && p <= name
  }

  predicate HasSuffix(s: string, suffix: string) {
    |suffix| <= |s| && s[|s| - |suffix|..] == suffix
  }

  predicate UnsafeObjectName(v: Json, lower: string -> string) {
    var name := Text(v);
    || (exists i :: 0 <= i < |name| && name[i] in {'/', '\\'})
    || Contains(lower(name), "://")
    || exists suffix :: suffix in FILE_SUFFIXES && HasSuffix(lower(name), suffix)
  }

  predicate CallsForbidden(node: Json, lower: string -> string) {
    FieldOf(node, "function_name").Str? && ForbiddenFunction(lower(FieldOf(node, "function_name").s))
  }

  predicate UnlistedTableFunction(node: Json, lower: string -> string) {
    && Text(FieldOf(node, "type")) == "TABLE_FUNCTION"
    && lower(Text(FieldOf(FieldOf(node, "function"), "function_name"))) !in ALLOWED_TABLE_FUNCTIONS
  }

  predicate UnsafeBaseTable(node: Json, lower: string -> string) {
    && Text(FieldOf(node, "type")) == "BASE_TABLE"
    && exists i :: 0 <= i < |NAME_FIELDS| && UnsafeObjectName(FieldOf(node, NAME_FIELDS[i]), lower)
  }

  predicate Bad(node: Json, lower: string -> string) {
    node.Obj? && (CallsForbidden(node, lower) || UnlistedTableFunction(node, lower) || UnsafeBaseTable(node, lower))
  }

  /** A name that stands for a file or an address: it has a slash, or "://", or a file suffix. */
  ghost predicate OutsideName(v: Json, lower: string -> string) {
    && v.Str?
    && (|| (exists i :: 0 <= i < |v.s| && (v.s[i] == '/' || v.s[i] == '\\'))
        || (exists p, q :: lower(v.s) == p + "://" + q)
        || (exists p :: lower(v.s) == p + ".csv" || lower(v.s) == p + ".json"
                        || lower(v.s) == p + ".parquet" || lower(v.s) == p + ".duckdb"))
  }

  ghost predicate StartsWith(s: string, prefix: string) {
    exists q :: s == prefix + q
  }

  /** Which nodes are bad, field by field: calls of the five families and of seven further
      functions, table functions that are not listed, and base tables with an outside name in any
      of their three parts. */
  lemma WhatIsBad(fields: map<string, Json>, lower: string -> string)
    requires lower("") == ""
    ensures Bad(Obj(fields), lower) <==>
              || (&& "function_name" in fields && fields["function_name"].Str?
                  && var f := lower(fields["function_name"].s);
                     || StartsWith(f, "postgres_") || StartsWith(f, "mysql_") || StartsWith(f, "odbc_")
                     || StartsWith(f, "read_") || StartsWith(f, "http_")
                     || f in {"getenv", "glob", "query", "query_table", "quackridge_odbc_connection", "setvariable",
                              "which_secret"})
              || (&& "type" in fields && fields["type"] == Str("TABLE_FUNCTION")
                  && !(&& "function" in fields && fields["function"].Obj?
                       && "function_name" in fields["function"].fields
                       && fields["function"].fields["function_name"].Str?
                       && lower(fields["function"].fields["function_name"].s) in {
                            "duckdb_columns", "duckdb_schemas", "duckdb_tables", "duckdb_types", "duckdb_views",
                            "generate_series", "quackridge_active_queries_v1", "quackridge_metadata_v2", "range",
                            "unnest", "whoami"}))
              || (&& "type" in fields && fields["type"] == Str("BASE_TABLE")
                  && (|| ("catalog_name" in fields && OutsideName(fields["catalog_name"], lower))
                      || ("schema_name" in fields && OutsideName(fields["schema_name"], lower))
                      || ("table_name" in fields && OutsideName(fields["table_name"], lower))))
  {
    hide UnsafeObjectName, OutsideName, ForbiddenFunction, StartsWith;
    if "function_name" in fields && fields["function_name"].Str? {
      ForbiddenIs(lower(fields["function_name"].s));
    }
    assert NAME_FIELDS[0] == "catalog_name" && NAME_FIELDS[1] == "schema_name" && NAME_FIELDS[2] == "table_name";
    UnsafeIs(FieldOf(Obj(fields), "catalog_name"), lower);
    UnsafeIs(FieldOf(Obj(fields), "schema_name"), lower);
    UnsafeIs(FieldOf(Obj(fields), "table_name"), lower);
    NullIsInside(lower);
  }

  lemma NullIsInside(lower: string -> string)
    ensures !OutsideName(Null, lower)
  {
  }

  lemma PrefixIs(s: string, prefix: string)
    ensures prefix <= s <==> StartsWith(s, prefix)
  {
    if prefix <= s {
      assert s == prefix + s[|prefix|..];
    }
  }

  lemma ForbiddenIs(f: string)
    ensures ForbiddenFunction(f) <==>
              || StartsWith(f, "postgres_") || StartsWith(f, "mysql_") || StartsWith(f, "odbc_")
              || StartsWith(f, "read_") || StartsWith(f, "http_")
              || f in {"getenv", "glob", "query", "query_table", "quackridge_odbc_connection", "setvariable",
                       "which_secret"}
  {
    hide StartsWith;
    PrefixIs(f, "postgres_");
    PrefixIs(f, "mysql_");
    PrefixIs(f, "odbc_");
    PrefixIs(f, "read_");
    PrefixIs(f, "http_");
  }

  lemma SuffixIs(s: string, suffix: string)
    ensures HasSuffix(s, suffix) <==> exists p :: s == p + suffix
  {
    if HasSuffix(s, suffix) {
      assert s == s[..|s| - |suffix|] + suffix;
    }
  }

  lemma UnsafeIs(v: Json, lower: string -> string)
    requires lower("") == ""
    ensures UnsafeObjectName(v, lower) <==> OutsideName(v, lower)
  {
    hide Contains, HasSuffix;
    var s := lower(Text(v));
    ContainsIs(s, "://");
    SuffixIs(s, ".csv");
    SuffixIs(s, ".json");
    SuffixIs(s, ".parquet");
    SuffixIs(s, ".duckdb");
  }

  /** The catalog a base table names, unless it is the default or the in-memory one. */
  predicate NamesCatalog(node: Json, catalog: string) {
    && node.Obj? && Text(FieldOf(node, "type")) == "BASE_TABLE"
    && catalog == Text(FieldOf(node, "catalog_name")) && catalog != "" && catalog != "memory"
  }

  // ---------------------------------------------------------------- the walks

  function BadNode(lower: string -> string): Json -> bool { node => Bad(node, lower) }

  function NamingNode(catalog: string): Json -> bool { node => NamesCatalog(node, catalog) }

  /** Accepts a tree exactly if no node at any depth is bad, in whatever order an object's
      fields come. */
  method InspectTree(v: Json, lower: string -> string) returns (ok: bool)
    ensures ok <==> !Somewhere(v, BadNode(lower))
    decreases v
  {
    hide Bad, Somewhere;
    SomewhereInside(v, BadNode(lower));
    match v {
      case Arr(items) =>
        for i := 0 to |items|
          invariant forall k: nat :: k < i ==> !Somewhere(items[k], BadNode(lower))
        {
          ok := InspectTree(items[i], lower);
          if !ok {
            return;
          }
        }
        NotBad(v, lower);
        return true;
      case Obj(fields) =>
        if Bad(v, lower) {
          return false;
        }
        var todo := fields.Keys;
        while todo != {}
          invariant todo <= fields.Keys
          invariant forall k :: k in fields && k !in todo ==> !Somewhere(fields[k], BadNode(lower))
        {
          var k :| k in todo;
          ok := InspectTree(fields[k], lower);
          if !ok {
            return;
          }
          todo := todo - {k};
        }
        return true;
      case _ =>
        NotBad(v, lower);
        return true;
    }
  }

  lemma NotBad(v: Json, lower: string -> string)
    requires !v.Obj?
    ensures !Bad(v, lower)
  {
  }

  /** `visit`: adds the catalogs of a subtree to what was found so far. */
  method Visit(v: Json, found: set<string>) returns (catalogs: set<string>)
    ensures forall c :: c in catalogs <==> c in found || Somewhere(v, NamingNode(c))
    decreases v
  {
    hide Somewhere;
    forall c { SomewhereInside(v, NamingNode(c)); }
    catalogs := found;
    match v {
      case Arr(items) =>
        for i := 0 to |items|
          invariant forall c :: c in catalogs <==>
                      c in found || exists k: nat :: k < i && Somewhere(items[k], NamingNode(c))
        {
          catalogs := Visit(items[i], catalogs);
        }
      case Obj(fields) =>
        if Text(FieldOf(v, "type")) == "BASE_TABLE" {
          var catalog := Text(FieldOf(v, "catalog_name"));
          if catalog != "" && catalog != "memory" {
            catalogs := catalogs + {catalog};
          }
        }
        var todo := fields.Keys;
        while todo != {}
          invariant todo <= fields.Keys
          invariant forall c :: c in catalogs <==>
                      c in found || NamesCatalog(v, c)
                      || exists k :: k in fields && k !in todo && Somewhere(fields[k], NamingNode(c))
        {
          var k :| k in todo;
          catalogs := Visit(fields[k], catalogs);
          todo := todo - {k};
        }
      case _ =>
    }
  }

  /** The strictly sorted list of exactly the catalogs base tables name at any depth. */
  method CollectSources(v: Json) returns (sources: seq<string>)
    ensures StrictlySorted(sources)
    ensures forall c :: c in sources <==> Somewhere(v, NamingNode(c))
  {
    hide Somewhere;
    var catalogs := Visit(v, {});
    sources := SortSet(catalogs);
    assert forall c :: c in sources <==> c in Elements(sources);
  }
}
