/** Quoting by doubling, and the scanner that undoes it. SQL identifiers, SQL literals, quoted
    remote names and braced connection values are all printed this way
    (internal/engine/engine.go:849-859, 896-905; internal/source/odbc/odbc.go:173-210). */
module Quoting {
  import opened Sources

  /** `strings.ReplaceAll(value, q, q+q)`. */
  function Doubled(value: string, q: char): string {
    if value == "" then ""
    else (if value[0] == q then [q, q] else [value[0]]) + Doubled(value[1..], q)
  }

  function Quoted(value: string, opening: char, q: char): string {
    [opening] + Doubled(value, q) + [q]
  }

  datatype Scan = Scan(value: string, rest: string)

  /** Reads up to the first `q` that is not doubled; `q` itself is consumed. */
  function Unquote(text: string, q: char): (r: Option<Scan>)
    ensures r.Some? ==> |r.value.rest| < |text|
    decreases |text|
  {
    if text == "" then None
    else if text[0] != q then
      var r := Unquote(text[1..], q);
      if r.None? then None else Some(Scan([text[0]] + r.value.value, r.value.rest))
    else if |text| > 1 && text[1] == q then
      var r := Unquote(text[2..], q);
      if r.None? then None else Some(Scan([q] + r.value.value, r.value.rest))
    else Some(Scan("", text[1..]))
  }

  function ReadQuoted(text: string, opening: char, q: char): (r: Option<Scan>)
    ensures r.Some? ==> |r.value.rest| < |text|
  {
    if text != "" && text[0] == opening then Unquote(text[1..], q) else None
  }

  /** Scanning undoes doubling for every value, as long as the text after it does not go on
      with another quote. */
  lemma {:induction false} UnquoteDoubled(value: string, q: char, rest: string)
    requires rest == "" || rest[0] != q
    ensures Unquote(Doubled(value, q) + [q] + rest, q) == Some(Scan(value, rest))
  {
    var text := Doubled(value, q) + [q] + rest;
    if value == "" {
      assert text == [q] + rest;
      assert text[1..] == rest;
    } else {
      UnquoteDoubled(value[1..], q, rest);
      var tail := Doubled(value[1..], q) + [q] + rest;
      assert value == [value[0]] + value[1..];
      if value[0] == q {
        assert text == [q, q] + tail;
        assert text[2..] == tail;
      } else {
        assert text == [value[0]] + tail;
        assert text[1..] == tail;
      }
    }
  }

  lemma ReadsBack(value: string, opening: char, q: char, rest: string)
    requires rest == "" || rest[0] != q
    ensures ReadQuoted(Quoted(value, opening, q) + rest, opening, q) == Some(Scan(value, rest))
  {
    var text := Quoted(value, opening, q) + rest;
    assert text[1..] == Doubled(value, q) + [q] + rest;
    UnquoteDoubled(value, q, rest);
  }

  // ---------------------------------------------------------------- small scanners

  /** Drops an expected word. */
  function Skip(text: string, word: string): (r: Option<string>)
    ensures r.Some? ==> text == word + r.value
  {
    if word <= text then Some(text[|word|..]) else None
  }

  lemma SkipsBack(word: string, rest: string)
    ensures Skip(word + rest, word) == Some(rest)
  {
  }

  /** Splits at the first of the `stops`, which stays in the rest. */
  function Until(text: string, stops: set<char>): (r: Scan)
    ensures text == r.value + r.rest && (r.rest == "" || r.rest[0] in stops)
    ensures forall c :: c in r.value ==> c !in stops
  {
    if text == "" || text[0] in stops then Scan("", text)
    else
      var r := Until(text[1..], stops);
      Scan([text[0]] + r.value, r.rest)
  }

  lemma {:induction false} UntilStops(word: string, stops: set<char>, rest: string)
    requires forall c :: c in word ==> c !in stops
    requires rest == "" || rest[0] in stops
    ensures Until(word + rest, stops) == Scan(word, rest)
  {
    if word == "" {
      assert word + rest == rest;
    } else {
      assert (word + rest)[0] == word[0] && (word + rest)[1..] == word[1..] + rest;
      UntilStops(word[1..], stops, rest);
    }
  }

  /** `strings.Join`. */
  function Join(parts: seq<string>, separator: string): string {
    if parts == [] then ""
    else if |parts| == 1 then parts[0]
    else parts[0] + separator + Join(parts[1..], separator)
  }

  lemma {:induction false} JoinAppend(parts: seq<string>, separator: string, last: string)
    requires parts != []
    ensures Join(parts + [last], separator) == Join(parts, separator) + separator + last
  {
    if |parts| > 1 {
      assert (parts + [last])[1..] == parts[1..] + [last];
      JoinAppend(parts[1..], separator, last);
    } else {
      assert (parts + [last])[1..] == [last];
    }
  }
}
