/** The order Go's `slices.Sort` and `sort.Strings` put strings in, and the one fact the
    program relies on: sorting the keys of a map forgets the order the map was walked in. */
module Ordering {

  /** Lexicographic order by code point. */
  predicate Lt(a: string, b: string) {
    b != "" && (a == "" || a[0] < b[0] || (a[0] == b[0] && Lt(a[1..], b[1..])))
  }

  predicate StrictlySorted(s: seq<string>) {
    forall i, j :: 0 <= i < j < |s| ==> Lt(s[i], s[j])
  }

  ghost function Elements(s: seq<string>): set<string> {
    set x | x in s
  }

  lemma {:induction false} LtIrreflexive(a: string)
    ensures !Lt(a, a)
  {
    if a != "" {
      LtIrreflexive(a[1..]);
    }
  }

  lemma {:induction false} LtTransitive(a: string, b: string, c: string)
    requires Lt(a, b) && Lt(b, c)
    ensures Lt(a, c)
  {
    if a != "" && a[0] == b[0] == c[0] {
      LtTransitive(a[1..], b[1..], c[1..]);
    }
  }

  lemma {:induction false} LtTotal(a: string, b: string)
    ensures a == b || Lt(a, b) || Lt(b, a)
  {
    if a != "" && b != "" && a[0] == b[0] {
      LtTotal(a[1..], b[1..]);
      assert a == [a[0]] + a[1..] && b == [b[0]] + b[1..];
    }
  }

  /** One step of the sort: put `x` in its place in a sorted list. */
  function Insert(x: string, s: seq<string>): (r: seq<string>)
    requires StrictlySorted(s) && x !in s
    ensures StrictlySorted(r) && Elements(r) == Elements(s) + {x} && |r| == |s| + 1
  {
    if s == [] then [x]
    else if Lt(x, s[0]) then
      var r := [x] + s;
      assert StrictlySorted(r) by {
        forall j | 0 < j < |s| { LtTransitive(x, s[0], s[j]); }
      }
      assert Elements(r) == Elements(s) + {x} by {
        assert forall e :: e in r <==> e == x || e in s;
      }
      r
    else
      var tail := s[1..];
      var t := Insert(x, tail);
      assert Lt(s[0], x) by { LtTotal(x, s[0]); }
      assert forall e :: e in s <==> e == s[0] || e in tail;
      assert forall e :: e in t ==> e in Elements(tail) + {x};
      assert forall e :: e in t <==> e == x || e in tail by {
        assert forall e :: e in t <==> e in Elements(t);
      }
      assert forall i :: 0 <= i < |t| ==> t[i] in t;
      [s[0]] + t
  }

  /** The strictly sorted list of a set. */
  ghost function Sorted(s: set<string>): (r: seq<string>)
    ensures StrictlySorted(r) && Elements(r) == s
  {
    if s == {} then [] else
      var x :| x in s;
      var t := Sorted(s - {x});
      assert x !in Elements(t);
      Insert(x, t)
  }

  /** A set has one strictly sorted list. */
  lemma {:induction false} SortedUnique(a: seq<string>, b: seq<string>)
    requires StrictlySorted(a) && StrictlySorted(b) && Elements(a) == Elements(b)
    ensures a == b
  {
    forall x: string { LtIrreflexive(x); }
    if a == [] || b == [] {
      NoElements(a);
      NoElements(b);
    } else {
      HeadIsLeast(a, b);
      HeadIsLeast(b, a);
      if Lt(a[0], b[0]) && Lt(b[0], a[0]) {
        LtTransitive(a[0], b[0], a[0]);
      }
      assert a[0] == b[0];
      TailElements(a);
      TailElements(b);
      SortedUnique(a[1..], b[1..]);
      assert a == [a[0]] + a[1..] && b == [b[0]] + b[1..];
    }
  }

  lemma NoElements(s: seq<string>)
    ensures Elements(s) == {} <==> s == []
  {
    if s != [] {
      assert s[0] in Elements(s);
    }
  }

  lemma HeadIsLeast(a: seq<string>, b: seq<string>)
    requires a != [] && b != [] && StrictlySorted(b) && Elements(a) == Elements(b)
    ensures b[0] == a[0] || Lt(b[0], a[0])
  {
    assert a[0] in Elements(a);
  }

  lemma TailElements(a: seq<string>)
    requires a != [] && StrictlySorted(a)
    ensures Elements(a[1..]) == Elements(a) - {a[0]}
  {
    LtIrreflexive(a[0]);
    assert forall x :: x in a <==> x == a[0] || x in a[1..];
  }

  /** Before position `i` of a sorted list stand exactly the members smaller than its entry. */
  lemma BeforeIndex(s: seq<string>, i: nat, x: string)
    requires StrictlySorted(s) && i < |s|
    ensures x in s[..i] <==> x in s && Lt(x, s[i])
  {
    LtIrreflexive(s[i]);
    if x in s && Lt(x, s[i]) {
      var k :| 0 <= k < |s| && s[k] == x;
      if i < k {
        LtTransitive(s[i], s[k], s[i]);
      }
    }
  }

  /** The sorted list of a set is as long as the set. */
  lemma {:induction false} SortedHasAll(s: set<string>)
    ensures |Sorted(s)| == |s|
  {
    LengthIsSize(Sorted(s));
  }

  lemma {:induction false} LengthIsSize(a: seq<string>)
    requires StrictlySorted(a)
    ensures |a| == |Elements(a)|
  {
    if a == [] {
      NoElements(a);
    } else {
      TailElements(a);
      LengthIsSize(a[1..]);
      assert a[0] in Elements(a);
    }
  }

  /** The order is decided at the first place where the texts differ: by the smaller code point
      there, or by the text that ends. */
  lemma {:induction false} LtAtFirstDifference(a: string, b: string, k: nat)
    requires k <= |a| && k <= |b| && a[..k] == b[..k]
    requires k < |a| && k < |b| ==> a[k] != b[k]
    ensures Lt(a, b) <==> if k < |a| && k < |b| then a[k] < b[k] else |a| < |b|
  {
    if k > 0 {
      assert a[0] == a[..k][0] == b[..k][0] == b[0];
      assert a[1..][..k - 1] == a[..k][1..] == b[..k][1..] == b[1..][..k - 1];
      LtAtFirstDifference(a[1..], b[1..], k - 1);
    }
  }

  /** Collecting a set in any order and sorting it yields its sorted list. */
  method SortSet(s: set<string>) returns (r: seq<string>)
    ensures StrictlySorted(r) && Elements(r) == s && r == Sorted(s)
  {
    r := [];
    var todo := s;
    while todo != {}
      invariant todo <= s && StrictlySorted(r) && Elements(r) == s - todo
    {
      var x :| x in todo;
      assert x !in Elements(r);
      r := Insert(x, r);
      todo := todo - {x};
    }
    SortedUnique(r, Sorted(s));
  }
}
