/** What identifies the configuration a source was attached with, and the temporary alias of
    a staged replacement (internal/reconcile/manager.go:303-320). Text stands for its bytes. */
module Fingerprints {
  import opened Sources

  /** A SHA-256 value: 32 bytes. */
  type Digest = d: string | |d| == 32 && Bytes(d)
    witness seq(32, _ => 'x')

  predicate Bytes(s: string) {
    forall i :: 0 <= i < |s| ==> s[i] as int < 256
  }

  const NUL: char := '\0'

  predicate NulFree(s: string) { NUL !in s }

  /** `bytes.Join(parts, {0})`. */
  function JoinNul(parts: seq<string>): string {
    if parts == [] then ""
    else if |parts| == 1 then parts[0]
    else parts[0] + [NUL] + JoinNul(parts[1..])
  }

  function Fields(s: Source): seq<string> {
    [s.id, s.name, s.alias, s.kind, s.databaseType, s.credentialRef, s.options]
  }

  function Preimage(s: Source, credentialHash: Digest): string {
    JoinNul(Fields(s) + [credentialHash])
  }

  function Fingerprint(sha: string -> Digest, s: Source, credential: string): Digest {
    sha(Preimage(s, sha(credential)))
  }

  lemma {:induction false} SplitAtNul(a: string, x: string, b: string, y: string)
    requires NulFree(a) && NulFree(b)
    requires a + [NUL] + x == b + [NUL] + y
    ensures a == b && x == y
  {
    var s, t := a + [NUL] + x, b + [NUL] + y;
    NulMarksEnd(s, a, x, b);
    NulMarksEnd(t, b, y, a);
    assert a == s[..|a|] && b == t[..|b|];
    assert x == s[|a| + 1..] && y == t[|b| + 1..];
  }

  lemma NulMarksEnd(s: string, a: string, x: string, b: string)
    requires s == a + [NUL] + x && b <= s && NulFree(b)
    ensures |b| <= |a|
  {
    assert s[|a|] == NUL;
  }

  /** Joining loses nothing when every part but the last is free of NUL. */
  lemma {:induction false} JoinInjective(p: seq<string>, q: seq<string>)
    requires |p| == |q| > 0
    requires forall i :: 0 <= i < |p| - 1 ==> NulFree(p[i]) && NulFree(q[i])
    requires JoinNul(p) == JoinNul(q)
    ensures p == q
  {
    if |p| > 1 {
      SplitAtNul(p[0], JoinNul(p[1..]), q[0], JoinNul(q[1..]));
      JoinInjective(p[1..], q[1..]);
      assert p == [p[0]] + p[1..] && q == [q[0]] + q[1..];
    } else {
      assert p == [p[0]] && q == [q[0]];
    }
  }

  predicate NulFreeSource(s: Source) {
    forall i :: 0 <= i < |Fields(s)| ==> NulFree(Fields(s)[i])
  }

  // ---------------------------------------------------------------- when a pre-image is unique

  function Nuls(s: string): nat {
    if s == "" then 0 else Nuls(s[1..]) + if s[0] == NUL then 1 else 0
  }

  lemma {:induction false} NulsConcat(a: string, b: string)
    ensures Nuls(a + b) == Nuls(a) + Nuls(b)
  {
    if a == "" {
      assert a + b == b;
    } else {
      NulsConcat(a[1..], b);
      assert (a + b)[1..] == a[1..] + b;
    }
  }

  lemma {:induction false} NoNuls(s: string)
    ensures Nuls(s) == 0 <==> NulFree(s)
  {
    if s != "" {
      NoNuls(s[1..]);
      assert forall c :: c in s <==> c == s[0] || c in s[1..];
    }
  }

  /** A joined text has one NUL between any two parts, and no other exactly if no part has one. */
  lemma {:induction false} NulsJoined(p: seq<string>)
    requires p != []
    ensures Nuls(JoinNul(p)) >= |p| - 1
    ensures Nuls(JoinNul(p)) == |p| - 1 <==> forall i :: 0 <= i < |p| ==> NulFree(p[i])
  {
    NoNuls(p[0]);
    if |p| > 1 {
      NulsJoined(p[1..]);
      NulsConcat(p[0], [NUL] + JoinNul(p[1..]));
      NulsConcat([NUL], JoinNul(p[1..]));
      assert Nuls([NUL]) == 1;
      assert p[0] + [NUL] + JoinNul(p[1..]) == p[0] + ([NUL] + JoinNul(p[1..]));
      assert forall i :: 0 <= i < |p| - 1 ==> p[1..][i] == p[i + 1];
    }
  }

  lemma {:induction false} JoinAppend(p: seq<string>, last: string)
    requires p != []
    ensures JoinNul(p + [last]) == JoinNul(p) + [NUL] + last
  {
    assert (p + [last])[0] == p[0] && (p + [last])[1..] == p[1..] + [last];
    if |p| > 1 {
      JoinAppend(p[1..], last);
    }
  }

  /** A source without NUL shares its pre-image with no other configuration and no other credential. */
  lemma {:induction false} PreimageIsItsOwn(s: Source, hash: Digest, t: Source, other: Digest)
    requires NulFreeSource(s) && Preimage(s, hash) == Preimage(t, other)
    ensures Fields(s) == Fields(t) && hash == other
  {
    var p, q := Fields(s), Fields(t);
    JoinAppend(p, hash);
    JoinAppend(q, other);
    var x, y := Preimage(s, hash), Preimage(t, other);
    assert |JoinNul(p)| == |x| - 33 == |JoinNul(q)|;
    assert JoinNul(p) == x[..|x| - 33] && JoinNul(q) == y[..|y| - 33];
    assert hash == x[|x| - 32..] && other == y[|y| - 32..];
    NulsJoined(p);
    NulsJoined(q);
    JoinInjective(p, q);
  }

  // ---------------------------------------------------------------- valid sources that share one

  /** A source validation lets through and for which there is an adapter. */
  predicate Accepted(s: Source, kinds: set<string>, optionsOk: string -> bool) {
    ValidSource(s, optionsOk) && s.kind in kinds
  }

  /** Another configuration of the same id with the same pre-image: a reload takes one for the other. */
  predicate Twin(s: Source, t: Source, hash: Digest) {
    t.id == s.id && Fields(t) != Fields(s) && Preimage(t, hash) == Preimage(s, hash)
  }

  /** Name and alias, followed by a NUL, can also be read as a name, another alias, a kind, and more. */
  predicate ReadsAs(s: Source, kinds: set<string>, name: string, alias: string, kind: string, rest: string) {
    && name != "" && ValidIdentifier(alias) && kind != "" && kind in kinds
    && s.name + [NUL] + s.alias + [NUL] == name + [NUL] + alias + [NUL] + kind + [NUL] + rest
  }

  ghost predicate Regroups(s: Source, kinds: set<string>) {
    exists name, alias, kind, rest :: ReadsAs(s, kinds, name, alias, kind, rest)
  }

  /** Which accepted sources have an accepted twin: those with a NUL in the database type or in the
      credential reference, and those whose name regroups with the alias. */
  lemma {:induction false} TwinExactly(s: Source, kinds: set<string>, optionsOk: string -> bool, hash: Digest)
    requires Accepted(s, kinds, optionsOk) && forall k :: k in kinds ==> NulFree(k)
    requires forall o :: optionsOk(o) ==> NulFree(o)
    ensures (exists t :: Accepted(t, kinds, optionsOk) && Twin(s, t, hash)) <==>
              !NulFree(s.databaseType) || !NulFree(s.credentialRef) || Regroups(s, kinds)
  {
    if !NulFree(s.databaseType) || !NulFree(s.credentialRef) {
      var t := ShiftedTwin(s, hash);
      assert Accepted(t, kinds, optionsOk) && Twin(s, t, hash);
    } else {
      if Regroups(s, kinds) {
        var name, alias, kind, rest :| ReadsAs(s, kinds, name, alias, kind, rest);
        var t := RegroupedTwin(s, kinds, hash, name, alias, kind, rest);
        assert Accepted(t, kinds, optionsOk) && Twin(s, t, hash);
      }
      forall t | Accepted(t, kinds, optionsOk) && Twin(s, t, hash) ensures Regroups(s, kinds) {
        TwinRegroups(s, t, kinds, hash);
      }
    }
  }

  /** What stands between the id and the options in a pre-image. */
  function Middle(s: Source): string {
    s.name + [NUL] + s.alias + [NUL] + s.kind + [NUL] + s.databaseType + [NUL] + s.credentialRef
  }

  lemma PreimageText(s: Source, hash: Digest)
    ensures Preimage(s, hash) == s.id + [NUL] + (Middle(s) + [NUL] + s.options) + [NUL] + hash
  {
    var p := Fields(s);
    JoinAppend(p, hash);
    JoinAppend(p[..6], s.options);
    assert p == p[..6] + [s.options];
    assert p[..6] == [s.id] + p[1..6] && p[1..6] == [s.name, s.alias, s.kind, s.databaseType, s.credentialRef];
    JoinIsMiddle(s);
    assert p[..6][1..] == p[1..6];
    assert JoinNul(p[..6]) == s.id + [NUL] + Middle(s);
  }

  lemma JoinIsMiddle(s: Source)
    ensures JoinNul([s.name, s.alias, s.kind, s.databaseType, s.credentialRef]) == Middle(s)
  {
    JoinAppend([s.name, s.alias, s.kind, s.databaseType], s.credentialRef);
    JoinAppend([s.name, s.alias, s.kind], s.databaseType);
    JoinAppend([s.name, s.alias], s.kind);
    JoinAppend([s.name], s.alias);
    assert [s.name] + [s.alias] == [s.name, s.alias] && [s.name, s.alias] + [s.kind] == [s.name, s.alias, s.kind];
    assert [s.name, s.alias, s.kind] + [s.databaseType] == [s.name, s.alias, s.kind, s.databaseType];
    assert [s.name, s.alias, s.kind, s.databaseType] + [s.credentialRef] ==
           [s.name, s.alias, s.kind, s.databaseType, s.credentialRef];
  }

  lemma SplitAtLastNul(x: string, a: string, y: string, b: string)
    requires NulFree(a) && NulFree(b) && x + [NUL] + a == y + [NUL] + b
    ensures x == y && a == b
  {
    var s := x + [NUL] + a;
    assert s[|x|] == NUL && s[|y|] == NUL;
    forall k | |x| < k < |s| ensures s[k] != NUL {
      assert s[k] == a[k - |x| - 1] && a[k - |x| - 1] in a;
    }
    forall k | |y| < k < |s| ensures s[k] != NUL {
      assert s[k] == b[k - |y| - 1] && b[k - |y| - 1] in b;
    }
    assert x == s[..|x|] && y == s[..|y|] && a == s[|x| + 1..] && b == s[|y| + 1..];
  }

  lemma ShiftedTwin(s: Source, hash: Digest) returns (t: Source)
    requires !NulFree(s.databaseType) || !NulFree(s.credentialRef)
    ensures Twin(s, t, hash) && t == s.(databaseType := t.databaseType, credentialRef := t.credentialRef)
  {
    hide Twin;
    if !NulFree(s.databaseType) {
      var k :| 0 <= k < |s.databaseType| && s.databaseType[k] == NUL;
      var a, b := s.databaseType[..k], s.databaseType[k + 1..];
      assert s.databaseType == a + [NUL] + b;
      t := s.(databaseType := a, credentialRef := b + [NUL] + s.credentialRef);
      assert s.databaseType + [NUL] + s.credentialRef == t.databaseType + [NUL] + t.credentialRef;
    } else {
      var k :| 0 <= k < |s.credentialRef| && s.credentialRef[k] == NUL;
      var a, b := s.credentialRef[..k], s.credentialRef[k + 1..];
      assert s.credentialRef == a + [NUL] + b;
      t := s.(databaseType := s.databaseType + [NUL] + a, credentialRef := b);
      assert s.databaseType + [NUL] + s.credentialRef == t.databaseType + [NUL] + t.credentialRef;
    }
    SharedText(s, t, hash);
  }

  lemma SharedText(s: Source, t: Source, hash: Digest)
    requires t == s.(databaseType := t.databaseType, credentialRef := t.credentialRef)
    requires s.databaseType + [NUL] + s.credentialRef == t.databaseType + [NUL] + t.credentialRef
    requires |s.databaseType| != |t.databaseType|
    ensures Twin(s, t, hash)
  {
    hide Preimage;
    var head := s.name + [NUL] + s.alias + [NUL] + s.kind + [NUL];
    assert Middle(s) == head + (s.databaseType + [NUL] + s.credentialRef);
    assert Middle(t) == head + (t.databaseType + [NUL] + t.credentialRef);
    PreimageText(s, hash);
    PreimageText(t, hash);
    assert Fields(t)[4] == t.databaseType && Fields(s)[4] == s.databaseType;
  }

  lemma RegroupedTwin(s: Source, kinds: set<string>, hash: Digest, name: string, alias: string, kind: string,
                      rest: string) returns (t: Source)
    requires ReadsAs(s, kinds, name, alias, kind, rest)
    ensures Twin(s, t, hash) && t.id == s.id && t.options == s.options
    ensures t.name == name && t.alias == alias && t.kind == kind
  {
    var tail := s.kind + ([NUL] + (s.databaseType + [NUL] + s.credentialRef));
    t := s.(name := name, alias := alias, kind := kind,
            databaseType := rest + s.kind, credentialRef := s.databaseType + [NUL] + s.credentialRef);
    assert Middle(s) == s.name + [NUL] + s.alias + [NUL] + tail;
    assert Middle(t) == name + [NUL] + alias + [NUL] + kind + [NUL] + rest + tail;
    PreimageText(s, hash);
    PreimageText(t, hash);
    assert |t.credentialRef| > |s.credentialRef|;
    assert Fields(t)[5] == t.credentialRef && Fields(s)[5] == s.credentialRef;
  }

  /** The other direction: a twin of a source without NUL in type and reference regroups its name. */
  lemma TwinRegroups(s: Source, t: Source, kinds: set<string>, hash: Digest)
    requires Twin(s, t, hash) && NulFree(s.databaseType) && NulFree(s.credentialRef)
    requires NulFree(s.options) && NulFree(t.options) && s.kind in kinds && t.kind in kinds
    requires forall k :: k in kinds ==> NulFree(k)
    requires ValidIdentifier(s.alias) && ValidIdentifier(t.alias) && t.name != "" && t.kind != ""
    ensures Regroups(s, kinds)
  {
    SameMiddle(s, t, hash);
    var y, z := s.name + [NUL] + s.alias, t.name + [NUL] + t.alias + [NUL] + t.kind;
    var ends := s.kind + [NUL] + s.databaseType + [NUL] + s.credentialRef;
    var ends' := t.databaseType + [NUL] + t.credentialRef;
    var m := Middle(s);
    assert m == y + [NUL] + ends && m == z + [NUL] + ends';
    assert m[..|y|] == y && m[|y|] == NUL && m[..|z|] == z && m[|z|] == NUL;
    if |z| <= |y| {
      var rest := (y + [NUL])[|z| + 1..];
      assert y + [NUL] == m[..|y| + 1];
      assert y + [NUL] == z + [NUL] + rest;
      assert ReadsAs(s, kinds, t.name, t.alias, t.kind, rest);
    } else {
      LongerHeadIsSame(s, t, y, z);
    }
  }

  lemma SameMiddle(s: Source, t: Source, hash: Digest)
    requires t.id == s.id && Preimage(t, hash) == Preimage(s, hash) && NulFree(s.options) && NulFree(t.options)
    ensures Middle(s) == Middle(t) && s.options == t.options
  {
    PreimageText(s, hash);
    PreimageText(t, hash);
    var x, y := Middle(s) + [NUL] + s.options, Middle(t) + [NUL] + t.options;
    var p := Preimage(s, hash);
    assert x == p[|s.id| + 1..|p| - 33] && y == p[|s.id| + 1..|p| - 33];
    SplitAtLastNul(Middle(s), s.options, Middle(t), t.options);
  }

  lemma LongerHeadIsSame(s: Source, t: Source, y: string, z: string)
    requires Middle(s) == Middle(t) && |z| > |y|
    requires y == s.name + [NUL] + s.alias && z == t.name + [NUL] + t.alias + [NUL] + t.kind
    requires NulFree(s.databaseType) && NulFree(s.credentialRef) && NulFree(s.kind) && NulFree(t.kind)
    requires ValidIdentifier(s.alias) && ValidIdentifier(t.alias)
    requires s.id == t.id && s.options == t.options
    ensures Fields(s) == Fields(t)
  {
    var x := z[|y| + 1..];
    HeadGoesOn(s, t, y, z);
    ThreeParts(s.kind, s.databaseType, s.credentialRef, x, t.databaseType, t.credentialRef);
    assert z == (t.name + [NUL] + t.alias) + [NUL] + t.kind;
    SplitAtLastNul(y, x, t.name + [NUL] + t.alias, t.kind);
    SplitAtLastNul(s.name, s.alias, t.name, t.alias);
  }

  lemma HeadGoesOn(s: Source, t: Source, y: string, z: string)
    requires Middle(s) == Middle(t) && |z| > |y|
    requires y == s.name + [NUL] + s.alias && z == t.name + [NUL] + t.alias + [NUL] + t.kind
    ensures z == y + [NUL] + z[|y| + 1..]
    ensures s.kind + [NUL] + s.databaseType + [NUL] + s.credentialRef ==
            z[|y| + 1..] + [NUL] + t.databaseType + [NUL] + t.credentialRef
  {
    var m := Middle(s);
    var ends := s.kind + [NUL] + s.databaseType + [NUL] + s.credentialRef;
    var ends' := t.databaseType + [NUL] + t.credentialRef;
    assert m == y + [NUL] + ends && m == z + [NUL] + ends';
    assert z == m[..|z|] && y == m[..|y|] && m[|y|] == NUL;
    assert ends == m[|y| + 1..];
    assert m[|y| + 1..] == z[|y| + 1..] + [NUL] + ends';
  }

  lemma ThreeParts(a: string, b: string, c: string, x: string, y: string, z: string)
    requires NulFree(a) && NulFree(b) && NulFree(c)
    requires a + [NUL] + b + [NUL] + c == x + [NUL] + y + [NUL] + z
    ensures a == x && b == y && c == z
  {
    hide JoinNul, NulFree;
    var p, q := [a, b, c], [x, y, z];
    JoinThree(a, b, c);
    JoinThree(x, y, z);
    NulsJoined(p);
    NulsJoined(q);
    assert forall i :: 0 <= i < |p| ==> NulFree(p[i]);
    JoinInjective(p, q);
    assert p[0] == q[0] && p[1] == q[1] && p[2] == q[2];
  }

  lemma JoinThree(a: string, b: string, c: string)
    ensures JoinNul([a, b, c]) == a + [NUL] + b + [NUL] + c
  {
    JoinAppend([a, b], c);
    JoinAppend([a], b);
    assert [a] + [b] == [a, b] && [a, b] + [c] == [a, b, c];
  }

  /** SHA-256 has no collision on the two credentials and on the two pre-images at hand. */
  predicate NoCollision(sha: string -> Digest, s: Source, credential: string, t: Source, other: string) {
    && (sha(credential) == sha(other) ==> credential == other)
    && (sha(Preimage(s, sha(credential))) == sha(Preimage(t, sha(other))) ==>
          Preimage(s, sha(credential)) == Preimage(t, sha(other)))
  }

  /** Equal fingerprints mean equal configuration and equal credential for a source without NUL. */
  lemma {:induction false} FingerprintDetermines(
      sha: string -> Digest, s: Source, credential: string, t: Source, other: string)
    requires NulFreeSource(s) && NoCollision(sha, s, credential, t, other)
    ensures Fingerprint(sha, s, credential) == Fingerprint(sha, t, other) <==>
              Fields(s) == Fields(t) && credential == other
    ensures Fingerprint(sha, s, credential) == Fingerprint(sha, t, other) && s.enabled == t.enabled ==>
              DefinitionOf(s) == DefinitionOf(t)
  {
    if sha(Preimage(s, sha(credential))) == sha(Preimage(t, sha(other))) {
      PreimageIsItsOwn(s, sha(credential), t, sha(other));
      assert Fields(s)[0] == s.id && Fields(s)[1] == s.name && Fields(s)[2] == s.alias;
      assert Fields(s)[3] == s.kind && Fields(s)[4] == s.databaseType;
    }
  }

  function HexDigit(n: nat): char
    requires n < 16
  {
    "0123456789abcdef"[n]
  }

  function Hex(s: string): string
    requires Bytes(s)
  {
    if s == "" then "" else [HexDigit(s[0] as int / 16), HexDigit(s[0] as int % 16)] + Hex(s[1..])
  }

  const STAGE_PREFIX := "qr_stage_"

  function StageAlias(alias: string, fingerprint: Digest): string {
    var suffix := Hex(fingerprint[..4]);
    var maximumPrefix := 63 - |"qr_stage__"| - |suffix|;
    var kept := if |alias| > maximumPrefix && maximumPrefix >= 0 then alias[..maximumPrefix] else alias;
    STAGE_PREFIX + kept + "_" + suffix
  }

  lemma {:induction false} HexShape(s: string)
    requires Bytes(s)
    ensures |Hex(s)| == 2 * |s|
    ensures forall i :: 0 <= i < |Hex(s)| ==> IdentifierChar(Hex(s)[i])
  {
    if s != "" {
      HexShape(s[1..]);
    }
  }

  predicate StagePrefixed(alias: string) { STAGE_PREFIX <= alias }

  /** A staged alias passes the engine's identifier check whenever the alias it is made of
      does, whatever the alias's length, and it carries the staging prefix. */
  lemma {:induction false} StageAliasValid(alias: string, fingerprint: Digest)
    requires ValidIdentifier(alias)
    ensures ValidIdentifier(StageAlias(alias, fingerprint))
    ensures StagePrefixed(StageAlias(alias, fingerprint))
  {
    HexShape(fingerprint[..4]);
    var s := StageAlias(alias, fingerprint);
    var kept := if |alias| > 45 then alias[..45] else alias;
    assert s == STAGE_PREFIX + kept + "_" + Hex(fingerprint[..4]);
    forall i | 1 <= i < |s| ensures IdentifierChar(s[i]) {
      if i < 9 {
        assert s[i] == STAGE_PREFIX[i];
      } else if i < 9 + |kept| {
        assert s[i] == kept[i - 9] == alias[i - 9];
      } else if i > 9 + |kept| {
        assert s[i] == Hex(fingerprint[..4])[i - 10 - |kept|];
      }
    }
  }

  lemma {:induction false} HexInjective(s: string, t: string)
    requires Bytes(s) && Bytes(t) && Hex(s) == Hex(t)
    ensures s == t
  {
    hide HexDigit;
    HexShape(s);
    HexShape(t);
    if s != "" {
      var a, b := s[0] as int, t[0] as int;
      assert Hex(s)[0] == Hex(t)[0] && Hex(s)[1] == Hex(t)[1];
      assert HexDigit(a / 16) == HexDigit(b / 16) && HexDigit(a % 16) == HexDigit(b % 16);
      DigitInjective(a / 16, b / 16);
      DigitInjective(a % 16, b % 16);
      assert Hex(s)[2..] == Hex(s[1..]) && Hex(t)[2..] == Hex(t[1..]);
      HexInjective(s[1..], t[1..]);
      assert s == [s[0]] + s[1..] && t == [t[0]] + t[1..];
    }
  }

  lemma DigitInjective(m: nat, n: nat)
    requires m < 16 && n < 16 && HexDigit(m) == HexDigit(n)
    ensures m == n
  {
    var digits := "0123456789abcdef";
    assert forall i, j :: 0 <= i < j < 16 ==> digits[i] != digits[j];
  }

  /** A staged alias tells the first 45 characters of the alias and the first four bytes of the
      fingerprint, and nothing else. */
  lemma StageAliasTells(alias: string, fingerprint: Digest, other: string, otherFingerprint: Digest)
    ensures StageAlias(alias, fingerprint) == StageAlias(other, otherFingerprint) <==>
              && (if |alias| > 45 then alias[..45] else alias) == (if |other| > 45 then other[..45] else other)
              && fingerprint[..4] == otherFingerprint[..4]
  {
    hide HexDigit;
    var s, t := StageAlias(alias, fingerprint), StageAlias(other, otherFingerprint);
    var x, y := Hex(fingerprint[..4]), Hex(otherFingerprint[..4]);
    var kept, otherKept := if |alias| > 45 then alias[..45] else alias, if |other| > 45 then other[..45] else other;
    HexShape(fingerprint[..4]);
    HexShape(otherFingerprint[..4]);
    assert s == STAGE_PREFIX + kept + "_" + x && t == STAGE_PREFIX + otherKept + "_" + y;
    if s == t {
      assert |kept| == |otherKept|;
      assert s[9..9 + |kept|] == kept && t[9..9 + |kept|] == otherKept;
      assert s[10 + |kept|..] == x && t[10 + |kept|..] == y;
      HexInjective(fingerprint[..4], otherFingerprint[..4]);
    }
  }

  lemma StageAliasPrefixed(alias: string, fingerprint: Digest)
    ensures StagePrefixed(StageAlias(alias, fingerprint))
  {
  }
}
