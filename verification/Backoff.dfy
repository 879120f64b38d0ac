/** Reconnect delays in nanoseconds (internal/source/backoff.go). */
module Backoff {

  /** Go's time.Duration. Arithmetic on it is checked: a step that could leave the range would
      not verify. */
  newtype int64 = x: int | -0x8000_0000_0000_0000 <= x < 0x8000_0000_0000_0000

  const CAP: nat := 63

  ghost function Pow2(k: nat): (p: nat)
    ensures p >= 1
  {
    if k == 0 then 1 else 2 * Pow2(k - 1)
  }

  /** The delay after `k` earlier failures in a row, counted without a bound: the base doubled
      `k` times, at most the maximum; a doubling that lands one below the maximum is rounded up. */
  ghost function Delay(base: int, maximum: int, k: nat): int {
    var doubled := base * Pow2(k);
    if doubled >= maximum || (k >= 1 && doubled == maximum - 1) then maximum else doubled
  }

  datatype Event = Failed(sourceId: string) | Recovered(sourceId: string)

  /** Failures of one source since it last recovered. */
  ghost function InARow(history: seq<Event>, id: string): nat {
    if history == [] then 0
    else match history[|history| - 1]
      case Failed(s) => InARow(history[..|history| - 1], id) + if s == id then 1 else 0
      case Recovered(s) => if s == id then 0 else InARow(history[..|history| - 1], id)
  }

  ghost function Capped(n: nat): nat { if n < CAP then n else CAP }

  function Attempts(attempts: map<string, nat>, id: string): nat {
    if id in attempts then attempts[id] else 0
  }

  class Backoff {
    const base: int64
    const maximum: int64
    var attempts: map<string, nat>
    ghost var history: seq<Event>

    constructor (base: int64, maximum: int64)
      ensures Valid() && history == []
      ensures this.base == if base <= 0 then 250_000_000 else base
      ensures this.maximum == if maximum < this.base then 30_000_000_000 else maximum
    {
      var b := if base <= 0 then 250_000_000 else base;
      this.base := b;
      this.maximum := if maximum < b then 30_000_000_000 else maximum;
      attempts, history := map[], [];
    }

    /** The stored counters are the true counts, capped. */
    ghost predicate Valid()
      reads this
    {
      && base >= 1 && maximum >= 1
      && forall id :: Attempts(attempts, id) == Capped(InARow(history, id))
    }

    /** The delay is that of the unbounded count, although the stored counter stops at 63. */
    method Failure(sourceId: string) returns (delay: int64)
      requires Valid()
      modifies this
      ensures Valid() && history == old(history) + [Failed(sourceId)]
      ensures delay as int == Delay(base as int, maximum as int, InARow(old(history), sourceId))
    {
      hide Delay, InARow, Pow2;
      var attempt := Attempts(attempts, sourceId);
      CapLosesNothing(base as int, maximum as int, InARow(history, sourceId));
      AfterFailure(attempts, history, sourceId);
      if attempt < CAP {
        attempts := attempts[sourceId := attempt + 1];
      }
      history := history + [Failed(sourceId)];
      delay := base;
      NoDoubling(base as int);
      for i := 0 to attempt
        invariant Valid() && history == old(history) + [Failed(sourceId)]
        invariant delay as int == base as int * Pow2(i)
        invariant i > 0 ==> delay as int <= maximum as int - 2
      {
        if delay >= maximum / 2 {
          HalfwayReached(base as int, maximum as int, i, attempt);
          return maximum;
        }
        OneMoreDoubling(base as int, i);
        delay := delay * 2;
      }
      NotHalfway(base as int, maximum as int, attempt);
      if delay > maximum {
        return maximum;
      }
    }

    method Ready(sourceId: string)
      requires Valid()
      modifies this
      ensures Valid() && history == old(history) + [Recovered(sourceId)]
      ensures attempts == old(attempts) - {sourceId}
    {
      AfterReady(attempts, history, sourceId);
      attempts := attempts - {sourceId};
      history := history + [Recovered(sourceId)];
    }
  }

  lemma {:induction false} Pow2Grows(i: nat, k: nat)
    requires i <= k
    ensures Pow2(i) <= Pow2(k)
  {
    if i < k {
      Pow2Grows(i, k - 1);
    }
  }

  lemma Scaled(base: int, p: int, q: int)
    requires base >= 1 && 0 <= p <= q
    ensures base * p <= base * q
  {
  }

  lemma NoDoubling(base: int)
    ensures base * Pow2(0) == base
  {
  }

  lemma OneMoreDoubling(base: int, i: nat)
    ensures base * Pow2(i + 1) == 2 * (base * Pow2(i))
  {
  }

  lemma NotHalfway(base: int, maximum: int, k: nat)
    requires k > 0 ==> base * Pow2(k) <= maximum - 2
    ensures Delay(base, maximum, k) == if base * Pow2(k) > maximum then maximum else base * Pow2(k)
  {
  }

  lemma HalfwayReached(base: int, maximum: int, i: nat, k: nat)
    requires base >= 1 && maximum >= 1 && i < k && base * Pow2(i) >= maximum / 2
    ensures Delay(base, maximum, k) == maximum
  {
    assert base * Pow2(i + 1) == 2 * (base * Pow2(i));
    Pow2Grows(i + 1, k);
    Scaled(base, Pow2(i + 1), Pow2(k));
  }

  /** Beyond 63 doublings every delay that fits 64 bits has reached its maximum. */
  lemma CapLosesNothing(base: int, maximum: int, k: nat)
    requires base >= 1 && maximum < 0x8000_0000_0000_0000
    ensures Delay(base, maximum, Capped(k)) == Delay(base, maximum, k)
  {
    if k > CAP {
      PowerOfCap();
      Pow2Grows(CAP, k);
      Scaled(base, Pow2(CAP), Pow2(k));
      Scaled(base, 1, Pow2(CAP));
      assert base * Pow2(CAP) >= Pow2(CAP) by { Times(base, Pow2(CAP)); }
    }
  }

  lemma Times(base: int, p: int)
    requires base >= 1 && p >= 0
    ensures base * p >= p
  {
  }

  lemma PowerOfCap()
    ensures Pow2(CAP) == 0x8000_0000_0000_0000
  {
    assert Pow2(8) == 256;
    PowAdds(8, 8);
    PowAdds(16, 16);
    PowAdds(32, 16);
    PowAdds(48, 8);
    assert Pow2(7) == 128;
    PowAdds(56, 7);
  }

  lemma {:induction false} PowAdds(a: nat, b: nat)
    ensures Pow2(a + b) == Pow2(a) * Pow2(b)
  {
    if b > 0 {
      PowAdds(a, b - 1);
    }
  }

  /** Until the source recovers its delays never decrease, and they never exceed the maximum. */
  lemma DelaysNeverDecrease(base: int, maximum: int, i: nat, k: nat)
    requires base >= 1 && maximum >= 1 && i <= k
    ensures Delay(base, maximum, i) <= Delay(base, maximum, k) <= maximum
  {
    Pow2Grows(i, k);
    Scaled(base, Pow2(i), Pow2(k));
  }

  lemma AfterFailure(attempts: map<string, nat>, history: seq<Event>, id: string)
    requires forall s :: Attempts(attempts, s) == Capped(InARow(history, s))
    ensures var n := Attempts(attempts, id);
            var attempts' := if n < CAP then attempts[id := n + 1] else attempts;
            forall s :: Attempts(attempts', s) == Capped(InARow(history + [Failed(id)], s))
  {
  }

  lemma AfterReady(attempts: map<string, nat>, history: seq<Event>, id: string)
    requires forall s :: Attempts(attempts, s) == Capped(InARow(history, s))
    ensures forall s :: Attempts(attempts - {id}, s) == Capped(InARow(history + [Recovered(id)], s))
  {
  }

  ghost function Of(history: seq<Event>, id: string): seq<Event> {
    if history == [] then []
    else
      var last := history[|history| - 1];
      Of(history[..|history| - 1], id) + if last.sourceId == id then [last] else []
  }

  /** What happens to other sources does not matter: a source's count, and with it its delay, is
      that of its own events alone. */
  lemma {:induction false} SourcesAreIndependent(history: seq<Event>, id: string)
    ensures InARow(history, id) == InARow(Of(history, id), id)
  {
    if history != [] {
      var before, last := history[..|history| - 1], history[|history| - 1];
      SourcesAreIndependent(before, id);
      if last.sourceId == id {
        assert Of(history, id) == Of(before, id) + [last];
        assert Of(history, id)[..|Of(before, id)|] == Of(before, id);
      } else {
        assert Of(history, id) == Of(before, id);
      }
    }
  }
}
