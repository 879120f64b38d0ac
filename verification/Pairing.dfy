/** The single-use pairing exchange as its goroutines run it (internal/pairing/pairing.go:84-166).
    A request is filtered without the lock, then decided in one critical section; the expiry
    timer, callers of Close and the server loop end the exchange at any time. */
module Pairing {
  import opened Sources

  datatype Verb = Options | Post | Other

  datatype Body = Malformed | Nonce(value: string)

  datatype Request = Request(origin: string, verb: Verb, body: Body)

  datatype Response =
    | Forbidden | Preflight | MethodNotAllowed | BadRequest  // before the lock
    | Conflict | Gone | Unauthorized | Token(token: string)  // under the lock

  /** Where the goroutine serving a request is. */
  datatype Phase =
    | Arrived(request: Request)
    | Decoded(request: Request)
    | Answered(request: Request, response: Response)

  datatype Config = Config(nonce: string, expiresAt: nat, origins: set<string>, token: string)

  /** `closers`: goroutines about to call `finish`; `fired`: the once has run; `closes`: how often
      `done` was closed; `timer`: the timer has not gone off yet. */
  datatype State = State(
    now: nat, consumed: bool, requests: map<int, Phase>, closers: nat, fired: bool, closes: nat, timer: bool)

  datatype Step =
    | Arrive(id: int, incoming: Request)
    | Filter(id: int)
    | Decide(id: int)
    | Tick(later: nat)
    | Expire
    | Close
    | Finish

  // ---------------------------------------------------------------- one step

  /** The checks made without the lock; `None` lets the request through to it. */
  function Filtered(c: Config, r: Request): Option<Response> {
    if r.origin !in c.origins then Some(Forbidden)
    else match r.verb
      case Options => Some(Preflight)
      case Other => Some(MethodNotAllowed)
      case Post => if r.body.Malformed? then Some(BadRequest) else None
  }

  /** The critical section. */
  function Decision(c: Config, s: State, nonce: string): Response {
    if s.consumed then Conflict
    else if s.now > c.expiresAt then Gone
    else if nonce != c.nonce then Unauthorized
    else Token(c.token)
  }

  function Next(c: Config, s: State, step: Step): Option<State> {
    match step
    case Arrive(id, r) =>
      if id in s.requests then None else Some(s.(requests := s.requests[id := Arrived(r)]))
    case Filter(id) =>
      if id !in s.requests || !s.requests[id].Arrived? then None
      else
        var r := s.requests[id].request;
        var early := Filtered(c, r);
        Some(s.(requests := s.requests[id := if early.Some? then Answered(r, early.value) else Decoded(r)]))
    case Decide(id) =>
      if id !in s.requests || !s.requests[id].Decoded? || s.requests[id].request.body.Malformed? then None
      else
        var r := s.requests[id].request;
        var response := Decision(c, s, r.body.value);
        Some(s.(requests := s.requests[id := Answered(r, response)],
                consumed := s.consumed || response.Token?,
                closers := s.closers + if response.Token? then 1 else 0))
    case Tick(later) => if later < s.now then None else Some(s.(now := later))
    case Expire => if s.timer && s.now >= c.expiresAt then Some(s.(timer := false, closers := s.closers + 1)) else None
    case Close => Some(s.(closers := s.closers + 1))
    case Finish =>
      if s.closers == 0 then None
      else Some(s.(closers := s.closers - 1, fired := true, closes := s.closes + if s.fired then 0 else 1))
  }

  function Fresh(now: nat): State { State(now, false, map[], 0, false, 0, true) }

  ghost predicate Run(c: Config, trace: seq<State>, steps: seq<Step>) {
    && |trace| == |steps| + 1 && trace[0] == Fresh(trace[0].now)
    && forall i :: 0 <= i < |steps| ==> Next(c, trace[i], steps[i]) == Some(trace[i + 1])
  }

  // ---------------------------------------------------------------- the invariant

  predicate HasToken(s: State, id: int) {
    id in s.requests && s.requests[id].Answered? && s.requests[id].response.Token?
  }

  predicate Welcome(c: Config, r: Request) {
    r.origin in c.origins && r.verb == Post && r.body.Nonce?
  }

  ghost predicate Inv(c: Config, s: State) {
    && (s.consumed <==> exists id :: HasToken(s, id))
    && (forall i, j :: HasToken(s, i) && HasToken(s, j) ==> i == j)
    && (forall id :: id in s.requests && s.requests[id].Decoded? ==> Welcome(c, s.requests[id].request))
    && (forall id :: HasToken(s, id) ==>
          && s.requests[id].response == Token(c.token)
          && Welcome(c, s.requests[id].request) && s.requests[id].request.body.value == c.nonce)
    && s.closes == (if s.fired then 1 else 0)
    && (s.consumed || !s.timer ==> Ending(s))
    && (!s.timer ==> s.now >= c.expiresAt)
  }

  /** The exchange has ended, or a goroutine is on its way to end it. */
  predicate Ending(s: State) { s.fired || s.closers > 0 }

  lemma StepKeepsInv(c: Config, s: State, step: Step)
    requires Inv(c, s) && Next(c, s, step).Some?
    ensures Inv(c, Next(c, s, step).value)
  {
    var s' := Next(c, s, step).value;
    if step.Arrive? || step.Filter? || step.Decide? {
      assert forall j :: j != step.id ==> (HasToken(s', j) <==> HasToken(s, j));
      assert !HasToken(s, step.id);
      if step.Decide? {
        assert HasToken(s', step.id) <==> Decision(c, s, s.requests[step.id].request.body.value).Token?;
      } else {
        assert !HasToken(s', step.id);
      }
    } else {
      assert forall j :: HasToken(s', j) <==> HasToken(s, j);
    }
  }

  lemma {:induction false} RunKeepsInv(c: Config, trace: seq<State>, steps: seq<Step>, i: nat)
    requires Run(c, trace, steps) && i < |trace|
    ensures Inv(c, trace[i])
  {
    if i > 0 {
      RunKeepsInv(c, trace, steps, i - 1);
      assert Next(c, trace[i - 1], steps[i - 1]) == Some(trace[i]);
      StepKeepsInv(c, trace[i - 1], steps[i - 1]);
    }
  }

  // ---------------------------------------------------------------- what runs guarantee

  /** Under every interleaving at most one request ever gets the token, and `done` is closed at
      most once. */
  lemma AtMostOneToken(c: Config, trace: seq<State>, steps: seq<Step>, i: nat, j: nat, a: int, b: int)
    requires Run(c, trace, steps) && i <= j < |trace|
    requires HasToken(trace[i], a) && HasToken(trace[j], b)
    ensures a == b && trace[j].closes <= 1
  {
    AnswersStay(c, trace, steps, i, j, a);
    RunKeepsInv(c, trace, steps, j);
  }

  lemma DoneClosesOnce(c: Config, trace: seq<State>, steps: seq<Step>, i: nat)
    requires Run(c, trace, steps) && i < |trace|
    ensures trace[i].closes <= 1 && (trace[i].fired <==> trace[i].closes == 1)
  {
    RunKeepsInv(c, trace, steps, i);
  }

  lemma {:induction false} AnswersStay(c: Config, trace: seq<State>, steps: seq<Step>, i: nat, j: nat, id: int)
    requires Run(c, trace, steps) && i <= j < |trace|
    requires id in trace[i].requests && trace[i].requests[id].Answered?
    ensures id in trace[j].requests && trace[j].requests[id] == trace[i].requests[id]
    decreases j - i
  {
    if i < j {
      assert Next(c, trace[i], steps[i]) == Some(trace[i + 1]);
      AnswersStay(c, trace, steps, i + 1, j, id);
    }
  }

  /** The step that gave a request its token: in one critical section the challenge was unused,
      not expired, and the nonce right; the request came from an allowed origin. */
  lemma {:induction false} TokenWasEarned(c: Config, trace: seq<State>, steps: seq<Step>, i: nat, id: int)
    returns (k: nat)
    requires Run(c, trace, steps) && i < |trace| && HasToken(trace[i], id)
    ensures k < i && steps[k] == Decide(id) && !trace[k].consumed && trace[k].now <= c.expiresAt
    ensures var r := trace[i].requests[id].request;
            r.origin in c.origins && r.verb == Post && r.body == Nonce(c.nonce)
  {
    RunKeepsInv(c, trace, steps, i);
    var s := trace[i - 1];
    assert Next(c, s, steps[i - 1]) == Some(trace[i]);
    if HasToken(s, id) {
      k := TokenWasEarned(c, trace, steps, i - 1, id);
    } else {
      k := i - 1;
    }
  }

  lemma {:induction false} ConsumedStays(c: Config, trace: seq<State>, steps: seq<Step>, i: nat, j: nat)
    requires Run(c, trace, steps) && i <= j < |trace|
    ensures trace[i].consumed ==> trace[j].consumed
    ensures trace[i].now <= trace[j].now
    decreases j - i
  {
    if i < j {
      assert Next(c, trace[i], steps[i]) == Some(trace[i + 1]);
      ConsumedStays(c, trace, steps, i + 1, j);
    }
  }

  /** Which request wins: of those that reach the critical section, exactly the first that gets
      there in time with the right nonce. A wrong nonce consumes nothing; after the token is out
      every later request is told of the conflict; after expiry none gets it. */
  lemma DecisionIsExact(c: Config, trace: seq<State>, steps: seq<Step>, k: nat)
    requires Run(c, trace, steps) && k < |steps| && steps[k].Decide?
    ensures var id := steps[k].id;
            && id in trace[k + 1].requests && trace[k + 1].requests[id].Answered?
            && var r := trace[k + 1].requests[id];
               && (r.response.Token? <==>
                     && r.request.body == Nonce(c.nonce) && trace[k].now <= c.expiresAt
                     && forall m, other :: 0 <= m <= k ==> !HasToken(trace[m], other))
               && (r.response == Conflict <==> exists other :: HasToken(trace[k], other))
               && (!r.response.Token? ==> trace[k + 1].consumed == trace[k].consumed)
  {
    RunKeepsInv(c, trace, steps, k);
    assert Next(c, trace[k], steps[k]) == Some(trace[k + 1]);
    forall m, other | 0 <= m <= k && HasToken(trace[m], other) ensures trace[k].consumed {
      AnswersStay(c, trace, steps, m, k, other);
      assert HasToken(trace[k], other);
    }
    if trace[k].consumed {
      var other :| HasToken(trace[k], other);
    }
  }

  /** The challenge is consumed exactly if some earlier decision handed out the token, and that
      decision found it unused. */
  lemma {:induction false} OnlyTheTokenConsumes(c: Config, trace: seq<State>, steps: seq<Step>, i: nat)
    requires Run(c, trace, steps) && i < |trace|
    ensures trace[i].consumed <==> exists k :: 0 <= k < i && HandsOut(trace, steps, k)
  {
    if i > 0 {
      OnlyTheTokenConsumes(c, trace, steps, i - 1);
      assert Next(c, trace[i - 1], steps[i - 1]) == Some(trace[i]);
      RunKeepsInv(c, trace, steps, i - 1);
      if trace[i].consumed && !trace[i - 1].consumed {
        assert HandsOut(trace, steps, i - 1);
      }
      if HandsOut(trace, steps, i - 1) {
        RunKeepsInv(c, trace, steps, i);
      }
    }
  }

  ghost predicate HandsOut(trace: seq<State>, steps: seq<Step>, k: nat)
    requires |trace| == |steps| + 1 && k < |steps|
  {
    steps[k].Decide? && !trace[k].consumed && HasToken(trace[k + 1], steps[k].id)
  }

  /** Once the token is out or the timer went off, the exchange has ended or is about to: the next
      `finish` closes `done`, which then has been closed once. The timer never goes off early. */
  lemma TokenEndsTheExchange(c: Config, trace: seq<State>, steps: seq<Step>, i: nat)
    requires Run(c, trace, steps) && i < |trace|
    requires !trace[i].timer || exists id :: HasToken(trace[i], id)
    ensures trace[i].closes == 1 || (Next(c, trace[i], Finish).Some? && Next(c, trace[i], Finish).value.closes == 1)
    ensures !trace[i].timer ==> trace[i].now >= c.expiresAt
  {
    RunKeepsInv(c, trace, steps, i);
  }

  /** And for no other reason: an exchange that ends has given out its token, has expired, or was
      closed by a caller or by the end of the server loop. */
  lemma {:induction false} EndsForAReason(c: Config, trace: seq<State>, steps: seq<Step>, i: nat)
    requires Run(c, trace, steps) && i < |trace| && trace[i].closes == 1
    ensures trace[i].consumed || trace[i].now >= c.expiresAt || Close in steps[..i]
  {
    RunKeepsInv(c, trace, steps, i);
    EndingHasAReason(c, trace, steps, i);
  }

  lemma {:induction false} EndingHasAReason(c: Config, trace: seq<State>, steps: seq<Step>, i: nat)
    requires Run(c, trace, steps) && i < |trace| && Ending(trace[i])
    ensures trace[i].consumed || trace[i].now >= c.expiresAt || Close in steps[..i]
  {
    assert Next(c, trace[i - 1], steps[i - 1]) == Some(trace[i]);
    assert steps[..i] == steps[..i - 1] + [steps[i - 1]];
    if Ending(trace[i - 1]) {
      EndingHasAReason(c, trace, steps, i - 1);
    } else if steps[i - 1].Decide? {
      assert trace[i].consumed;
    }
  }

  /** What each request is answered before the critical section, and which one reaches it: a
      well-formed POST from an allowed origin. */
  lemma FilterIsExact(c: Config, s: State, id: int)
    requires id in s.requests && s.requests[id].Arrived?
    ensures var r := s.requests[id].request;
            var after := Next(c, s, Filter(id)).value.requests[id];
            && (after == Decoded(r) <==> r.origin in c.origins && r.verb == Post && r.body.Nonce?)
            && (after == Answered(r, Forbidden) <==> r.origin !in c.origins)
            && (after == Answered(r, Preflight) <==> r.origin in c.origins && r.verb == Options)
            && (after == Answered(r, MethodNotAllowed) <==> r.origin in c.origins && r.verb == Other)
            && (after == Answered(r, BadRequest) <==> r.origin in c.origins && r.verb == Post && r.body == Malformed)
  {
  }

  /** The answers given under the lock, in the order of the checks: a used challenge is a conflict,
      an expired one is gone whatever the nonce, and a wrong nonce in time is unauthorized. */
  lemma RefusalsAreExact(c: Config, trace: seq<State>, steps: seq<Step>, k: nat)
    requires Run(c, trace, steps) && k < |steps| && steps[k].Decide?
    ensures var id := steps[k].id;
            && id in trace[k + 1].requests && trace[k + 1].requests[id].Answered?
            && var r := trace[k + 1].requests[id];
               && (r.response == Conflict <==> trace[k].consumed)
               && (r.response == Gone <==> !trace[k].consumed && trace[k].now > c.expiresAt)
               && (r.response == Unauthorized <==>
                     !trace[k].consumed && trace[k].now <= c.expiresAt && r.request.body != Nonce(c.nonce))
  {
    RunKeepsInv(c, trace, steps, k);
    assert Next(c, trace[k], steps[k]) == Some(trace[k + 1]);
  }
}
