/**
  The in-flight machinery of the desk AIs (`inflight.py`): one registered request per symbol, a newer
  request cancelling the registered one, and a cache of the last accepted decision.  A call runs
  up to its one `await` (`Begin`), and from there to its end (`Finish`); any other call may run in between.
  Symbols are taken as already upper-cased.
*/
module InFlight {
  import opened Text

  /** How the provider call comes back: timed out or raised, or answered, late or not, valid or not. */
  datatype Outcome = Failed | Answer(overCeiling: bool, pass: bool)

  datatype Signal = Signal(request: nat, symbol: string, hash: string, superseded: bool, accepted: bool, reused: bool)

  datatype Request = Request(symbol: string, hash: string, cancelled: bool, outcome: Option<Outcome>)

  /** `requests` lists every request ever started, oldest first; the maps are the desk's three dictionaries. */
  datatype State = State(
    requests: seq<Request>, inFlight: map<string, nat>, lastHash: map<string, string>,
    lastDecision: map<string, Signal>)

  const EMPTY := State([], map[], map[], map[])

  function Served(s: State, symbol: string, hash: string): Option<Signal> {
    if symbol in s.lastHash && s.lastHash[symbol] == hash
       && symbol in s.lastDecision && !s.lastDecision[symbol].superseded
    then Some(s.lastDecision[symbol].(reused := true)) else None
  }

  function Cancel(requests: seq<Request>, r: nat): seq<Request> {
    if r < |requests| then requests[r := requests[r].(cancelled := true)] else requests
  }

  function Registered(s: State, symbol: string, q: Request): State {
    var older := if symbol in s.inFlight then Cancel(s.requests, s.inFlight[symbol]) else s.requests;
    s.(requests := older + [q], inFlight := s.inFlight[symbol := |s.requests|])
  }

  function Begun(s: State, symbol: string, hash: string): State {
    if Served(s, symbol, hash).Some? then s.(lastDecision := s.lastDecision[symbol := Served(s, symbol, hash).value])
    else Registered(s, symbol, Request(symbol, hash, false, None))
  }

  predicate Accepted(q: Request, o: Outcome) { o.Answer? && !q.cancelled && !o.overCeiling && o.pass }

  function SignalOf(r: nat, q: Request, o: Outcome): Signal {
    Signal(r, q.symbol, q.hash, o.Answer? && (q.cancelled || o.overCeiling), Accepted(q, o), false)
  }

  function Finished(s: State, r: nat, o: Outcome): State
    requires r < |s.requests|
  {
    var q := s.requests[r];
    State(s.requests[r := q.(outcome := Some(o))], s.inFlight - {q.symbol},
          if Accepted(q, o) then s.lastHash[q.symbol := q.hash] else s.lastHash,
          if Accepted(q, o) then s.lastDecision[q.symbol := SignalOf(r, q, o)] else s.lastDecision)
  }

  function Cleared(s: State, symbol: Option<string>): State {
    if symbol.Some? && symbol.value != ""
    then s.(inFlight := s.inFlight - {symbol.value}, lastHash := s.lastHash - {symbol.value},
            lastDecision := s.lastDecision - {symbol.value})
    else s.(inFlight := map[], lastHash := map[], lastDecision := map[])
  }

  // ---------------------------------------------------------------- the desk itself

  class InFlightRequest {
    const requestId: nat
    const symbol: string
    const contextHash: string
    var cancelled: bool
    ghost var outcome: Option<Outcome>

    constructor (requestId: nat, symbol: string, contextHash: string)
      ensures this.requestId == requestId && View() == Request(symbol, contextHash, false, None)
    {
      this.requestId, this.symbol, this.contextHash, cancelled, outcome := requestId, symbol, contextHash, false, None;
    }

    ghost function View(): Request reads this { Request(symbol, contextHash, cancelled, outcome) }
  }

  class Desk {
    var inFlight: map<string, InFlightRequest>
    var lastContextHash: map<string, string>
    var lastDecision: map<string, Signal>
    /** Every request started so far; ids are handed out in starting order. */
    ghost var started: seq<InFlightRequest>

    constructor ()
      ensures Valid() && View() == EMPTY
    {
      inFlight, lastContextHash, lastDecision, started := map[], map[], map[], [];
    }

    ghost predicate Valid()
      reads this
    {
      && (forall k | 0 <= k < |started| :: started[k].requestId == k)
      && (forall sym | sym in inFlight :: inFlight[sym] in started)
    }

    ghost function Requests(): seq<Request>
      reads this, started
    {
      seq(|started|, k requires 0 <= k < |started| reads this, started => started[k].View())
    }

    ghost function Ids(): map<string, nat>
      reads this
    {
      map sym | sym in inFlight :: inFlight[sym].requestId
    }

    ghost function View(): State
      reads this, started
    {
      State(Requests(), Ids(), lastContextHash, lastDecision)
    }

    /** The call up to its `await`: the cached decision, or the request it has started. */
    method Begin(symbol: string, contextHash: string, requestId: nat)
      returns (cached: Option<Signal>, request: Option<InFlightRequest>)
      requires Valid() && requestId == |started|
      modifies this, started
      ensures Valid() && View() == Begun(old(View()), symbol, contextHash)
      ensures cached == Served(old(View()), symbol, contextHash)
      ensures cached.Some? <==> request.None?
      ensures started == if request.Some? then old(started) + [request.value] else old(started)
      ensures request.Some? ==> fresh(request.value)
      ensures cached.Some? <==>
                && symbol in old(lastContextHash) && old(lastContextHash)[symbol] == contextHash
                && symbol in old(lastDecision) && !old(lastDecision)[symbol].superseded
      ensures request.Some? ==>
                && request.value.symbol == symbol && request.value.contextHash == contextHash
                && !request.value.cancelled && inFlight == old(inFlight)[symbol := request.value]
                && (symbol in old(inFlight) ==> old(inFlight)[symbol].cancelled)
    {
      cached := CheckCachedDecision(symbol, contextHash);
      request := None;
      if cached.Some? { return; }
      var q := new InFlightRequest(requestId, symbol, contextHash);
      SetInFlight(symbol, q);
      request := Some(q);
    }

    /** The remembered decision, marked as reused where it is kept. */
    method CheckCachedDecision(symbol: string, contextHash: string) returns (cached: Option<Signal>)
      requires Valid()
      modifies this`lastDecision
      ensures Valid() && cached == Served(old(View()), symbol, contextHash)
      ensures cached.Some? <==>
                && symbol in lastContextHash && lastContextHash[symbol] == contextHash
                && symbol in old(lastDecision) && !old(lastDecision)[symbol].superseded
      ensures cached.Some? ==> cached.value == old(lastDecision)[symbol].(reused := true)
      ensures lastDecision == if cached.Some? then old(lastDecision)[symbol := cached.value] else old(lastDecision)
      ensures var s := old(View());
              View() == s.(lastDecision :=
                if cached.Some? then s.lastDecision[symbol := cached.value] else s.lastDecision)
    {
      if symbol in lastContextHash && lastContextHash[symbol] == contextHash {
        if symbol in lastDecision && !lastDecision[symbol].superseded {
          lastDecision := lastDecision[symbol := lastDecision[symbol].(reused := true)];
          return Some(lastDecision[symbol]);
        }
      }
      cached := None;
    }

    method SetInFlight(symbol: string, q: InFlightRequest)
      requires Valid() && q.requestId == |started|
      modifies this, started
      ensures Valid() && started == old(started) + [q]
      ensures View() == Registered(old(View()), symbol, old(q.View()))
      ensures inFlight == old(inFlight)[symbol := q] && q.cancelled == old(q.cancelled)
      ensures symbol in old(inFlight) ==> old(inFlight)[symbol].cancelled
      ensures forall r | r in old(started) && !(symbol in old(inFlight) && r == old(inFlight)[symbol]) :: unchanged(r)
    {
      if symbol in inFlight && !inFlight[symbol].cancelled { inFlight[symbol].cancelled := true; }
      inFlight := inFlight[symbol := q];
      started := started + [q];
      assert Ids() == old(Ids())[symbol := q.requestId];
      ghost var cancelled :=
        if symbol in old(Ids()) then Cancel(old(Requests()), old(Ids())[symbol]) else old(Requests());
      assert Requests() == cancelled + [old(q.View())];
      hide Requests, Ids, Cancel;
    }

    /** The call from its `await` to its end; the registration of the symbol is cleared on the way out. */
    method Finish(q: InFlightRequest, outcome: Outcome) returns (signal: Signal)
      requires Valid() && q in started
      modifies this, q
      ensures Valid() && started == old(started)
      ensures View() == Finished(old(View()), q.requestId, outcome)
      ensures signal == SignalOf(q.requestId, old(q.View()), outcome)
      ensures signal.superseded <==> outcome.Answer? && (old(q.cancelled) || outcome.overCeiling)
      ensures signal.accepted <==>
                outcome.Answer? && !old(q.cancelled) && !outcome.overCeiling && outcome.pass
      ensures signal.request == q.requestId && signal.symbol == q.symbol && signal.hash == q.contextHash
          && !signal.reused
      ensures inFlight == old(inFlight) - {q.symbol} && q.cancelled == old(q.cancelled)
      ensures lastDecision == if signal.accepted then old(lastDecision)[q.symbol := signal] else old(lastDecision)
      ensures lastContextHash ==
                if signal.accepted then old(lastContextHash)[q.symbol := q.contextHash] else old(lastContextHash)
    {
      q.outcome := Some(outcome);
      signal := Signal(q.requestId, q.symbol, q.contextHash, false, false, false);
      if outcome.Answer? {
        if q.cancelled {
          signal := signal.(superseded := true);
        } else if outcome.overCeiling {
          signal := signal.(superseded := true);
        } else if outcome.pass {
          signal := signal.(accepted := true);
          lastContextHash := lastContextHash[q.symbol := q.contextHash];
          lastDecision := lastDecision[q.symbol := signal];
        }
      }
      inFlight := inFlight - {q.symbol};
      assert Requests() == old(Requests())[q.requestId := q.View()];
      assert Ids() == old(Ids()) - {q.symbol};
      hide Requests, Ids;
    }

    method Reset(symbol: Option<string>)
      requires Valid()
      modifies this
      ensures Valid() && started == old(started)
      ensures View() == Cleared(old(View()), symbol)
      ensures symbol.Some? && symbol.value != "" ==>
                && inFlight == old(inFlight) - {symbol.value} && lastDecision == old(lastDecision) - {symbol.value}
                && lastContextHash == old(lastContextHash) - {symbol.value}
      ensures symbol.None? || symbol.value == "" ==>
          inFlight == map[] && lastDecision == map[] && lastContextHash == map[]
    {
      if symbol.Some? && symbol.value != "" {
        inFlight := inFlight - {symbol.value};
        lastContextHash := lastContextHash - {symbol.value};
        lastDecision := lastDecision - {symbol.value};
      } else {
        inFlight, lastContextHash, lastDecision := map[], map[], map[];
      }
    }
  }

  // ---------------------------------------------------------------- every interleaving of calls

  datatype Step =
    | Call(symbol: string, hash: string) | Return(request: nat, result: Outcome) | Reset(target: Option<string>)

  predicate Enabled(s: State, step: Step) {
    step.Return? ==> step.request < |s.requests| && s.requests[step.request].outcome.None?
  }

  function Next(s: State, step: Step): State
    requires Enabled(s, step)
  {
    match step
    case Call(symbol, hash) => Begun(s, symbol, hash)
    case Return(r, o) => Finished(s, r, o)
    case Reset(symbol) => Cleared(s, symbol)
  }

  predicate Runs(s: State, steps: seq<Step>)
    decreases |steps|
  {
    steps != [] ==> Enabled(s, steps[0]) && Runs(Next(s, steps[0]), steps[1..])
  }

  function End(s: State, steps: seq<Step>): State
    requires Runs(s, steps)
    decreases |steps|
  {
    if steps == [] then s else End(Next(s, steps[0]), steps[1..])
  }

  /** A call that has neither returned nor been cancelled. */
  predicate Live(s: State, r: nat) {
    r < |s.requests| && !s.requests[r].cancelled && s.requests[r].outcome.None?
  }

  /** No later request for the same symbol has been started. */
  predicate Newest(s: State, r: nat) {
    r < |s.requests| && forall k | r < k < |s.requests| :: s.requests[k].symbol != s.requests[r].symbol
  }

  predicate IsRegistered(s: State, r: nat) {
    r < |s.requests| && s.requests[r].symbol in s.inFlight && s.inFlight[s.requests[r].symbol] == r
  }

  /** The registered request of a symbol is the newest started for it, not cancelled and not finished. */
  ghost predicate RegistrationCoherent(s: State) {
    forall sym | sym in s.inFlight ::
      var r := s.inFlight[sym];
      Live(s, r) && Newest(s, r) && s.requests[r].symbol == sym
  }

  /** A remembered decision is that of a finished request for the symbol and hash that nothing superseded. */
  predicate Remembers(s: State, sym: string) {
    && sym in s.lastHash && sym in s.lastDecision
    && var d := s.lastDecision[sym];
       && d.request < |s.requests|
       && var q := s.requests[d.request];
       && q.outcome.Some? && Accepted(q, q.outcome.value)
       && d.(reused := false) == SignalOf(d.request, q, q.outcome.value)
       && q.symbol == sym && q.hash == s.lastHash[sym]
  }

  ghost predicate CacheCoherent(s: State) {
    && s.lastHash.Keys == s.lastDecision.Keys
    && (forall sym | sym in s.lastDecision :: Remembers(s, sym))
  }

  /** A cancelled request has a successor. */
  predicate CancelledAreOld(s: State) {
    forall r | 0 <= r < |s.requests| :: s.requests[r].cancelled ==> !Newest(s, r)
  }

  ghost predicate Coherent(s: State) {
    RegistrationCoherent(s) && CacheCoherent(s) && CancelledAreOld(s)
  }

  /** What a step may change about the requests already started: nothing but a flag of a live one, or an outcome. */
  lemma StepFrame(s: State, step: Step)
    requires Coherent(s) && Enabled(s, step)
    ensures var t := Next(s, step);
            && |s.requests| <= |t.requests|
            && (forall r | 0 <= r < |s.requests| ::
                 && t.requests[r].symbol == s.requests[r].symbol && t.requests[r].hash == s.requests[r].hash
                 && (s.requests[r].cancelled ==> t.requests[r].cancelled)
                 && (s.requests[r].outcome.Some? ==> t.requests[r] == s.requests[r]))
  {
    hide CacheCoherent, CancelledAreOld, Newest, SignalOf, Accepted;
  }

  /** Registration and cancellation do not look at the cache. */
  lemma CacheIsApart(s: State, t: State)
    requires t.requests == s.requests && t.inFlight == s.inFlight
    ensures RegistrationCoherent(t) == RegistrationCoherent(s) && CancelledAreOld(t) == CancelledAreOld(s)
  {
    SameSymbolsSameNewest(s, t);
    hide Newest;
  }

  lemma ServingKeepsCoherent(s: State, symbol: string, hash: string)
    requires Coherent(s) && Served(s, symbol, hash).Some?
    ensures Coherent(Begun(s, symbol, hash))
  {
    var t := Begun(s, symbol, hash);
    CacheIsApart(s, t);
    hide RegistrationCoherent, CancelledAreOld, SignalOf;
    assert t.lastDecision.Keys == s.lastDecision.Keys;
    forall sym | sym in t.lastDecision ensures Remembers(t, sym) { assert Remembers(s, sym); }
  }

  lemma StartKeepsCoherent(s: State, symbol: string, hash: string)
    requires Coherent(s) && Served(s, symbol, hash).None?
    ensures Coherent(Begun(s, symbol, hash))
  {
    var t := Begun(s, symbol, hash);
    StepFrame(s, Call(symbol, hash));
    hide Served, SignalOf;
    forall r | 0 <= r < |t.requests| && t.requests[r].cancelled ensures !Newest(t, r) {
      if r < |s.requests| && s.requests[r].cancelled {
        assert !Newest(s, r);
      } else {
        assert t.requests[|s.requests|].symbol == t.requests[r].symbol;
      }
    }
  }

  lemma ReturnKeepsCoherent(s: State, r: nat, o: Outcome)
    requires Coherent(s) && Enabled(s, Return(r, o))
    ensures Coherent(Finished(s, r, o))
  {
    FinishingKeepsRegistrations(s, r, o);
    FinishingKeepsCache(s, r, o);
    hide RegistrationCoherent, CacheCoherent, CancelledAreOld;
  }

  lemma FinishingKeepsRegistrations(s: State, r: nat, o: Outcome)
    requires Coherent(s) && Enabled(s, Return(r, o))
    ensures RegistrationCoherent(Finished(s, r, o)) && CancelledAreOld(Finished(s, r, o))
  {
    SameSymbolsSameNewest(s, Finished(s, r, o));
    hide CacheCoherent, Newest, Accepted, SignalOf;
  }

  lemma FinishingKeepsCache(s: State, r: nat, o: Outcome)
    requires Coherent(s) && Enabled(s, Return(r, o))
    ensures CacheCoherent(Finished(s, r, o))
  {
    var t := Finished(s, r, o);
    hide RegistrationCoherent, CancelledAreOld, Accepted, SignalOf;
    forall sym | sym in t.lastDecision ensures Remembers(t, sym) {
      if sym in s.lastDecision { assert Remembers(s, sym); }
    }
  }

  lemma SameSymbolsSameNewest(s: State, t: State)
    requires |s.requests| == |t.requests|
    requires forall k | 0 <= k < |s.requests| :: t.requests[k].symbol == s.requests[k].symbol
    ensures forall k :: Newest(t, k) == Newest(s, k)
  {
    forall k ensures Newest(t, k) ==> Newest(s, k) {}
    forall k ensures Newest(s, k) ==> Newest(t, k) {}
  }

  lemma StepKeepsCoherent(s: State, step: Step)
    requires Coherent(s) && Enabled(s, step)
    ensures Coherent(Next(s, step))
  {
    match step
    case Call(symbol, hash) =>
      if Served(s, symbol, hash).Some? {
        ServingKeepsCoherent(s, symbol, hash);
      } else {
        StartKeepsCoherent(s, symbol, hash);
      }
    case Return(r, o) => ReturnKeepsCoherent(s, r, o);
    case Reset(_) => SameSymbolsSameNewest(s, Next(s, step));
  }

  lemma {:induction false} RunKeepsCoherent(s: State, steps: seq<Step>)
    requires Coherent(s) && Runs(s, steps)
    ensures Coherent(End(s, steps))
    decreases |steps|
  {
    hide Coherent, Next, Enabled;
    if steps == [] {
    } else {
      StepKeepsCoherent(s, steps[0]);
      RunKeepsCoherent(Next(s, steps[0]), steps[1..]);
    }
  }

  /**
    However the calls interleave: a decision served from the cache is that of a request for the same symbol and
    context hash, which had passed validation in time and had not been cancelled; and the registered request of
    a symbol is its newest, neither cancelled nor finished.
  */
  lemma ServedAndRegisteredAreCoherent(steps: seq<Step>, symbol: string, hash: string)
    requires Runs(EMPTY, steps)
    ensures var s := End(EMPTY, steps);
            && (forall sym | sym in s.inFlight ::
                 Live(s, s.inFlight[sym]) && Newest(s, s.inFlight[sym]) && s.requests[s.inFlight[sym]].symbol == sym)
            && match Served(s, symbol, hash)
               case None => true
               case Some(d) =>
                 && d.request < |s.requests| && !d.superseded && d.accepted && d.reused
                 && var q := s.requests[d.request];
                 && q.symbol == symbol && q.hash == hash && !q.cancelled && q.outcome == Some(Answer(false, true))
  {
    RunKeepsCoherent(EMPTY, steps);
  }

  /** A decision just accepted is served to the next call with the same context, until something replaces it. */
  lemma AcceptedIsServed(s: State, r: nat, o: Outcome, symbol: string, hash: string)
    requires Coherent(s) && Enabled(s, Return(r, o))
    ensures var q, t := s.requests[r], Finished(s, r, o);
            Served(t, symbol, hash) == if !Accepted(q, o) || symbol != q.symbol then Served(s, symbol, hash)
                                       else if hash == q.hash then Some(SignalOf(r, q, o).(reused := true)) else None
  {
  }

  // ---------------------------------------------------------------- one live request per symbol

  /** Every live request is registered, so that a newer one would cancel it. */
  predicate Tidy(s: State) {
    forall r | 0 <= r < |s.requests| :: Live(s, r) ==> IsRegistered(s, r)
  }

  /** The step drops the registration of a request that stays live. */
  predicate Orphans(s: State, step: Step)
    requires Enabled(s, step)
  {
    match step
    case Call(_, _) => false
    case Return(r, _) => s.requests[r].symbol in s.inFlight && s.inFlight[s.requests[r].symbol] != r
    case Reset(symbol) => if symbol.Some? && symbol.value != "" then symbol.value in s.inFlight else s.inFlight != map[]
  }

  predicate OneLivePerSymbol(s: State) {
    forall i, j | 0 <= i < j < |s.requests| && Live(s, i) && Live(s, j) :: s.requests[i].symbol != s.requests[j].symbol
  }

  /** A step keeps every live request registered exactly when it does not orphan one. */
  lemma TidyIsKeptIff(s: State, step: Step)
    requires Coherent(s) && Tidy(s) && Enabled(s, step)
    ensures Tidy(Next(s, step)) <==> !Orphans(s, step)
  {
    var t := Next(s, step);
    match step
    case Call(symbol, hash) =>
      forall k | 0 <= k < |t.requests| && Live(t, k) ensures IsRegistered(t, k) {
        if k < |s.requests| { assert Live(s, k) && IsRegistered(s, k); }
      }
    case Return(r, o) =>
      var sym := s.requests[r].symbol;
      if Orphans(s, step) {
        assert Live(t, s.inFlight[sym]) && !IsRegistered(t, s.inFlight[sym]);
      } else {
        forall k | 0 <= k < |t.requests| && Live(t, k) ensures IsRegistered(t, k) { assert Live(s, k); }
      }
    case Reset(symbol) =>
      if Orphans(s, step) {
        var sym :| sym in s.inFlight && sym !in t.inFlight;
        assert Live(t, s.inFlight[sym]) && !IsRegistered(t, s.inFlight[sym]);
      } else {
        assert t.inFlight == s.inFlight;
        forall k | 0 <= k < |t.requests| && Live(t, k) ensures IsRegistered(t, k) { assert Live(s, k); }
      }
  }

  predicate TidyRun(s: State, steps: seq<Step>)
    requires Runs(s, steps)
    decreases |steps|
  {
    steps != [] ==> !Orphans(s, steps[0]) && TidyRun(Next(s, steps[0]), steps[1..])
  }

  lemma {:induction false} TidyRunStaysTidy(s: State, steps: seq<Step>)
    requires Coherent(s) && Tidy(s) && Runs(s, steps) && TidyRun(s, steps)
    ensures Coherent(End(s, steps)) && Tidy(End(s, steps))
    decreases |steps|
  {
    hide Coherent, Tidy, Next, Enabled, Orphans;
    if steps == [] {
    } else {
      StepKeepsCoherent(s, steps[0]);
      TidyIsKeptIff(s, steps[0]);
      TidyRunStaysTidy(Next(s, steps[0]), steps[1..]);
    }
  }

  /** On a run that orphans no request, a symbol never has two live requests. */
  lemma OneLiveOnTidyRuns(steps: seq<Step>)
    requires Runs(EMPTY, steps) && TidyRun(EMPTY, steps)
    ensures OneLivePerSymbol(End(EMPTY, steps))
  {
    TidyRunStaysTidy(EMPTY, steps);
  }

  /** There, an answer in time that passes validation is remembered exactly when it is the newest for its symbol. */
  lemma RememberedIffNewest(steps: seq<Step>, r: nat)
    requires Runs(EMPTY, steps) && TidyRun(EMPTY, steps) && Enabled(End(EMPTY, steps), Return(r, Answer(false, true)))
    ensures var s := End(EMPTY, steps);
            Accepted(s.requests[r], Answer(false, true)) <==> Newest(s, r)
  {
    TidyRunStaysTidy(EMPTY, steps);
    var s := End(EMPTY, steps);
    assert !s.requests[r].cancelled ==> Live(s, r) && IsRegistered(s, r);
  }

  // ---------------------------------------------------------------- how far it can go wrong

  ghost function Strays(s: State, sym: string): set<nat> {
    set r: nat | r < |s.requests| && Live(s, r) && s.requests[r].symbol == sym && !IsRegistered(s, r)
  }

  ghost function LiveOnes(s: State, sym: string): set<nat> {
    set r: nat | r < |s.requests| && Live(s, r) && s.requests[r].symbol == sym
  }

  /** How many steps of a run drop the registration of a live request of the symbol. */
  function Orphanings(s: State, steps: seq<Step>, sym: string): nat
    requires Runs(s, steps)
    decreases |steps|
  {
    if steps == [] then 0
    else
      var one := if Orphans(s, steps[0]) && sym in s.inFlight && sym !in Next(s, steps[0]).inFlight then 1 else 0;
      one + Orphanings(Next(s, steps[0]), steps[1..], sym)
  }

  lemma StepAddsOneStray(s: State, step: Step, sym: string)
    requires Coherent(s) && Enabled(s, step)
    ensures var t := Next(s, step);
            |Strays(t, sym)| <= |Strays(s, sym)|
              + if Orphans(s, step) && sym in s.inFlight && sym !in t.inFlight then 1 else 0
  {
    var t := Next(s, step);
    forall r | r in Strays(t, sym) && r !in Strays(s, sym)
      ensures Orphans(s, step) && sym in s.inFlight && sym !in t.inFlight && r == s.inFlight[sym]
    {
      NewStray(s, step, sym, r);
    }
    hide Next, Coherent, Enabled, Orphans, Strays;
    if Orphans(s, step) && sym in s.inFlight && sym !in t.inFlight {
      Smaller(Strays(t, sym), Strays(s, sym) + {s.inFlight[sym]});
    } else {
      Smaller(Strays(t, sym), Strays(s, sym));
    }
  }

  /** A request strays in the step that drops its registration. */
  lemma NewStray(s: State, step: Step, sym: string, r: nat)
    requires Coherent(s) && Enabled(s, step) && r in Strays(Next(s, step), sym) && r !in Strays(s, sym)
    ensures Orphans(s, step) && sym in s.inFlight && sym !in Next(s, step).inFlight && r == s.inFlight[sym]
  {
    hide CacheCoherent, CancelledAreOld, Newest;
  }

  lemma {:induction false} Smaller(a: set<nat>, b: set<nat>)
    requires a <= b
    ensures |a| <= |b|
  {
    if a == {} {
    } else {
      var x :| x in a;
      Smaller(a - {x}, b - {x});
    }
  }

  lemma {:induction false} StraysAreBounded(s: State, steps: seq<Step>, sym: string)
    requires Coherent(s) && Runs(s, steps)
    ensures Coherent(End(s, steps))
    ensures |Strays(End(s, steps), sym)| <= |Strays(s, sym)| + Orphanings(s, steps, sym)
    decreases |steps|
  {
    hide Coherent, Next, Enabled, Orphans, Strays;
    if steps == [] {
    } else {
      StepKeepsCoherent(s, steps[0]);
      StepAddsOneStray(s, steps[0], sym);
      StraysAreBounded(Next(s, steps[0]), steps[1..], sym);
    }
  }

  // ---------------------------------------------------------------- exactly when a symbol has two live requests

  /**
    A call that starts a request leaves one live exactly when no live request of the symbol was out of the register.
  */
  lemma StartLeavesOneLiveIff(s: State, symbol: string, hash: string)
    requires Coherent(s) && Served(s, symbol, hash).None?
    ensures |LiveOnes(Begun(s, symbol, hash), symbol)| <= 1 <==> Strays(s, symbol) == {}
  {
    var t, n := Begun(s, symbol, hash), |s.requests|;
    assert LiveOnes(t, symbol) == Strays(s, symbol) + {n};
    if Strays(s, symbol) == {} {
      Smaller(LiveOnes(t, symbol), {n});
    } else {
      var r :| r in Strays(s, symbol);
      assert {r, n} <= LiveOnes(t, symbol) && r != n;
      Smaller({r, n}, LiveOnes(t, symbol));
    }
  }

  /** No request is started beside a live one out of the register. */
  ghost predicate StartsAlone(s: State, step: Step) {
    step.Call? && Served(s, step.symbol, step.hash).None? ==> Strays(s, step.symbol) == {}
  }

  lemma StepKeepsOneLiveIff(s: State, step: Step)
    requires Coherent(s) && OneLivePerSymbol(s) && Enabled(s, step)
    ensures OneLivePerSymbol(Next(s, step)) <==> StartsAlone(s, step)
  {
    var t := Next(s, step);
    StepFrame(s, step);
    if step.Call? && Served(s, step.symbol, step.hash).None? {
      var n := |s.requests|;
      assert Live(t, n) && t.requests[n].symbol == step.symbol;
      forall r | 0 <= r < n
        ensures Live(t, r) && t.requests[r].symbol == step.symbol <==> r in Strays(s, step.symbol)
      {}
      if r :| r in Strays(s, step.symbol) { assert Live(t, r) && t.requests[r].symbol == t.requests[n].symbol; }
      forall i, j | 0 <= i < j < |t.requests| && Live(t, i) && Live(t, j) && Strays(s, step.symbol) == {}
        ensures t.requests[i].symbol != t.requests[j].symbol
      {
        assert Live(s, i);
        assert j < n ==> Live(s, j);
      }
    } else {
      forall r | 0 <= r < |t.requests| && Live(t, r) ensures Live(s, r) {}
    }
  }

  /** Every state of the run, the first included, has at most one live request for each symbol. */
  ghost predicate AlwaysOneLive(s: State, steps: seq<Step>)
    requires Runs(s, steps)
    decreases |steps|
  {
    OneLivePerSymbol(s) && (steps != [] ==> AlwaysOneLive(Next(s, steps[0]), steps[1..]))
  }

  ghost predicate AllStartAlone(s: State, steps: seq<Step>)
    requires Runs(s, steps)
    decreases |steps|
  {
    steps != [] ==> StartsAlone(s, steps[0]) && AllStartAlone(Next(s, steps[0]), steps[1..])
  }

  lemma {:induction false} AlwaysOneLiveFrom(s: State, steps: seq<Step>)
    requires Coherent(s) && OneLivePerSymbol(s) && Runs(s, steps)
    ensures AlwaysOneLive(s, steps) <==> AllStartAlone(s, steps)
    decreases |steps|
  {
    hide Coherent, Next, Enabled, OneLivePerSymbol, StartsAlone;
    if steps == [] {
    } else {
      StepKeepsCoherent(s, steps[0]);
      StepKeepsOneLiveIff(s, steps[0]);
      if StartsAlone(s, steps[0]) { AlwaysOneLiveFrom(Next(s, steps[0]), steps[1..]); }
    }
  }

  /**
    On every run: no symbol ever has two live requests if and only if none is started beside one out of the register.
  */
  lemma OneLiveIff(steps: seq<Step>)
    requires Runs(EMPTY, steps)
    ensures AlwaysOneLive(EMPTY, steps) <==> AllStartAlone(EMPTY, steps)
  {
    AlwaysOneLiveFrom(EMPTY, steps);
  }

  /** On any run, a symbol has at most one live request more than there were orphaning steps. */
  lemma OverlapIsBounded(steps: seq<Step>, sym: string)
    requires Runs(EMPTY, steps)
    ensures |LiveOnes(End(EMPTY, steps), sym)| <= 1 + Orphanings(EMPTY, steps, sym)
  {
    StraysAreBounded(EMPTY, steps, sym);
    var s := End(EMPTY, steps);
    assert Strays(EMPTY, sym) == {};
    if sym in s.inFlight {
      assert LiveOnes(s, sym) <= Strays(s, sym) + {s.inFlight[sym]};
      Smaller(LiveOnes(s, sym), Strays(s, sym) + {s.inFlight[sym]});
    } else {
      assert LiveOnes(s, sym) <= Strays(s, sym);
      Smaller(LiveOnes(s, sym), Strays(s, sym));
    }
  }

  lemma RunCons(s: State, step: Step, rest: seq<Step>)
    requires Enabled(s, step) && Runs(Next(s, step), rest)
    ensures Runs(s, [step] + rest) && End(s, [step] + rest) == End(Next(s, step), rest)
  {
    assert ([step] + rest)[1..] == rest;
  }

  /**
    The premise is needed.  A second request cancels the first; the first returns and clears the second's
    registration; a third starts and leaves the second live.  When the third answers before the second, the cache
    ends with the decision on the older context.
  */
  lemma OrphanedRequestOverlaps(sym: string) returns (steps: seq<Step>, more: seq<Step>)
    ensures Runs(EMPTY, steps) && !OneLivePerSymbol(End(EMPTY, steps))
    ensures Runs(End(EMPTY, steps), more)
    ensures var t := End(End(EMPTY, steps), more);
            |t.requests| == 3 && Served(t, sym, "older").Some? && Served(t, sym, "newer").None?
                && t.requests[2].hash == "newer"
            && Accepted(t.requests[2], Answer(false, true)) && t.requests[2].outcome == Some(Answer(false, true))
  {
    var s1 := Next(EMPTY, Call(sym, "first"));
    var s2 := Next(s1, Call(sym, "older"));
    var s3 := Next(s2, Return(0, Answer(false, true)));
    var s4 := Next(s3, Call(sym, "newer"));
    assert s4.requests == [Request(sym, "first", true, Some(Answer(false, true))), Request(sym, "older", false, None),
                           Request(sym, "newer", false, None)];
    assert Live(s4, 1) && Live(s4, 2);
    var s5 := Next(s4, Return(2, Answer(false, true)));
    var s6 := Next(s5, Return(1, Answer(false, true)));
    assert s6.lastHash[sym] == "older" && s6.requests[2] == Request(sym, "newer", false, Some(Answer(false, true)));
    steps := [Call(sym, "first")]
        + ([Call(sym, "older")] + ([Return(0, Answer(false, true))] + ([Call(sym, "newer")] + [])));
    more := [Return(2, Answer(false, true))] + ([Return(1, Answer(false, true))] + []);
    hide Next, Enabled;
    RunCons(s5, Return(1, Answer(false, true)), []);
    RunCons(s4, Return(2, Answer(false, true)), [Return(1, Answer(false, true))] + []);
    RunCons(s3, Call(sym, "newer"), []);
    RunCons(s2, Return(0, Answer(false, true)), [Call(sym, "newer")] + []);
    RunCons(s1, Call(sym, "older"), [Return(0, Answer(false, true))] + ([Call(sym, "newer")] + []));
    RunCons(EMPTY, Call(sym, "first"),
        [Call(sym, "older")] + ([Return(0, Answer(false, true))] + ([Call(sym, "newer")] + [])));
  }
}
