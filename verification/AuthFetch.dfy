/** Authenticated requests that share one token renewal.

    The code runs in steps between awaits, and any step may follow any other: `Apply` is the effect of one
    step on the token, the shared renewal and the requests. `Client` is the code itself, with its captured
    variables as fields; each of its methods does one step. The lemmas hold for every sequence of steps. */
module AuthFetch {
  import opened Wrappers

  const UNAUTHORIZED := 401

  /** A renewal: waiting for the stored user, then for the silent sign-in; its promise has a result but the
      shared variable still holds it; the variable is free again. */
  datatype Flight = Reading | Renewing | Settled(result: Option<string>) | Landed(result: Option<string>)

  /** Where one request is between its awaits. */
  datatype Phase = First | Waiting(flight: nat) | Retry | Finished

  /** A request and what it has done: the token of each send, the status of each response, the renewal it
      joined and how often it signed out. */
  datatype Request = Request(phase: Phase, sends: seq<Option<string>>, statuses: seq<nat>, joined: Option<nat>, signOuts: nat)

  datatype State = State(token: Option<string>, inFlight: Option<nat>, flights: seq<Flight>, requests: seq<Request>)

  datatype Event =
    | Begin                                          // a caller starts a request
    | Answer(r: nat, status: nat)                    // a fetch resolves
    | Reject(r: nat)                                 // a fetch rejects
    | UserRead(f: nat, refreshable: bool)            // `getUser` resolves; rejecting counts as not refreshable
    | Renewed(f: nat, result: Option<string>)        // `signinSilent` resolves; rejecting counts as no token
    | Clear(f: nat)                                  // the `finally` of the shared promise
    | Resume(r: nat)                                 // a request continues with the result of its renewal
    | UserLoaded(token: string)
    | UserUnloaded
    | InitialLoad(stored: Option<string>)            // the first `getUser` resolves

  /** JavaScript's truth of a token. */
  predicate Usable(token: Option<string>) {
    token.Some? && token.value != ""
  }

  predicate Enabled(s: State, e: Event) {
    match e
    case Answer(r, _) => r < |s.requests| && (s.requests[r].phase.First? || s.requests[r].phase.Retry?)
    case Reject(r) => r < |s.requests| && (s.requests[r].phase.First? || s.requests[r].phase.Retry?)
    case UserRead(f, _) => f < |s.flights| && s.flights[f].Reading?
    case Renewed(f, _) => f < |s.flights| && s.flights[f].Renewing?
    case Clear(f) => f < |s.flights| && s.flights[f].Settled?
    case Resume(r) =>
      && r < |s.requests| && s.requests[r].phase.Waiting?
      && s.requests[r].phase.flight < |s.flights| && s.flights[s.requests[r].phase.flight].Landed?
    case _ => true
  }

  /** `singleFlight`: joins the renewal in flight, or starts one. */
  function Join(s: State): (State, nat) {
    if s.inFlight.Some? then (s, s.inFlight.value)
    else (s.(inFlight := Some(|s.flights|), flights := s.flights + [Reading]), |s.flights|)
  }

  function Apply(s: State, e: Event): State
    requires Enabled(s, e)
  {
    match e
    case Begin => s.(requests := s.requests + [Request(First, [s.token], [], None, 0)])
    case Answer(r, status) =>
      var q := s.requests[r];
      var seen := q.(statuses := q.statuses + [status]);
      if q.phase.First? then
        if status != UNAUTHORIZED then s.(requests := s.requests[r := seen.(phase := Finished)])
        else
          var (joined, f) := Join(s);
          joined.(requests := s.requests[r := seen.(phase := Waiting(f), joined := Some(f))])
      else if status == UNAUTHORIZED then
        s.(token := None, requests := s.requests[r := seen.(phase := Finished, signOuts := q.signOuts + 1)])
      else s.(requests := s.requests[r := seen.(phase := Finished)])
    case Reject(r) => s.(requests := s.requests[r := s.requests[r].(phase := Finished)])
    case UserRead(f, refreshable) =>
      if refreshable then s.(flights := s.flights[f := Renewing])
      else s.(token := None, flights := s.flights[f := Settled(None)])
    case Renewed(f, result) => s.(token := result, flights := s.flights[f := Settled(result)])
    case Clear(f) => s.(inFlight := None, flights := s.flights[f := Landed(s.flights[f].result)])
    case Resume(r) =>
      var q := s.requests[r];
      var result := s.flights[q.phase.flight].result;
      if !Usable(result) then
        s.(token := None, requests := s.requests[r := q.(phase := Finished, signOuts := q.signOuts + 1)])
      else s.(requests := s.requests[r := q.(phase := Retry, sends := q.sends + [result])])
    case UserLoaded(token) => s.(token := Some(token))
    case UserUnloaded => s.(token := None)
    case InitialLoad(stored) => s.(token := if s.token.Some? then s.token else stored)
  }

  // ---------- The code ----------

  class Client {
    var token: Option<string>
    var inFlight: Option<nat>
    var flights: seq<Flight>
    var requests: seq<Request>

    constructor ()
      ensures Now() == Start()
    {
      token, inFlight, flights, requests := None, None, [], [];
    }

    function Now(): State
      reads this
    {
      State(token, inFlight, flights, requests)
    }

    /** `source.signOut()` for request `r` */
    method SignOut(r: nat)
      requires r < |requests|
      modifies this`token, this`requests
      ensures token == None
      ensures requests == old(requests)[r := old(requests)[r].(signOuts := old(requests)[r].signOuts + 1)]
    {
      token := None;
      requests := requests[r := requests[r].(signOuts := requests[r].signOuts + 1)];
    }

    /** `source.renew()` */
    method Renew() returns (f: nat)
      modifies this`inFlight, this`flights
      ensures (Now(), f) == Join(old(Now()))
    {
      if inFlight.None? {
        flights := flights + [Reading];
        inFlight := Some(|flights| - 1);
      }
      f := inFlight.value;
    }

    /** Sends request `r`, or sends it again, with `token`. */
    method Send(r: nat, token: Option<string>, phase: Phase)
      requires r < |requests|
      modifies this`requests
      ensures requests == old(requests)[r := old(requests)[r].(phase := phase, sends := old(requests)[r].sends + [token])]
    {
      requests := requests[r := requests[r].(phase := phase, sends := requests[r].sends + [token])];
    }

    method OnBegin() returns (r: nat)
      modifies this
      ensures Now() == Apply(old(Now()), Begin) && r == |old(requests)|
    {
      r := |requests|;
      requests := requests + [Request(First, [], [], None, 0)];
      Send(r, token, First);
      assert requests[r].sends == [token];
      assert requests == old(requests) + [requests[r]];
    }

    method OnAnswer(r: nat, status: nat)
      requires Enabled(Now(), Answer(r, status))
      modifies this
      ensures Now() == Apply(old(Now()), Answer(r, status))
    {
      var first := requests[r].phase.First?;
      requests := requests[r := requests[r].(statuses := requests[r].statuses + [status])];
      if first {
        if status != UNAUTHORIZED {
          requests := requests[r := requests[r].(phase := Finished)];
          return;
        }
        var f := Renew();
        requests := requests[r := requests[r].(phase := Waiting(f), joined := Some(f))];
      } else {
        if status == UNAUTHORIZED {
          SignOut(r);
        }
        requests := requests[r := requests[r].(phase := Finished)];
      }
    }

    method OnReject(r: nat)
      requires Enabled(Now(), Reject(r))
      modifies this
      ensures Now() == Apply(old(Now()), Reject(r))
    {
      requests := requests[r := requests[r].(phase := Finished)];
    }

    method OnUserRead(f: nat, refreshable: bool)
      requires Enabled(Now(), UserRead(f, refreshable))
      modifies this
      ensures Now() == Apply(old(Now()), UserRead(f, refreshable))
    {
      if !refreshable {
        token := None;
        flights := flights[f := Settled(token)];
        return;
      }
      flights := flights[f := Renewing];
    }

    method OnRenewed(f: nat, result: Option<string>)
      requires Enabled(Now(), Renewed(f, result))
      modifies this
      ensures Now() == Apply(old(Now()), Renewed(f, result))
    {
      token := result;
      flights := flights[f := Settled(token)];
    }

    method OnClear(f: nat)
      requires Enabled(Now(), Clear(f))
      modifies this
      ensures Now() == Apply(old(Now()), Clear(f))
    {
      inFlight := None;
      flights := flights[f := Landed(flights[f].result)];
    }

    method OnResume(r: nat)
      requires Enabled(Now(), Resume(r))
      modifies this
      ensures Now() == Apply(old(Now()), Resume(r))
    {
      var renewed := flights[requests[r].phase.flight].result;
      if !Usable(renewed) {
        SignOut(r);
        requests := requests[r := requests[r].(phase := Finished)];
        return;
      }
      Send(r, renewed, Retry);
    }

    method OnUserLoaded(loaded: string)
      modifies this
      ensures Now() == Apply(old(Now()), UserLoaded(loaded))
    {
      token := Some(loaded);
    }

    method OnUserUnloaded()
      modifies this
      ensures Now() == Apply(old(Now()), UserUnloaded)
    {
      token := None;
    }

    method OnInitialLoad(stored: Option<string>)
      modifies this
      ensures Now() == Apply(old(Now()), InitialLoad(stored))
    {
      if token.None? {
        token := stored;
      }
    }
  }

  // ---------- Every run ----------

  function Start(): State {
    State(None, None, [], [])
  }

  ghost predicate Possible(s: State, events: seq<Event>)
    decreases |events|
  {
    events == [] || (Enabled(s, events[0]) && Possible(Apply(s, events[0]), events[1..]))
  }

  function After(s: State, events: seq<Event>): State
    requires Possible(s, events)
    decreases |events|
  {
    if events == [] then s else After(Apply(s, events[0]), events[1..])
  }

  /** The shared variable holds the one renewal that has not landed, the latest, or none when all have. */
  ghost predicate OneFlight(s: State) {
    && (s.inFlight.Some? ==> s.inFlight.value == |s.flights| - 1)
    && forall f :: 0 <= f < |s.flights| ==> (!s.flights[f].Landed? <==> s.inFlight == Some(f))
  }

  /** What a request has done, given the renewals: it is sent once, and a second time only when the renewal
      it joined landed with a usable token, which the second send carries. It signs out once when the renewal
      landed without a usable token or the second send was refused, and never otherwise. */
  ghost predicate Honest(q: Request, flights: seq<Flight>) {
    && 1 <= |q.sends| <= 2
    && (q.joined.Some? ==> q.joined.value < |flights| && |q.statuses| >= 1 && q.statuses[0] == 401)
    && (|q.sends| == 2 <==> RenewedFor(q, flights) && !q.phase.Waiting?)
    && (|q.sends| == 2 ==> q.sends[1] == flights[q.joined.value].result)
    && q.signOuts == (if q.phase.Finished? && (Unrenewed(q, flights) || RefusedAgain(q)) then 1 else 0)
    && match q.phase
       case First => q.joined.None? && q.statuses == []
       case Waiting(f) => q.joined == Some(f) && q.statuses == [401]
       case Retry => |q.sends| == 2 && q.statuses == [401]
       case Finished =>
         && |q.statuses| <= |q.sends|
         && (q.joined.Some? ==> flights[q.joined.value].Landed?)
         && (q.joined.None? ==> q.statuses == [] || q.statuses[0] != 401)
  }

  /** The renewal the request joined landed with a usable token. */
  ghost predicate RenewedFor(q: Request, flights: seq<Flight>) {
    && q.joined.Some? && q.joined.value < |flights| && flights[q.joined.value].Landed?
    && flights[q.joined.value].result.Some? && flights[q.joined.value].result.value != ""
  }

  /** It landed with no token or an empty one. */
  ghost predicate Unrenewed(q: Request, flights: seq<Flight>) {
    && q.joined.Some? && q.joined.value < |flights| && flights[q.joined.value].Landed?
    && (flights[q.joined.value].result.None? || flights[q.joined.value].result.value == "")
  }

  ghost predicate RefusedAgain(q: Request) {
    |q.statuses| == 2 && q.statuses[1] == 401
  }

  ghost predicate Invariant(s: State) {
    && OneFlight(s)
    && (forall r :: 0 <= r < |s.requests| ==> Honest(s.requests[r], s.flights))
    && (forall f :: 0 <= f < |s.flights| ==> Wanted(s, f))
  }

  /** Some request was refused and joined this renewal. */
  ghost predicate Wanted(s: State, f: nat) {
    exists r :: 0 <= r < |s.requests| && s.requests[r].joined == Some(f)
  }

  /** Renewals are only added, and a landed one keeps its result. */
  ghost predicate Grows(before: seq<Flight>, after: seq<Flight>) {
    && |before| <= |after|
    && forall f :: 0 <= f < |before| ==> before[f].Landed? ==> after[f] == before[f]
  }

  lemma HonestGrows(q: Request, before: seq<Flight>, after: seq<Flight>)
    requires Honest(q, before) && Grows(before, after)
    ensures Honest(q, after)
  {
  }

  /** A step that touches no request. */
  lemma FlightsStep(s: State, t: State)
    requires Invariant(s) && t.requests == s.requests && |t.flights| == |s.flights|
    requires Grows(s.flights, t.flights) && OneFlight(t)
    ensures Invariant(t)
  {
    hide Honest, OneFlight;
    forall r | 0 <= r < |t.requests| ensures Honest(t.requests[r], t.flights) {
      HonestGrows(s.requests[r], s.flights, t.flights);
    }
    forall f | 0 <= f < |t.flights| ensures Wanted(t, f) {
      assert Wanted(s, f);
    }
  }

  /** A step of one request, which may have started the last renewal. */
  lemma RequestStep(s: State, t: State, r: nat)
    requires Invariant(s) && r < |s.requests|
    requires |t.requests| == |s.requests| && t.requests == s.requests[r := t.requests[r]]
    requires Grows(s.flights, t.flights) && OneFlight(t)
    requires Honest(t.requests[r], t.flights)
    requires s.requests[r].joined.Some? ==> t.requests[r].joined == s.requests[r].joined
    requires forall f :: |s.flights| <= f < |t.flights| ==> t.requests[r].joined == Some(f)
    ensures Invariant(t)
  {
    hide Honest, OneFlight;
    forall i | 0 <= i < |t.requests| ensures Honest(t.requests[i], t.flights) {
      if i != r {
        assert t.requests[i] == s.requests[i];
        HonestGrows(s.requests[i], s.flights, t.flights);
      }
    }
    forall f | 0 <= f < |t.flights| ensures Wanted(t, f) {
      if f < |s.flights| {
        assert Wanted(s, f);
        var i :| 0 <= i < |s.requests| && s.requests[i].joined == Some(f);
        assert t.requests[i].joined == Some(f);
      } else {
        assert t.requests[r].joined == Some(f);
      }
    }
  }

  lemma BeginStep(s: State)
    requires Invariant(s)
    ensures Invariant(Apply(s, Begin))
  {
    var t := Apply(s, Begin);
    forall f | 0 <= f < |t.flights| ensures Wanted(t, f) {
      assert Wanted(s, f);
      var i :| 0 <= i < |s.requests| && s.requests[i].joined == Some(f);
      assert t.requests[i].joined == Some(f);
    }
  }

  lemma AnswerStep(s: State, r: nat, status: nat)
    requires Invariant(s) && Enabled(s, Answer(r, status))
    ensures Invariant(Apply(s, Answer(r, status))) && Grows(s.flights, Apply(s, Answer(r, status)).flights)
  {
    var t := Apply(s, Answer(r, status));
    assert Honest(s.requests[r], s.flights);
    RequestStep(s, t, r);
  }

  lemma ResumeStep(s: State, r: nat)
    requires Invariant(s) && Enabled(s, Resume(r))
    ensures Invariant(Apply(s, Resume(r)))
  {
    assert Honest(s.requests[r], s.flights);
    RequestStep(s, Apply(s, Resume(r)), r);
  }

  lemma RejectStep(s: State, r: nat)
    requires Invariant(s) && Enabled(s, Reject(r))
    ensures Invariant(Apply(s, Reject(r)))
  {
    assert Honest(s.requests[r], s.flights);
    RequestStep(s, Apply(s, Reject(r)), r);
  }

  /** Every step keeps the invariant and the results of landed renewals. */
  lemma StepKeeps(s: State, e: Event)
    requires Invariant(s) && Enabled(s, e)
    ensures Invariant(Apply(s, e)) && Grows(s.flights, Apply(s, e).flights)
  {
    hide Invariant, Honest;
    match e
    case Begin => BeginStep(s);
    case Answer(r, status) => AnswerStep(s, r, status);
    case Reject(r) => RejectStep(s, r);
    case Resume(r) => ResumeStep(s, r);
    case UserRead(f, _) => FlightStep(s, e, f);
    case Renewed(f, _) => FlightStep(s, e, f);
    case Clear(f) => FlightStep(s, e, f);
    case UserLoaded(_) => TokenStep(s, e);
    case UserUnloaded => TokenStep(s, e);
    case InitialLoad(_) => TokenStep(s, e);
  }

  lemma FlightStep(s: State, e: Event, f: nat)
    requires Invariant(s) && Enabled(s, e)
    requires e.UserRead? || e.Renewed? || e.Clear?
    requires f == e.f
    ensures Invariant(Apply(s, e)) && Grows(s.flights, Apply(s, e).flights)
  {
    hide Honest;
    FlightsStep(s, Apply(s, e));
  }

  lemma TokenStep(s: State, e: Event)
    requires Invariant(s) && (e.UserLoaded? || e.UserUnloaded? || e.InitialLoad?)
    ensures Invariant(Apply(s, e)) && Apply(s, e).flights == s.flights
  {
    hide Honest;
    FlightsStep(s, Apply(s, e));
  }

  /** In every interleaving: at most one renewal is under way, each was asked for by a refused request, and
      every request is honest. A request that joined a renewal gets that renewal's result, whenever it
      continues: the result of a landed renewal never changes. */
  lemma {:induction false} EveryRun(s: State, events: seq<Event>)
    requires Invariant(s) && Possible(s, events)
    ensures Invariant(After(s, events)) && Grows(s.flights, After(s, events).flights)
    decreases |events|
  {
    hide Invariant, Enabled, Apply;
    if events != [] {
      StepKeeps(s, events[0]);
      EveryRun(Apply(s, events[0]), events[1..]);
    }
  }

  lemma FromTheStart(events: seq<Event>)
    requires Possible(Start(), events)
    ensures Invariant(After(Start(), events))
  {
    EveryRun(Start(), events);
  }

  /** A renewal starts only after every earlier one has landed. */
  lemma RenewalsNeverOverlap(events: seq<Event>, f: nat, g: nat)
    requires Possible(Start(), events)
    requires var s := After(Start(), events); f < g < |s.flights|
    ensures After(Start(), events).flights[f].Landed?
  {
    hide Honest;
    FromTheStart(events);
  }

  // ---------- The token ----------

  /** Every step that signs a request out, and every renewal that ends without a token, leaves no token. */
  lemma TokenIsDropped(s: State, e: Event)
    requires Enabled(s, e)
    requires e.Answer? || e.Resume? || e.UserRead? || e.Renewed?
    ensures (e.Answer? || e.Resume?) && Apply(s, e).requests[e.r].signOuts > s.requests[e.r].signOuts ==> Apply(s, e).token == None
    ensures (e.UserRead? || e.Renewed?) && Apply(s, e).flights[e.f] == Settled(None) ==> Apply(s, e).token == None
  {
  }

  predicate BringsToken(e: Event) {
    e.UserLoaded? || (e.InitialLoad? && e.stored.Some?) || (e.Renewed? && e.result.Some?)
  }

  /** A dropped token comes back only with a loaded user, a renewal that ends with a token, or the first load of
      the stored user: until then every request that begins is sent without one. */
  lemma {:induction false} NoTokenUntilOneArrives(s: State, events: seq<Event>)
    requires Possible(s, events) && s.token == None
    requires forall i :: 0 <= i < |events| ==> !BringsToken(events[i])
    ensures var t := After(s, events);
            && t.token == None
            && |s.requests| <= |t.requests|
            && (forall r :: 0 <= r < |s.requests| ==> s.requests[r].sends <= t.requests[r].sends)
            && (forall r :: |s.requests| <= r < |t.requests| ==> |t.requests[r].sends| >= 1 && t.requests[r].sends[0] == None)
    decreases |events|
  {
    if events != [] {
      assert !BringsToken(events[0]);
      SendsOnlyGrow(s, events[0]);
      NoTokenUntilOneArrives(Apply(s, events[0]), events[1..]);
    }
  }

  lemma SendsOnlyGrow(s: State, e: Event)
    requires Enabled(s, e)
    ensures var t := Apply(s, e);
            && |s.requests| <= |t.requests|
            && (forall r :: 0 <= r < |s.requests| ==> s.requests[r].sends <= t.requests[r].sends)
            && (forall r :: |s.requests| <= r < |t.requests| ==> t.requests[r].sends == [s.token])
            && (s.token == None && !BringsToken(e) ==> t.token == None)
  {
  }

  // ---------- The token, from the events alone ----------

  function Front(events: seq<Event>): seq<Event>
    requires events != []
  {
    events[..|events| - 1]
  }

  function Last(events: seq<Event>): Event
    requires events != []
  {
    events[|events| - 1]
  }

  predicate Answered(events: seq<Event>, r: nat) {
    events != [] && (Answered(Front(events), r) || (Last(events).Answer? && Last(events).r == r))
  }

  function Landings(events: seq<Event>): nat {
    if events == [] then 0 else Landings(Front(events)) + if Last(events).Clear? then 1 else 0
  }

  function Begins(events: seq<Event>): nat {
    if events == [] then 0 else Begins(Front(events)) + if Last(events).Begin? then 1 else 0
  }

  /** The renewal a request waits for when its first answer is 401: all earlier ones have landed by then. */
  function JoinedBy(events: seq<Event>, r: nat): Option<nat> {
    if events == [] then None
    else if JoinedBy(Front(events), r).Some? then JoinedBy(Front(events), r)
    else if Last(events) == Answer(r, 401) && !Answered(Front(events), r) then Some(Landings(Front(events)))
    else None
  }

  /** What a renewal ended with. */
  function ResultBy(events: seq<Event>, f: nat): Option<string> {
    if events == [] then None
    else match Last(events)
      case Renewed(g, result) => if g == f then result else ResultBy(Front(events), f)
      case UserRead(g, false) => if g == f then None else ResultBy(Front(events), f)
      case _ => ResultBy(Front(events), f)
  }

  /** The token is what the latest of these left: a loaded user, a renewal, the first load when there was none,
      an unloaded user, and a request that signs out: one refused twice, or one whose renewal gave nothing. */
  function TokenBy(events: seq<Event>): Option<string> {
    if events == [] then None
    else
      var before := TokenBy(Front(events));
      match Last(events)
      case UserLoaded(token) => Some(token)
      case UserUnloaded => None
      case InitialLoad(stored) => if before == None then stored else before
      case Renewed(_, result) => result
      case UserRead(_, refreshable) => if refreshable then before else None
      case Answer(r, status) => if status == 401 && Answered(Front(events), r) then None else before
      case Resume(r) =>
        var joined := JoinedBy(Front(events), r);
        if joined.None? || ResultBy(Front(events), joined.value) in {None, Some("")} then None else before
      case _ => before
  }

  /** The state agrees with what the events tell. */
  ghost predicate Told(s: State, events: seq<Event>) {
    && s.token == TokenBy(events)
    && |s.requests| == Begins(events)
    && |s.flights| == Landings(events) + (if s.inFlight.Some? then 1 else 0)
    && (forall r :: 0 <= r < |s.requests| ==> RequestTold(s.requests[r], events, r))
    && (forall r: nat :: r >= |s.requests| ==> !Answered(events, r) && JoinedBy(events, r) == None)
    && (forall f :: 0 <= f < |s.flights| ==> FlightTold(s.flights[f], events, f))
  }

  ghost predicate RequestTold(q: Request, events: seq<Event>, r: nat) {
    && q.joined == JoinedBy(events, r)
    && (q.phase.First? ==> !Answered(events, r))
    && (q.joined.Some? || q.phase.Retry? ==> Answered(events, r))
  }

  ghost predicate FlightTold(f: Flight, events: seq<Event>, i: nat) {
    f.Settled? || f.Landed? ==> f.result == ResultBy(events, i)
  }

  lemma More(events: seq<Event>, e: Event)
    ensures Front(events + [e]) == events && Last(events + [e]) == e
  {
  }

  lemma ToldStep(s: State, events: seq<Event>, e: Event)
    requires Invariant(s) && Told(s, events) && Enabled(s, e)
    ensures Told(Apply(s, e), events + [e])
  {
    hide Honest, Wanted, RequestTold, FlightTold, JoinedBy, Answered, ResultBy, TokenBy;
    More(events, e);
    var t := Apply(s, e);
    forall r | 0 <= r < |t.requests| ensures RequestTold(t.requests[r], events + [e], r) {
      RequestToldStep(s, events, e, r);
    }
    forall f | 0 <= f < |t.flights| ensures FlightTold(t.flights[f], events + [e], f) {
      FlightToldStep(s, events, e, f);
    }
    TokenToldStep(s, events, e);
    assert |t.requests| == Begins(events + [e]);
    forall r: nat | r >= |t.requests| ensures !Answered(events + [e], r) && JoinedBy(events + [e], r) == None {
      assert !Answered(events, r) && JoinedBy(events, r) == None;
      NotAnswered(events, e, r);
    }
    assert |t.flights| == Landings(events + [e]) + (if t.inFlight.Some? then 1 else 0);
  }

  /** An event that does not answer a request tells nothing new about which renewal it joined. */
  lemma NotAnswered(events: seq<Event>, e: Event, r: nat)
    requires !(e.Answer? && e.r == r)
    ensures Answered(events + [e], r) == Answered(events, r) && JoinedBy(events + [e], r) == JoinedBy(events, r)
  {
    More(events, e);
  }

  lemma RequestToldStep(s: State, events: seq<Event>, e: Event, r: nat)
    requires Invariant(s) && Told(s, events) && Enabled(s, e) && r < |Apply(s, e).requests|
    ensures RequestTold(Apply(s, e).requests[r], events + [e], r)
  {
    hide TokenBy, ResultBy, Wanted, FlightTold, JoinedBy, Answered, Landings;
    if r == |s.requests| {
      assert !Answered(events, r) && JoinedBy(events, r) == None;
      NotAnswered(events, e, r);
    } else {
      assert RequestTold(s.requests[r], events, r) && Honest(s.requests[r], s.flights);
      if e.Answer? && e.r == r {
        AnswerTold(s, events, r, e.status);
      } else {
        NotAnswered(events, e, r);
      }
    }
  }

  lemma AnswerTold(s: State, events: seq<Event>, r: nat, status: nat)
    requires Invariant(s) && Told(s, events) && Enabled(s, Answer(r, status))
    ensures RequestTold(Apply(s, Answer(r, status)).requests[r], events + [Answer(r, status)], r)
  {
    hide TokenBy, ResultBy, Wanted, FlightTold;
    More(events, Answer(r, status));
    assert RequestTold(s.requests[r], events, r) && Honest(s.requests[r], s.flights);
  }

  lemma FlightToldStep(s: State, events: seq<Event>, e: Event, f: nat)
    requires Invariant(s) && Told(s, events) && Enabled(s, e) && f < |Apply(s, e).flights|
    ensures FlightTold(Apply(s, e).flights[f], events + [e], f)
  {
    hide Honest, TokenBy, JoinedBy, Answered, Wanted, RequestTold;
    More(events, e);
    assert f < |s.flights| ==> FlightTold(s.flights[f], events, f);
  }

  lemma TokenToldStep(s: State, events: seq<Event>, e: Event)
    requires Invariant(s) && Told(s, events) && Enabled(s, e)
    ensures Apply(s, e).token == TokenBy(events + [e])
  {
    hide Wanted;
    More(events, e);
    match e
    case Answer(r, _) => assert RequestTold(s.requests[r], events, r);
    case Resume(r) =>
      assert RequestTold(s.requests[r], events, r) && Honest(s.requests[r], s.flights);
      var f := s.requests[r].phase.flight;
      assert FlightTold(s.flights[f], events, f);
    case _ =>
  }

  lemma {:induction false} AfterMore(s: State, events: seq<Event>, e: Event)
    requires Possible(s, events + [e])
    ensures Possible(s, events) && Enabled(After(s, events), e)
    ensures After(s, events + [e]) == Apply(After(s, events), e)
    decreases |events|
  {
    hide Apply, Enabled;
    if events == [] {
      assert events + [e] == [e] && [e][1..] == [];
      assert After(Apply(s, e), []) == Apply(s, e);
    } else {
      assert (events + [e])[1..] == events[1..] + [e];
      AfterMore(Apply(s, events[0]), events[1..], e);
    }
  }

  /** After every run the token, every request's renewal and every renewal's result are as the events tell. */
  lemma {:induction false} EveryRunIsTold(events: seq<Event>)
    requires Possible(Start(), events)
    ensures Told(After(Start(), events), events)
    decreases |events|
  {
    hide Told, Invariant;
    if events == [] {
      StartIsTold();
    } else {
      var front, e := Front(events), Last(events);
      assert events == front + [e];
      AfterMore(Start(), front, e);
      EveryRunIsTold(front);
      FromTheStart(front);
      ToldStep(After(Start(), front), front, e);
    }
  }

  lemma StartIsTold()
    ensures Told(Start(), [])
  {
  }

  /** A request that begins is sent with the token the events before it tell, and is sent again, if ever, with
      the result of the renewal that its refusal joined. */
  lemma SendsAreTold(before: seq<Event>, after: seq<Event>)
    requires Possible(Start(), before + [Begin] + after)
    ensures var s := After(Start(), before + [Begin] + after);
            var events, r := before + [Begin] + after, Begins(before);
            && r < |s.requests| && |s.requests[r].sends| >= 1
            && s.requests[r].sends[0] == TokenBy(before)
            && (|s.requests[r].sends| >= 2 ==>
                  JoinedBy(events, r).Some? && s.requests[r].sends[1] == ResultBy(events, JoinedBy(events, r).value))
    decreases |after|
  {
    hide Invariant, Told;
    if after == [] {
      assert before + [Begin] + after == before + [Begin];
      AfterMore(Start(), before, Begin);
      EveryRunIsTold(before);
      BeginsWithTold(After(Start(), before), before);
    } else {
      var front, e := Front(after), Last(after);
      assert before + [Begin] + after == before + [Begin] + front + [e];
      AfterMore(Start(), before + [Begin] + front, e);
      SendsAreTold(before, front);
      SendsOnlyGrow(After(Start(), before + [Begin] + front), e);
    }
    EveryRunIsTold(before + [Begin] + after);
    FromTheStart(before + [Begin] + after);
    if |After(Start(), before + [Begin] + after).requests[Begins(before)].sends| >= 2 {
      SecondSend(After(Start(), before + [Begin] + after), before + [Begin] + after, Begins(before));
    }
  }

  lemma BeginsWithTold(s: State, events: seq<Event>)
    requires Told(s, events)
    ensures var t := Apply(s, Begin);
            |t.requests| == Begins(events) + 1 && t.requests[Begins(events)].sends == [TokenBy(events)]
  {
  }

  lemma SecondSend(s: State, events: seq<Event>, r: nat)
    requires Invariant(s) && Told(s, events) && r < |s.requests| && |s.requests[r].sends| >= 2
    ensures JoinedBy(events, r).Some? && s.requests[r].sends[1] == ResultBy(events, JoinedBy(events, r).value)
  {
    var q := s.requests[r];
    assert Honest(q, s.flights) && RequestTold(q, events, r);
    assert FlightTold(s.flights[q.joined.value], events, q.joined.value);
  }
}
