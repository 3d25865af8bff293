/** The reconciler of the identity message texts: each text that differs is written, in order. */
module MessageTexts {

  /** The texts of one message by field name; a field the server leaves out reads as empty. */
  type Message = map<string, string>

  datatype Request = Request(route: string, body: Message)

  const ROUTE_PREFIX := "/admin/v1/text/message/"

  function Route(kind: string, language: string): string {
    ROUTE_PREFIX + kind + "/" + language
  }

  /** One request for each message of a language file. */
  function Requests(language: string, kinds: seq<string>, texts: map<string, Message>): seq<Request>
    requires forall i :: 0 <= i < |kinds| ==> kinds[i] in texts
  {
    seq(|kinds|, i requires 0 <= i < |kinds| => Request(Route(kinds[i], language), texts[kinds[i]]))
  }

  function FieldOf(m: Message, name: string): string {
    if name in m then m[name] else ""
  }

  predicate IsCurrent(body: Message, custom: Message) {
    forall name :: name in body ==> body[name] == FieldOf(custom, name)
  }

  type Server = map<string, Message>

  /** The custom text at a route, as read: empty texts are left out. */
  function Read(s: Server, route: string): Message {
    if route !in s then map[] else map name | name in s[route] && s[route][name] != "" :: s[route][name]
  }

  /** `PUT` sets the fields of the body and keeps any other. */
  function Put(s: Server, r: Request): Server {
    s[r.route := (if r.route in s then s[r.route] else map[]) + r.body]
  }

  /** What a run leaves: the server, how many texts it wrote and how many it found current, and whether it ended. */
  datatype End = End(server: Server, written: nat, upToDate: nat, done: bool)

  /** A run that stops after `budget` writes, from request `n` on. */
  function Exec(s: Server, requests: seq<Request>, n: nat, written: nat, upToDate: nat, budget: nat): End
    requires n <= |requests|
    decreases |requests| - n
  {
    if n == |requests| then End(s, written, upToDate, true)
    else if IsCurrent(requests[n].body, Read(s, requests[n].route)) then
      Exec(s, requests, n + 1, written, upToDate + 1, budget)
    else if budget == 0 then End(s, written, upToDate, false)
    else Exec(Put(s, requests[n]), requests, n + 1, written + 1, upToDate, budget - 1)
  }

  function Reconcile(s: Server, requests: seq<Request>, budget: nat): End {
    Exec(s, requests, 0, 0, 0, budget)
  }

  class Executor {
    var server: Server

    constructor (s: Server)
      ensures server == s
    {
      server := s;
    }

    method EnsureMessageTexts(requests: seq<Request>, allowed: nat) returns (written: nat, upToDate: nat, done: bool)
      modifies this
      ensures End(server, written, upToDate, done) == Reconcile(old(server), requests, allowed)
    {
      hide IsCurrent, Read, Put;
      written, upToDate := 0, 0;
      var n, budget := 0, allowed;
      while n < |requests|
        invariant 0 <= n <= |requests|
        invariant Reconcile(old(server), requests, allowed) == Exec(server, requests, n, written, upToDate, budget)
      {
        var r := requests[n];
        if IsCurrent(r.body, Read(server, r.route)) {
          upToDate := upToDate + 1;
          n := n + 1;
          continue;
        }
        if budget == 0 {
          return written, upToDate, false;
        }
        server := Put(server, r);
        written, n, budget := written + 1, n + 1, budget - 1;
      }
      return written, upToDate, true;
    }
  }

  // ---------- Convergence ----------

  ghost predicate DistinctRoutes(requests: seq<Request>) {
    forall i, j :: 0 <= i < j < |requests| ==> requests[i].route != requests[j].route
  }

  /** One request for each message, at its own route and with its text. Different messages of one language have
      different routes, so no write undoes another. */
  lemma RequestsAreDistinct(language: string, kinds: seq<string>, texts: map<string, Message>)
    requires forall i :: 0 <= i < |kinds| ==> kinds[i] in texts
    requires forall i, j :: 0 <= i < j < |kinds| ==> kinds[i] != kinds[j]
    ensures DistinctRoutes(Requests(language, kinds, texts))
    ensures |Requests(language, kinds, texts)| == |kinds|
    ensures forall i :: 0 <= i < |kinds| ==> var r := Requests(language, kinds, texts)[i];
              r.route == "/admin/v1/text/message/" + kinds[i] + "/" + language && r.body == texts[kinds[i]]
  {
    forall i, j | 0 <= i < j < |kinds| ensures Route(kinds[i], language) != Route(kinds[j], language) {
      RouteInjective(kinds[i], kinds[j], language);
    }
  }

  lemma RouteInjective(a: string, b: string, language: string)
    ensures Route(a, language) == Route(b, language) ==> a == b
  {
    var p := |ROUTE_PREFIX|;
    assert Route(a, language)[p..p + |a|] == a;
    assert |a| == |b| ==> Route(b, language)[p..p + |b|] == b;
  }

  /** The server has every wanted text at the request's route; one wanted empty may be absent. */
  ghost predicate Holds(s: Server, r: Request) {
    forall name :: name in r.body ==>
      if r.body[name] == "" then r.route in s && name in s[r.route] ==> s[r.route][name] == ""
      else r.route in s && name in s[r.route] && s[r.route][name] == r.body[name]
  }

  lemma CurrentIffHolds(s: Server, r: Request)
    ensures IsCurrent(r.body, Read(s, r.route)) <==> Holds(s, r)
  {
    var custom := Read(s, r.route);
    forall name | name in r.body
      ensures r.body[name] == FieldOf(custom, name) <==>
              if r.body[name] == "" then r.route in s && name in s[r.route] ==> s[r.route][name] == ""
              else r.route in s && name in s[r.route] && s[r.route][name] == r.body[name]
    {
    }
  }

  lemma PutHolds(s: Server, r: Request)
    ensures Holds(Put(s, r), r)
  {
  }

  lemma PutElsewhere(s: Server, r: Request, route: string)
    requires route != r.route
    ensures Read(Put(s, r), route) == Read(s, route)
  {
  }

  /** Each request a run has passed holds, a text that held before still holds, other routes are untouched. */
  lemma {:induction false} ExecReaches(s: Server, requests: seq<Request>, n: nat, written: nat, upToDate: nat, budget: nat)
    requires n <= |requests| && DistinctRoutes(requests)
    requires forall i :: 0 <= i < n ==> Holds(s, requests[i])
    ensures var e := Exec(s, requests, n, written, upToDate, budget);
            && (e.done ==> forall i :: 0 <= i < |requests| ==> Holds(e.server, requests[i]))
            && (forall i :: 0 <= i < |requests| && Holds(s, requests[i]) ==> Holds(e.server, requests[i]))
            && (forall route :: (forall i :: 0 <= i < |requests| ==> requests[i].route != route) ==>
                  Read(e.server, route) == Read(s, route))
            && (e.done ==> e.written + e.upToDate == written + upToDate + |requests| - n)
    decreases |requests| - n
  {
    hide IsCurrent, Read, Put, Holds;
    if n < |requests| {
      var r := requests[n];
      CurrentIffHolds(s, r);
      if Holds(s, r) {
        ExecReaches(s, requests, n + 1, written, upToDate + 1, budget);
      } else if budget > 0 {
        var t := Put(s, r);
        PutHolds(s, r);
        forall route | route != r.route ensures Read(t, route) == Read(s, route) {
          PutElsewhere(s, r, route);
        }
        forall i | 0 <= i < |requests| && requests[i].route != r.route && Holds(s, requests[i]) ensures Holds(t, requests[i]) {
          CurrentIffHolds(s, requests[i]);
          CurrentIffHolds(t, requests[i]);
          PutElsewhere(s, r, requests[i].route);
        }
        ExecReaches(t, requests, n + 1, written + 1, upToDate, budget - 1);
      }
    }
  }

  /** How many requests from `n` on do not hold. */
  ghost function Missing(s: Server, requests: seq<Request>, n: nat): nat
    requires n <= |requests|
    decreases |requests| - n
  {
    if n == |requests| then 0 else (if Holds(s, requests[n]) then 0 else 1) + Missing(s, requests, n + 1)
  }

  /** A run that completes writes each text that was not as wanted, and no other. */
  lemma {:induction false} WritesWhatIsMissing(s: Server, requests: seq<Request>, n: nat, written: nat, upToDate: nat, budget: nat)
    requires n <= |requests| && DistinctRoutes(requests)
    ensures var e := Exec(s, requests, n, written, upToDate, budget);
            e.done ==> e.written == written + Missing(s, requests, n)
    decreases |requests| - n
  {
    hide IsCurrent, Read, Put, Holds;
    if n < |requests| {
      var r := requests[n];
      CurrentIffHolds(s, r);
      if Holds(s, r) {
        WritesWhatIsMissing(s, requests, n + 1, written, upToDate + 1, budget);
      } else if budget > 0 {
        MissingElsewhere(s, r, requests, n + 1);
        WritesWhatIsMissing(Put(s, r), requests, n + 1, written + 1, upToDate, budget - 1);
      }
    }
  }

  lemma {:induction false} MissingElsewhere(s: Server, r: Request, requests: seq<Request>, n: nat)
    requires n <= |requests| && forall i :: n <= i < |requests| ==> requests[i].route != r.route
    ensures Missing(Put(s, r), requests, n) == Missing(s, requests, n)
    decreases |requests| - n
  {
    hide IsCurrent, Read, Put, Holds;
    if n < |requests| {
      var q := requests[n];
      PutElsewhere(s, r, q.route);
      CurrentIffHolds(s, q);
      CurrentIffHolds(Put(s, r), q);
      MissingElsewhere(s, r, requests, n + 1);
    }
  }

  function After(s: Server, requests: seq<Request>, budgets: seq<nat>): Server
    decreases |budgets|
  {
    if budgets == [] then s else After(Reconcile(s, requests, budgets[0]).server, requests, budgets[1..])
  }

  /** From any server state and after any interrupted runs, a run that completes leaves every text as wanted,
      and a further run writes nothing. Progress is kept: a text once as wanted stays so through every run. */
  lemma {:induction false} TextsConverge(s: Server, requests: seq<Request>, budgets: seq<nat>, budget: nat, next: nat)
    requires DistinctRoutes(requests)
    ensures var e := Reconcile(After(s, requests, budgets), requests, budget);
            && (forall i :: 0 <= i < |requests| && Holds(s, requests[i]) ==> Holds(e.server, requests[i]))
            && (e.done ==> forall i :: 0 <= i < |requests| ==> Holds(e.server, requests[i]))
            && (e.done ==> Reconcile(e.server, requests, next) == End(e.server, 0, |requests|, true))
            && (budget >= |requests| ==> e.done)
    decreases |budgets|
  {
    hide Holds, Exec;
    if budgets == [] {
      ExecReaches(s, requests, 0, 0, 0, budget);
      EnoughBudget(s, requests, 0, 0, 0, budget);
      var e := Reconcile(s, requests, budget);
      if e.done {
        NothingToWrite(e.server, requests, 0, 0, next);
      }
    } else {
      var t := Reconcile(s, requests, budgets[0]).server;
      ExecReaches(s, requests, 0, 0, 0, budgets[0]);
      TextsConverge(t, requests, budgets[1..], budget, next);
    }
  }

  lemma {:induction false} EnoughBudget(s: Server, requests: seq<Request>, n: nat, written: nat, upToDate: nat, budget: nat)
    requires n <= |requests|
    ensures budget >= |requests| - n ==> Exec(s, requests, n, written, upToDate, budget).done
    decreases |requests| - n
  {
    hide IsCurrent, Read, Put;
    if n < |requests| {
      EnoughBudget(s, requests, n + 1, written, upToDate + 1, budget);
      if budget > 0 {
        EnoughBudget(Put(s, requests[n]), requests, n + 1, written + 1, upToDate, budget - 1);
      }
    }
  }

  lemma {:induction false} NothingToWrite(s: Server, requests: seq<Request>, n: nat, upToDate: nat, budget: nat)
    requires n <= |requests|
    requires forall i :: 0 <= i < |requests| ==> Holds(s, requests[i])
    ensures Exec(s, requests, n, 0, upToDate, budget) == End(s, 0, upToDate + |requests| - n, true)
    decreases |requests| - n
  {
    hide IsCurrent, Read, Holds;
    if n < |requests| {
      assert Holds(s, requests[n]);
      CurrentIffHolds(s, requests[n]);
      NothingToWrite(s, requests, n + 1, upToDate + 1, budget);
    }
  }
}
