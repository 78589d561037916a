/**
 * The browser's request function: `fetchJson` (src/api.ts) with its retries, its waits for a running request and its
 * idempotency key, over `fetchThroughStartup` (src/lib/systemStarting.ts). The network, the CSRF endpoint and the key
 * store (src/lib/submissionKey.ts) answer as they please.
 */
module FetchJson {
  import opened Seqs

  const IN_FLIGHT_MAX_WAITS: nat := 15
  const STARTING_MAX_WAITS: nat := 120

  datatype Code = InFlight | PasswordReset | OtherCode

  /** The body of an answer; `csrf`: its message or error names the CSRF token. */
  datatype Body =
    | ReadAborted | Unparsable | JsonNull
    | Fields(code: Code, csrf: bool, replay: bool, csrfToken: Option<string>, token: Option<string>)

  /** What one transmission gets; `Starting` is the 503 of a server that is updating, with whether its wait is aborted. */
  datatype Reply = Failure | Abort | Starting(abortedWaiting: bool) | Answer(status: nat, body: Body)

  /** A call: `window` is false outside a browser, `issuesTokens` for the session endpoints. */
  datatype Call = Call(mutation: bool, isPublic: bool, issuesTokens: bool, acceptReplay: bool, window: bool)

  datatype Outcome =
    | Done | Aborted | Unconfirmed | NetworkDown | Protocol(status: nat) | StillRunning | Replayed | Failed(status: nat)
    | Crashed

  /** What a call does: the request of a round, each transmission with its reply, and the effects. */
  datatype Event =
    | Asked(key: Option<string>, csrf: Option<string>, auth: Option<string>)
    | Sent(sentKey: Option<string>, reply: Reply)
    | Released(released: string) | Held(held: string)
    | LoggedOut | ResetRequired | ReplayShown

  /** The answers to come: of the network, of the CSRF endpoint and of the key store. */
  datatype World = World(replies: nat -> Reply, refreshed: nat -> Option<string>, keys: nat -> string)

  /** The tokens in memory, and how far each list of answers is used up. */
  datatype Session = Session(csrf: Option<string>, auth: Option<string>, sends: nat, refreshes: nat, asks: nat)

  datatype Run = Run(session: Session, trace: seq<Event>, outcome: Outcome)

  const EMPTY := Fields(OtherCode, false, false, None, None)

  predicate Settles(status: nat) { status !in {502, 503, 504} }

  predicate IsOk(status: nat) { 200 <= status < 300 }

  predicate IsInFlight(status: nat, body: Body) { status == 409 && body.Fields? && body.code == InFlight }

  // ---------------------------------------------------------------------------------------------
  // One transmission, through the start of the server

  datatype Transmission = Transmission(reply: Reply, trace: seq<Event>)

  function Transmit(w: World, from: nat, key: Option<string>, waits: nat): (t: Transmission)
    ensures |t.trace| >= 1 && !t.reply.Starting?
    decreases STARTING_MAX_WAITS - waits
  {
    var r := w.replies(from);
    if !r.Starting? then Transmission(r, [Sent(key, r)])
    else if waits >= STARTING_MAX_WAITS then Transmission(Answer(503, EMPTY), [Sent(key, r)])
    else if r.abortedWaiting then Transmission(Abort, [Sent(key, r)])
    else
      var rest := Transmit(w, from + 1, key, waits + 1);
      rest.(trace := [Sent(key, r)] + rest.trace)
  }

  // ---------------------------------------------------------------------------------------------
  // One round

  /** `refreshActiveCsrfToken`: a new token is kept, a failure leaves what there was. */
  function Refreshed(w: World, s: Session): Session {
    s.(refreshes := s.refreshes + 1, csrf := if w.refreshed(s.refreshes).Some? then w.refreshed(s.refreshes) else s.csrf)
  }

  predicate NeedsCsrf(s: Session, c: Call) { c.mutation && s.csrf.None? && !c.isPublic && c.window }

  predicate IsKeyed(c: Call) { c.mutation && !c.isPublic }

  /** The key of the round: the one in the headers, otherwise the store's. */
  function RoundKey(w: World, s: Session, c: Call, header: Option<string>): Option<string> {
    if !IsKeyed(c) then None else if header.Some? then header else Some(w.keys(s.asks))
  }

  /** `settleKey`. */
  function Settle(key: Option<string>, status: nat): seq<Event> {
    if key.Some? && Settles(status) then [Released(key.value)] else []
  }

  /** What a round makes of its reply: another round, or the end. */
  datatype Verdict =
    | Again(session: Session, retries: nat, waits: nat)
    | End(session: Session, effects: seq<Event>, outcome: Outcome)

  predicate LosesSession(c: Call, status: nat) { status == 401 && c.window && !c.isPublic }

  predicate IsCsrfError(c: Call, status: nat, body: Body) { status == 403 && body.Fields? && body.csrf && c.window }

  function OnError(w: World, s: Session, c: Call, key: Option<string>, status: nat, body: Body, retries: nat, waits: nat): Verdict {
    if body.ReadAborted? then End(s, [], Aborted)
    else if body.Unparsable? then End(s, Settle(key, status), Protocol(status))
    else if key.Some? && IsInFlight(status, body) then
      if waits < IN_FLIGHT_MAX_WAITS then Again(s, retries, waits + 1) else End(s, [], StillRunning)
    else
      var out := if LosesSession(c, status) then s.(csrf := None, auth := None) else s;
      var shown := if LosesSession(c, status) then [LoggedOut] else [];
      if body.JsonNull? then End(out, shown + (if status == 403 then [] else Settle(key, status)), Crashed)
      else if IsCsrfError(c, status, body) && retries > 0 && w.refreshed(out.refreshes).Some? then
        Again(Refreshed(w, out), retries - 1, waits)
      else
        var after := if IsCsrfError(c, status, body) && retries > 0 then Refreshed(w, out) else out;
        var reset := if status == 403 && body.code == PasswordReset && c.window then [ResetRequired] else [];
        End(after, shown + Settle(key, status) + reset, Failed(status))
  }

  function Tokens(s: Session, c: Call, body: Body): Session {
    if !c.issuesTokens || !body.Fields? then s
    else s.(csrf := if body.csrfToken.Some? then body.csrfToken else s.csrf, auth := if body.token.Some? then body.token else s.auth)
  }

  function OnSuccess(s: Session, c: Call, key: Option<string>, status: nat, body: Body): Verdict {
    var read := if status == 204 then EMPTY else body;
    if read.ReadAborted? then End(s, [], Aborted)
    else if read.Unparsable? then End(s, Settle(key, status), Protocol(status))
    else if c.mutation && read.Fields? && read.replay then
      var effects := (if key.Some? then [Held(key.value)] else []) + (if c.window then [ReplayShown] else []);
      if c.acceptReplay then End(Tokens(s, c, read), effects, Done) else End(s, effects, Replayed)
    else End(Tokens(s, c, read), Settle(key, status), Done)
  }

  function OnReply(w: World, s: Session, c: Call, key: Option<string>, reply: Reply, retries: nat, waits: nat): Verdict
    requires !reply.Starting?
  {
    match reply
    case Abort => End(s, [], Aborted)
    case Failure =>
      if c.mutation then End(s, [], Unconfirmed)
      else if retries > 0 then Again(s, retries - 1, waits) else End(s, [], NetworkDown)
    case Answer(status, body) =>
      if IsOk(status) then OnSuccess(s, c, key, status, body) else OnError(w, s, c, key, status, body, retries, waits)
  }

  /** The request of a round and its transmissions: `session` is what they leave. */
  datatype Request = Request(key: Option<string>, trace: seq<Event>, reply: Reply, session: Session)

  function SendRequest(w: World, s: Session, c: Call, header: Option<string>): (r: Request)
    ensures !r.reply.Starting?
  {
    var s1 := if NeedsCsrf(s, c) then Refreshed(w, s) else s;
    var key := RoundKey(w, s1, c, header);
    var t := Transmit(w, s1.sends, key, 0);
    Request(key, [Asked(key, s1.csrf, s1.auth)] + t.trace, t.reply, s1.(asks := s1.asks + 1, sends := s1.sends + |t.trace|))
  }

  function Judge(w: World, s: Session, c: Call, header: Option<string>, retries: nat, waits: nat): Verdict {
    var r := SendRequest(w, s, c, header);
    OnReply(w, r.session, c, r.key, r.reply, retries, waits)
  }

  // ---------------------------------------------------------------------------------------------
  // The recursion

  /** The rounds that can still follow. */
  function Left(retries: nat, waits: nat): nat {
    retries + (if waits < IN_FLIGHT_MAX_WAITS then IN_FLIGHT_MAX_WAITS - waits else 0)
  }

  lemma {:induction false} AgainIsFewer(w: World, s: Session, c: Call, header: Option<string>, retries: nat, waits: nat)
    ensures var v := Judge(w, s, c, header, retries, waits);
            v.Again? ==> Left(v.retries, v.waits) == Left(retries, waits) - 1
  {
    hide SendRequest;
  }

  /** `sameKeyOptions`: a keyed call passes its key on. */
  function SameKey(key: Option<string>, header: Option<string>): Option<string> { if key.Some? then key else header }

  function Fetch(w: World, s: Session, c: Call, header: Option<string>, retries: nat, waits: nat): (run: Run)
    decreases Left(retries, waits)
  {
    var r := SendRequest(w, s, c, header);
    match Judge(w, s, c, header, retries, waits)
    case End(session, effects, outcome) => Run(session, r.trace + effects, outcome)
    case Again(session, retries', waits') =>
      AgainIsFewer(w, s, c, header, retries, waits);
      var rest := Fetch(w, session, c, SameKey(r.key, header), retries', waits');
      rest.(trace := r.trace + rest.trace)
  }

  /** The module's tokens, with the log of what the calls did. */
  class ApiClient {
    const world: World
    var csrf: Option<string>
    var auth: Option<string>
    var sends: nat
    var refreshes: nat
    var asks: nat
    var log: seq<Event>

    function Value(): Session
      reads this
    {
      Session(csrf, auth, sends, refreshes, asks)
    }

    constructor (w: World)
      ensures world == w && Value() == Session(None, None, 0, 0, 0) && log == []
    {
      world := w;
      csrf, auth, log := None, None, [];
      sends, refreshes, asks := 0, 0, 0;
    }

    method RefreshCsrf() returns (token: Option<string>)
      modifies this`csrf, this`refreshes
      ensures Value() == Refreshed(world, old(Value())) && token == world.refreshed(old(refreshes))
    {
      token := world.refreshed(refreshes);
      refreshes := refreshes + 1;
      if token.Some? {
        csrf := token;
      }
    }

    /** The loop of `fetchThroughStartup`. */
    method SendThroughStartup(key: Option<string>) returns (reply: Reply)
      modifies this`sends, this`log
      ensures var t := Transmit(world, old(sends), key, 0);
              reply == t.reply && log == old(log) + t.trace && sends == old(sends) + |t.trace|
    {
      var waits := 0;
      ghost var whole := Transmit(world, sends, key, 0);
      while true
        invariant waits <= STARTING_MAX_WAITS
        invariant whole.reply == Transmit(world, sends, key, waits).reply
        invariant log + Transmit(world, sends, key, waits).trace == old(log) + whole.trace
        invariant sends + |Transmit(world, sends, key, waits).trace| == old(sends) + |whole.trace|
        decreases STARTING_MAX_WAITS - waits
      {
        var r := world.replies(sends);
        log, sends := log + [Sent(key, r)], sends + 1;
        if !r.Starting? {
          return r;
        }
        if waits >= STARTING_MAX_WAITS {
          return Answer(503, EMPTY);
        }
        if r.abortedWaiting {
          return Abort;
        }
        waits := waits + 1;
      }
    }

    method SettleKey(key: Option<string>, status: nat)
      modifies this`log
      ensures log == old(log) + Settle(key, status)
    {
      if key.Some? && Settles(status) {
        log := log + [Released(key.value)];
      }
    }

    method Send(c: Call, header: Option<string>) returns (key: Option<string>, reply: Reply)
      modifies this
      ensures var r := SendRequest(world, old(Value()), c, header);
              Value() == r.session && log == old(log) + r.trace && key == r.key && reply == r.reply
    {
      hide Transmit;
      if NeedsCsrf(Value(), c) {
        var refreshed := RefreshCsrf();
      }
      key := RoundKey(world, Value(), c, header);
      log, asks := log + [Asked(key, csrf, auth)], asks + 1;
      reply := SendThroughStartup(key);
    }

    /** One call, with the recursion of the source. */
    method FetchJson(c: Call, header: Option<string>, retries: nat, waits: nat) returns (outcome: Outcome)
      modifies this
      ensures var run := Fetch(world, old(Value()), c, header, retries, waits);
              Value() == run.session && log == old(log) + run.trace && outcome == run.outcome
      decreases Left(retries, waits)
    {
      hide SendRequest, OnSuccess, OnError, Left;
      var key, reply := Send(c, header);
      AgainIsFewer(world, old(Value()), c, header, retries, waits);
      match reply
      case Abort =>
        return Aborted;
      case Failure =>
        if retries > 0 && !c.mutation {
          outcome := FetchJson(c, SameKey(key, header), retries - 1, waits);
          return;
        }
        return if c.mutation then Unconfirmed else NetworkDown;
      case Answer(status, body) =>
        if IsOk(status) {
          outcome := ReadSuccess(c, key, status, body);
        } else {
          outcome := ReadError(c, key, status, body, header, retries, waits);
        }
    }

    method ReadSuccess(c: Call, key: Option<string>, status: nat, body: Body) returns (outcome: Outcome)
      modifies this`csrf, this`auth, this`log
      ensures var v := OnSuccess(old(Value()), c, key, status, body);
              v.End? && Value() == v.session && log == old(log) + v.effects && outcome == v.outcome
    {
      var read := if status == 204 then EMPTY else body;
      if read.ReadAborted? {
        return Aborted;
      }
      if read.Unparsable? {
        SettleKey(key, status);
        return Protocol(status);
      }
      if c.mutation && read.Fields? && read.replay {
        if key.Some? {
          log := log + [Held(key.value)];
        }
        if c.window {
          log := log + [ReplayShown];
        }
        if !c.acceptReplay {
          return Replayed;
        }
      } else {
        SettleKey(key, status);
      }
      if c.issuesTokens && read.Fields? {
        if read.csrfToken.Some? {
          csrf := read.csrfToken;
        }
        if read.token.Some? {
          auth := read.token;
        }
      }
      outcome := Done;
    }

    method ReadError(c: Call, key: Option<string>, status: nat, body: Body, header: Option<string>, retries: nat, waits: nat)
      returns (outcome: Outcome)
      modifies this
      ensures match OnError(world, old(Value()), c, key, status, body, retries, waits)
              case End(session, effects, o) => Value() == session && log == old(log) + effects && outcome == o
              case Again(session, retries', waits') =>
                var rest := Fetch(world, session, c, SameKey(key, header), retries', waits');
                Value() == rest.session && log == old(log) + rest.trace && outcome == rest.outcome
      decreases Left(retries, waits), 0
    {
      hide Fetch;
      if body.ReadAborted? {
        return Aborted;
      }
      if body.Unparsable? {
        SettleKey(key, status);
        return Protocol(status);
      }
      if key.Some? && IsInFlight(status, body) {
        if waits < IN_FLIGHT_MAX_WAITS {
          outcome := FetchJson(c, SameKey(key, header), retries, waits + 1);
          return;
        }
        return StillRunning;
      }
      if LosesSession(c, status) {
        csrf, auth := None, None;
        log := log + [LoggedOut];
      }
      if body.JsonNull? {
        if status != 403 {
          SettleKey(key, status);
        }
        return Crashed;
      }
      if IsCsrfError(c, status, body) && retries > 0 {
        var token := RefreshCsrf();
        if token.Some? {
          outcome := FetchJson(c, SameKey(key, header), retries - 1, waits);
          return;
        }
      }
      SettleKey(key, status);
      if status == 403 && body.code == PasswordReset && c.window {
        log := log + [ResetRequired];
      }
      outcome := Failed(status);
    }
  }
}
