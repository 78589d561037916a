/** What every call of `fetchJson` does on the network and to its idempotency key, whatever the answers are. */
module FetchTheorems {
  import opened FetchJson
  import opened Seqs

  function Count(trace: seq<Event>, p: Event -> bool): nat { |Filter(trace, p)| }

  predicate IsAsk(e: Event) { e.Asked? }

  predicate IsSend(e: Event) { e.Sent? }

  predicate IsKeyEvent(e: Event) { e.Released? || e.Held? }

  lemma {:induction false} CountAppend(a: seq<Event>, b: seq<Event>, p: Event -> bool)
    ensures Count(a + b, p) == Count(a, p) + Count(b, p)
  {
    FilterAppend(a, b, p);
  }

  // ---------------------------------------------------------------------------------------------
  // One round

  /** A round asks once, then transmits the same request, at most 121 times; only its last reply is final. */
  ghost predicate IsRound(trace: seq<Event>, key: Option<string>, reply: Reply) {
    && 2 <= |trace| <= STARTING_MAX_WAITS + 2 && trace[0].Asked? && trace[0].key == key
    && (forall i :: 1 <= i < |trace| ==> trace[i].Sent? && trace[i].sentKey == key)
    && (forall i :: 1 <= i < |trace| - 1 ==> trace[i].reply.Starting?)
    && (trace[|trace| - 1].reply == reply || trace[|trace| - 1].reply.Starting?)
    && (trace[|trace| - 1].reply.Starting? ==> reply == Abort || reply == Answer(503, EMPTY))
  }

  /** The transmissions of one request, after `waits` waits for the server to start. */
  ghost predicate AreSends(t: Transmission, key: Option<string>, waits: nat) {
    && 1 <= |t.trace| <= STARTING_MAX_WAITS - waits + 1
    && (forall i :: 0 <= i < |t.trace| ==> t.trace[i].Sent? && t.trace[i].sentKey == key)
    && (forall i :: 0 <= i < |t.trace| - 1 ==> t.trace[i].reply.Starting?)
    && (t.trace[|t.trace| - 1].reply == t.reply || t.trace[|t.trace| - 1].reply.Starting?)
    && (t.trace[|t.trace| - 1].reply.Starting? ==> t.reply == Abort || t.reply == Answer(503, EMPTY))
  }

  lemma {:induction false} TransmitShape(w: World, from: nat, key: Option<string>, waits: nat)
    requires waits <= STARTING_MAX_WAITS
    ensures AreSends(Transmit(w, from, key, waits), key, waits)
    decreases STARTING_MAX_WAITS - waits
  {
    var r := w.replies(from);
    if r.Starting? && waits < STARTING_MAX_WAITS && !r.abortedWaiting {
      TransmitShape(w, from + 1, key, waits + 1);
      SendMore(Sent(key, r), Transmit(w, from + 1, key, waits + 1), key, waits);
      hide AreSends;
    }
  }

  lemma {:induction false} SendMore(sent: Event, t: Transmission, key: Option<string>, waits: nat)
    requires AreSends(t, key, waits + 1) && sent.Sent? && sent.sentKey == key && sent.reply.Starting?
    ensures AreSends(t.(trace := [sent] + t.trace), key, waits)
  {
    var all := [sent] + t.trace;
    assert all[|all| - 1] == t.trace[|t.trace| - 1];
  }

  lemma {:induction false} AskedFirst(ask: Event, t: Transmission, key: Option<string>)
    requires AreSends(t, key, 0) && ask.Asked? && ask.key == key
    ensures IsRound([ask] + t.trace, key, t.reply)
  {
  }

  lemma {:induction false} RequestShape(w: World, s: Session, c: Call, header: Option<string>)
    ensures var r := SendRequest(w, s, c, header);
            && IsRound(r.trace, r.key, r.reply)
            && (r.key.Some? <==> IsKeyed(c)) && (r.key.Some? && header.Some? ==> r.key == header)
  {
    hide Transmit, Refreshed, NeedsCsrf, IsRound, AreSends;
    var s1 := if NeedsCsrf(s, c) then Refreshed(w, s) else s;
    var key := RoundKey(w, s1, c, header);
    TransmitShape(w, s1.sends, key, 0);
    AskedFirst(Asked(key, s1.csrf, s1.auth), Transmit(w, s1.sends, key, 0), key);
  }

  lemma {:induction false} RoundCounts(trace: seq<Event>, key: Option<string>, reply: Reply)
    requires IsRound(trace, key, reply)
    ensures Count(trace, IsAsk) == 1 && Count(trace, IsSend) == |trace| - 1 <= STARTING_MAX_WAITS + 1
    ensures forall i :: 0 <= i < |trace| ==> !IsKeyEvent(trace[i])
  {
    assert trace == trace[..1] + trace[1..];
    CountAppend(trace[..1], trace[1..], IsAsk);
    CountAppend(trace[..1], trace[1..], IsSend);
    FilterAll(trace[..1], IsAsk);
    FilterNone(trace[1..], IsAsk);
    FilterNone(trace[..1], IsSend);
    FilterAll(trace[1..], IsSend);
  }

  /** What ends a call: at most one key event, for its key, and no request. */
  ghost predicate AreEffects(effects: seq<Event>, key: Option<string>) {
    && (forall i :: 0 <= i < |effects| ==> !IsAsk(effects[i]) && !IsSend(effects[i]))
    && (forall i :: 0 <= i < |effects| && IsKeyEvent(effects[i]) ==>
          key.Some? && (effects[i] == Released(key.value) || effects[i] == Held(key.value)))
    && (forall i, j :: 0 <= i < j < |effects| && IsKeyEvent(effects[i]) ==> !IsKeyEvent(effects[j]))
  }

  /** The last reply settles the key: a definite answer of the application that could be read. */
  predicate Frees(c: Call, reply: Reply) {
    && reply.Answer? && reply.status != 502 && reply.status != 503 && reply.status != 504
    && if IsOk(reply.status) then
         reply.status == 204 || (!reply.body.ReadAborted? && !(reply.body.Fields? && reply.body.replay))
       else
         && !reply.body.ReadAborted? && !IsInFlight(reply.status, reply.body)
         && !(reply.status == 403 && reply.body.JsonNull?)
  }

  /** The last reply is the notice that the write was registered before. */
  predicate IsReplay(reply: Reply) {
    reply.Answer? && IsOk(reply.status) && reply.status != 204 && reply.body.Fields? && reply.body.replay
  }

  /** The effects of an end are those of its reply. */
  ghost predicate Fits(c: Call, key: Option<string>, reply: Reply, effects: seq<Event>) {
    && AreEffects(effects, key)
    && (key.Some? ==> (Released(key.value) in effects <==> Frees(c, reply)))
    && (key.Some? ==> (Held(key.value) in effects <==> IsReplay(reply)))
  }

  lemma {:induction false} SuccessFits(s: Session, c: Call, key: Option<string>, status: nat, body: Body)
    requires IsOk(status) && (key.Some? <==> IsKeyed(c))
    ensures var v := OnSuccess(s, c, key, status, body);
            v.End? && Fits(c, key, Answer(status, body), v.effects)
  {
    hide Tokens;
  }

  lemma {:induction false} ErrorFits(w: World, s: Session, c: Call, key: Option<string>, status: nat, body: Body,
                                     retries: nat, waits: nat)
    requires !IsOk(status) && (key.Some? <==> IsKeyed(c))
    ensures var v := OnError(w, s, c, key, status, body, retries, waits);
            v.End? ==> Fits(c, key, Answer(status, body), v.effects)
  {
    if OnError(w, s, c, key, status, body, retries, waits).End? {
      var out, reset := ErrorEffects(w, s, c, key, status, body, retries, waits);
      hide *;
      QuietFits(c, key, status, body, out, reset);
    }
  }

  /** At most the one key event, between effects on the session. */
  function Quiet(settled: Option<Event>, out: bool, reset: bool): seq<Event> {
    (if out then [LoggedOut] else []) + (if settled.Some? then [settled.value] else []) + (if reset then [ResetRequired] else [])
  }

  function Freed(c: Call, key: Option<string>, reply: Reply): Option<Event> {
    if key.Some? && Frees(c, reply) then Some(Released(key.value)) else None
  }

  lemma {:induction false} ErrorEffects(w: World, s: Session, c: Call, key: Option<string>, status: nat, body: Body,
                                        retries: nat, waits: nat)
    returns (out: bool, reset: bool)
    requires !IsOk(status) && OnError(w, s, c, key, status, body, retries, waits).End?
    ensures OnError(w, s, c, key, status, body, retries, waits).effects == Quiet(Freed(c, key, Answer(status, body)), out, reset)
  {
    hide Refreshed;
    out := LosesSession(c, status) && !body.ReadAborted? && !body.Unparsable? && !(key.Some? && IsInFlight(status, body));
    reset := body.Fields? && status == 403 && body.code == PasswordReset && c.window;
  }

  lemma {:induction false} QuietFits(c: Call, key: Option<string>, status: nat, body: Body, out: bool, reset: bool)
    requires !IsOk(status)
    ensures Fits(c, key, Answer(status, body), Quiet(Freed(c, key, Answer(status, body)), out, reset))
  {
    assert !IsReplay(Answer(status, body));
    hide Frees, IsOk, IsReplay;
    if out {
    } else if reset {
    }
  }

  lemma {:induction false} VerdictShape(w: World, s: Session, c: Call, key: Option<string>, reply: Reply,
                                        retries: nat, waits: nat)
    requires !reply.Starting? && (key.Some? <==> IsKeyed(c))
    ensures var v := OnReply(w, s, c, key, reply, retries, waits);
            && (v.End? ==>
                  && Fits(c, key, reply, v.effects)
                  && (reply.Failure? ==> v.effects == [] && v.outcome == if c.mutation then Unconfirmed else NetworkDown)
                  && (reply.Abort? ==> v.effects == [] && v.outcome == Aborted))
            && (v.Again? ==> !reply.Abort? && (reply.Failure? ==> !c.mutation))
  {
    hide OnSuccess, OnError;
    if reply.Answer? {
      if IsOk(reply.status) {
        SuccessFits(s, c, key, reply.status, reply.body);
      } else {
        ErrorFits(w, s, c, key, reply.status, reply.body, retries, waits);
      }
    }
  }

  // ---------------------------------------------------------------------------------------------
  // Calls

  /** One request more per round, and no more rounds than retries and waits allow, with at most 121 transmissions each. */
  lemma {:induction false} RoundsAreBounded(w: World, s: Session, c: Call, header: Option<string>, retries: nat,
                                            waits: nat)
    ensures var trace := Fetch(w, s, c, header, retries, waits).trace;
            && 1 <= Count(trace, IsAsk) <= 1 + Left(retries, waits)
            && Count(trace, IsAsk) <= Count(trace, IsSend) <= (STARTING_MAX_WAITS + 1) * Count(trace, IsAsk)
    decreases Left(retries, waits)
  {
    var r, v := FetchStep(w, s, c, header, retries, waits);
    hide *;
    RoundCounts(r.trace, r.key, r.reply);
    RoundIsLong(r.trace, r.key, r.reply);
    match v
    case End(session, effects, outcome) =>
      EffectCounts(effects, r.key);
      CountAppend(r.trace, effects, IsAsk);
      CountAppend(r.trace, effects, IsSend);
    case Again(session, retries', waits') =>
      RoundsAreBounded(w, session, c, SameKey(r.key, header), retries', waits');
      var rest := Fetch(w, session, c, SameKey(r.key, header), retries', waits').trace;
      CountAppend(r.trace, rest, IsAsk);
      CountAppend(r.trace, rest, IsSend);
  }

  lemma {:induction false} RoundIsLong(trace: seq<Event>, key: Option<string>, reply: Reply)
    requires IsRound(trace, key, reply)
    ensures |trace| >= 2
  {
  }

  lemma {:induction false} EffectCounts(effects: seq<Event>, key: Option<string>)
    requires AreEffects(effects, key)
    ensures Count(effects, IsAsk) == 0 && Count(effects, IsSend) == 0
  {
    FilterNone(effects, IsAsk);
    FilterNone(effects, IsSend);
  }

  /** The first round of a call, and its end or the call that follows. */
  lemma {:induction false} FetchStep(w: World, s: Session, c: Call, header: Option<string>, retries: nat, waits: nat)
    returns (r: Request, v: Verdict)
    ensures r == SendRequest(w, s, c, header) && v == OnReply(w, r.session, c, r.key, r.reply, retries, waits)
    ensures IsRound(r.trace, r.key, r.reply) && (r.key.Some? <==> IsKeyed(c)) && (r.key.Some? && header.Some? ==> r.key == header)
    ensures v.End? ==> Fetch(w, s, c, header, retries, waits) == Run(v.session, r.trace + v.effects, v.outcome)
    ensures v.End? ==> AreEffects(v.effects, r.key)
    ensures v.Again? ==>
              var rest := Fetch(w, v.session, c, SameKey(r.key, header), v.retries, v.waits);
              && Left(v.retries, v.waits) == Left(retries, waits) - 1
              && Fetch(w, s, c, header, retries, waits) == rest.(trace := r.trace + rest.trace)
  {
    r := SendRequest(w, s, c, header);
    v := Judge(w, s, c, header, retries, waits);
    RequestShape(w, s, c, header);
    VerdictShape(w, r.session, c, r.key, r.reply, retries, waits);
    AgainIsFewer(w, s, c, header, retries, waits);
    hide SendRequest, OnReply, IsRound, AreEffects, Left, Frees, IsReplay;
  }

  /** The requests of a call: all with one key, none after an abort, and for a write none after a failure. */
  ghost predicate AreRequests(c: Call, requests: seq<Event>, key: Option<string>) {
    && |requests| >= 2 && requests[0].Asked? && requests[|requests| - 1].Sent?
    && (forall i :: 0 <= i < |requests| ==>
          (requests[i].Asked? && requests[i].key == key) || (requests[i].Sent? && requests[i].sentKey == key))
    && (forall i :: 0 <= i < |requests| - 1 && requests[i].Sent? ==>
          !requests[i].reply.Abort? && (c.mutation ==> !requests[i].reply.Failure?))
  }

  /** The reply the call ends with, given the last one on the network. */
  ghost predicate EndsWithReply(last: Reply, reply: Reply) {
    last == reply || (last.Starting? && (reply == Abort || reply == Answer(503, EMPTY)))
  }

  ghost predicate IsCall(c: Call, header: Option<string>, run: Run, requests: seq<Event>, effects: seq<Event>,
                         key: Option<string>, reply: Reply) {
    && run.trace == requests + effects
    && AreRequests(c, requests, key) && EndsWithReply(requests[|requests| - 1].reply, reply)
    && (key.Some? <==> IsKeyed(c)) && (key.Some? && header.Some? ==> key == header)
    && Fits(c, key, reply, effects)
    && (reply.Failure? ==> effects == [] && run.outcome == if c.mutation then Unconfirmed else NetworkDown)
    && (reply.Abort? ==> effects == [] && run.outcome == Aborted)
  }

  /** Every call is its requests and then the effects of its last reply. */
  lemma {:induction false} CallShape(w: World, s: Session, c: Call, header: Option<string>, retries: nat, waits: nat)
    returns (requests: seq<Event>, effects: seq<Event>, key: Option<string>, reply: Reply)
    ensures IsCall(c, header, Fetch(w, s, c, header, retries, waits), requests, effects, key, reply)
    decreases Left(retries, waits)
  {
    var r, v := FetchStep(w, s, c, header, retries, waits);
    VerdictShape(w, r.session, c, r.key, r.reply, retries, waits);
    hide *;
    key := r.key;
    match v
    case End(session, ends, outcome) =>
      requests, effects, reply := r.trace, ends, r.reply;
      LastRound(c, header, Run(session, r.trace + ends, outcome), r, ends);
    case Again(session, retries', waits') =>
      var more, ends, k, last := CallShape(w, session, c, SameKey(key, header), retries', waits');
      requests, effects, reply := r.trace + more, ends, last;
      EarlierRound(c, header, r, Fetch(w, session, c, SameKey(key, header), retries', waits'), more, ends, k, last);
  }

  lemma {:induction false} LastRound(c: Call, header: Option<string>, run: Run, r: Request, effects: seq<Event>)
    requires IsRound(r.trace, r.key, r.reply) && Fits(c, r.key, r.reply, effects) && run.trace == r.trace + effects
    requires (r.key.Some? <==> IsKeyed(c)) && (r.key.Some? && header.Some? ==> r.key == header)
    requires r.reply.Failure? ==> effects == [] && run.outcome == if c.mutation then Unconfirmed else NetworkDown
    requires r.reply.Abort? ==> effects == [] && run.outcome == Aborted
    ensures IsCall(c, header, run, r.trace, effects, r.key, r.reply)
  {
    FirstRequests(c, r.trace, r.key, r.reply);
    hide IsRound, Fits, AreRequests, EndsWithReply;
  }

  lemma {:induction false} EarlierRound(c: Call, header: Option<string>, r: Request, rest: Run, more: seq<Event>,
                                        effects: seq<Event>,
                                        key: Option<string>, reply: Reply)
    requires IsRound(r.trace, r.key, r.reply) && !r.reply.Abort? && (r.reply.Failure? ==> !c.mutation)
    requires (r.key.Some? <==> IsKeyed(c)) && (r.key.Some? && header.Some? ==> r.key == header)
    requires IsCall(c, SameKey(r.key, header), rest, more, effects, key, reply)
    ensures IsCall(c, header, rest.(trace := r.trace + rest.trace), r.trace + more, effects, r.key, reply)
  {
    assert key == r.key;
    hide IsRound, Fits, EndsWithReply;
    MoreRequests(c, r.trace, more, key, r.reply);
    assert r.trace + (more + effects) == (r.trace + more) + effects;
  }

  lemma {:induction false} FirstRequests(c: Call, trace: seq<Event>, key: Option<string>, reply: Reply)
    requires IsRound(trace, key, reply)
    ensures AreRequests(c, trace, key) && EndsWithReply(trace[|trace| - 1].reply, reply)
  {
  }

  lemma {:induction false} MoreRequests(c: Call, trace: seq<Event>, more: seq<Event>, key: Option<string>, reply: Reply)
    requires IsRound(trace, key, reply) && AreRequests(c, more, key)
    requires !reply.Abort? && (reply.Failure? ==> !c.mutation)
    ensures AreRequests(c, trace + more, key) && (trace + more)[|trace + more| - 1] == more[|more| - 1]
  {
    var all := trace + more;
    forall i | 0 <= i < |all| - 1 && all[i].Sent? ensures !all[i].reply.Abort? && (c.mutation ==> !all[i].reply.Failure?) {
      assert all[i] == if i < |trace| then trace[i] else more[i - |trace|];
    }
  }

  /** Every round and every transmission of a call carries the key of its first request, and only keyed calls have one. */
  lemma {:induction false} AllRoundsCarryOneKey(w: World, s: Session, c: Call, header: Option<string>, retries: nat,
                                                waits: nat)
    ensures var trace := Fetch(w, s, c, header, retries, waits).trace;
            && trace != [] && trace[0].Asked?
            && (trace[0].key.Some? <==> c.mutation && !c.isPublic)
            && (trace[0].key.Some? && header.Some? ==> trace[0].key == header)
            && forall i :: 0 <= i < |trace| ==>
                 && (trace[i].Asked? ==> trace[i].key == trace[0].key)
                 && (trace[i].Sent? ==> trace[i].sentKey == trace[0].key)
                 && (trace[i].Released? ==> trace[0].key == Some(trace[i].released))
                 && (trace[i].Held? ==> trace[0].key == Some(trace[i].held))
  {
    hide Fetch, Frees, IsReplay, EndsWithReply, Left;
    var requests, effects, key, reply := CallShape(w, s, c, header, retries, waits);
    var trace := requests + effects;
    forall i | 0 <= i < |trace| ensures trace[i] == if i < |requests| then requests[i] else effects[i - |requests|] {
    }
    assert forall i :: 0 <= i < |effects| ==> !IsAsk(effects[i]) && !IsSend(effects[i]);
    assert forall i :: 0 <= i < |effects| && IsKeyEvent(effects[i]) ==> key.Some? && (effects[i] == Released(key.value) || effects[i] == Held(key.value));
  }

  /** A write whose transmission failed on the network is never sent again, and the caller is told it is unconfirmed. */
  lemma {:induction false} NoResendAfterFailure(w: World, s: Session, c: Call, header: Option<string>, retries: nat,
                                                waits: nat, i: nat)
    requires c.mutation && i < |Fetch(w, s, c, header, retries, waits).trace|
    requires Fetch(w, s, c, header, retries, waits).trace[i].Sent? && Fetch(w, s, c, header, retries, waits).trace[i].reply.Failure?
    ensures i == |Fetch(w, s, c, header, retries, waits).trace| - 1 && Fetch(w, s, c, header, retries, waits).outcome == Unconfirmed
  {
    hide Fetch, Frees, IsReplay, Left;
    var requests, effects, key, reply := CallShape(w, s, c, header, retries, waits);
    var trace := requests + effects;
    assert i < |requests| && trace[i] == requests[i];
  }

  /** The key is settled or held at most once, and only after the last transmission. */
  lemma {:induction false} KeyEventsAreLast(w: World, s: Session, c: Call, header: Option<string>, retries: nat,
                                            waits: nat, i: nat)
    requires i < |Fetch(w, s, c, header, retries, waits).trace| && IsKeyEvent(Fetch(w, s, c, header, retries, waits).trace[i])
    ensures var trace := Fetch(w, s, c, header, retries, waits).trace;
            && (forall j :: i < j < |trace| ==> !IsAsk(trace[j]) && !IsSend(trace[j]))
            && (forall j :: 0 <= j < |trace| && j != i ==> !IsKeyEvent(trace[j]))
  {
    hide Fetch, Frees, IsReplay, EndsWithReply, Left;
    var requests, effects, key, reply := CallShape(w, s, c, header, retries, waits);
    var trace := requests + effects;
    assert forall k :: 0 <= k < |requests| ==> trace[k] == requests[k] && !IsKeyEvent(requests[k]);
    assert forall k :: |requests| <= k < |trace| ==> trace[k] == effects[k - |requests|];
    assert IsKeyEvent(effects[i - |requests|]);
  }

  /** The reply of the last transmission. */
  function LastReply(trace: seq<Event>): Reply {
    if trace == [] then Abort
    else if trace[|trace| - 1].Sent? then trace[|trace| - 1].reply
    else LastReply(trace[..|trace| - 1])
  }

  lemma {:induction false} LastReplyIs(requests: seq<Event>, effects: seq<Event>)
    requires requests != [] && requests[|requests| - 1].Sent? && forall i :: 0 <= i < |effects| ==> !IsSend(effects[i])
    ensures LastReply(requests + effects) == requests[|requests| - 1].reply
  {
    if effects == [] {
      assert requests + effects == requests;
    } else {
      var front := effects[..|effects| - 1];
      assert (requests + effects)[..|requests + effects| - 1] == requests + front;
      LastReplyIs(requests, front);
    }
  }

  /** A key is freed exactly by a definite last answer, and held exactly by the notice of an earlier registration. */
  lemma {:induction false} KeyIsFreedIff(w: World, s: Session, c: Call, header: Option<string>, retries: nat,
                                         waits: nat)
    requires c.mutation && !c.isPublic
    ensures var trace := Fetch(w, s, c, header, retries, waits).trace;
            && trace != [] && trace[0].Asked? && trace[0].key.Some?
            && (Released(trace[0].key.value) in trace <==> Frees(c, LastReply(trace)))
            && (Held(trace[0].key.value) in trace <==> IsReplay(LastReply(trace)))
  {
    var requests, effects, key, reply := CallShape(w, s, c, header, retries, waits);
    AllRoundsCarryOneKey(w, s, c, header, retries, waits);
    StartingSettlesNothing(c, requests[|requests| - 1].reply, reply);
    hide Fetch, Frees, IsReplay, EndsWithReply, Left;
    LastReplyIs(requests, effects);
    assert (requests + effects)[0] == requests[0];
    assert forall e :: e in requests ==> e.Asked? || e.Sent?;
    assert forall e :: e in requests + effects <==> e in requests || e in effects;
  }

  lemma {:induction false} StartingSettlesNothing(c: Call, last: Reply, reply: Reply)
    requires EndsWithReply(last, reply)
    ensures Frees(c, last) == Frees(c, reply) && IsReplay(last) == IsReplay(reply)
  {
  }

  /** A forbidden answer without a body ends the call in a type error before its key is settled: the key stays. */
  lemma {:induction false} NullForbiddenKeepsKey(w: World, s: Session, header: Option<string>, retries: nat, waits: nat)
    requires w.replies(s.sends) == Answer(403, JsonNull) && s.csrf.Some?
    ensures var c := Call(true, false, false, false, true);
            var run := Fetch(w, s, c, header, retries, waits);
            run.outcome == Crashed && forall i :: 0 <= i < |run.trace| ==> !IsKeyEvent(run.trace[i])
  {
    var c := Call(true, false, false, false, true);
    var r, v := FetchStep(w, s, c, header, retries, waits);
    assert r.reply == Answer(403, JsonNull);
    assert v.End? && v.effects == [] && v.outcome == Crashed;
    RoundCounts(r.trace, r.key, r.reply);
  }
}
