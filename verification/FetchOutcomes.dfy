/** How a call of `fetchJson` (src/api.ts) ends: its outcome, the tokens in memory and what the page is told. */
module FetchOutcomes {
  import opened FetchJson
  import opened FetchTheorems
  import opened Seqs

  // ---------------------------------------------------------------------------------------------
  // The reply that decides

  /** The transmissions after the last request. */
  function LastSends(trace: seq<Event>): nat {
    if trace == [] then 0
    else
      var last, before := trace[|trace| - 1], trace[..|trace| - 1];
      if last.Asked? then 0 else LastSends(before) + (if last.Sent? then 1 else 0)
  }

  /**
   * The reply a call goes by: the last one on the network. When that is the notice of a server that is starting, the
   * caller aborted the wait, or it was the 121st transmission and counts as a plain 503.
   */
  function FinalReply(trace: seq<Event>): Reply {
    var last := LastReply(trace);
    if !last.Starting? then last
    else if LastSends(trace) <= 120 then Abort
    else Answer(503, Fields(OtherCode, false, false, None, None))
  }

  /** The transmissions from reply `from` on: each but the last met a starting server, and the last of them decides. */
  ghost predicate Transmits(w: World, from: nat, key: Option<string>, waits: nat, t: Transmission) {
    && 1 <= |t.trace| <= 121 - waits
    && (forall i :: 0 <= i < |t.trace| ==> t.trace[i] == Sent(key, w.replies(from + i)))
    && (forall i :: 0 <= i < |t.trace| - 1 ==> t.trace[i] == Sent(key, Starting(false)))
    && var last := w.replies(from + |t.trace| - 1);
       if !last.Starting? then t.reply == last
       else if |t.trace| == 121 - waits then t.reply == Answer(503, Fields(OtherCode, false, false, None, None))
       else last.abortedWaiting && t.reply == Abort
  }

  lemma {:induction false} TransmitIs(w: World, from: nat, key: Option<string>, waits: nat)
    requires waits <= 120
    ensures Transmits(w, from, key, waits, Transmit(w, from, key, waits))
    decreases 120 - waits
  {
    var r := w.replies(from);
    if r.Starting? && waits < 120 && !r.abortedWaiting {
      TransmitIs(w, from + 1, key, waits + 1);
      TransmitsMore(w, from, key, waits, Transmit(w, from + 1, key, waits + 1));
      hide Transmits;
    }
  }

  lemma {:induction false} TransmitsMore(w: World, from: nat, key: Option<string>, waits: nat, t: Transmission)
    requires waits < 120 && w.replies(from) == Starting(false) && Transmits(w, from + 1, key, waits + 1, t)
    ensures Transmits(w, from, key, waits, t.(trace := [Sent(key, w.replies(from))] + t.trace))
  {
    var all := [Sent(key, w.replies(from))] + t.trace;
    forall i | 0 <= i < |all| ensures all[i] == Sent(key, w.replies(from + i)) {
      if i > 0 {
        assert all[i] == t.trace[i - 1] == Sent(key, w.replies(from + 1 + (i - 1)));
      }
    }
    forall i | 0 <= i < |all| - 1 ensures all[i] == Sent(key, Starting(false)) {
      if i > 0 {
        assert all[i] == t.trace[i - 1];
      }
    }
    assert from + 1 + |t.trace| - 1 == from + |all| - 1;
  }

  lemma {:induction false} LastSendsIs(ask: Event, sends: seq<Event>, more: seq<Event>)
    requires ask.Asked? && sends != [] && (forall i :: 0 <= i < |sends| ==> sends[i].Sent?)
    requires forall i :: 0 <= i < |more| ==> !IsAsk(more[i]) && !IsSend(more[i])
    ensures LastSends([ask] + sends + more) == |sends|
    ensures LastReply([ask] + sends + more) == sends[|sends| - 1].reply
    decreases |sends| + |more|
  {
    var all := [ask] + sends + more;
    if more != [] {
      assert all[..|all| - 1] == [ask] + sends + more[..|more| - 1];
      LastSendsIs(ask, sends, more[..|more| - 1]);
    } else {
      assert all[..|all| - 1] == [ask] + sends[..|sends| - 1] + [];
      if |sends| > 1 {
        LastSendsIs(ask, sends[..|sends| - 1], []);
      } else {
        assert all[..|all| - 1] == [ask];
      }
    }
  }

  /** An earlier round does not change what the last one says. */
  lemma {:induction false} EarlierIsPast(before: seq<Event>, rest: seq<Event>)
    requires exists i :: 0 <= i < |rest| && rest[i].Asked? && exists j :: i < j < |rest| && rest[j].Sent?
    ensures LastSends(before + rest) == LastSends(rest) && LastReply(before + rest) == LastReply(rest)
  {
    var i :| 0 <= i < |rest| && rest[i].Asked? && exists j :: i < j < |rest| && rest[j].Sent?;
    var j :| i < j < |rest| && rest[j].Sent?;
    SendsPast(before, rest, i);
    ReplyPast(before, rest, j);
  }

  lemma {:induction false} SendsPast(before: seq<Event>, rest: seq<Event>, i: nat)
    requires i < |rest| && rest[i].Asked?
    ensures LastSends(before + rest) == LastSends(rest)
    decreases |rest|
  {
    var front := rest[..|rest| - 1];
    assert (before + rest)[..|before + rest| - 1] == before + front;
    if i < |front| {
      assert front[i] == rest[i];
      SendsPast(before, front, i);
    }
  }

  lemma {:induction false} ReplyPast(before: seq<Event>, rest: seq<Event>, j: nat)
    requires j < |rest| && rest[j].Sent?
    ensures LastReply(before + rest) == LastReply(rest)
    decreases |rest|
  {
    var front := rest[..|rest| - 1];
    assert (before + rest)[..|before + rest| - 1] == before + front;
    if j < |front| {
      assert front[j] == rest[j];
      ReplyPast(before, front, j);
    }
  }

  // ---------------------------------------------------------------------------------------------
  // The request of a round

  /** The store's key or the caller's, for a write that is not public. */
  function KeyOf(w: World, s: Session, c: Call, header: Option<string>): Option<string> {
    if !c.mutation || c.isPublic then None else if header.Some? then header else Some(w.keys(s.asks))
  }

  /** A write that is not public asks for a CSRF token first when the page has none. */
  predicate AsksToken(s: Session, c: Call) { c.mutation && !c.isPublic && c.window && s.csrf.None? }

  /** The request carries the tokens and the key, and is transmitted until a server that has started answers. */
  ghost predicate Requests(w: World, s: Session, c: Call, header: Option<string>, r: Request) {
    var csrf := if AsksToken(s, c) then w.refreshed(s.refreshes) else s.csrf;
    && r.key == KeyOf(w, s, c, header)
    && r.trace != [] && r.trace[0] == Asked(r.key, csrf, s.auth)
    && Transmits(w, s.sends, r.key, 0, Transmission(r.reply, r.trace[1..]))
    && r.session == Session(csrf, s.auth, s.sends + |r.trace| - 1, if AsksToken(s, c) then s.refreshes + 1 else s.refreshes, s.asks + 1)
  }

  lemma {:induction false} RequestIs(w: World, s: Session, c: Call, header: Option<string>)
    ensures Requests(w, s, c, header, SendRequest(w, s, c, header))
  {
    var s1 := if NeedsCsrf(s, c) then Refreshed(w, s) else s;
    var key := RoundKey(w, s1, c, header);
    TransmitIs(w, s1.sends, key, 0);
    hide Transmit, Transmits;
    var t := Transmit(w, s1.sends, key, 0);
    assert ([Asked(key, s1.csrf, s1.auth)] + t.trace)[1..] == t.trace;
  }

  lemma {:induction false} RequestDecides(w: World, s: Session, c: Call, header: Option<string>, r: Request, effects: seq<Event>)
    requires Requests(w, s, c, header, r) && forall i :: 0 <= i < |effects| ==> !IsAsk(effects[i]) && !IsSend(effects[i])
    ensures FinalReply(r.trace + effects) == r.reply && !r.reply.Starting?
  {
    var ask, sends := r.trace[0], r.trace[1..];
    assert r.trace == [ask] + sends;
    assert forall i :: 0 <= i < |sends| ==> sends[i] == Sent(r.key, w.replies(s.sends + i));
    LastSendsIs(ask, sends, effects);
  }

  // ---------------------------------------------------------------------------------------------
  // The end of a call

  predicate Succeeds(reply: Reply) { reply.Answer? && 200 <= reply.status < 300 }

  /** An answer whose body the caller's abort cut off; a 204 has none. */
  predicate CutOff(reply: Reply) { reply.Answer? && reply.status != 204 && reply.body.ReadAborted? }

  predicate NotJson(reply: Reply) { reply.Answer? && reply.status != 204 && reply.body.Unparsable? }

  /** A write that is answered with the notice that it was registered before. */
  predicate IsNotice(c: Call, reply: Reply) {
    c.mutation && Succeeds(reply) && reply.status != 204 && reply.body.Fields? && reply.body.replay
  }

  /** A write with a key is told that the first request with it still runs. */
  predicate StillRuns(c: Call, reply: Reply) {
    c.mutation && !c.isPublic && reply.Answer? && reply.status == 409 && reply.body.Fields? && reply.body.code == InFlight
  }

  /** The outcome of a call whose deciding reply is `reply`. */
  ghost predicate Ends(c: Call, reply: Reply, o: Outcome) {
    && (o == Unconfirmed <==> reply.Failure? && c.mutation)
    && (o == NetworkDown <==> reply.Failure? && !c.mutation)
    && (o == Aborted <==> reply.Abort? || CutOff(reply))
    && (o.Protocol? <==> NotJson(reply))
    && (o == Replayed <==> IsNotice(c, reply) && !c.acceptReplay)
    && (o == Done <==> Succeeds(reply) && !CutOff(reply) && !NotJson(reply) && !(IsNotice(c, reply) && !c.acceptReplay))
    && (o == StillRunning <==> StillRuns(c, reply))
    && (o == Crashed <==> reply.Answer? && !Succeeds(reply) && reply.body.JsonNull?)
    && (o.Failed? <==> reply.Answer? && !Succeeds(reply) && reply.body.Fields? && !StillRuns(c, reply))
    && (o.Protocol? ==> o.status == reply.status) && (o.Failed? ==> o.status == reply.status)
  }

  /** The newest token of the refreshes from `from` to before `last`, otherwise what there was. */
  function Newest(w: World, csrf: Option<string>, from: nat, last: nat): Option<string>
    decreases last
  {
    if last <= from then csrf
    else if w.refreshed(last - 1).Some? then w.refreshed(last - 1)
    else Newest(w, csrf, from, last - 1)
  }

  /** A 401 of a page that could be read ends its session, but not on a public path. */
  predicate LogsOut(c: Call, reply: Reply) {
    reply.Answer? && reply.status == 401 && !CutOff(reply) && !NotJson(reply) && c.window && !c.isPublic
  }

  predicate GivesTokens(c: Call, reply: Reply, o: Outcome) {
    o == Done && c.issuesTokens && reply.Answer? && reply.status != 204 && reply.body.Fields?
  }

  function Instead(given: Option<string>, was: Option<string>): Option<string> { if given.Some? then given else was }

  /** None after a 401, those of the answer of a session endpoint, otherwise those the refreshes left. */
  ghost predicate Leaves(w: World, s: Session, c: Call, reply: Reply, o: Outcome, end: Session) {
    var csrf := Newest(w, s.csrf, s.refreshes, end.refreshes);
    && end.refreshes >= s.refreshes
    && if LogsOut(c, reply) then end.csrf == None && end.auth == None
       else if GivesTokens(c, reply, o) then
         end.csrf == Instead(reply.body.csrfToken, csrf) && end.auth == Instead(reply.body.token, s.auth)
       else end.csrf == csrf && end.auth == s.auth
  }

  /** What the page is told: of a lost session, of a password to change, of a notice. */
  ghost predicate Tells(c: Call, reply: Reply, trace: seq<Event>) {
    && (LoggedOut in trace <==> LogsOut(c, reply))
    && (ResetRequired in trace <==>
          reply.Answer? && reply.status == 403 && reply.body.Fields? && reply.body.code == PasswordReset && c.window)
    && (ReplayShown in trace <==> IsNotice(c, reply) && c.window)
  }

  /** The request is sent again: a read after a failure, a write that still runs, a write or read with a new CSRF token. */
  ghost predicate SentAgain(w: World, c: Call, r: Request, retries: nat, waits: nat) {
    || (r.reply.Failure? && !c.mutation && retries > 0)
    || (StillRuns(c, r.reply) && waits < 15)
    || (NewToken(w, c, r) && retries > 0)
  }

  predicate NewToken(w: World, c: Call, r: Request) {
    && r.reply.Answer? && r.reply.status == 403 && r.reply.body.Fields? && r.reply.body.csrf && c.window
    && w.refreshed(r.session.refreshes).Some?
  }

  /** The tokens, retries and waits of the next round. */
  ghost predicate NextRound(w: World, c: Call, r: Request, retries: nat, waits: nat, v: Verdict) {
    && v.Again?
    && if StillRuns(c, r.reply) then v == Again(r.session, retries, waits + 1)
       else if r.reply.Failure? then retries > 0 && v == Again(r.session, retries - 1, waits)
       else retries > 0
            && v == Again(r.session.(csrf := w.refreshed(r.session.refreshes), refreshes := r.session.refreshes + 1), retries - 1, waits)
  }

  lemma {:induction false} SuccessEnds(w: World, s: Session, c: Call, key: Option<string>, status: nat, body: Body)
    requires 200 <= status < 300
    ensures var v, reply := OnSuccess(s, c, key, status, body), Answer(status, body);
            v.End? && Ends(c, reply, v.outcome) && Leaves(w, s, c, reply, v.outcome, v.session) && Tells(c, reply, v.effects)
  {
  }

  lemma {:induction false} ErrorEnds(w: World, r: Request, c: Call, status: nat, body: Body, retries: nat, waits: nat)
    requires !(200 <= status < 300) && r.reply == Answer(status, body) && (r.key.Some? <==> c.mutation && !c.isPublic)
    ensures var v := OnError(w, r.session, c, r.key, status, body, retries, waits);
            if SentAgain(w, c, r, retries, waits) then NextRound(w, c, r, retries, waits, v)
            else v.End? && Ends(c, r.reply, v.outcome) && Leaves(w, r.session, c, r.reply, v.outcome, v.session) && Tells(c, r.reply, v.effects)
  {
  }

  lemma {:induction false} ReplyEnds(w: World, r: Request, c: Call, retries: nat, waits: nat)
    requires !r.reply.Starting? && (r.key.Some? <==> c.mutation && !c.isPublic)
    ensures var v := OnReply(w, r.session, c, r.key, r.reply, retries, waits);
            if SentAgain(w, c, r, retries, waits) then NextRound(w, c, r, retries, waits, v)
            else v.End? && Ends(c, r.reply, v.outcome) && Leaves(w, r.session, c, r.reply, v.outcome, v.session) && Tells(c, r.reply, v.effects)
  {
    hide OnSuccess, OnError;
    if r.reply.Answer? {
      if IsOk(r.reply.status) {
        SuccessEnds(w, r.session, c, r.key, r.reply.status, r.reply.body);
      } else {
        ErrorEnds(w, r, c, r.reply.status, r.reply.body, retries, waits);
      }
    }
  }

  lemma {:induction false} NewestChains(w: World, csrf: Option<string>, from: nat, mid: nat, last: nat)
    requires from <= mid <= last
    ensures Newest(w, Newest(w, csrf, from, mid), mid, last) == Newest(w, csrf, from, last)
    decreases last
  {
    if mid < last {
      NewestChains(w, csrf, from, mid, last - 1);
    }
  }

  /** `end` follows `s` with no more than newer tokens in between. */
  ghost predicate Refreshes(w: World, s: Session, end: Session) {
    end.refreshes >= s.refreshes && end.csrf == Newest(w, s.csrf, s.refreshes, end.refreshes) && end.auth == s.auth
  }

  lemma {:induction false} RequestRefreshes(w: World, s: Session, c: Call, header: Option<string>, r: Request)
    requires Requests(w, s, c, header, r)
    ensures Refreshes(w, s, r.session)
  {
  }

  lemma {:induction false} NextRefreshes(w: World, c: Call, r: Request, retries: nat, waits: nat, v: Verdict)
    requires NextRound(w, c, r, retries, waits, v) && SentAgain(w, c, r, retries, waits)
    ensures Refreshes(w, r.session, v.session)
  {
  }

  lemma {:induction false} LeavesLater(w: World, s: Session, mid: Session, c: Call, reply: Reply, o: Outcome, end: Session)
    requires Refreshes(w, s, mid) && Leaves(w, mid, c, reply, o, end)
    ensures Leaves(w, s, c, reply, o, end)
  {
    NewestChains(w, s.csrf, s.refreshes, mid.refreshes, end.refreshes);
    hide Newest, LogsOut, GivesTokens;
  }

  lemma {:induction false} RefreshesLater(w: World, s: Session, mid: Session, end: Session)
    requires Refreshes(w, s, mid) && Refreshes(w, mid, end)
    ensures Refreshes(w, s, end)
  {
    NewestChains(w, s.csrf, s.refreshes, mid.refreshes, end.refreshes);
    hide Newest;
  }

  /** The effects of a call are those of its end: requests tell the page nothing. */
  lemma {:induction false} TellsAfter(c: Call, reply: Reply, requests: seq<Event>, more: seq<Event>)
    requires Tells(c, reply, more) && forall i :: 0 <= i < |requests| ==> requests[i].Asked? || requests[i].Sent?
    ensures Tells(c, reply, requests + more)
  {
    hide LogsOut, IsNotice;
    forall e: Event | !e.Asked? && !e.Sent? ensures e in requests + more <==> e in more {
    }
  }

  /** A call ends by its deciding reply: outcome, tokens, and what the page is told. */
  ghost predicate EndsBy(w: World, s: Session, c: Call, run: Run) {
    var reply := FinalReply(run.trace);
    && !reply.Starting? && Ends(c, reply, run.outcome) && Leaves(w, s, c, reply, run.outcome, run.session) && Tells(c, reply, run.trace)
  }

  /** Every call has a request and a transmission after it. */
  ghost predicate HasRound(trace: seq<Event>) {
    exists i :: 0 <= i < |trace| && trace[i].Asked? && exists j :: i < j < |trace| && trace[j].Sent?
  }

  lemma {:induction false} FirstRound(w: World, s: Session, c: Call, header: Option<string>, r: Request, more: seq<Event>)
    requires Requests(w, s, c, header, r)
    ensures HasRound(r.trace + more) && forall i :: 0 <= i < |r.trace| ==> r.trace[i].Asked? || r.trace[i].Sent?
  {
    var all := r.trace + more;
    forall i | 0 <= i < |r.trace| ensures r.trace[i].Asked? || r.trace[i].Sent? {
      if i > 0 {
        assert r.trace[i] == r.trace[1..][i - 1] == Sent(r.key, w.replies(s.sends + (i - 1)));
      }
    }
    assert r.trace[1] == r.trace[1..][0] == Sent(r.key, w.replies(s.sends + 0));
    assert all[0] == r.trace[0] && all[1] == r.trace[1];
  }

  lemma {:induction false} KeyIsSome(w: World, s: Session, c: Call, header: Option<string>, r: Request)
    requires Requests(w, s, c, header, r)
    ensures r.key.Some? <==> c.mutation && !c.isPublic
  {
    hide Transmits;
  }

  /**
   * The deciding reply of a call settles its outcome, the tokens it leaves and what the page is told, whatever rounds
   * came before.
   */
  lemma {:induction false} CallEndsBy(w: World, s: Session, c: Call, header: Option<string>, retries: nat, waits: nat)
    ensures HasRound(Fetch(w, s, c, header, retries, waits).trace)
    ensures EndsBy(w, s, c, Fetch(w, s, c, header, retries, waits))
    decreases Left(retries, waits)
  {
    var r, v := FetchStep(w, s, c, header, retries, waits);
    RequestIs(w, s, c, header);
    hide *;
    KeyIsSome(w, s, c, header, r);
    RequestDecides(w, s, c, header, r, []);
    RequestRefreshes(w, s, c, header, r);
    ReplyEnds(w, r, c, retries, waits);
    AgainOrEnd(w, c, r, retries, waits, v);
    var run := Fetch(w, s, c, header, retries, waits);
    match v
    case End(session, effects, outcome) =>
      FirstRound(w, s, c, header, r, effects);
      QuietEffects(effects, r.key);
      RequestDecides(w, s, c, header, r, effects);
      LeavesLater(w, s, r.session, c, r.reply, outcome, session);
      TellsAfter(c, r.reply, r.trace, effects);
      EndsByIs(w, s, c, run);
    case Again(session, retries', waits') =>
      var rest := Fetch(w, session, c, SameKey(r.key, header), retries', waits');
      CallEndsBy(w, session, c, SameKey(r.key, header), retries', waits');
      NextRefreshes(w, c, r, retries, waits, v);
      RefreshesLater(w, s, r.session, session);
      FirstRound(w, s, c, header, r, rest.trace);
      LaterDecides(r.trace, rest.trace);
      EndsByIs(w, session, c, rest);
      EndsByIs(w, s, c, run);
      LeavesLater(w, s, session, c, FinalReply(rest.trace), rest.outcome, rest.session);
      TellsAfter(c, FinalReply(rest.trace), r.trace, rest.trace);
  }

  lemma {:induction false} AgainOrEnd(w: World, c: Call, r: Request, retries: nat, waits: nat, v: Verdict)
    requires if SentAgain(w, c, r, retries, waits) then NextRound(w, c, r, retries, waits, v) else v.End?
    ensures v.Again? <==> SentAgain(w, c, r, retries, waits)
  {
    hide SentAgain;
  }

  lemma {:induction false} QuietEffects(effects: seq<Event>, key: Option<string>)
    requires AreEffects(effects, key)
    ensures forall i :: 0 <= i < |effects| ==> !IsAsk(effects[i]) && !IsSend(effects[i])
  {
  }

  lemma {:induction false} LaterDecides(before: seq<Event>, rest: seq<Event>)
    requires HasRound(rest)
    ensures FinalReply(before + rest) == FinalReply(rest)
  {
    EarlierIsPast(before, rest);
    hide LastReply, LastSends;
  }

  lemma {:induction false} EndsByIs(w: World, s: Session, c: Call, run: Run)
    ensures EndsBy(w, s, c, run)
       <==> var reply := FinalReply(run.trace);
            && !reply.Starting? && Ends(c, reply, run.outcome) && Leaves(w, s, c, reply, run.outcome, run.session) && Tells(c, reply, run.trace)
  {
    hide FinalReply, Ends, Leaves, Tells;
  }

  /**
   * A round is followed by another exactly when a read failed on the network with retries left, a keyed write still
   * runs with waits left, or a CSRF error brought a new token with retries left; the next round has the new token, the
   * same key, and one retry or wait less. Otherwise the call is over.
   */
  lemma {:induction false} SentAgainIff(w: World, s: Session, c: Call, header: Option<string>, retries: nat, waits: nat)
    returns (r: Request, v: Verdict)
    ensures Requests(w, s, c, header, r)
    ensures v.Again? <==> SentAgain(w, c, r, retries, waits)
    ensures v.Again? ==>
              && NextRound(w, c, r, retries, waits, v)
              && var rest := Fetch(w, v.session, c, if r.key.Some? then r.key else header, v.retries, v.waits);
                 Fetch(w, s, c, header, retries, waits) == Run(rest.session, r.trace + rest.trace, rest.outcome)
    ensures v.End? ==> Fetch(w, s, c, header, retries, waits) == Run(v.session, r.trace + v.effects, v.outcome)
  {
    r, v := FetchStep(w, s, c, header, retries, waits);
    RequestIs(w, s, c, header);
    SameKeyIs(r.key, header);
    hide *;
    KeyIsSome(w, s, c, header, r);
    RequestDecides(w, s, c, header, r, []);
    ReplyEnds(w, r, c, retries, waits);
    AgainOrEnd(w, c, r, retries, waits, v);
  }

  lemma {:induction false} SameKeyIs(key: Option<string>, header: Option<string>)
    ensures SameKey(key, header) == if key.Some? then key else header
  {
  }
}
