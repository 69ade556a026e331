/** The client's demultiplexer: concurrent requests, responses matched by invokeID, timeouts, and
  * the end of the connection. */
module Demux {
  import opened Wrappers
  import opened Octets

  datatype Pdu = Pdu(invoke: U32, body: seq<Byte>)
  datatype Error = SendFailure | Timeout | ConnectionClosed
  type Answer = Result<Pdu, Error>

  /** Where a request stands: registered but not yet sent, awaiting its answer, past its timeout but
    * not yet unregistered, or completed. */
  datatype Phase = Registered(id: U32) | Waiting(id: U32) | GivingUp(id: U32) | Done(answer: Answer)

  /** `pending` holds the sending half of each request's one-shot channel, `box` what was put into
    * it. Requests are numbered in the order in which they are issued. */
  datatype Client = Client(next: U32, pending: map<U32, nat>, box: map<nat, Answer>,
                           phases: seq<Phase>, closed: bool)

  const INIT: Client := Client(1, map[], map[], [], false)

  datatype Event =
    | Issue
    | Sent(r: nat)
    | SendFails(r: nat)
    | Response(id: U32, pdu: Pdu)
    | Poll(r: nat)
    | TimesOut(r: nat)
    | GivesUp(r: nat)
    | Close

  function IdFrom(counter: U32): U32 { if counter == 0 then 1 else counter }

  /** The sending half is gone: the receiver sees a closed channel. */
  predicate SenderGone(s: Client, r: nat) { r !in s.pending.Values }

  function Drained(s: Client): Client {
    s.(box := map r | r in s.box.Keys + s.pending.Values ::
                if r in s.pending.Values then Err(ConnectionClosed) else s.box[r],
       pending := map[], closed := true)
  }

  function Step(s: Client, e: Event): Client {
    match e
    case Issue =>
      var id := IdFrom(s.next);
      s.(next := (s.next + 1) % TWO_32, pending := s.pending[id := |s.phases|], phases := s.phases + [Registered(id)])
    case Sent(r) =>
      if r < |s.phases| && s.phases[r].Registered? then s.(phases := s.phases[r := Waiting(s.phases[r].id)]) else s
    case SendFails(r) =>
      if r < |s.phases| && s.phases[r].Registered?
      then s.(pending := s.pending - {s.phases[r].id}, phases := s.phases[r := Done(Err(SendFailure))]) else s
    case Response(id, pdu) =>
      if s.closed || id !in s.pending || pdu.invoke != id then s
      else s.(pending := s.pending - {id}, box := s.box[s.pending[id] := Ok(pdu)])
    case Poll(r) =>
      if !(r < |s.phases| && s.phases[r].Waiting?) then s
      else if r in s.box then s.(phases := s.phases[r := Done(s.box[r])])
      else if SenderGone(s, r) then s.(phases := s.phases[r := Done(Err(ConnectionClosed))])
      else s
    case TimesOut(r) =>
      if r < |s.phases| && s.phases[r].Waiting? && r !in s.box && !SenderGone(s, r)
      then s.(phases := s.phases[r := GivingUp(s.phases[r].id)]) else s
    case GivesUp(r) =>
      if r < |s.phases| && s.phases[r].GivingUp?
      then s.(pending := s.pending - {s.phases[r].id}, phases := s.phases[r := Done(Err(Timeout))]) else s
    case Close => if s.closed then s else Drained(s)
  }

  function Run(evs: seq<Event>): Client {
    if |evs| == 0 then INIT else Step(Run(evs[..|evs| - 1]), evs[|evs| - 1])
  }

  // ---------------------------------------------------------------- the code's own form

  lemma ValuesWithout(m: map<U32, nat>, id: U32)
    requires id in m
    ensures m.Values == {m[id]} + (m - {id}).Values
  {
    forall v | v in m.Values
      ensures v in {m[id]} + (m - {id}).Values
    {
      var k :| k in m && m[k] == v;
      if k != id { assert k in m - {id}; }
    }
  }

  /** The state the callers and the reader task share. */
  class Shared {
    var state: Client

    constructor ()
      ensures state == INIT
    {
      state := INIT;
    }

    method Register() returns (id: U32)
      modifies this
      ensures state == Step(old(state), Issue) && id == IdFrom(old(state).next)
    {
      id := state.next;
      if id < 1 { id := 1; }
      state := state.(next := (state.next + 1) % TWO_32);
      state := state.(pending := state.pending[id := |state.phases|]);
      state := state.(phases := state.phases + [Registered(id)]);
    }

    method OnResponse(pdu: Pdu)
      modifies this
      ensures state == if old(state).closed then old(state) else Step(old(state), Response(pdu.invoke, pdu))
    {
      if state.closed || pdu.invoke !in state.pending { return; }
      var r := state.pending[pdu.invoke];
      state := state.(pending := state.pending - {pdu.invoke});
      state := state.(box := state.box[r := Ok(pdu)]);
    }

    /** The reader task ends: every registered request is told. */
    method OnClosed()
      modifies this
      ensures state == Step(old(state), Close)
    {
      if state.closed { return; }
      var box := state.box;
      var todo := state.pending;
      ghost var told: set<nat> := {};
      while todo != map[]
        invariant state == old(state)
        invariant state.pending.Values == told + todo.Values
        invariant box.Keys == state.box.Keys + told
        invariant forall r :: r in box ==> box[r] == if r in told then Err(ConnectionClosed) else state.box[r]
        decreases todo.Keys
      {
        var id :| id in todo;
        ValuesWithout(todo, id);
        box := box[todo[id] := Err(ConnectionClosed)];
        told := told + {todo[id]};
        todo := todo - {id};
      }
      assert todo.Values == {};
      assert box == Drained(state).box;
      state := state.(box := box, pending := map[], closed := true);
    }
  }

  // ---------------------------------------------------------------- every interleaving

  function Issued(evs: seq<Event>): nat {
    if |evs| == 0 then 0 else Issued(evs[..|evs| - 1]) + if evs[|evs| - 1].Issue? then 1 else 0
  }

  /** The invokeID of request r, counting from 0. */
  function IdOf(r: nat): U32 { IdFrom((r + 1) % TWO_32) }

  /** Request r may still use its identifier: it is not completed, and not merely waiting to take out
    * an answer that has come. */
  predicate Holds(s: Client, r: nat) {
    r < |s.phases| && !s.phases[r].Done? && !(s.phases[r].Waiting? && r in s.box)
  }

  /** The next request would get an identifier that another one holds. */
  ghost predicate Clash(s: Client) { exists r: nat :: Holds(s, r) && s.phases[r].id == IdFrom(s.next) }

  ghost predicate Fresh(s: Client, e: Event) { e.Issue? ==> !Clash(s) }

  /** No request of the run is issued with an identifier that another one holds. */
  ghost predicate AllFresh(evs: seq<Event>) {
    forall n :: 0 <= n < |evs| ==> Fresh(Run(evs[..n]), evs[n])
  }

  /** A pending identifier belongs to a request that holds it and has no answer. */
  ghost predicate IdInv(s: Client, id: U32)
    requires id in s.pending
  {
    var r := s.pending[id];
    Holds(s, r) && s.phases[r].id == id && r !in s.box
  }

  ghost predicate AnswerOk(s: Client, r: nat, a: Answer) {
    if a.Ok? then a.value.invoke == IdOf(r) else a.error == ConnectionClosed && s.closed
  }

  /** Request r has its own invokeID; while it waits it is pending or has its answer; a positive
    * answer carries its identifier, and ConnectionClosed means what it says. */
  ghost predicate ReqInv(s: Client, r: nat)
    requires r < |s.phases|
  {
    var p := s.phases[r];
    && (!p.Done? ==> p.id == IdOf(r))
    && (p.Waiting? || p.Registered? ==> r in s.box || (p.id in s.pending && s.pending[p.id] == r))
    && (r in s.box ==> AnswerOk(s, r, s.box[r]))
    && (p.Done? && p.answer != Err(SendFailure) && p.answer != Err(Timeout) ==> AnswerOk(s, r, p.answer))
  }

  /** Two requests do not hold the same identifier. */
  ghost predicate Apart(s: Client, r: nat, q: nat) {
    Holds(s, r) && Holds(s, q) && r != q ==> s.phases[r].id != s.phases[q].id
  }

  ghost predicate Inv(s: Client) {
    && s.next == (|s.phases| + 1) % TWO_32
    && (forall id :: id in s.pending ==> IdInv(s, id))
    && (forall r :: 0 <= r < |s.phases| ==> ReqInv(s, r))
    && (forall r: nat, q: nat :: Apart(s, r, q))
    && (forall r :: r in s.box ==> r < |s.phases|)
  }

  lemma PendingValues(s: Client, r: nat)
    requires Inv(s)
    ensures r in s.pending.Values <==> r < |s.phases| && !s.phases[r].Done? && s.phases[r].id in s.pending
                                       && s.pending[s.phases[r].id] == r
  {
    if r in s.pending.Values {
      var id :| id in s.pending && s.pending[id] == r;
      assert IdInv(s, id);
    }
  }

  lemma StepKeepsId(s: Client, e: Event, id: U32)
    requires Inv(s) && Fresh(s, e) && id in Step(s, e).pending
    ensures IdInv(Step(s, e), id)
  {
    if id in s.pending { assert IdInv(s, id); }
    match e
    case Response(i, _) => if i in s.pending { assert IdInv(s, i); }
    case Poll(r) => PendingValues(s, r);
    case SendFails(r) => if r < |s.phases| { assert ReqInv(s, r); }
    case GivesUp(r) => if r < |s.phases| && id in s.pending { assert Apart(s, r, s.pending[id]); }
    case _ =>
  }

  /** Nobody comes to hold an identifier except by a request being issued. */
  lemma StepHolds(s: Client, e: Event, r: nat)
    requires Inv(s) && Holds(Step(s, e), r)
    ensures (e.Issue? && r == |s.phases|) || (Holds(s, r) && Step(s, e).phases[r].id == s.phases[r].id)
  {
    PendingValues(s, r);
  }

  lemma StepKeepsApart(s: Client, e: Event, r: nat, q: nat)
    requires Inv(s) && Fresh(s, e)
    ensures Apart(Step(s, e), r, q)
  {
    var s' := Step(s, e);
    if Holds(s', r) && Holds(s', q) && r != q {
      StepHolds(s, e, r);
      StepHolds(s, e, q);
      assert Apart(s, r, q);
    }
  }

  lemma StepKeepsReq(s: Client, e: Event, r: nat)
    requires Inv(s) && Fresh(s, e) && r < |Step(s, e).phases|
    ensures ReqInv(Step(s, e), r)
  {
    if r < |s.phases| { assert ReqInv(s, r); }
    match e
    case Issue => if r < |s.phases| && Holds(s, r) { assert s.phases[r].id != IdFrom(s.next); }
    case SendFails(q) => UnregisterKeepsReq(s, e, q, r);
    case GivesUp(q) => UnregisterKeepsReq(s, e, q, r);
    case _ => AnswerKeepsReq(s, e, r);
  }

  lemma UnregisterKeepsReq(s: Client, e: Event, q: nat, r: nat)
    requires Inv(s) && (e == SendFails(q) || e == GivesUp(q)) && r < |s.phases|
    ensures ReqInv(Step(s, e), r)
  {
    assert ReqInv(s, r) && Apart(s, r, q);
    if q < |s.phases| { assert ReqInv(s, q); }
  }

  lemma AnswerKeepsReq(s: Client, e: Event, r: nat)
    requires Inv(s) && !e.Issue? && !e.SendFails? && !e.GivesUp? && r < |s.phases|
    ensures ReqInv(Step(s, e), r)
  {
    assert ReqInv(s, r);
    PendingValues(s, r);
    if e.Response? && e.id in s.pending { assert IdInv(s, e.id); }
  }

  lemma NextCounts(n: nat)
    ensures ((n + 1) % TWO_32 + 1) % TWO_32 == (n + 2) % TWO_32
  {
  }

  lemma StepKeeps(s: Client, e: Event)
    requires Inv(s) && Fresh(s, e)
    ensures Inv(Step(s, e)) && |Step(s, e).phases| == |s.phases| + if e.Issue? then 1 else 0
  {
    var s' := Step(s, e);
    forall id | id in s'.pending { StepKeepsId(s, e, id); }
    forall r | 0 <= r < |s'.phases| { StepKeepsReq(s, e, r); }
    forall r: nat, q: nat { StepKeepsApart(s, e, r, q); }
    match e
    case Issue => NextCounts(|s.phases|);
    case Close => forall r { PendingValues(s, r); }
    case Response(i, _) => if i in s.pending { assert IdInv(s, i); }
    case _ =>
  }

  lemma FreshFront(evs: seq<Event>)
    requires AllFresh(evs) && |evs| > 0
    ensures AllFresh(evs[..|evs| - 1]) && Fresh(Run(evs[..|evs| - 1]), evs[|evs| - 1])
  {
    var front := evs[..|evs| - 1];
    forall n | 0 <= n < |front|
      ensures Fresh(Run(front[..n]), front[n])
    {
      assert front[..n] == evs[..n];
    }
  }

  lemma {:induction false} RunKeeps(evs: seq<Event>)
    requires AllFresh(evs)
    ensures Inv(Run(evs)) && |Run(evs).phases| == Issued(evs)
  {
    if |evs| > 0 {
      FreshFront(evs);
      RunKeeps(evs[..|evs| - 1]);
      StepKeeps(Run(evs[..|evs| - 1]), evs[|evs| - 1]);
    }
  }

  lemma StepKeepsAnswer(s: Client, e: Event, r: nat)
    requires Inv(s)
    ensures var s' := Step(s, e);
      && |s.phases| <= |s'.phases|
      && (r < |s.phases| && s.phases[r].Done? ==> s'.phases[r] == s.phases[r])
      && (r in s.box ==> r in s'.box && s'.box[r] == s.box[r])
  {
    PendingValues(s, r);
    match e
    case Response(i, _) => if i in s.pending { assert IdInv(s, i); }
    case Close => if r in s.box && r < |s.phases| { assert r !in s.pending.Values by { InBoxNotPending(s, r); } }
    case _ =>
  }

  lemma InBoxNotPending(s: Client, r: nat)
    requires Inv(s) && r in s.box
    ensures r !in s.pending.Values
  {
    forall id | id in s.pending
      ensures s.pending[id] != r
    {
      assert IdInv(s, id);
    }
  }

  /** Once completed, a request keeps its answer; and a channel is filled once. */
  lemma {:induction false} CompletedOnce(evs: seq<Event>, n: nat, r: nat)
    requires n <= |evs| && AllFresh(evs)
    ensures var s, s' := Run(evs[..n]), Run(evs);
      && |s.phases| <= |s'.phases|
      && (r < |s.phases| && s.phases[r].Done? ==> s'.phases[r] == s.phases[r])
      && (r in s.box ==> r in s'.box && s'.box[r] == s.box[r])
  {
    if n == |evs| {
      assert evs[..n] == evs;
    } else {
      var front := evs[..|evs| - 1];
      FreshFront(evs);
      CompletedOnce(front, n, r);
      assert front[..n] == evs[..n];
      RunKeeps(front);
      StepKeepsAnswer(Run(front), evs[|evs| - 1], r);
    }
  }

  /** For any number of requests and every interleaving of sends, out-of-order responses, timeouts and
    * the close, as long as no request is issued with an identifier that another one holds: a positive
    * answer carries the request's own invokeID; a request completes with ConnectionClosed only if the
    * connection was closed; a response either changes nothing or answers a request that holds its
    * identifier and had no answer, and no other request; and when the connection closes every request
    * waiting completes with ConnectionClosed, unless its response had come. */
  lemma DemuxIsCorrect(evs: seq<Event>, r: nat, id: U32, pdu: Pdu)
    requires AllFresh(evs) && r < Issued(evs)
    ensures var s := Run(evs);
      && |s.phases| == Issued(evs)
      && (s.phases[r].Done? && s.phases[r].answer.Ok? ==> s.phases[r].answer.value.invoke == IdOf(r))
      && (s.phases[r] == Done(Err(ConnectionClosed)) ==> s.closed)
      && (var s' := Step(s, Response(id, pdu));
          s' == s || exists q :: Holds(s, q) && IdOf(q) == id && q !in s.box && s'.box == s.box[q := Ok(pdu)]
                                 && s'.phases == s.phases)
      && (s.phases[r].Waiting? && !s.closed ==>
            var a := Step(Step(s, Close), Poll(r)).phases[r];
            a == if r in s.box then Done(s.box[r]) else Done(Err(ConnectionClosed)))
  {
    RunKeeps(evs);
    var s := Run(evs);
    assert ReqInv(s, r);
    if id in s.pending {
      assert IdInv(s, id) && ReqInv(s, s.pending[id]);
      var q, s' := s.pending[id], Step(s, Response(id, pdu));
      assert Holds(s, q) && IdOf(q) == id && q !in s.box;
    }
    if s.phases[r].Waiting? && !s.closed { CloseAnswers(s, r); }
  }

  lemma CloseAnswers(s: Client, r: nat)
    requires Inv(s) && r < |s.phases| && s.phases[r].Waiting? && !s.closed
    ensures Step(Step(s, Close), Poll(r)).phases[r] ==
            if r in s.box then Done(s.box[r]) else Done(Err(ConnectionClosed))
  {
    assert ReqInv(s, r);
    PendingValues(s, r);
    if r in s.box { InBoxNotPending(s, r); }
  }

  /** A request waits once it is sent, and ends with that failure, its identifier free, if it cannot be. */
  lemma SendingEnds(s: Client, r: nat)
    requires r < |s.phases| && s.phases[r].Registered?
    ensures Step(s, Sent(r)).phases[r] == Waiting(s.phases[r].id)
    ensures Step(s, SendFails(r)).phases[r] == Done(Err(SendFailure))
    ensures s.phases[r].id !in Step(s, SendFails(r)).pending
  {
  }

  /** The state a waiting request is in. */
  lemma {:induction false} WaitingIsPending(evs: seq<Event>, r: nat)
    requires AllFresh(evs) && r < |Run(evs).phases| && Run(evs).phases[r].Waiting? && r !in Run(evs).box
    ensures var s := Run(evs); s.phases[r] == Waiting(IdOf(r)) && IdOf(r) in s.pending && s.pending[IdOf(r)] == r
  {
    RunKeeps(evs);
    assert ReqInv(Run(evs), r);
  }

  /** How a request that waits ends, after any run in which identifiers do not clash: its response, with
    * all it carries, is its answer, whatever other responses there are; and without one it times out. In
    * both cases the identifier is free afterwards, and a response that comes then changes nothing. */
  lemma {:induction false} WaitingEnds(evs: seq<Event>, r: nat, pdu: Pdu)
    requires AllFresh(evs) && r < |Run(evs).phases| && !Run(evs).closed
    requires Run(evs).phases[r].Waiting? && r !in Run(evs).box && pdu.invoke == IdOf(r)
    ensures var t := Step(Step(Run(evs), Response(pdu.invoke, pdu)), Poll(r));
      t.phases[r] == Done(Ok(pdu)) && pdu.invoke !in t.pending
    ensures var t := Step(Step(Run(evs), TimesOut(r)), GivesUp(r));
      t.phases[r] == Done(Err(Timeout)) && pdu.invoke !in t.pending && Step(t, Response(pdu.invoke, pdu)) == t
  {
    WaitingIsPending(evs, r);
    ResponseEnds(Run(evs), r, pdu);
    TimeoutEnds(Run(evs), r, pdu);
  }

  lemma ResponseEnds(s: Client, r: nat, pdu: Pdu)
    requires r < |s.phases| && s.phases[r].Waiting? && !s.closed
    requires pdu.invoke in s.pending && s.pending[pdu.invoke] == r
    ensures var t := Step(Step(s, Response(pdu.invoke, pdu)), Poll(r));
      t.phases[r] == Done(Ok(pdu)) && pdu.invoke !in t.pending
  {
    var t := Step(s, Response(pdu.invoke, pdu));
    assert t.box == s.box[r := Ok(pdu)] && t.phases == s.phases;
  }

  lemma TimeoutEnds(s: Client, r: nat, pdu: Pdu)
    requires r < |s.phases| && s.phases[r] == Waiting(pdu.invoke) && r !in s.box
    requires pdu.invoke in s.pending && s.pending[pdu.invoke] == r
    ensures var t := Step(Step(s, TimesOut(r)), GivesUp(r));
      t.phases[r] == Done(Err(Timeout)) && pdu.invoke !in t.pending && Step(t, Response(pdu.invoke, pdu)) == t
  {
    assert r in s.pending.Values;
    var t := Step(s, TimesOut(r));
    assert t.phases[r] == GivingUp(pdu.invoke);
  }

  // ---------------------------------------------------------------- identifiers come round again

  lemma FreshAppend(evs: seq<Event>, e: Event)
    requires AllFresh(evs) && Fresh(Run(evs), e)
    ensures AllFresh(evs + [e])
  {
    var all := evs + [e];
    forall k | 0 <= k < |all|
      ensures Fresh(Run(all[..k]), all[k])
    {
      assert all[..k] == if k < |evs| then evs[..k] else evs;
    }
  }

  lemma FewFresh(s: Client)
    requires Inv(s) && |s.phases| + 1 < TWO_32
    ensures Fresh(s, Issue)
  {
    forall r: nat | Holds(s, r)
      ensures s.phases[r].id != IdFrom(s.next)
    {
      assert ReqInv(s, r);
    }
  }

  lemma RunSnoc(evs: seq<Event>, e: Event)
    ensures Run(evs + [e]) == Step(Run(evs), e) && Issued(evs + [e]) == Issued(evs) + if e.Issue? then 1 else 0
  {
    assert (evs + [e])[..|evs|] == evs;
  }

  /** The first 2^32 - 1 requests have identifiers of their own. */
  lemma {:induction false} FewAreFresh(evs: seq<Event>)
    requires Issued(evs) < TWO_32
    ensures AllFresh(evs)
  {
    if |evs| > 0 {
      var front, e := evs[..|evs| - 1], evs[|evs| - 1];
      FewAreFresh(front);
      RunKeeps(front);
      if e.Issue? { FewFresh(Run(front)); }
      FreshAppend(front, e);
      assert evs == front + [e];
    }
  }

  /** Up to 2^32 requests there is one collision: the last of them gets the identifier of the first. */
  lemma FirstCollision(r: nat, s: nat)
    requires r < s < TWO_32
    ensures IdOf(r) == IdOf(s) <==> r == 0 && s == TWO_32 - 1
  {
  }

  function RunFrom(s: Client, evs: seq<Event>): Client {
    if |evs| == 0 then s else Step(RunFrom(s, evs[..|evs| - 1]), evs[|evs| - 1])
  }

  /** Events other than the close, and no further request. */
  ghost predicate Ordinary(evs: seq<Event>) { forall n :: 0 <= n < |evs| ==> !evs[n].Close? && !evs[n].Issue? }

  ghost predicate Lost(s: Client, r: nat) {
    !s.closed && r < |s.phases| && s.phases[r] == Done(Err(ConnectionClosed))
  }

  /** Without any close, some request can end as if the connection had been closed. */
  ghost predicate CanLose(s: Client) { exists evs, r: nat :: Ordinary(evs) && Lost(RunFrom(s, evs), r) }

  lemma {:induction false} OrdinaryKeeps(s: Client, evs: seq<Event>)
    requires Inv(s) && !s.closed && Ordinary(evs)
    ensures Inv(RunFrom(s, evs)) && !RunFrom(s, evs).closed
  {
    if |evs| > 0 {
      OrdinaryKeeps(s, evs[..|evs| - 1]);
      StepKeeps(RunFrom(s, evs[..|evs| - 1]), evs[|evs| - 1]);
    }
  }

  /** Issuing a request on an open connection endangers one, the new or an old, exactly when another
    * request holds the identifier it gets. */
  lemma IssueLosesIff(s: Client)
    requires Inv(s) && !s.closed
    ensures CanLose(Step(s, Issue)) <==> Clash(s)
  {
    if Clash(s) {
      var r: nat :| Holds(s, r) && s.phases[r].id == IdFrom(s.next);
      var evs, q := LosingRun(s, r);
      assert Lost(RunFrom(Step(s, Issue), evs), q);
    } else {
      StepKeeps(s, Issue);
      forall evs, r: nat | Ordinary(evs)
        ensures !Lost(RunFrom(Step(s, Issue), evs), r)
      {
        OrdinaryKeeps(Step(s, Issue), evs);
        if r < |RunFrom(Step(s, Issue), evs).phases| { assert ReqInv(RunFrom(Step(s, Issue), evs), r); }
      }
    }
  }

  /** Whose channel is dropped: that of the old request while it has no answer and may still get one,
    * otherwise that of the new one, when the old one unregisters the identifier. */
  lemma LosingRun(s: Client, r: nat) returns (evs: seq<Event>, q: nat)
    requires Inv(s) && !s.closed && Holds(s, r) && s.phases[r].id == IdFrom(s.next)
    ensures Ordinary(evs) && Lost(RunFrom(Step(s, Issue), evs), q)
  {
    assert ReqInv(s, r);
    if s.phases[r].Waiting? {
      evs, q := [Poll(r)], r;
      OldWaitingLost(s, r);
    } else if s.phases[r].Registered? && r !in s.box {
      evs, q := [Sent(r), Poll(r)], r;
      OldRegisteredLost(s, r);
    } else if s.phases[r].Registered? {
      evs, q := [SendFails(r), Sent(|s.phases|), Poll(|s.phases|)], |s.phases|;
      NewLost(s, r, SendFails(r));
    } else {
      evs, q := [GivesUp(r), Sent(|s.phases|), Poll(|s.phases|)], |s.phases|;
      NewLost(s, r, GivesUp(r));
    }
  }

  lemma RunOne(s: Client, a: Event)
    ensures RunFrom(s, [a]) == Step(s, a)
  {
    assert [a][..0] == [];
  }

  lemma RunTwo(s: Client, a: Event, b: Event)
    ensures RunFrom(s, [a, b]) == Step(Step(s, a), b)
  {
    RunOne(s, a);
    assert [a, b][..1] == [a];
  }

  lemma RunThree(s: Client, a: Event, b: Event, c: Event)
    ensures RunFrom(s, [a, b, c]) == Step(Step(Step(s, a), b), c)
  {
    RunTwo(s, a, b);
    assert [a, b, c][..2] == [a, b];
  }

  /** After the issue the identifier points to the new request, so the old one's sender is gone. */
  lemma OldSenderGone(s: Client, r: nat)
    requires Inv(s) && Holds(s, r) && r !in s.box && s.phases[r].id == IdFrom(s.next)
    ensures SenderGone(Step(s, Issue), r)
  {
    var t := Step(s, Issue);
    forall id | id in t.pending
      ensures t.pending[id] != r
    {
      if id in s.pending { assert IdInv(s, id); }
    }
  }

  lemma OldWaitingLost(s: Client, r: nat)
    requires Inv(s) && !s.closed && Holds(s, r) && s.phases[r] == Waiting(IdFrom(s.next))
    ensures Lost(RunFrom(Step(s, Issue), [Poll(r)]), r)
  {
    OldSenderGone(s, r);
    RunOne(Step(s, Issue), Poll(r));
  }

  lemma OldRegisteredLost(s: Client, r: nat)
    requires Inv(s) && !s.closed && Holds(s, r) && r !in s.box && s.phases[r] == Registered(IdFrom(s.next))
    ensures Lost(RunFrom(Step(s, Issue), [Sent(r), Poll(r)]), r)
  {
    OldSenderGone(s, r);
    RunTwo(Step(s, Issue), Sent(r), Poll(r));
  }

  lemma NewLost(s: Client, r: nat, e: Event)
    requires Inv(s) && !s.closed && Holds(s, r) && s.phases[r].id == IdFrom(s.next)
    requires (e == SendFails(r) && s.phases[r].Registered?) || (e == GivesUp(r) && s.phases[r].GivingUp?)
    ensures Lost(RunFrom(Step(s, Issue), [e, Sent(|s.phases|), Poll(|s.phases|)]), |s.phases|)
  {
    var q, t := |s.phases|, Step(s, Issue);
    var u := Step(t, e);
    RunThree(t, e, Sent(q), Poll(q));
    assert u.pending == t.pending - {IdFrom(s.next)};
    forall id | id in u.pending
      ensures u.pending[id] != q
    {
      if id in s.pending { assert IdInv(s, id); }
    }
    assert q !in u.box && u.phases[q] == Registered(IdFrom(s.next));
  }

  function Issues(n: nat): seq<Event> { if n == 0 then [] else Issues(n - 1) + [Issue] }

  lemma {:induction false} RunIssues(n: nat)
    ensures Issued(Issues(n)) == n
    ensures var s := Run(Issues(n));
      && |s.phases| == n && s.next == (n + 1) % TWO_32 && s.box == map[] && !s.closed
      && forall r :: 0 <= r < n ==> s.phases[r] == Registered(IdOf(r))
  {
    if n > 0 {
      RunIssues(n - 1);
      assert Issues(n)[..|Issues(n)| - 1] == Issues(n - 1);
      NextCounts(n - 1);
    }
  }

  /** Such a state is reached: 2^32 - 1 requests of which the first has been sent and is waiting. */
  lemma ClashReached()
    ensures var evs := Issues(TWO_32 - 1) + [Sent(0)];
      && AllFresh(evs) && Inv(Run(evs)) && !Run(evs).closed
      && Run(evs).phases[..1] == [Waiting(1)] && Clash(Run(evs)) && CanLose(Step(Run(evs), Issue))
  {
    var few := Issues(TWO_32 - 1);
    var evs := few + [Sent(0)];
    RunIssues(TWO_32 - 1);
    assert evs[..|evs| - 1] == few;
    FewAreFresh(evs);
    RunKeeps(evs);
    var s := Run(evs);
    assert s.phases[0] == Waiting(1) && s.next == 0;
    assert Holds(s, 0);
    IssueLosesIff(s);
  }

  // ---------------------------------------------------------------- late answers

  /** Two requests have one identifier exactly when their numbers are 2^32 apart some times, where the
    * numbers that would give 0 and 1 both give 1. */
  lemma SameIdIff(r: nat, q: nat)
    ensures IdOf(r) == IdOf(q)
            <==> (r + 1) % TWO_32 == (q + 1) % TWO_32 || ((r + 1) % TWO_32 <= 1 && (q + 1) % TWO_32 <= 1)
  {
  }

  /** An answer that comes after its request is finished is taken for the answer to another request that
    * waits if and only if that one has got the same identifier. */
  lemma LateAnswerIff(s: Client, r: nat, q: nat, pdu: Pdu)
    requires Inv(s) && !s.closed && r < |s.phases| && s.phases[r].Done? && pdu.invoke == IdOf(r)
    requires q < |s.phases| && s.phases[q].Waiting? && q !in s.box
    ensures var s' := Step(s, Response(IdOf(r), pdu));
      q in s'.box && s'.box[q] == Ok(pdu) <==> IdOf(q) == IdOf(r)
  {
    assert ReqInv(s, q);
    var id := IdOf(r);
    if id in s.pending { assert IdInv(s, id) && ReqInv(s, s.pending[id]); }
  }

  /** Request 0 is sent and times out. */
  function Late(): seq<Event> { [Issue, Sent(0), TimesOut(0), GivesUp(0)] }

  lemma LateState()
    ensures Run(Late()) == Client(2, map[], map[], [Done(Err(Timeout))], false) && Issued(Late()) == 1
  {
    var evs := Late();
    assert evs[..4] == evs && evs[..4][..3] == evs[..3] && evs[..3][..2] == evs[..2] && evs[..2][..1] == evs[..1]
        && evs[..1][..0] == [];
    var s1, s2 := Client(2, map[1 := 0], map[], [Registered(1)], false),
                  Client(2, map[1 := 0], map[], [Waiting(1)], false);
    assert Run(evs[..1]) == Step(INIT, Issue) == s1 && Issued(evs[..1]) == 1;
    assert Run(evs[..2]) == Step(s1, Sent(0)) == s2 && Issued(evs[..2]) == 1;
    TimesOutWaiting(s2);
    assert Run(evs[..3]) == Step(s2, TimesOut(0)) && Issued(evs[..3]) == 1;
    assert map[1 := 0] - {1} == map[];
  }

  lemma TimesOutWaiting(s: Client)
    requires s == Client(2, map[1 := 0], map[], [Waiting(1)], false)
    ensures Step(s, TimesOut(0)) == Client(2, map[1 := 0], map[], [GivingUp(1)], false)
  {
    assert s.pending[1] == 0 && 0 in s.pending.Values;
  }

  /** `w` is `s` after `n` further requests. */
  ghost predicate Extends(s: Client, w: Client, n: nat) {
    && |w.phases| == |s.phases| + n && w.next == (s.next + n) % TWO_32 && w.box == s.box && w.closed == s.closed
    && w.phases[..|s.phases|] == s.phases
    && forall r :: |s.phases| <= r < |w.phases| ==> w.phases[r].Registered?
  }

  lemma OneMore(s: Client, w: Client, n: nat)
    requires n > 0 && Extends(s, w, n - 1)
    ensures Extends(s, Step(w, Issue), n)
  {
    assert ((s.next + n - 1) % TWO_32 + 1) % TWO_32 == (s.next + n) % TWO_32;
  }

  lemma {:induction false} IssuesAfter(pre: seq<Event>, n: nat)
    ensures Issued(pre + Issues(n)) == Issued(pre) + n && Extends(Run(pre), Run(pre + Issues(n)), n)
  {
    if n == 0 {
      assert pre + Issues(0) == pre;
    } else {
      IssuesAfter(pre, n - 1);
      IssuedOnce(Run(pre), pre + Issues(n - 1), n);
      assert pre + Issues(n) == pre + Issues(n - 1) + [Issue];
    }
  }

  lemma IssuedOnce(s: Client, evs: seq<Event>, n: nat)
    requires n > 0 && Extends(s, Run(evs), n - 1)
    ensures Extends(s, Run(evs + [Issue]), n) && Issued(evs + [Issue]) == Issued(evs) + 1
  {
    RunSnoc(evs, Issue);
    OneMore(s, Run(evs), n);
  }

  /** No request of such a run is issued with an identifier that another one holds. */
  lemma LateFresh(pre: seq<Event>, n: nat)
    requires Run(pre) == Client(2, map[], map[], [Done(Err(Timeout))], false) && Issued(pre) == 1 && n == TWO_32 - 1
    ensures AllFresh(pre + Issues(n)) && Extends(Run(pre), Run(pre + Issues(n)), n) && Inv(Run(pre + Issues(n)))
  {
    var front := pre + Issues(n - 1);
    LateNext(pre, n - 1);
    assert pre + Issues(n) == front + [Issue];
    FreshAppend(front, Issue);
    IssuesAfter(pre, n);
    RunKeeps(pre + Issues(n));
  }

  lemma LateNext(pre: seq<Event>, n: nat)
    requires Run(pre) == Client(2, map[], map[], [Done(Err(Timeout))], false) && Issued(pre) == 1 && n == TWO_32 - 2
    ensures AllFresh(pre + Issues(n)) && Fresh(Run(pre + Issues(n)), Issue)
  {
    IssuesAfter(pre, n);
    FewAreFresh(pre + Issues(n));
    RunKeeps(pre + Issues(n));
    var s := Run(pre + Issues(n));
    assert s.phases[0] == s.phases[..1][0];
    NoneHoldsOne(s);
  }

  /** So the answer to a request that has timed out can be given to one issued 2^32 - 1 requests later. */
  lemma LateAnswerReached(pdu: Pdu)
    requires pdu.invoke == 1
    ensures var n: nat := TWO_32 - 1;
      var evs := Late() + Issues(n) + [Sent(n)];
      && AllFresh(evs) && n < |Run(evs).phases| && Run(evs).phases[0] == Done(Err(Timeout)) && IdOf(0) == 1
      && Run(evs).phases[n].Waiting? && n !in Run(evs).box
      && n in Step(Run(evs), Response(1, pdu)).box && Step(Run(evs), Response(1, pdu)).box[n] == Ok(pdu)
  {
    var n: nat := TWO_32 - 1;
    var pre := Late() + Issues(n);
    LateState();
    LateFresh(Late(), n);
    FreshAppend(pre, Sent(n));
    SentLate(pre, n);
    LateAnswered(Run(pre + [Sent(n)]), n, pdu);
  }

  lemma LateAnswered(s: Client, n: nat, pdu: Pdu)
    requires pdu.invoke == 1 && n == TWO_32 - 1 && Inv(s) && !s.closed && s.box == map[] && |s.phases| == n + 1
    requires s.phases[0] == Done(Err(Timeout)) && s.phases[n].Waiting?
    ensures IdOf(0) == 1 && n in Step(s, Response(1, pdu)).box && Step(s, Response(1, pdu)).box[n] == Ok(pdu)
  {
    LateAnswerIff(s, 0, n, pdu);
  }

  lemma SentLate(pre: seq<Event>, n: nat)
    requires AllFresh(pre) && n > 0 && Inv(Run(pre))
    requires Extends(Client(2, map[], map[], [Done(Err(Timeout))], false), Run(pre), n)
    ensures var s := Run(pre + [Sent(n)]);
      && Inv(s) && !s.closed && s.box == map[] && |s.phases| == n + 1 && s.phases[0] == Done(Err(Timeout))
      && s.phases[n].Waiting?
  {
    var evs := pre + [Sent(n)];
    assert evs[..|evs| - 1] == pre && evs[|evs| - 1] == Sent(n);
    assert Run(pre).phases[0] == Run(pre).phases[..1][0];
    StepKeeps(Run(pre), Sent(n));
  }

  /** Before the counter comes round, only request 0 has identifier 1. */
  lemma NoneHoldsOne(s: Client)
    requires Inv(s) && 0 < |s.phases| < TWO_32 && s.phases[0].Done? && s.next == 0
    ensures Fresh(s, Issue)
  {
    forall r: nat | Holds(s, r)
      ensures s.phases[r].id != IdFrom(s.next)
    {
      assert ReqInv(s, r);
    }
  }
}
