/** What follows for callers of `upload_file`: when a further request is served, when none is any
  * more, what each call is told, and that calls made one after the other are all faithful. */
module UploadRuns {
  import opened Wrappers
  import opened Numbers
  import opened ObtainFile
  import opened Uploads

  // ---------------------------------------------------------------- a further request

  predicate CloseUnderway(w: World) {
    match Outstanding(w)
    case Some(m) => m.CloseReq? || m.CloseResp?
    case None => false
  }

  /** Some action of the run has this effect. */
  predicate Occurs(w: World, acts: seq<Action>, e: Effect) {
    |acts| > 0 && (Occurs(w, acts[..|acts| - 1], e) || EffectOf(After(w, acts[..|acts| - 1]), acts[|acts| - 1]) == e)
  }

  lemma IdleStep(w: World, a: Action)
    requires Inv(CoreOf(w)) && w.server.obtain.None? && !EffectOf(w, a).Accepts?
    requires CloseUnderway(w) || Outstanding(w).None?
    ensures var w' := Act(w, a);
      && w'.server == w.server
      && if CloseUnderway(w) && !EffectOf(w, a).Takes? then CloseUnderway(w') else Outstanding(w').None?
  {
    ActCore(w, a);
    match EffectOf(w, a)
    case Takes => IdleTakes(CoreOf(w));
    case Serves =>
      ServesClose(w, a);
      IdleServes(CoreOf(w), w.client.offered);
    case _ =>
  }

  lemma IdleTakes(c: Core)
    requires Inv(c) && c.server.obtain.None? && c.resps != []
    ensures Take(c).server == c.server && Pipe(Take(c)) == []
  {
    TakePipe(c);
    Taken(c.server, c.resps[0]);
  }

  lemma IdleServes(c: Core, offered: map<string, Data>)
    requires Inv(c) && c.server.obtain.None? && c.reqs != [] && Pipe(c)[0].CloseReq?
    ensures Serve(c, offered).server == c.server
    ensures Pipe(Serve(c, offered)) == [CloseResp(Pipe(c)[0].invoke)]
  {
    ServePipe(c, offered);
    var p := Pipe(c);
    assert p == [p[0]] && p[1..] == [] && p[..0] == [];
  }

  lemma ServesClose(w: World, a: Action)
    requires Inv(CoreOf(w)) && w.server.obtain.None? && EffectOf(w, a).Serves? && CloseUnderway(w)
    ensures Pipe(CoreOf(w))[0].CloseReq?
  {
    ActCore(w, a);
    ServePipe(CoreOf(w), w.client.offered);
  }

  lemma {:induction false} IdleRun(w: World, acts: seq<Action>)
    requires Inv(CoreOf(w)) && w.server.obtain.None? && CloseUnderway(w) && !Occurs(w, acts, Accepts)
    ensures var w' := After(w, acts);
      && Inv(CoreOf(w')) && w'.server == w.server
      && if Occurs(w, acts, Takes) then Outstanding(w').None? else CloseUnderway(w')
  {
    if |acts| > 0 {
      var u, a := After(w, acts[..|acts| - 1]), acts[|acts| - 1];
      IdleRun(w, acts[..|acts| - 1]);
      IdleStep(u, a);
      StepInv(u, a);
    }
  }

  predicate LastSent(w: World, m: Msg) { w.toClient != [] && w.toClient[|w.toClient| - 1] == m }

  lemma EndsWith(t: Transfer, w: World, w': World, own: Reply, older: Reply)
    requires EndsAs(t, w, w', own, older)
    ensures var v := Verdict(t, own, older);
      && LastSent(w', if v.Some? then ObtainResp(t.invoke) else ErrorResp(t.invoke))
      && w'.server.files == (if v.Some? then t.files[t.dest := v.value] else t.files)
      && (Undisturbed(t, older) ==> v.Some?)
      && w'.client == w.client
      && (v.Some? ==> CloseUnderway(w'))
  {
    var v := Verdict(t, own, older);
    var msgs :| EndsBy(t, w, w', msgs, v, Undisturbed(t, older));
    assert w'.toClient[|w'.toClient| - 1] == msgs[|msgs| - 1];
  }

  /** The end of an upload whose request the server accepts in `w`. */
  function EndOf(w: World, acts: seq<Action>, a: Action): World { Act(After(Act(w, Arrive(ToServer)), acts), a) }

  lemma FailsAfterClose(w: World, acts: seq<Action>, a: Action)
    requires Accepting(w) && EndsAfter(w, acts, a) && CloseUnderway(w)
    ensures var w' := EndOf(w, acts, a);
      LastSent(w', ErrorResp(TransferOf(w).invoke)) && w'.server.files == w.server.files
  {
    var t, w1 := TransferOf(w), Act(w, Arrive(ToServer));
    UploadEnds(w, acts, a);
    EndsWith(t, After(w1, acts), EndOf(w, acts, a), OwnReply(w, acts),
             ReplyAfter(w1, acts, OlderNumber(t), OlderReply(w)));
  }

  lemma SucceedsWhenClear(w: World, acts: seq<Action>, a: Action)
    requires Accepting(w) && EndsAfter(w, acts, a) && Outstanding(w).None?
    ensures LastSent(EndOf(w, acts, a), ObtainResp(TransferOf(w).invoke))
  {
    var t, w1 := TransferOf(w), Act(w, Arrive(ToServer));
    UploadEnds(w, acts, a);
    EndsWith(t, After(w1, acts), EndOf(w, acts, a), OwnReply(w, acts),
             ReplyAfter(w1, acts, OlderNumber(t), OlderReply(w)));
  }

  /** A file has been stored, and the close of its handle is outstanding; `gap` leads to the next
    * request the server accepts, and `acts` from there to its end. It is answered with success if and
    * only if the server has taken the answer to the close before; otherwise nothing is stored. */
  lemma {:induction false} FurtherServedIff(w: World, gap: seq<Action>, acts: seq<Action>, a: Action)
    requires Inv(CoreOf(w)) && w.server.obtain.None? && CloseUnderway(w) && !Occurs(w, gap, Accepts)
    requires Accepting(After(w, gap)) && EndsAfter(After(w, gap), acts, a)
    ensures var u := After(w, gap);
      var i, w' := TransferOf(u).invoke, EndOf(u, acts, a);
      && LastSent(w', if Occurs(w, gap, Takes) then ObtainResp(i) else ErrorResp(i))
      && (!Occurs(w, gap, Takes) ==> w'.server.files == w.server.files)
  {
    var u := After(w, gap);
    IdleRun(w, gap);
    if Occurs(w, gap, Takes) { SucceedsWhenClear(u, acts, a); } else { FailsAfterClose(u, acts, a); }
  }

  /** Every file that is stored leaves such a state. */
  lemma StoredLeavesClose(w: World, acts: seq<Action>, a: Action)
    requires Accepting(w) && EndsAfter(w, acts, a)
    requires LastSent(EndOf(w, acts, a), ObtainResp(TransferOf(w).invoke))
    ensures var w' := EndOf(w, acts, a);
      Inv(CoreOf(w')) && w'.server.obtain.None? && CloseUnderway(w')
  {
    var t, w1 := TransferOf(w), Act(w, Arrive(ToServer));
    UploadEnds(w, acts, a);
    EndsWith(t, After(w1, acts), EndOf(w, acts, a), OwnReply(w, acts),
             ReplyAfter(w1, acts, OlderNumber(t), OlderReply(w)));
    EndKeepsInv(w, acts, a);
  }

  lemma EndKeepsInv(w: World, acts: seq<Action>, a: Action)
    requires Inv(CoreOf(w))
    ensures Inv(CoreOf(EndOf(w, acts, a)))
  {
    var w1 := Act(w, Arrive(ToServer));
    StepInv(w, Arrive(ToServer));
    RunKeepsInv(w1, acts);
    StepInv(After(w1, acts), a);
  }

  lemma {:induction false} RunKeepsInv(w: World, acts: seq<Action>)
    requires Inv(CoreOf(w))
    ensures Inv(CoreOf(After(w, acts)))
  {
    if |acts| > 0 {
      RunKeepsInv(w, acts[..|acts| - 1]);
      StepInv(After(w, acts[..|acts| - 1]), acts[|acts| - 1]);
    }
  }

  // ---------------------------------------------------------------- no further request

  /** The server waits for an open that the client has ignored, with nothing else outstanding. */
  ghost predicate Blocked(w: World) {
    && Outstanding(w).None? && w.server.obtain.Some? && w.server.obtain.value.frsm.None?
  }

  /** Then it waits for good, and refuses every upload. */
  lemma {:induction false} BlockedForGood(w: World, acts: seq<Action>)
    requires Blocked(w)
    ensures Blocked(After(w, acts)) && After(w, acts).server == w.server
  {
    if |acts| > 0 {
      BlockedForGood(w, acts[..|acts| - 1]);
      BlockedStep(After(w, acts[..|acts| - 1]), acts[|acts| - 1]);
    }
  }

  lemma BlockedStep(w: World, a: Action)
    requires Blocked(w)
    ensures Blocked(Act(w, a)) && Act(w, a).server == w.server
    ensures a == Arrive(ToServer) && w.toServer != [] ==>
      w.toServer[0].ObtainReq? && Act(w, a).toClient == w.toClient + [ErrorResp(w.toServer[0].invoke)]
  {
    ActCore(w, a);
    if a.Arrive? && w.toServer != [] { OnlyHead(true, w.toServer); }
  }

  /** That is where an upload accepted with nothing outstanding ends up exactly when its file is no
    * longer offered at the moment its open request is served. */
  lemma {:induction false} BlockedIff(w: World, acts: seq<Action>)
    requires Accepting(w) && Outstanding(w).None? && Lasts(Act(w, Arrive(ToServer)), acts)
    ensures var t, w1 := TransferOf(w), Act(w, Arrive(ToServer));
      Blocked(After(w1, acts)) <==>
        exists n: nat :: n < |acts| && OpensAt(w1, acts, n, t.number) && LastOffer(w1, acts[..n], t.source).None?
  {
    var t, w1 := TransferOf(w), Act(w, Arrive(ToServer));
    var own := OwnReply(w, acts);
    AcceptedDuring(w);
    RunDuring(t, w1, acts, Pending, OlderReply(w));
    BlockedMeans(t, After(w1, acts), own, ReplyAfter(w1, acts, OlderNumber(t), OlderReply(w)));
    OwnReplyIs(w, acts);
    if n: nat :| n < |acts| && OpensAt(w1, acts, n, t.number) && LastOffer(w1, acts[..n], t.source).None? {
      IgnoredStays(w, acts, n);
    }
  }

  lemma BlockedMeans(t: Transfer, w: World, own: Reply, older: Reply)
    requires During(t, CoreOf(w), own, older) && t.before.None?
    ensures Blocked(w) <==> own.Ignored?
  {
  }

  /** A request is served once. */
  lemma {:induction false} IgnoredStays(w: World, acts: seq<Action>, n: nat)
    requires Accepting(w) && Outstanding(w).None? && Lasts(Act(w, Arrive(ToServer)), acts)
    requires var t, w1 := TransferOf(w), Act(w, Arrive(ToServer));
      n < |acts| && OpensAt(w1, acts, n, t.number) && LastOffer(w1, acts[..n], t.source).None?
    ensures OwnReply(w, acts).Ignored?
  {
    var t, w1, front := TransferOf(w), Act(w, Arrive(ToServer)), acts[..|acts| - 1];
    LastsFront(w1, acts);
    if n < |front| {
      assert front[..n] == acts[..n];
      IgnoredStays(w, front, n);
    } else {
      var older := ReplyAfter(w1, front, OlderNumber(t), OlderReply(w));
      AcceptedDuring(w);
      RunDuring(t, w1, front, Pending, OlderReply(w));
      ServesOwn(t, After(w1, front), acts[n], OwnReply(w, front), older);
      OfferIs(w1, front, t.source);
    }
  }

  lemma ServesOwn(t: Transfer, w: World, a: Action, own: Reply, older: Reply)
    requires During(t, CoreOf(w), own, older) && t.before.None? && EffectOf(w, a).Serves?
    requires w.toClient[0].OpenReq? && w.toClient[0].invoke == t.number
    ensures own.Pending? && w.toClient[0].name == t.source
  {
    ActCore(w, a);
    PipeAt(CoreOf(w));
  }

  // ---------------------------------------------------------------- how it goes wrong

  /** A file of one block, offered and asked for. */
  function Asked(invoke: nat, source: string, dest: string, data: Data): seq<Action> {
    [Begin(invoke, source, dest, data), Send(invoke)]
  }

  /** The server accepts the request, the client opens the file, and its only block is on the way. */
  function OneBlock(): seq<Action> { [Arrive(ToServer), Arrive(ToClient), Arrive(ToServer), Arrive(ToClient)] }

  lemma {:induction false} AfterConcat(w: World, a: seq<Action>, b: seq<Action>)
    ensures After(w, a + b) == After(After(w, a), b)
  {
    if |b| == 0 {
      assert a + b == a;
    } else {
      AfterConcat(w, a, b[..|b| - 1]);
      assert (a + b)[..|a + b| - 1] == a + b[..|b| - 1];
    }
  }

  lemma AfterTwo(w: World, a: Action, b: Action)
    ensures After(w, [a]) == Act(w, a) && After(w, [a, b]) == Act(Act(w, a), b)
  {
    assert [a][..0] == [] && [a, b][..1] == [a];
  }

  lemma {:induction false} AfterAsked(w: World, invoke: nat, source: string, dest: string, data: Data)
    requires invoke !in w.client.calls
    ensures var w' := After(w, Asked(invoke, source, dest, data));
      && w'.client == Client(w.client.offered[source := data], w.client.handles,
                             w.client.calls[invoke := Call(source, dest, data, Waiting)])
      && w' == w.(client := w'.client, toServer := w.toServer + [ObtainReq(invoke, source, dest)])
  {
    AfterTwo(w, Begin(invoke, source, dest, data), Send(invoke));
    var c: map<nat, Call> := w.client.calls[invoke := Call(source, dest, data, Offering)];
    assert c[invoke := Call(source, dest, data, Waiting)]
        == w.client.calls[invoke := Call(source, dest, data, Waiting)];
  }

  /** The four deliveries of a file of one block, `data` being what is offered. */
  lemma {:induction false} AfterOneBlock(w: World, i: nat, source: string, dest: string, data: Data)
    requires Ready(w.server) && w.toServer == [ObtainReq(i, source, dest)] && w.toClient == []
    requires Offer(w.client, source) == Some(data) && |data| <= FILE_READ_CHUNK
    ensures var w1, w4 := Act(w, Arrive(ToServer)), After(w, OneBlock());
      var h, o := MaxHandle(w.client.handles.Keys) + 1, w.server.nextOut;
      && Lasts(w1, OneBlock()[1..]) && w4 == After(w1, OneBlock()[1..])
      && w4.toServer == [ReadResp(o + 2, data, false)] && w4.toClient == []
      && w4.server == w.server.(nextOut := o + 2, obtain := Some(Obtain(i, dest, Some(h), [])))
      && w4.client == w.client.(handles := w.client.handles[h := ReverseRead(data, |data|)])
  {
    var s, c := Arrive(ToServer), Arrive(ToClient);
    var w1 := Act(w, s);
    OneBlockOpens(w, i, source, dest, data);
    OneBlockRead(Act(w1, c), i, dest, data);
    ThreeLast(w1, c, s, c);
    assert OneBlock()[1..] == [c, s, c] && OneBlock() == [s] + [c, s, c];
    AfterTwo(w, s, c);
    AfterConcat(w, [s], [c, s, c]);
  }

  lemma OneBlockOpens(w: World, i: nat, source: string, dest: string, data: Data)
    requires Ready(w.server) && w.toServer == [ObtainReq(i, source, dest)] && w.toClient == []
    requires Offer(w.client, source) == Some(data)
    ensures var w1 := Act(w, Arrive(ToServer));
      var h, o, w2 := MaxHandle(w.client.handles.Keys) + 1, w.server.nextOut, Act(w1, Arrive(ToClient));
      && w1.server.obtain.Some? && w2.toServer == [OpenResp(o + 1, h)] && w2.toClient == []
      && w2.server == w.server.(nextOut := o + 1, obtain := Some(Obtain(i, dest, None, [])))
      && w2.client == w.client.(handles := w.client.handles[h := ReverseRead(data, 0)])
  {
    StepAccepts(w, i, source, dest);
    var w1 := Act(w, Arrive(ToServer));
    assert w1.toClient == [OpenReq(w.server.nextOut + 1, source)] && w1.toClient[1..] == [];
    StepOpens(w1, data);
  }

  lemma OneBlockRead(w: World, i: nat, dest: string, data: Data)
    requires w.toServer != [] && w.toServer[0].OpenResp? && w.toServer[1..] == [] && w.toClient == []
    requires w.server.obtain == Some(Obtain(i, dest, None, [])) && |data| <= FILE_READ_CHUNK
    requires var h := w.toServer[0].frsm; h in w.client.handles && w.client.handles[h] == ReverseRead(data, 0)
    ensures var h, o := w.toServer[0].frsm, w.server.nextOut;
      var w3 := Act(w, Arrive(ToServer));
      var w4 := Act(w3, Arrive(ToClient));
      && w3.server.obtain.Some? && w4.toServer == [ReadResp(o + 1, data, false)] && w4.toClient == []
      && w4.server == w.server.(nextOut := o + 1, obtain := Some(Obtain(i, dest, Some(h), [])))
      && w4.client == w.client.(handles := w.client.handles[h := ReverseRead(data, |data|)])
  {
    var w3 := Act(w, Arrive(ToServer));
    StepTakesOpen(w, i, dest);
    assert w3.toClient == [ReadReq(w.server.nextOut + 1, w.toServer[0].frsm)] && w3.toClient[1..] == [];
    StepReads(w3, data);
  }

  // One delivery each.

  lemma StepAccepts(w: World, i: nat, source: string, dest: string)
    requires Ready(w.server) && w.toServer == [ObtainReq(i, source, dest)]
    ensures var o := w.server.nextOut;
      Act(w, Arrive(ToServer)) ==
      World(w.client, w.server.(nextOut := o + 1, obtain := Some(Obtain(i, dest, None, []))), [],
            w.toClient + [OpenReq(o + 1, source)], w.readsAsked)
  {
    assert w.toServer[1..] == [];
  }

  lemma StepTakesOpen(w: World, i: nat, dest: string)
    requires w.toServer != [] && w.toServer[0].OpenResp? && w.server.obtain == Some(Obtain(i, dest, None, []))
    ensures var o, h := w.server.nextOut, w.toServer[0].frsm;
      Act(w, Arrive(ToServer)) ==
      World(w.client, w.server.(nextOut := o + 1, obtain := Some(Obtain(i, dest, Some(h), []))), w.toServer[1..],
            w.toClient + [ReadReq(o + 1, h)], w.readsAsked + 1)
  {
  }

  lemma StepOpens(w: World, data: Data)
    requires w.toClient != [] && w.toClient[0].OpenReq? && Offer(w.client, w.toClient[0].name) == Some(data)
    ensures var h := MaxHandle(w.client.handles.Keys) + 1;
      Act(w, Arrive(ToClient)) ==
      World(w.client.(handles := w.client.handles[h := ReverseRead(data, 0)]), w.server,
            w.toServer + [OpenResp(w.toClient[0].invoke, h)], w.toClient[1..], w.readsAsked)
  {
  }

  lemma StepIgnores(w: World)
    requires w.toClient != [] && w.toClient[0].OpenReq? && w.toClient[0].name !in w.client.offered
    ensures Act(w, Arrive(ToClient)) == w.(toClient := w.toClient[1..])
  {
    assert w.toServer + [] == w.toServer;
  }

  lemma StepReads(w: World, data: Data)
    requires w.toClient != [] && w.toClient[0].ReadReq? && |data| <= FILE_READ_CHUNK
    requires var h := w.toClient[0].frsm; h in w.client.handles && w.client.handles[h] == ReverseRead(data, 0)
    ensures var h := w.toClient[0].frsm;
      Act(w, Arrive(ToClient)) ==
      World(w.client.(handles := w.client.handles[h := ReverseRead(data, |data|)]), w.server,
            w.toServer + [ReadResp(w.toClient[0].invoke, data, false)], w.toClient[1..], w.readsAsked)
  {
    assert data[0..|data|] == data;
  }

  lemma StepCloses(w: World)
    requires w.toClient != [] && w.toClient[0].CloseReq?
    ensures Act(w, Arrive(ToClient)) ==
      World(w.client.(handles := w.client.handles - {w.toClient[0].frsm}), w.server,
            w.toServer + [CloseResp(w.toClient[0].invoke)], w.toClient[1..], w.readsAsked)
  {
  }

  lemma StepTells(w: World)
    requires w.toClient != [] && (w.toClient[0].ObtainResp? || w.toClient[0].ErrorResp?)
    ensures Act(w, Arrive(ToClient)) ==
      World(Told(w.client, w.toClient[0].invoke, w.toClient[0].ObtainResp?), w.server, w.toServer, w.toClient[1..],
            w.readsAsked)
  {
    assert w.toServer + [] == w.toServer;
  }

  lemma StepKills(w: World, i: nat, dest: string)
    requires w.toServer != [] && w.toServer[0].CloseResp? && w.server.obtain == Some(Obtain(i, dest, None, []))
    ensures Act(w, Arrive(ToServer)) ==
      World(w.client, w.server.(obtain := None), w.toServer[1..], w.toClient + [ErrorResp(i)], w.readsAsked)
  {
  }

  lemma ThreeLast(w: World, a: Action, b: Action, c: Action)
    ensures var w1 := Act(w, a);
      var w2 := Act(w1, b);
      var w3 := Act(w2, c);
      && After(w, [a, b, c]) == w3
      && (w.server.obtain.Some? && w1.server.obtain.Some? && w2.server.obtain.Some? && w3.server.obtain.Some? ==>
            Lasts(w, [a, b, c]))
  {
    var acts := [a, b, c];
    AfterTwo(w, a, b);
    assert acts[..0] == [] && acts[..1] == [a] && acts[..2] == [a, b] && acts[..3] == acts;
    assert After(w, []) == w && After(w, acts) == Act(After(w, acts[..2]), c);
  }

  lemma OneBlockEnds(w: World, i: nat, source: string, dest: string, data: Data)
    requires Ready(w.server) && w.toServer == [ObtainReq(i, source, dest)] && w.toClient == []
    requires Offer(w.client, source) == Some(data) && |data| <= FILE_READ_CHUNK
    ensures EndsAfter(w, OneBlock()[1..], Arrive(ToServer))
    ensures var w' := EndOf(w, OneBlock()[1..], Arrive(ToServer));
      LastSent(w', ObtainResp(i)) && w'.server.files == w.server.files[dest := data]
  {
    AfterOneBlock(w, i, source, dest, data);
    assert [] + data == data;
  }

  /** A call offers its file and asks for it, and a second one offers another under the same name. */
  function RivalRun(source: string, d1: string, x1: Data, d2: string, x2: Data): seq<Action> {
    Asked(1, source, d1, x1) + [Begin(2, source, d2, x2)]
  }

  lemma {:induction false} RivalWorld(w0: World, source: string, d1: string, x1: Data, d2: string, x2: Data)
    requires Initial(w0) && w0.client.calls == map[]
    ensures var w := After(w0, RivalRun(source, d1, x1, d2, x2));
      && w.server == w0.server && w.toServer == [ObtainReq(1, source, d1)] && w.toClient == []
      && Offer(w.client, source) == Some(x2) && Inv(CoreOf(w))
  {
    var r, b := Asked(1, source, d1, x1), Begin(2, source, d2, x2);
    AfterAsked(w0, 1, source, d1, x1);
    AfterConcat(w0, r, [b]);
    AfterTwo(After(w0, r), b, b);
    RunInv(w0, r + [b]);
  }

  lemma NothingOutstanding(w: World)
    requires w.toServer != [] && w.toServer[1..] == [] && w.toServer[0].ObtainReq? && w.toClient == []
    ensures Outstanding(w).None?
  {
    OnlyHead(true, w.toServer);
  }

  /** A second call begins with the same source name and other octets before the open of the first is
    * served: these are stored for the first, which is told of success. */
  lemma {:induction false} SameSourceReached(w0: World, source: string, d1: string, x1: Data, d2: string, x2: Data)
    requires Initial(w0) && Ready(w0.server) && w0.client.calls == map[]
    requires x1 != x2 && |x2| <= FILE_READ_CHUNK
    ensures var w := After(w0, RivalRun(source, d1, x1, d2, x2));
      && Accepting(w) && Outstanding(w).None? && EndsAfter(w, OneBlock()[1..], Arrive(ToServer))
      && var w' := EndOf(w, OneBlock()[1..], Arrive(ToServer));
         && LastSent(w', ObtainResp(1))
         && w'.server.files == w0.server.files[d1 := x2] && w'.server.files != w0.server.files[d1 := x1]
  {
    var w := After(w0, RivalRun(source, d1, x1, d2, x2));
    RivalWorld(w0, source, d1, x1, d2, x2);
    OneBlockEnds(w, 1, source, d1, x2);
    NothingOutstanding(w);
    assert w0.server.files[d1 := x2][d1] != w0.server.files[d1 := x1][d1];
  }

  /** A second request delivered between the write of the first and the answer to its close fails, with
    * its own file offered and no other fault. */
  lemma {:induction false} LateReached(w0: World, s1: string, d1: string, x1: Data, s2: string, d2: string, x2: Data)
    requires Initial(w0) && Ready(w0.server) && w0.client.calls == map[] && |x1| <= FILE_READ_CHUNK
    ensures var w := After(w0, LateRun(s1, d1, x1, s2, d2, x2));
      && w.server.files == w0.server.files[d1 := x1] && LastSent(w, ObtainResp(1))
      && Accepting(w) && CloseUnderway(w) && Offer(w.client, s2) == Some(x2)
      && EndsAfter(w, [Arrive(ToClient)], Arrive(ToServer))
      && var w' := EndOf(w, [Arrive(ToClient)], Arrive(ToServer));
         LastSent(w', ErrorResp(2)) && w'.server.files == w.server.files
  {
    var w := LateWorld(w0, s1, d1, x1, s2, d2, x2);
    var s, c := Arrive(ToServer), Arrive(ToClient);
    LateEnds(w, s2, d2);
    FailsAfterClose(w, [c], s);
  }

  lemma LateEnds(w: World, s2: string, d2: string)
    requires Ready(w.server) && w.toServer == [ObtainReq(2, s2, d2)] && w.toClient != [] && w.toClient[0].CloseReq?
    ensures EndsAfter(w, [Arrive(ToClient)], Arrive(ToServer))
  {
    var s, c := Arrive(ToServer), Arrive(ToClient);
    var w1 := Act(w, s);
    StepAccepts(w, 2, s2, d2);
    StepCloses(w1);
    StepKills(Act(w1, c), 2, d2);
    AfterTwo(w1, c, c);
    assert [c][..0] == [] && [c][..1] == [c] && After(w1, []) == w1;
  }

  function LateRun(s1: string, d1: string, x1: Data, s2: string, d2: string, x2: Data): seq<Action> {
    Asked(1, s1, d1, x1) + OneBlock() + Asked(2, s2, d2, x2) + [Arrive(ToServer)]
  }

  lemma LateWorld(w0: World, s1: string, d1: string, x1: Data, s2: string, d2: string, x2: Data) returns (w: World)
    requires Initial(w0) && Ready(w0.server) && w0.client.calls == map[] && |x1| <= FILE_READ_CHUNK
    ensures w == After(w0, LateRun(s1, d1, x1, s2, d2, x2)) && Inv(CoreOf(w))
    ensures var h, o := MaxHandle(w0.client.handles.Keys) + 1, w0.server.nextOut;
      && w.server == w0.server.(files := w0.server.files[d1 := x1], nextOut := o + 3)
      && w.toServer == [ObtainReq(2, s2, d2)] && w.toClient == [CloseReq(o + 3, h), ObtainResp(1)]
      && w.client == Client(w0.client.offered[s1 := x1][s2 := x2], w0.client.handles[h := ReverseRead(x1, |x1|)],
                            map[1 := Call(s1, d1, x1, Waiting), 2 := Call(s2, d2, x2, Waiting)])
  {
    var r1, r2 := Asked(1, s1, d1, x1), Asked(2, s2, d2, x2);
    var u := FirstBlock(w0, s1, d1, x1);
    AfterAsked(u, 2, s2, d2, x2);
    w := Act(After(u, r2), Arrive(ToServer));
    WritesLast(After(u, r2), w0.server, x1, d1, MaxHandle(w0.client.handles.Keys) + 1, ObtainReq(2, s2, d2));
    FourParts(w0, r1, OneBlock(), r2, Arrive(ToServer));
    RunInv(w0, LateRun(s1, d1, x1, s2, d2, x2));
  }

  lemma FirstBlock(w0: World, s1: string, d1: string, x1: Data) returns (u: World)
    requires Initial(w0) && Ready(w0.server) && w0.client.calls == map[] && |x1| <= FILE_READ_CHUNK
    ensures u == After(After(w0, Asked(1, s1, d1, x1)), OneBlock())
    ensures var h, o := MaxHandle(w0.client.handles.Keys) + 1, w0.server.nextOut;
      && u.server == w0.server.(nextOut := o + 2, obtain := Some(Obtain(1, d1, Some(h), [])))
      && u.toServer == [ReadResp(o + 2, x1, false)] && u.toClient == []
      && u.client == Client(w0.client.offered[s1 := x1], w0.client.handles[h := ReverseRead(x1, |x1|)],
                            map[1 := Call(s1, d1, x1, Waiting)])
  {
    AfterAsked(w0, 1, s1, d1, x1);
    u := BlockOf(After(w0, Asked(1, s1, d1, x1)), 1, s1, d1, x1);
  }

  lemma BlockOf(w: World, i: nat, source: string, dest: string, data: Data) returns (u: World)
    requires Ready(w.server) && w.toServer == [ObtainReq(i, source, dest)] && w.toClient == []
    requires Offer(w.client, source) == Some(data) && |data| <= FILE_READ_CHUNK
    ensures u == After(w, OneBlock())
    ensures var h, o := MaxHandle(w.client.handles.Keys) + 1, w.server.nextOut;
      && u.toServer == [ReadResp(o + 2, data, false)] && u.toClient == []
      && u.server == w.server.(nextOut := o + 2, obtain := Some(Obtain(i, dest, Some(h), [])))
      && u.client == w.client.(handles := w.client.handles[h := ReverseRead(data, |data|)])
  {
    AfterOneBlock(w, i, source, dest, data);
    u := After(w, OneBlock());
  }

  lemma WritesLast(w: World, s: Server, x: Data, dest: string, h: int, next: Msg)
    requires Ready(s) && w.toClient == [] && w.toServer == [ReadResp(s.nextOut + 2, x, false), next]
    requires w.server == s.(nextOut := s.nextOut + 2, obtain := Some(Obtain(1, dest, Some(h), [])))
    ensures var w' := Act(w, Arrive(ToServer));
      && w'.server == s.(files := s.files[dest := x], nextOut := s.nextOut + 3) && w'.client == w.client
      && w'.toServer == [next] && w'.toClient == [CloseReq(s.nextOut + 3, h), ObtainResp(1)]
  {
    assert [] + x == x;
    assert w.toServer[1..] == [next];
  }

  lemma FourParts(w: World, a: seq<Action>, b: seq<Action>, c: seq<Action>, d: Action)
    ensures After(w, a + b + c + [d]) == Act(After(After(After(w, a), b), c), d)
  {
    AfterConcat(w, a, b);
    AfterConcat(w, a + b, c);
    AfterConcat(w, a + b + c, [d]);
    AfterTwo(After(After(After(w, a), b), c), d, d);
  }

  lemma AfterThree(w: World, a: Action, b: Action, c: Action)
    ensures After(w, [a, b, c]) == Act(Act(Act(w, a), b), c)
  {
    ThreeLast(w, a, b, c);
  }

  /** The late request fails, and leaves its open request behind. */
  lemma {:induction false} LateFails(w: World, close: Msg, s2: string, d2: string)
    requires Ready(w.server) && w.toServer == [ObtainReq(2, s2, d2)]
    requires w.toClient == [close, ObtainResp(1)] && close.CloseReq?
    ensures var w' := After(w, [Arrive(ToServer), Arrive(ToClient), Arrive(ToServer)]);
      && w'.server == w.server.(nextOut := w.server.nextOut + 1) && w'.toServer == []
      && w'.toClient == [ObtainResp(1), OpenReq(w.server.nextOut + 1, s2), ErrorResp(2)]
      && w'.client == w.client.(handles := w.client.handles - {close.frsm})
  {
    var s, c, open := Arrive(ToServer), Arrive(ToClient), OpenReq(w.server.nextOut + 1, s2);
    AfterThree(w, s, c, s);
    StepAccepts(w, 2, s2, d2);
    var w1 := Act(w, s);
    StepCloses(w1);
    var w2 := Act(w1, c);
    assert w1.toClient[1..] == [ObtainResp(1), open] && w2.toServer[1..] == [];
    StepKills(w2, 2, d2);
  }

  /** A third upload is accepted before that open request is served. */
  lemma {:induction false} ThirdAccepted(w: World, open: Msg, s3: string, d3: string, x2: Data)
    requires Ready(w.server) && w.toServer == [ObtainReq(3, s3, d3)]
    requires w.toClient == [ObtainResp(1), open, ErrorResp(2)] && open.OpenReq?
    requires Offer(w.client, open.name) == Some(x2) && InStage(w.client, 3, Waiting) && w.client.calls[3].source == s3
    ensures var o, h := w.server.nextOut, MaxHandle(w.client.handles.Keys) + 1;
      var w' := After(w, [Arrive(ToServer), Arrive(ToClient), Arrive(ToClient)]);
      && w'.server == w.server.(nextOut := o + 1, obtain := Some(Obtain(3, d3, None, [])))
      && w'.toServer == [OpenResp(open.invoke, h)] && w'.toClient == [ErrorResp(2), OpenReq(o + 1, s3)]
      && InStage(w'.client, 3, Waiting) && w'.client.calls[3].source == s3
      && h in w'.client.handles && w'.client.handles[h] == ReverseRead(x2, 0)
  {
    var s, c, o := Arrive(ToServer), Arrive(ToClient), w.server.nextOut;
    AfterThree(w, s, c, c);
    StepAccepts(w, 3, s3, d3);
    var w1 := Act(w, s);
    assert w1.toClient == [ObtainResp(1), open, ErrorResp(2), OpenReq(o + 1, s3)];
    StepTells(w1);
    var w2 := Act(w1, c);
    assert w2.toClient == [open, ErrorResp(2), OpenReq(o + 1, s3)];
    StepOpens(w2, x2);
    assert w2.toClient[1..] == [ErrorResp(2), OpenReq(o + 1, s3)] && w2.toServer == [];
  }

  /** It takes the answer for its own, and its call gives up. */
  lemma {:induction false} ThirdMisled(w: World, s3: string, d3: string, h: int, x2: Data)
    requires w.server.obtain == Some(Obtain(3, d3, None, []))
    requires w.toServer != [] && w.toServer[0].OpenResp? && w.toServer[0].frsm == h && w.toServer[1..] == []
    requires InStage(w.client, 3, Waiting) && w.client.calls[3].source == s3
    ensures var w' := After(w, [Arrive(ToServer), GiveUp(3), End(3)]);
      && w'.server == w.server.(nextOut := w.server.nextOut + 1, obtain := Some(Obtain(3, d3, Some(h), [])))
      && w'.toServer == [] && w'.toClient == w.toClient + [ReadReq(w.server.nextOut + 1, h)]
      && w'.client.handles == w.client.handles && s3 !in w'.client.offered
  {
    AfterThree(w, Arrive(ToServer), GiveUp(3), End(3));
  }

  /** Its own open request is ignored, and it stores what it reads. */
  lemma {:induction false} ThirdStores(w: World, open: Msg, read: Msg, d3: string, h: int, x2: Data)
    requires w.server.hasProvider && w.server.accepts && w.server.obtain == Some(Obtain(3, d3, Some(h), []))
    requires w.toServer == [] && w.toClient == [ErrorResp(2), open, read]
    requires open.OpenReq? && open.name !in w.client.offered && read.ReadReq? && read.frsm == h
    requires h in w.client.handles && w.client.handles[h] == ReverseRead(x2, 0) && |x2| <= FILE_READ_CHUNK
    ensures var w' := Act(After(w, [Arrive(ToClient), Arrive(ToClient), Arrive(ToClient)]), Arrive(ToServer));
      w'.server.files == w.server.files[d3 := x2] && LastSent(w', ObtainResp(3))
  {
    var s, c := Arrive(ToServer), Arrive(ToClient);
    AfterThree(w, c, c, c);
    StepTells(w);
    var w1 := Act(w, c);
    assert w1.toClient == [open, read];
    StepIgnores(w1);
    var w2 := Act(w1, c);
    assert w2.toClient == [read];
    StepReads(w2, x2);
    StepWrites(Act(w2, c), 3, d3, h, x2);
  }

  lemma StepWrites(w: World, i: nat, dest: string, h: int, x: Data)
    requires w.server.hasProvider && w.server.accepts && w.server.obtain == Some(Obtain(i, dest, Some(h), []))
    requires w.toServer != [] && w.toServer[0].ReadResp? && w.toServer[0].data == x && !w.toServer[0].more
    ensures var w' := Act(w, Arrive(ToServer));
      w'.server.files == w.server.files[dest := x] && LastSent(w', ObtainResp(i))
  {
    assert [] + x == x;
  }

  /** So the file of a call can end up under the destination of another one, which has given up, with
    * no two calls using the same name: three calls, the second late, the third before its leftovers
    * are gone. */
  lemma MisledReached(w0: World, s1: string, d1: string, x1: Data, s2: string, d2: string, x2: Data,
                      s3: string, d3: string, x3: Data) returns (acts: seq<Action>)
    requires Initial(w0) && Ready(w0.server) && w0.client.calls == map[]
    requires |x1| <= FILE_READ_CHUNK && |x2| <= FILE_READ_CHUNK && s2 != s3
    ensures After(w0, acts).server.files == w0.server.files[d1 := x1][d3 := x2]
  {
    var s, c, r3 := Arrive(ToServer), Arrive(ToClient), Asked(3, s3, d3, x3);
    var l := LateWorld(w0, s1, d1, x1, s2, d2, x2);
    LateFails(l, l.toClient[0], s2, d2);
    var k := After(l, [s, c, s]);
    AfterAsked(k, 3, s3, d3, x3);
    var m, open := After(k, r3), k.toClient[1];
    ThirdAccepted(m, open, s3, d3, x2);
    var n := After(m, [s, c, c]);
    ThirdMisled(n, s3, d3, n.toServer[0].frsm, x2);
    var q := After(n, [s, GiveUp(3), End(3)]);
    ThirdStores(q, q.toClient[1], q.toClient[2], d3, n.toServer[0].frsm, x2);
    acts := Joined(w0, LateRun(s1, d1, x1, s2, d2, x2), [s, c, s], r3, [s, c, c], [s, GiveUp(3), End(3)], [c, c, c], s);
  }

  lemma Joined(w: World, a: seq<Action>, b: seq<Action>, c: seq<Action>, d: seq<Action>, e: seq<Action>,
               f: seq<Action>, last: Action) returns (acts: seq<Action>)
    ensures After(w, acts) == Act(After(After(After(After(After(After(w, a), b), c), d), e), f), last)
  {
    AfterConcat(w, a, b);
    AfterConcat(w, a + b, c);
    AfterConcat(w, a + b + c, d);
    AfterConcat(w, a + b + c + d, e);
    AfterConcat(w, a + b + c + d + e, f);
    AfterConcat(w, a + b + c + d + e + f, [last]);
    AfterTwo(After(w, a + b + c + d + e + f), last, last);
    acts := a + b + c + d + e + f + [last];
  }

  /** A call that gives up before its open is served leaves the server blocked. */
  lemma {:induction false} BlockedReached(w0: World, source: string, dest: string, data: Data)
    requires Initial(w0) && Ready(w0.server) && w0.client.calls == map[]
    ensures var run := Asked(1, source, dest, data) + [Arrive(ToServer), GiveUp(1)] + [End(1), Arrive(ToClient)];
      Blocked(After(w0, run))
  {
    var r, a, b: seq<Action> := Asked(1, source, dest, data), [Arrive(ToServer), GiveUp(1)], [End(1), Arrive(ToClient)];
    AfterAsked(w0, 1, source, dest, data);
    var u := After(w0, r);
    AfterTwo(u, Arrive(ToServer), GiveUp(1));
    var v := After(u, a);
    assert u.toServer[1..] == [] && v.toServer == [] && v.toClient == [OpenReq(w0.server.nextOut + 1, source)];
    AfterTwo(v, End(1), Arrive(ToClient));
    AfterConcat(w0, r, a);
    AfterConcat(w0, r + a, b);
    GivenUpBlocks(v, 1, source, After(v, b));
  }

  lemma GivenUpBlocks(v: World, i: nat, source: string, w: World)
    requires v.toServer == [] && v.toClient == [OpenReq(v.server.nextOut, source)]
    requires v.server.obtain.Some? && v.server.obtain.value.frsm.None?
    requires InStage(v.client, i, GivenUp) && v.client.calls[i].source == source
    requires w == Act(Act(v, End(i)), Arrive(ToClient))
    ensures Blocked(w)
  {
    var v' := Act(v, End(i));
    assert v'.toClient[1..] == [] && source !in v'.client.offered;
    assert w.toServer == [] && w.toClient == [];
  }

  // ---------------------------------------------------------------- every request is answered once

  /** On the way to the server requests of a call count, on the way back answers to it. */
  predicate Concerns(toServer: bool, m: Msg, i: nat) {
    if toServer then m.ObtainReq? && m.invoke == i else (m.ObtainResp? || m.ErrorResp?) && m.invoke == i
  }

  function Count(toServer: bool, ms: seq<Msg>, i: nat): nat {
    if |ms| == 0 then 0 else One(Concerns(toServer, ms[0], i)) + Count(toServer, ms[1..], i)
  }

  lemma {:induction false} CountConcat(toServer: bool, a: seq<Msg>, b: seq<Msg>, i: nat)
    ensures Count(toServer, a + b, i) == Count(toServer, a, i) + Count(toServer, b, i)
    decreases |a|
  {
    if |a| == 0 {
      assert a + b == b;
    } else {
      CountConcat(toServer, a[1..], b, i);
      assert (a + b)[0] == a[0] && (a + b)[1..] == a[1..] + b;
    }
  }

  predicate InProgress(w: World, i: nat) { w.server.obtain.Some? && w.server.obtain.value.invoke == i }

  /** What is on its way for a call: its request, the upload in progress, its answer. */
  function Underway(w: World, i: nat): nat {
    Count(true, w.toServer, i) + One(InProgress(w, i)) + Count(false, w.toClient, i)
  }

  /** A call that waits has exactly one of them, one that gave up at most one, any other none. */
  predicate Tallied(w: World, i: nat) {
    var n := Underway(w, i);
    if i !in w.client.calls then n == 0
    else
      match w.client.calls[i].stage
      case Waiting => n == 1
      case GivenUp => n <= 1
      case Ended(None) => n <= 1
      case _ => n == 0
  }

  lemma {:induction false} CountFew(ms: seq<Msg>, i: nat)
    ensures |ms| == 1 ==> Count(false, ms, i) == One(Concerns(false, ms[0], i))
    ensures |ms| == 2 ==> Count(false, ms, i) == One(Concerns(false, ms[0], i)) + One(Concerns(false, ms[1], i))
  {
    if |ms| == 1 { assert ms[1..] == []; }
    if |ms| == 2 {
      assert ms[1..] == [ms[1]] && ms[1..][1..] == [];
      assert Count(false, ms[1..], i) == One(Concerns(false, ms[1], i));
    }
  }

  lemma ServerTallies(w: World, i: nat)
    requires w.toServer != []
    ensures Underway(Deliver(w, ToServer), i) == Underway(w, i)
  {
    var r := ServerReceive(w.server, w.toServer[0]);
    CountConcat(false, w.toClient, r.msgs, i);
    CountFew(r.msgs, i);
  }

  lemma {:induction false} ReverseTallies(c: Client, m: Msg, i: nat)
    ensures Count(true, HandleReverse(c, m).msgs, i) == 0
  {
  }

  lemma ClientTallies(w: World, i: nat)
    requires w.toClient != []
    ensures Underway(Deliver(w, ToClient), i) == Underway(w, i) - One(Concerns(false, w.toClient[0], i))
  {
    var r := ClientReceive(w.client, w.toClient[0]);
    ReverseTallies(w.client, w.toClient[0], i);
    CountConcat(true, w.toServer, r.msgs, i);
  }

  lemma StepTallies(w: World, a: Action, i: nat)
    requires Tallied(w, i)
    ensures Tallied(Act(w, a), i)
  {
    if Possible(w, a) {
      match a
      case Arrive(d) =>
        if d.ToServer? {
          ServerTallies(w, i);
        } else {
          ClientTallies(w, i);
          HandleResponds(w.client, w.toClient[0]);
        }
      case Send(k) => SendTallies(w, k, i);
      case _ =>
    }
  }

  lemma SendTallies(w: World, k: nat, i: nat)
    requires Possible(w, Send(k))
    ensures Underway(Act(w, Send(k)), i) == Underway(w, i) + One(k == i)
  {
    var m := ObtainReq(k, w.client.calls[k].source, w.client.calls[k].dest);
    CountConcat(true, w.toServer, [m], i);
    assert [m][1..] == [];
  }

  /** In every run of any number of calls: a call that waits has exactly one of its request, the upload
    * in progress and its answer on the way; nothing is answered twice, and no answer is lost. */
  lemma {:induction false} AnsweredOnce(w: World, acts: seq<Action>, i: nat)
    requires Initial(w) && w.client.calls == map[]
    ensures Tallied(After(w, acts), i)
  {
    if |acts| > 0 {
      AnsweredOnce(w, acts[..|acts| - 1], i);
      StepTallies(After(w, acts[..|acts| - 1]), acts[|acts| - 1], i);
    }
  }

  // ---------------------------------------------------------------- one call after the other

  /** A call begins when all before it have returned, and none gives up. */
  predicate Orderly(w: World, a: Action) {
    && !a.GiveUp?
    && (a.Begin? ==> forall k :: k in w.client.calls ==> w.client.calls[k].stage.Ended?)
  }

  ghost predicate AllOrderly(w: World, acts: seq<Action>) {
    forall n :: 0 <= n < |acts| ==> Orderly(After(w, acts[..n]), acts[n])
  }

  /** The files when every call that has returned has stored what it was given. */
  function Uploaded(w: World, acts: seq<Action>): map<string, Data> {
    if |acts| == 0 then w.server.files
    else
      var front, a := acts[..|acts| - 1], acts[|acts| - 1];
      var u := After(w, front);
      if !a.End? || !Possible(u, a) then Uploaded(w, front)
      else
        var call := u.client.calls[a.invoke];
        Uploaded(w, front)[call.dest := call.data]
  }

  ghost predicate Others(c: Client, i: Option<nat>) {
    && (i.Some? ==> i.value in c.calls)
    && forall k :: k in c.calls && Some(k) != i ==> c.calls[k].stage == Ended(Some(true))
  }

  /** Nothing on the way but perhaps the answer to the last close. */
  predicate Quiet(toServer: seq<Msg>) { |toServer| <= 1 && (|toServer| == 1 ==> toServer[0].CloseResp?) }

  ghost predicate Rests(w: World) { w.server.obtain.None? && w.toClient == [] && Quiet(w.toServer) }

  /** The one upload as the server accepted it. */
  function Alone(i: nat, call: Call, number: nat, files: map<string, Data>): Transfer {
    Transfer(i, call.source, call.dest, number, files, None)
  }

  /** The call waits: its request is on the way, or its upload in progress, or its answer on the way. */
  ghost predicate Waits(w: World, files: map<string, Data>, i: nat, call: Call, number: nat, own: Reply) {
    match w.server.obtain
    case Some(_) =>
      && During(Alone(i, call, number, files), CoreOf(w), own, Pending)
      && Offer(w.client, call.source) == Some(call.data)
      && (own.Pending? || own == Served(call.data))
      && Only(true, w.toServer) == w.toServer && Only(false, w.toClient) == w.toClient
    case None =>
      || (&& w.server.files == files && Offer(w.client, call.source) == Some(call.data) && w.toClient == []
          && w.toServer != [] && w.toServer[|w.toServer| - 1] == ObtainReq(i, call.source, call.dest)
          && Quiet(w.toServer[..|w.toServer| - 1]))
      || (&& w.server.files == files[call.dest := call.data]
          && w.toClient != [] && w.toClient[|w.toClient| - 1] == ObtainResp(i)
          && (if |w.toClient| == 1 then Quiet(w.toServer)
              else w.toServer == [] && |w.toClient| == 2 && w.toClient[0].CloseReq?))
  }

  /** Where an orderly run stands: `i` is the call that has not returned, `files` what was stored
    * before it. */
  ghost predicate Stands(w: World, files: map<string, Data>, i: Option<nat>, number: nat, own: Reply) {
    && w.server.mayWrite && w.server.hasProvider && w.server.accepts && Others(w.client, i)
    && match i
       case None => Rests(w) && w.server.files == files
       case Some(n) =>
         var call := w.client.calls[n];
         match call.stage
         case Offering => Rests(w) && w.server.files == files && Offer(w.client, call.source) == Some(call.data)
         case Waiting => Waits(w, files, n, call, number, own)
         case Answered(ok) => ok && Rests(w) && w.server.files == files[call.dest := call.data]
         case _ => false
  }

  lemma QuietDelivers(w: World)
    requires w.server.obtain.None? && w.toServer != [] && w.toServer[0].CloseResp?
    ensures Act(w, Arrive(ToServer)) == w.(toServer := w.toServer[1..])
  {
    assert w.toClient + [] == w.toClient;
  }

  lemma AllKept(toServer: bool, m: Msg, rest: seq<Msg>)
    requires Only(toServer, [m] + rest) == [m] + rest
    ensures Kept(toServer, m) && Only(toServer, rest) == rest
  {
    OnlyHead(toServer, [m] + rest);
    OnlyShorter(toServer, rest);
    assert ([m] + rest)[1..] == rest;
  }

  lemma {:induction false} OnlyShorter(toServer: bool, ms: seq<Msg>)
    ensures |Only(toServer, ms)| <= |ms|
  {
    if |ms| > 0 { OnlyShorter(toServer, ms[1..]); }
  }

  /** The request arrives at a free server with nothing outstanding. */
  lemma WaitsAccepted(w: World, files: map<string, Data>, i: nat, call: Call, number: nat, own: Reply)
    requires Waits(w, files, i, call, number, own) && Ready(w.server)
    requires w.toServer != [] && w.toServer[0].ObtainReq?
    ensures Waits(Act(w, Arrive(ToServer)), files, i, call, w.server.nextOut + 1, Pending)
  {
    assert |w.toServer| == 1 && w.toClient == [];
    assert w.toServer[1..] == [];
    assert Only(true, w.toServer) == Only(true, w.toServer[1..]) == [] && Only(false, w.toClient) == [];
    AcceptedDuring(w);
    assert TransferOf(w) == Alone(i, call, w.server.nextOut + 1, files);
    var w' := Act(w, Arrive(ToServer));
    assert w'.toServer == [] && w'.toClient == [OpenReq(w.server.nextOut + 1, call.source)];
    assert w'.toClient[1..] == [];
  }

  lemma WaitsTakes(w: World, files: map<string, Data>, i: nat, call: Call, number: nat, own: Reply)
    requires Waits(w, files, i, call, number, own) && w.server.obtain.Some? && w.toServer != []
    ensures Waits(Act(w, Arrive(ToServer)), files, i, call, number, own)
  {
    var t, w' := Alone(i, call, number, files), Act(w, Arrive(ToServer));
    assert w.toServer == [w.toServer[0]] + w.toServer[1..];
    AllKept(true, w.toServer[0], w.toServer[1..]);
    StepDuring(t, w, Arrive(ToServer), own, Pending);
    var r := ObtainStep(w.server, w.toServer[0]);
    ActCore(w, Arrive(ToServer));
    if w'.server.obtain.Some? {
      Taken(w.server, w.toServer[0]);
      OnlyConcat(false, w.toClient, r.msgs);
      assert |r.msgs| == 1;
    } else {
      var msgs :| EndsBy(t, w, w', msgs, Verdict(t, own, Pending), Undisturbed(t, Pending));
      OnlyConcat(false, w.toClient, msgs);
      OnlyHead(false, msgs);
      assert |w.toClient| == 0;
      assert w'.toClient == msgs;
    }
  }

  lemma WaitsServes(w: World, files: map<string, Data>, i: nat, call: Call, number: nat, own: Reply)
    returns (own': Reply)
    requires Waits(w, files, i, call, number, own) && w.server.obtain.Some? && w.toClient != []
    ensures Waits(Act(w, Arrive(ToClient)), files, i, call, number, own')
    ensures Act(w, Arrive(ToClient)).client.calls == w.client.calls
  {
    var t, a := Alone(i, call, number, files), Arrive(ToClient);
    assert w.toClient == [w.toClient[0]] + w.toClient[1..];
    AllKept(false, w.toClient[0], w.toClient[1..]);
    ActCore(w, a);
    StepDuring(t, w, a, own, Pending);
    OwnRequest(t, CoreOf(w), own, Pending);
    HandleResponds(w.client, w.toClient[0]);
    OnlyConcat(true, w.toServer, HandleReverse(w.client, w.toClient[0]).msgs);
    own' := ReplyBy(w, a, number, own);
  }

  lemma WaitsAnswered(w: World, files: map<string, Data>, i: nat, call: Call, number: nat, own: Reply)
    requires Waits(w, files, i, call, number, own) && w.server.obtain.None? && w.toClient != []
    ensures var w' := Act(w, Arrive(ToClient));
      && w'.server == w.server
      && if w.toClient[0].CloseReq? then w'.client.calls == w.client.calls && Waits(w', files, i, call, number, own)
         else w.toClient == [ObtainResp(i)] && w'.client == Told(w.client, i, true) && Rests(w')
  {
    var w' := Act(w, Arrive(ToClient));
    if w.toClient[0].CloseReq? {
      assert w'.toClient == [w.toClient[1]];
      assert w'.toServer == [CloseResp(w.toClient[0].invoke)];
    } else {
      assert w'.toClient == [] && w'.toServer == w.toServer;
    }
  }

  /** One step of an orderly run. */
  lemma StandsStep(w: World, a: Action, files: map<string, Data>, i: Option<nat>, number: nat, own: Reply)
    returns (i': Option<nat>, number': nat, own': Reply)
    requires Stands(w, files, i, number, own) && Orderly(w, a)
    ensures var files' := if a.End? && Possible(w, a)
                          then files[w.client.calls[a.invoke].dest := w.client.calls[a.invoke].data] else files;
      Stands(Act(w, a), files', i', number', own')
  {
    i', number', own' := i, number, own;
    if Possible(w, a) {
      match a
      case Begin(n, _, _, _) =>
        i' := Some(n);
        StandsBegin(w, a, files, i, number, own);
      case Send(n) => StandsSend(w, n, files, i, number, own);
      case End(n) =>
        i' := None;
        StandsEnd(w, n, files, i, number, own);
      case GiveUp(_) =>
      case Arrive(d) =>
        if d.ToServer? { number', own' := StandsAtServer(w, files, i, number, own); }
        else { own' := StandsAtClient(w, files, i, number, own); }
    }
  }

  lemma StandsBegin(w: World, a: Action, files: map<string, Data>, i: Option<nat>, number: nat, own: Reply)
    requires Stands(w, files, i, number, own) && Orderly(w, a) && a.Begin? && Possible(w, a)
    ensures Stands(Act(w, a), files, Some(a.invoke), number, own)
  {
    assert i.Some? ==> i.value in w.client.calls && !w.client.calls[i.value].stage.Ended?;
    assert Act(w, a).client.calls[a.invoke] == Call(a.source, a.dest, a.data, Offering);
  }

  lemma StandsSend(w: World, n: nat, files: map<string, Data>, i: Option<nat>, number: nat, own: Reply)
    requires Stands(w, files, i, number, own) && Possible(w, Send(n))
    ensures Stands(Act(w, Send(n)), files, i, number, own)
  {
    var call := w.client.calls[n];
    assert (w.toServer + [ObtainReq(n, call.source, call.dest)])[..|w.toServer|] == w.toServer;
  }

  lemma StandsEnd(w: World, n: nat, files: map<string, Data>, i: Option<nat>, number: nat, own: Reply)
    requires Stands(w, files, i, number, own) && Possible(w, End(n))
    ensures Stands(Act(w, End(n)), files[w.client.calls[n].dest := w.client.calls[n].data], None, number, own)
  {
    assert i == Some(n);
  }

  /** The answer to the last close is dropped. */
  lemma StandsDrops(w: World, files: map<string, Data>, i: Option<nat>, number: nat, own: Reply)
    requires Stands(w, files, i, number, own)
    requires w.server.obtain.None? && w.toServer != [] && w.toServer[0].CloseResp?
    ensures Stands(w.(toServer := w.toServer[1..]), files, i, number, own)
  {
    if |w.toServer| == 2 {
      assert w.toServer[1..] == [w.toServer[1]] && w.toServer[1..][..0] == [];
    } else {
      assert w.toServer[1..] == [];
    }
  }

  lemma RequestHeads(w: World, files: map<string, Data>, i: nat, call: Call, number: nat, own: Reply)
    requires Waits(w, files, i, call, number, own) && w.server.obtain.None?
    requires w.toServer != [] && !w.toServer[0].CloseResp?
    ensures w.toServer[0].ObtainReq?
  {
  }

  lemma StandsAtServer(w: World, files: map<string, Data>, i: Option<nat>, number: nat, own: Reply)
    returns (number': nat, own': Reply)
    requires Stands(w, files, i, number, own) && w.toServer != []
    ensures Stands(Act(w, Arrive(ToServer)), files, i, number', own')
  {
    number', own' := number, own;
    if w.server.obtain.None? && w.toServer[0].CloseResp? {
      QuietDelivers(w);
      StandsDrops(w, files, i, number, own);
    } else {
      number', own' := StandsWaiting(w, files, i.value, number, own);
    }
  }

  lemma StandsWaiting(w: World, files: map<string, Data>, i: nat, number: nat, own: Reply)
    returns (number': nat, own': Reply)
    requires Stands(w, files, Some(i), number, own) && w.client.calls[i].stage.Waiting?
    requires w.toServer != [] && (w.server.obtain.None? ==> !w.toServer[0].CloseResp?)
    ensures Stands(Act(w, Arrive(ToServer)), files, Some(i), number', own')
  {
    var call := w.client.calls[i];
    ServerKeeps(w);
    if w.server.obtain.None? {
      RequestHeads(w, files, i, call, number, own);
      WaitsAccepted(w, files, i, call, number, own);
      number', own' := w.server.nextOut + 1, Pending;
    } else {
      WaitsTakes(w, files, i, call, number, own);
      number', own' := number, own;
    }
  }

  lemma ServerKeeps(w: World)
    requires w.toServer != []
    ensures var w' := Act(w, Arrive(ToServer));
      && w'.client == w.client && w'.server.mayWrite == w.server.mayWrite
      && w'.server.hasProvider == w.server.hasProvider && w'.server.accepts == w.server.accepts
  {
  }

  lemma StandsAtClient(w: World, files: map<string, Data>, i: Option<nat>, number: nat, own: Reply)
    returns (own': Reply)
    requires Stands(w, files, i, number, own) && w.toClient != []
    ensures Stands(Act(w, Arrive(ToClient)), files, i, number, own')
  {
    own' := own;
    var call := w.client.calls[i.value];
    if w.server.obtain.None? {
      WaitsAnswered(w, files, i.value, call, number, own);
    } else {
      own' := WaitsServes(w, files, i.value, call, number, own);
    }
  }

  lemma {:induction false} OrderlyStands(w: World, acts: seq<Action>) returns (i: Option<nat>, number: nat, own: Reply)
    requires Initial(w) && Ready(w.server) && w.client.calls == map[] && AllOrderly(w, acts)
    ensures Stands(After(w, acts), Uploaded(w, acts), i, number, own)
  {
    if |acts| == 0 {
      i, number, own := None, 0, Pending;
    } else {
      var front := acts[..|acts| - 1];
      forall n | 0 <= n < |front|
        ensures Orderly(After(w, front[..n]), front[n])
      {
        assert front[..n] == acts[..n] && front[n] == acts[n];
      }
      i, number, own := OrderlyStands(w, front);
      i, number, own := StandsStep(After(w, front), acts[|acts| - 1], Uploaded(w, front), i, number, own);
    }
  }

  /** Calls made one after the other, each when the one before has returned: none is told of a
    * failure; when one has its answer, and when all have returned, the files are the initial ones
    * with the octets of every call stored under its destination, in order. */
  lemma {:induction false} OneAfterTheOther(w: World, acts: seq<Action>)
    requires Initial(w) && Ready(w.server) && w.client.calls == map[] && AllOrderly(w, acts)
    ensures var w', files := After(w, acts), Uploaded(w, acts);
      && (forall k :: k in w'.client.calls ==>
            var call := w'.client.calls[k];
            && call.stage != Answered(false) && call.stage != Ended(Some(false))
            && (call.stage == Answered(true) ==> w'.server.files == files[call.dest := call.data]))
      && ((forall k :: k in w'.client.calls ==> w'.client.calls[k].stage.Ended?) ==> w'.server.files == files)
  {
    var i, number, own := OrderlyStands(w, acts);
    var w' := After(w, acts);
    if i.Some? { assert i.value in w'.client.calls && !w'.client.calls[i.value].stage.Ended?; }
  }
}
