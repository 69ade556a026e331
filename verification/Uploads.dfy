/** Uploads that overlap: any number of calls of `upload_file` on one association, each offering its
  * file, asking the server to obtain it, and withdrawing the file when it has its answer. The server
  * does not look at the invokeIDs of the answers to its own requests; this file says what follows. */
module Uploads {
  import opened Wrappers
  import opened Numbers
  import opened Octets
  import opened ObtainFile

  // ---------------------------------------------------------------- the client's calls

  datatype Action =
    | Arrive(d: Delivery)
    | Begin(invoke: nat, source: string, dest: string, data: Data)
    | Send(invoke: nat)
    | GiveUp(invoke: nat)
    | End(invoke: nat)

  predicate InStage(c: Client, invoke: nat, stage: Stage) { invoke in c.calls && c.calls[invoke].stage == stage }

  predicate Possible(w: World, a: Action) {
    match a
    case Arrive(d) => Enabled(w, d)
    case Begin(i, _, _, _) => i !in w.client.calls
    case Send(i) => InStage(w.client, i, Offering)
    case GiveUp(i) => InStage(w.client, i, Offering) || InStage(w.client, i, Waiting)
    case End(i) => i in w.client.calls && (w.client.calls[i].stage.Answered? || w.client.calls[i].stage.GivenUp?)
  }

  function Staged(c: Client, invoke: nat, stage: Stage): Client
    requires invoke in c.calls
  {
    c.(calls := c.calls[invoke := c.calls[invoke].(stage := stage)])
  }

  function Begun(c: Client, a: Action): Client
    requires a.Begin?
  {
    c.(offered := c.offered[a.source := a.data], calls := c.calls[a.invoke := Call(a.source, a.dest, a.data, Offering)])
  }

  function ResultOf(st: Stage): Option<bool> { if st.Answered? then Some(st.ok) else None }

  /** The file under the source name goes, whoever offered it. */
  function Withdrawn(c: Client, invoke: nat): Client
    requires invoke in c.calls
  {
    Staged(c, invoke, Ended(ResultOf(c.calls[invoke].stage))).(offered := c.offered - {c.calls[invoke].source})
  }

  /** What cannot happen changes nothing. */
  function Act(w: World, a: Action): World {
    if !Possible(w, a) then w
    else
      match a
      case Arrive(d) => Deliver(w, d)
      case Begin(_, _, _, _) => w.(client := Begun(w.client, a))
      case Send(i) =>
        var c := w.client.calls[i];
        w.(client := Staged(w.client, i, Waiting), toServer := w.toServer + [ObtainReq(i, c.source, c.dest)])
      case GiveUp(i) => w.(client := Staged(w.client, i, GivenUp))
      case End(i) => w.(client := Withdrawn(w.client, i))
  }

  function After(w: World, acts: seq<Action>): World {
    if |acts| == 0 then w else Act(After(w, acts[..|acts| - 1]), acts[|acts| - 1])
  }

  /** The shared part of the client, as `upload_file` uses it. */
  class OfferedFiles {
    var client: Client

    constructor (c: Client)
      ensures client == c
    {
      client := c;
    }

    /** Before the request. */
    method Offer(invoke: nat, source: string, dest: string, data: Data)
      modifies this
      ensures client == Begun(old(client), Begin(invoke, source, dest, data))
    {
      client := client.(offered := client.offered[source := data]);
      client := client.(calls := client.calls[invoke := Call(source, dest, data, Offering)]);
    }

    /** After it, with the answer or without. */
    method Withdraw(invoke: nat) returns (result: Option<bool>)
      requires invoke in client.calls
      modifies this
      ensures client == Withdrawn(old(client), invoke)
      ensures result == ResultOf(old(client).calls[invoke].stage)
    {
      var call := client.calls[invoke];
      result := if call.stage.Answered? then Some(call.stage.ok) else None;
      client := client.(offered := client.offered - {call.source});
      client := client.(calls := client.calls[invoke := call.(stage := Ended(result))]);
    }
  }

  // ---------------------------------------------------------------- what an upload in progress depends on

  /** Requests of the server to the client. */
  predicate Reverse(m: Msg) { m.OpenReq? || m.ReadReq? || m.CloseReq? }

  /** On the way to the server everything but requests is taken for an answer to a reverse request. */
  predicate Kept(toServer: bool, m: Msg) { if toServer then !m.ObtainReq? else Reverse(m) }

  function Only(toServer: bool, ms: seq<Msg>): seq<Msg> {
    if |ms| == 0 then [] else (if Kept(toServer, ms[0]) then [ms[0]] else []) + Only(toServer, ms[1..])
  }

  lemma {:induction false} OnlyConcat(toServer: bool, a: seq<Msg>, b: seq<Msg>)
    ensures Only(toServer, a + b) == Only(toServer, a) + Only(toServer, b)
    decreases |a|
  {
    if |a| == 0 {
      assert a + b == b;
    } else {
      OnlyConcat(toServer, a[1..], b);
      assert (a + b)[0] == a[0] && (a + b)[1..] == a[1..] + b;
      var x, y, z := if Kept(toServer, a[0]) then [a[0]] else [], Only(toServer, a[1..]), Only(toServer, b);
      assert x + (y + z) == x + y + z;
    }
  }

  /** Both ends without the calls: reverse requests not yet served, and answers not yet taken. */
  datatype Core = Core(server: Server, handles: map<int, ReverseRead>, resps: seq<Msg>, reqs: seq<Msg>)

  function CoreOf(w: World): Core {
    Core(w.server, w.client.handles, Only(true, w.toServer), Only(false, w.toClient))
  }

  /** What the server's requests have outstanding, oldest first. */
  function Pipe(c: Core): seq<Msg> { c.resps + c.reqs }

  datatype Effect = Nothing | Accepts | Takes | Serves

  function EffectOf(w: World, a: Action): Effect {
    if !a.Arrive? || !Enabled(w, a.d) then Nothing
    else if a.d.ToServer? then
      if !w.toServer[0].ObtainReq? then Takes
      else if w.server.mayWrite && w.server.hasProvider && w.server.obtain.None? then Accepts
      else Nothing
    else if Reverse(w.toClient[0]) then Serves
    else Nothing
  }

  function Accept(c: Core, m: Msg): Core
    requires m.ObtainReq?
  {
    c.(server := StartObtain(c.server, m.invoke, m.source, m.dest).server,
       reqs := c.reqs + [OpenReq(c.server.nextOut + 1, m.source)])
  }

  /** The server takes the oldest answer. */
  function Take(c: Core): Core
    requires c.resps != []
  {
    var r := ObtainStep(c.server, c.resps[0]);
    c.(server := r.server, resps := c.resps[1..], reqs := c.reqs + Only(false, r.msgs))
  }

  /** The client serves the oldest request. */
  function Serve(c: Core, offered: map<string, Data>): Core
    requires c.reqs != []
  {
    var r := HandleReverse(Client(offered, c.handles, map[]), c.reqs[0]);
    c.(handles := r.client.handles, resps := c.resps + r.msgs, reqs := c.reqs[1..])
  }

  lemma OnlyHead(toServer: bool, ms: seq<Msg>)
    requires |ms| > 0
    ensures Kept(toServer, ms[0]) ==>
      Only(toServer, ms) != [] && Only(toServer, ms)[0] == ms[0] && Only(toServer, ms)[1..] == Only(toServer, ms[1..])
    ensures !Kept(toServer, ms[0]) ==> Only(toServer, ms) == Only(toServer, ms[1..])
  {
  }

  lemma ServerCore(w: World)
    requires w.toServer != []
    ensures var c, c' := CoreOf(w), CoreOf(Deliver(w, ToServer));
      match EffectOf(w, Arrive(ToServer))
      case Accepts => c' == Accept(c, w.toServer[0])
      case Takes => c.resps != [] && c.resps[0] == w.toServer[0] && c' == Take(c)
      case _ => c' == c
  {
    var r := ServerReceive(w.server, w.toServer[0]);
    OnlyHead(true, w.toServer);
    OnlyConcat(false, w.toClient, r.msgs);
    if r.msgs != [] { OnlyHead(false, r.msgs); }
  }

  /** The client's answers are answers, and its calls do not matter for them. */
  lemma HandleResponds(c: Client, m: Msg)
    ensures var r := HandleReverse(c, m);
      && Only(true, r.msgs) == r.msgs && r.client == c.(handles := r.client.handles)
      && HandleReverse(c.(calls := map[]), m) == ClientOut(r.client.(calls := map[]), r.msgs)
  {
    var r := HandleReverse(c, m);
    if r.msgs != [] { OnlyHead(true, r.msgs); assert r.msgs[1..] == []; }
  }

  lemma ClientCore(w: World)
    requires w.toClient != []
    ensures var c, c' := CoreOf(w), CoreOf(Deliver(w, ToClient));
      if EffectOf(w, Arrive(ToClient)).Serves?
      then c.reqs != [] && c.reqs[0] == w.toClient[0] && c' == Serve(c, w.client.offered)
      else c' == c
  {
    var m := w.toClient[0];
    OnlyHead(false, w.toClient);
    if Reverse(m) {
      HandleResponds(w.client, m);
      OnlyConcat(true, w.toServer, HandleReverse(w.client, m).msgs);
      assert w.client.(calls := map[]) == Client(w.client.offered, w.client.handles, map[]);
    } else {
      HandleResponds(w.client, m);
      OnlyConcat(true, w.toServer, []);
    }
  }

  /** Every action is one step of the core, or none. */
  lemma ActCore(w: World, a: Action)
    ensures var c, c' := CoreOf(w), CoreOf(Act(w, a));
      match EffectOf(w, a)
      case Nothing => c' == c
      case Accepts => c' == Accept(c, w.toServer[0])
      case Takes => c.resps != [] && c.resps[0] == w.toServer[0] && c' == Take(c)
      case Serves => c.reqs != [] && c.reqs[0] == w.toClient[0] && c' == Serve(c, w.client.offered)
  {
    if Possible(w, a) {
      match a
      case Arrive(d) => if d.ToServer? { ServerCore(w); } else { ClientCore(w); }
      case Send(i) =>
        var m := ObtainReq(i, w.client.calls[i].source, w.client.calls[i].dest);
        OnlyHead(true, [m]);
        OnlyConcat(true, w.toServer, [m]);
      case _ =>
    }
  }

  // ---------------------------------------------------------------- every run

  /** A request the client will answer, or an answer that is what its request asked for. */
  ghost predicate Sound(nextOut: nat, handles: map<int, ReverseRead>, m: Msg, answered: bool) {
    match m
    case OpenReq(n, _) => !answered && n <= nextOut
    case ReadReq(_, h) => !answered && h in handles && handles[h].pos <= |handles[h].data|
    case CloseReq(_, _) => !answered
    case OpenResp(n, h) => answered && n <= nextOut && h in handles && handles[h].pos == 0
    case ReadResp(_, _, _) => answered
    case CloseResp(_) => answered
    case _ => false
  }

  predicate OpenOrAnswer(m: Msg, answered: bool) { if answered then m.OpenResp? else m.OpenReq? }

  /** The read outstanding for an upload that has `got` and reads from `h`. */
  ghost predicate ReadOf(handles: map<int, ReverseRead>, h: int, got: Data, m: Msg, answered: bool) {
    && h in handles && handles[h].pos <= |handles[h].data|
    && var data, pos := handles[h].data, handles[h].pos;
       if answered then m.ReadResp? && got + m.data == data[..pos] && (m.more <==> pos < |data|)
       else m.ReadReq? && m.frsm == h && got == data[..pos]
  }

  ghost predicate Idle(nextOut: nat, handles: map<int, ReverseRead>, p: seq<Msg>, k: nat) {
    |p| <= 1 && (|p| == 1 ==> Sound(nextOut, handles, p[0], k > 0))
  }

  ghost predicate AwaitsOpen(nextOut: nat, handles: map<int, ReverseRead>, got: Data, p: seq<Msg>, k: nat) {
    && got == [] && |p| <= 2
    && (|p| >= 1 ==> Sound(nextOut, handles, p[0], k > 0))
    && (|p| == 2 ==> OpenOrAnswer(p[1], k > 1) && Sound(nextOut, handles, p[1], k > 1))
  }

  ghost predicate AwaitsRead(handles: map<int, ReverseRead>, h: int, got: Data, p: seq<Msg>, k: nat) {
    && 1 <= |p| <= 2
    && (|p| == 2 ==> OpenOrAnswer(p[0], k > 0))
    && ReadOf(handles, h, got, p[|p| - 1], k == |p|)
  }

  /** In every reachable state: while no upload is in progress at most one reverse request is
    * outstanding; one that waits for its open has at most one older than its own; one that reads has
    * that read outstanding, and before it at most an open. */
  ghost predicate Inv(c: Core) {
    var p, k := Pipe(c), |c.resps|;
    match c.server.obtain
    case None => Idle(c.server.nextOut, c.handles, p, k)
    case Some(st) =>
      match st.frsm
      case None => AwaitsOpen(c.server.nextOut, c.handles, st.data, p, k)
      case Some(h) => AwaitsRead(c.handles, h, st.data, p, k)
  }

  /** What the server makes of an answer, and what it asks for next. */
  lemma Taken(s: Server, m: Msg)
    ensures var r := ObtainStep(s, m);
      var asked := Only(false, r.msgs);
      match s.obtain
      case None => r.server == s && asked == []
      case Some(st) =>
        match st.frsm
        case None =>
          if m.OpenResp? then
            && r.server == s.(nextOut := s.nextOut + 1, obtain := Some(st.(frsm := Some(m.frsm))))
            && asked == [ReadReq(s.nextOut + 1, m.frsm)]
          else r.server == s.(obtain := None) && asked == []
        case Some(h) =>
          if !m.ReadResp? then r.server == s.(obtain := None) && asked == []
          else if m.more then
            && r.server == s.(nextOut := s.nextOut + 1, obtain := Some(st.(data := st.data + m.data)))
            && asked == [ReadReq(s.nextOut + 1, h)]
          else
            && r.server.obtain == None && r.server.nextOut == s.nextOut + 1
            && asked == [CloseReq(s.nextOut + 1, h)]
  {
    var r := ObtainStep(s, m);
    if r.msgs != [] { OnlyHead(false, r.msgs); }
    if |r.msgs| == 2 { OnlyHead(false, r.msgs[1..]); }
  }

  lemma TakePipe(c: Core)
    requires c.resps != []
    ensures Pipe(Take(c)) == Pipe(c)[1..] + Only(false, ObtainStep(c.server, c.resps[0]).msgs)
    ensures Pipe(c) != [] && Pipe(c)[0] == c.resps[0] && |Take(c).resps| == |c.resps| - 1
  {
  }

  lemma TakeOpening(c: Core)
    requires Inv(c) && c.resps != [] && c.server.obtain.Some? && c.server.obtain.value.frsm.None?
    ensures Inv(Take(c))
  {
    TakePipe(c);
    Taken(c.server, c.resps[0]);
    OpeningTaken(c.server.nextOut, c.handles, Pipe(c), |c.resps|);
  }

  lemma TakeReading(c: Core)
    requires Inv(c) && c.resps != [] && c.server.obtain.Some? && c.server.obtain.value.frsm.Some?
    ensures Inv(Take(c))
  {
    var st := c.server.obtain.value;
    TakePipe(c);
    Taken(c.server, c.resps[0]);
    ReadingTaken(c.server.nextOut, c.handles, st.frsm.value, st.data, Pipe(c), |c.resps|);
  }

  lemma TakeInv(c: Core)
    requires Inv(c) && c.resps != []
    ensures Inv(Take(c))
  {
    match c.server.obtain
    case None =>
      TakePipe(c);
      Taken(c.server, c.resps[0]);
    case Some(st) => if st.frsm.None? { TakeOpening(c); } else { TakeReading(c); }
  }

  lemma OpeningTaken(out: nat, handles: map<int, ReverseRead>, p: seq<Msg>, k: nat)
    requires AwaitsOpen(out, handles, [], p, k) && 0 < k <= |p|
    ensures p[0].OpenResp? ==> AwaitsRead(handles, p[0].frsm, [], p[1..] + [ReadReq(out + 1, p[0].frsm)], k - 1)
    ensures !p[0].OpenResp? ==> Idle(out, handles, p[1..] + [], k - 1)
  {
    if p[0].OpenResp? {
      var p' := p[1..] + [ReadReq(out + 1, p[0].frsm)];
      assert handles[p[0].frsm].data[..0] == [];
      assert p'[|p'| - 1] == ReadReq(out + 1, p[0].frsm);
    }
  }

  lemma ReadingTaken(out: nat, handles: map<int, ReverseRead>, h: int, got: Data, p: seq<Msg>, k: nat)
    requires AwaitsRead(handles, h, got, p, k) && 0 < k <= |p|
    ensures !p[0].ReadResp? ==> Idle(out, handles, p[1..] + [], k - 1)
    ensures p[0].ReadResp? && p[0].more ==>
      AwaitsRead(handles, h, got + p[0].data, p[1..] + [ReadReq(out + 1, h)], k - 1)
    ensures p[0].ReadResp? && !p[0].more ==> Idle(out + 1, handles, p[1..] + [CloseReq(out + 1, h)], k - 1)
  {
    if p[0].ReadResp? { assert |p| == 1 && p[1..] == []; }
  }

  lemma ServePipe(c: Core, offered: map<string, Data>)
    requires c.reqs != []
    ensures var p, k := Pipe(c), |c.resps|;
      var r := HandleReverse(Client(offered, c.handles, map[]), c.reqs[0]);
      && k < |p| && p[k] == c.reqs[0]
      && Pipe(Serve(c, offered)) == p[..k] + r.msgs + p[k + 1..] && |Serve(c, offered).resps| == k + |r.msgs|
  {
  }

  lemma ServeInv(c: Core, offered: map<string, Data>)
    requires Inv(c) && c.reqs != []
    ensures Inv(Serve(c, offered))
  {
    ServePipe(c, offered);
    var p, k, out := Pipe(c), |c.resps|, c.server.nextOut;
    var r := HandleReverse(Client(offered, c.handles, map[]), c.reqs[0]);
    match c.server.obtain
    case None => IdleServed(out, offered, c.handles, p, k);
    case Some(st) =>
      if st.frsm.None? {
        OpeningServed(out, offered, c.handles, p, k);
      } else {
        ReadingServed(out, offered, c.handles, st.frsm.value, st.data, p, k);
      }
  }

  function Answer(offered: map<string, Data>, handles: map<int, ReverseRead>, m: Msg): ClientOut {
    HandleReverse(Client(offered, handles, map[]), m)
  }

  lemma SoundServed(out: nat, offered: map<string, Data>, handles: map<int, ReverseRead>, m: Msg)
    requires Sound(out, handles, m, false)
    ensures var r := Answer(offered, handles, m);
      && |r.msgs| <= 1 && (r.msgs == [] ==> m.OpenReq?)
      && (|r.msgs| == 1 ==> Sound(out, r.client.handles, r.msgs[0], true))
      && (m.OpenReq? ==> forall h :: h in handles ==> h in r.client.handles && r.client.handles[h] == handles[h])
      && (m.OpenReq? && |r.msgs| == 1 ==> r.msgs[0].OpenResp?)
  {
  }

  lemma IdleServed(out: nat, offered: map<string, Data>, handles: map<int, ReverseRead>, p: seq<Msg>, k: nat)
    requires Idle(out, handles, p, k) && k < |p|
    ensures var r := Answer(offered, handles, p[k]);
      Idle(out, r.client.handles, p[..k] + r.msgs + p[k + 1..], k + |r.msgs|)
  {
    SoundServed(out, offered, handles, p[k]);
  }

  lemma OpeningServed(out: nat, offered: map<string, Data>, handles: map<int, ReverseRead>, p: seq<Msg>, k: nat)
    requires AwaitsOpen(out, handles, [], p, k) && k < |p|
    ensures var r := Answer(offered, handles, p[k]);
      AwaitsOpen(out, r.client.handles, [], p[..k] + r.msgs + p[k + 1..], k + |r.msgs|)
  {
    SoundServed(out, offered, handles, p[k]);
    var r := Answer(offered, handles, p[k]);
    var p' := p[..k] + r.msgs + p[k + 1..];
    if |p| == 2 && k == 1 {
      assert p'[0] == p[0];
    } else if |p| == 2 && |r.msgs| == 1 {
      assert p'[1] == p[1] && p'[0] == r.msgs[0];
    }
  }

  lemma ReadingServed(out: nat, offered: map<string, Data>, handles: map<int, ReverseRead>, h: int, got: Data,
                      p: seq<Msg>, k: nat)
    requires AwaitsRead(handles, h, got, p, k) && k < |p|
    ensures var r := Answer(offered, handles, p[k]);
      AwaitsRead(r.client.handles, h, got, p[..k] + r.msgs + p[k + 1..], k + |r.msgs|)
  {
    var r := Answer(offered, handles, p[k]);
    var p' := p[..k] + r.msgs + p[k + 1..];
    if k == |p| - 1 {
      ReadServed(offered, handles, h, got, p[k]);
      assert p'[|p'| - 1] == r.msgs[0];
    } else {
      assert p'[|p'| - 1] == p[|p| - 1];
    }
  }

  lemma ReadServed(offered: map<string, Data>, handles: map<int, ReverseRead>, h: int, got: Data, m: Msg)
    requires ReadOf(handles, h, got, m, false)
    ensures var r := Answer(offered, handles, m);
      |r.msgs| == 1 && ReadOf(r.client.handles, h, got, r.msgs[0], true)
  {
    var data, pos := handles[h].data, handles[h].pos;
    var end := ReadEnd(handles[h]);
    assert data[..pos] + data[pos..end] == data[..end];
  }

  lemma AcceptInv(c: Core, m: Msg)
    requires Inv(c) && c.server.obtain.None? && c.server.mayWrite && c.server.hasProvider && m.ObtainReq?
    ensures Inv(Accept(c, m))
  {
    assert Pipe(Accept(c, m)) == Pipe(c) + [OpenReq(c.server.nextOut + 1, m.source)];
  }

  lemma StepInv(w: World, a: Action)
    requires Inv(CoreOf(w))
    ensures Inv(CoreOf(Act(w, a)))
  {
    ActCore(w, a);
    match EffectOf(w, a)
    case Nothing =>
    case Accepts => AcceptInv(CoreOf(w), w.toServer[0]);
    case Takes => TakeInv(CoreOf(w));
    case Serves => ServeInv(CoreOf(w), w.client.offered);
  }

  /** A fresh association: nothing under way. */
  ghost predicate Initial(w: World) {
    w.toServer == [] && w.toClient == [] && w.server.obtain.None?
  }

  lemma {:induction false} RunInv(w: World, acts: seq<Action>)
    requires Initial(w)
    ensures Inv(CoreOf(After(w, acts)))
  {
    if |acts| > 0 {
      RunInv(w, acts[..|acts| - 1]);
      StepInv(After(w, acts[..|acts| - 1]), acts[|acts| - 1]);
    }
  }

  // ---------------------------------------------------------------- one upload among others

  /** What the client does with an open request: nothing yet, nothing at all, or open these octets. */
  datatype Reply = Pending | Ignored | Served(data: Data)

  /** An upload as it is accepted: its request, the number of its own open request, the files there
    * are, and what was still outstanding. */
  datatype Transfer = Transfer(invoke: nat, source: string, dest: string, number: nat, files: map<string, Data>,
                               before: Option<Msg>)

  predicate AfterOpen(t: Transfer) { t.before.Some? && (t.before.value.OpenReq? || t.before.value.OpenResp?) }

  function OlderNumber(t: Transfer): nat { if AfterOpen(t) then t.before.value.invoke else 0 }

  /** Nothing older can answer in place of the upload's own open. */
  predicate Undisturbed(t: Transfer, older: Reply) { t.before.None? || (AfterOpen(t) && older.Ignored?) }

  /** What an upload stores when it ends, if anything: `own` and `older` are what became of its own
    * open request and of one left over by an upload that failed before. */
  function Verdict(t: Transfer, own: Reply, older: Reply): Option<Data> {
    if Undisturbed(t, older) then if own.Served? then Some(own.data) else None
    else if AfterOpen(t) && older.Served? && own.Ignored? then Some(older.data)
    else None
  }

  function Heard(r: Reply, m: Msg, number: nat, offered: map<string, Data>): Reply {
    if r.Pending? && m.OpenReq? && m.invoke == number
    then if m.name in offered then Served(offered[m.name]) else Ignored
    else r
  }

  ghost predicate OpenFor(handles: map<int, ReverseRead>, m: Msg, answered: bool, number: nat, reply: Reply) {
    if answered then
      && reply.Served? && m.OpenResp? && m.frsm in handles && handles[m.frsm] == ReverseRead(reply.data, 0)
    else reply.Pending? && m.OpenReq? && m.invoke == number
  }

  /** The older request, or its answer. */
  ghost predicate Older(t: Transfer, handles: map<int, ReverseRead>, m: Msg, answered: bool, older: Reply) {
    if AfterOpen(t) then OpenFor(handles, m, answered, OlderNumber(t), older)
    else if answered then m.ReadResp? || m.CloseResp?
    else m.CloseReq? || (m.ReadReq? && m.frsm in handles && handles[m.frsm].pos <= |handles[m.frsm].data|)
  }

  function One(b: bool): nat { if b then 1 else 0 }

  ghost predicate Opening(t: Transfer, handles: map<int, ReverseRead>, p: seq<Msg>, k: nat, own: Reply, older: Reply) {
    var n := One(!Undisturbed(t, older));
    && |p| == n + One(!own.Ignored?)
    && (n == 1 ==> Older(t, handles, p[0], k > 0, older))
    && (own.Ignored? ==> k == |p|)
    && (!own.Ignored? ==> OpenFor(handles, p[n], k > n, t.number, own) && (k <= n ==> p[n].name == t.source))
  }

  ghost predicate Reading(t: Transfer, handles: map<int, ReverseRead>, h: int, got: Data, p: seq<Msg>, k: nat,
                          own: Reply, older: Reply) {
    var n := One(!Undisturbed(t, older) && !own.Ignored?);
    && |p| == n + 1
    && ReadOf(handles, h, got, p[n], k == n + 1)
    && (if Undisturbed(t, older) then own == Served(handles[h].data)
        else AfterOpen(t) && older == Served(handles[h].data))
    && (n == 1 ==> if k > 0 then own.Served? && p[0].OpenResp?
                   else own.Pending? && p[0] == OpenReq(t.number, t.source))
  }

  ghost predicate During(t: Transfer, c: Core, own: Reply, older: Reply) {
    && OlderNumber(t) < t.number
    && c.server.files == t.files && c.server.hasProvider && c.server.accepts
    && c.server.obtain.Some?
    && var st := c.server.obtain.value;
       && st.invoke == t.invoke && st.dest == t.dest
       && match st.frsm
          case None => st.data == [] && Opening(t, c.handles, Pipe(c), |c.resps|, own, older)
          case Some(h) => Reading(t, c.handles, h, st.data, Pipe(c), |c.resps|, own, older)
  }

  lemma OpeningHears(t: Transfer, offered: map<string, Data>, handles: map<int, ReverseRead>, p: seq<Msg>, k: nat,
                     own: Reply, older: Reply)
    requires Opening(t, handles, p, k, own, older) && k < |p| && OlderNumber(t) < t.number
    ensures var r := Answer(offered, handles, p[k]);
      Opening(t, r.client.handles, p[..k] + r.msgs + p[k + 1..], k + |r.msgs|,
              Heard(own, p[k], t.number, offered), Heard(older, p[k], OlderNumber(t), offered))
  {
    var r := Answer(offered, handles, p[k]);
    var p' := p[..k] + r.msgs + p[k + 1..];
    var n := One(!Undisturbed(t, older));
    if k == n {
      assert n == 1 ==> p'[0] == p[0];
    } else {
      assert n == 1 && k == 0 && p[1..] == [p[1]];
      assert |r.msgs| == 1 ==> p'[0] == r.msgs[0] && p'[1] == p[1];
    }
  }

  lemma ReadingHears(t: Transfer, offered: map<string, Data>, handles: map<int, ReverseRead>, h: int, got: Data,
                     p: seq<Msg>, k: nat, own: Reply, older: Reply)
    requires Reading(t, handles, h, got, p, k, own, older) && k < |p| && OlderNumber(t) < t.number
    ensures var r := Answer(offered, handles, p[k]);
      Reading(t, r.client.handles, h, got, p[..k] + r.msgs + p[k + 1..], k + |r.msgs|,
              Heard(own, p[k], t.number, offered), Heard(older, p[k], OlderNumber(t), offered))
  {
    var r := Answer(offered, handles, p[k]);
    var p' := p[..k] + r.msgs + p[k + 1..];
    if k == |p| - 1 {
      ReadServed(offered, handles, h, got, p[k]);
      assert p'[|p'| - 1] == r.msgs[0];
      assert k == 1 ==> p'[0] == p[0];
    } else {
      assert p'[|p'| - 1] == p[1];
      assert |r.msgs| == 1 ==> p'[0] == r.msgs[0];
    }
  }

  /** Waiting for its open, it takes its own or the older one, or fails. */
  lemma OpeningTakes(t: Transfer, out: nat, handles: map<int, ReverseRead>, p: seq<Msg>, k: nat, own: Reply,
                     older: Reply)
    requires Opening(t, handles, p, k, own, older) && 0 < k <= |p|
    ensures if p[0].OpenResp?
      then Reading(t, handles, p[0].frsm, [], p[1..] + [ReadReq(out + 1, p[0].frsm)], k - 1, own, older)
      else Verdict(t, own, older) == None && !Undisturbed(t, older)
  {
    if p[0].OpenResp? {
      var h := p[0].frsm;
      var p' := p[1..] + [ReadReq(out + 1, h)];
      assert p'[|p'| - 1] == ReadReq(out + 1, h);
      assert handles[h].data[..0] == [];
      assert |p| == 2 ==> p'[0] == p[1];
    }
  }

  /** Reading, it takes the next block, or fails on the answer to its own open. */
  lemma ReadingTakes(t: Transfer, out: nat, handles: map<int, ReverseRead>, h: int, got: Data, p: seq<Msg>, k: nat,
                     own: Reply, older: Reply)
    requires Reading(t, handles, h, got, p, k, own, older) && 0 < k <= |p|
    ensures !p[0].ReadResp? ==> Verdict(t, own, older) == None && !Undisturbed(t, older)
    ensures p[0].ReadResp? && p[0].more ==>
      Reading(t, handles, h, got + p[0].data, p[1..] + [ReadReq(out + 1, h)], k - 1, own, older)
    ensures p[0].ReadResp? && !p[0].more ==> |p| == 1 && Verdict(t, own, older) == Some(got + p[0].data)
  {
    if p[0].ReadResp? {
      assert |p| == 1 && p[1..] == [];
      var data := handles[h].data;
      assert data[..|data|] == data;
    }
  }

  /** What is stored and sent when an upload ends. */
  predicate Ends(t: Transfer, files: map<string, Data>, msgs: seq<Msg>, v: Option<Data>) {
    && msgs != []
    && msgs[|msgs| - 1] == (if v.Some? then ObtainResp(t.invoke) else ErrorResp(t.invoke))
    && files == if v.Some? then t.files[t.dest := v.value] else t.files
  }

  /** After a file is stored just the close of its handle is outstanding. */
  predicate Closes(c: Core, msgs: seq<Msg>) {
    |msgs| == 2 && msgs[0].CloseReq? && c.resps == [] && c.reqs == [msgs[0]]
  }

  lemma TakesDuring(t: Transfer, c: Core, own: Reply, older: Reply)
    requires During(t, c, own, older) && c.resps != []
    ensures var r := ObtainStep(c.server, c.resps[0]);
      if r.server.obtain.Some? then During(t, Take(c), own, older)
      else
        && Ends(t, r.server.files, r.msgs, Verdict(t, own, older))
        && (Undisturbed(t, older) ==> Verdict(t, own, older).Some?)
        && (Verdict(t, own, older).Some? ==> Closes(Take(c), r.msgs))
  {
    TakePipe(c);
    Taken(c.server, c.resps[0]);
    var p, k, out, st := Pipe(c), |c.resps|, c.server.nextOut, c.server.obtain.value;
    match st.frsm
    case None => OpeningTakes(t, out, c.handles, p, k, own, older);
    case Some(h) => ReadingTakes(t, out, c.handles, h, st.data, p, k, own, older);
  }

  lemma ServesDuring(t: Transfer, c: Core, offered: map<string, Data>, own: Reply, older: Reply)
    requires During(t, c, own, older) && c.reqs != []
    ensures During(t, Serve(c, offered), Heard(own, c.reqs[0], t.number, offered),
                   Heard(older, c.reqs[0], OlderNumber(t), offered))
  {
    ServePipe(c, offered);
    var p, k, st := Pipe(c), |c.resps|, c.server.obtain.value;
    match st.frsm
    case None => OpeningHears(t, offered, c.handles, p, k, own, older);
    case Some(h) => ReadingHears(t, offered, c.handles, h, st.data, p, k, own, older);
  }

  /** What the client has done with open request `number` after a run. */
  function ReplyAfter(w: World, acts: seq<Action>, number: nat, r: Reply): Reply {
    if |acts| == 0 then r
    else
      var front := acts[..|acts| - 1];
      ReplyBy(After(w, front), acts[|acts| - 1], number, ReplyAfter(w, front, number, r))
  }

  function ReplyBy(w: World, a: Action, number: nat, r: Reply): Reply {
    if EffectOf(w, a).Serves? then Heard(r, w.toClient[0], number, w.client.offered) else r
  }

  /** The server ends the upload by a step that sends `msgs`. */
  predicate EndsBy(t: Transfer, w: World, w': World, msgs: seq<Msg>, v: Option<Data>, undisturbed: bool) {
    && w'.toClient == w.toClient + msgs && w'.client == w.client
    && Ends(t, w'.server.files, msgs, v)
    && (undisturbed ==> v.Some?)
    && (v.Some? ==> Closes(CoreOf(w'), msgs))
  }

  ghost predicate EndsAs(t: Transfer, w: World, w': World, own: Reply, older: Reply) {
    exists msgs :: EndsBy(t, w, w', msgs, Verdict(t, own, older), Undisturbed(t, older))
  }

  lemma StepTakes(t: Transfer, w: World, a: Action, own: Reply, older: Reply)
    requires During(t, CoreOf(w), own, older) && EffectOf(w, a).Takes?
    ensures var w' := Act(w, a);
      if w'.server.obtain.Some? then During(t, CoreOf(w'), own, older) else EndsAs(t, w, w', own, older)
  {
    ActCore(w, a);
    TakesDuring(t, CoreOf(w), own, older);
    var r := ObtainStep(w.server, w.toServer[0]);
    assert Act(w, a).toClient == w.toClient + r.msgs;
    if r.server.obtain.None? {
      assert EndsBy(t, w, Act(w, a), r.msgs, Verdict(t, own, older), Undisturbed(t, older));
    }
  }

  lemma StepDuring(t: Transfer, w: World, a: Action, own: Reply, older: Reply)
    requires During(t, CoreOf(w), own, older)
    ensures var w' := Act(w, a);
      if w'.server.obtain.Some?
      then During(t, CoreOf(w'), ReplyBy(w, a, t.number, own), ReplyBy(w, a, OlderNumber(t), older))
      else EndsAs(t, w, w', own, older)
  {
    ActCore(w, a);
    match EffectOf(w, a)
    case Nothing =>
    case Accepts =>
    case Takes => StepTakes(t, w, a, own, older);
    case Serves => ServesDuring(t, CoreOf(w), w.client.offered, own, older);
  }

  /** The upload goes on throughout the run. */
  ghost predicate Lasts(w: World, acts: seq<Action>) {
    forall n :: 0 <= n <= |acts| ==> After(w, acts[..n]).server.obtain.Some?
  }

  lemma LastsFront(w: World, acts: seq<Action>)
    requires Lasts(w, acts) && |acts| > 0
    ensures Lasts(w, acts[..|acts| - 1])
  {
    var front := acts[..|acts| - 1];
    forall n | 0 <= n <= |front|
      ensures After(w, front[..n]).server.obtain.Some?
    {
      assert front[..n] == acts[..n];
    }
  }

  lemma {:induction false} RunDuring(t: Transfer, w: World, acts: seq<Action>, own: Reply, older: Reply)
    requires During(t, CoreOf(w), own, older) && Lasts(w, acts)
    ensures During(t, CoreOf(After(w, acts)), ReplyAfter(w, acts, t.number, own),
                   ReplyAfter(w, acts, OlderNumber(t), older))
  {
    if |acts| > 0 {
      var front := acts[..|acts| - 1];
      LastsFront(w, acts);
      RunDuring(t, w, front, own, older);
      assert acts[..|acts|] == acts;
      StepDuring(t, After(w, front), acts[|acts| - 1], ReplyAfter(w, front, t.number, own),
                 ReplyAfter(w, front, OlderNumber(t), older));
    }
  }

  /** The server is free and permitted, and the next thing it receives is this request. */
  ghost predicate Accepting(w: World) {
    && Inv(CoreOf(w)) && Ready(w.server)
    && w.toServer != [] && w.toServer[0].ObtainReq?
  }

  function Outstanding(w: World): Option<Msg> {
    if Pipe(CoreOf(w)) == [] then None else Some(Pipe(CoreOf(w))[0])
  }

  function TransferOf(w: World): Transfer
    requires w.toServer != [] && w.toServer[0].ObtainReq?
  {
    var m := w.toServer[0];
    Transfer(m.invoke, m.source, m.dest, w.server.nextOut + 1, w.server.files, Outstanding(w))
  }

  /** What has become, at the start, of an open request left over: its answer may be under way. */
  function OlderReply(w: World): Reply {
    match Outstanding(w)
    case Some(OpenResp(_, h)) => if h in w.client.handles then Served(w.client.handles[h].data) else Pending
    case _ => Pending
  }

  lemma AcceptedOpening(t: Transfer, handles: map<int, ReverseRead>, p: seq<Msg>, k: nat, older: Reply)
    requires t.number > 0 && Idle(t.number - 1, handles, p, k) && k <= |p|
    requires t.before == if p == [] then None else Some(p[0])
    requires older == if AfterOpen(t) && p[0].OpenResp? then Served(handles[p[0].frsm].data) else Pending
    ensures OlderNumber(t) < t.number
    ensures Opening(t, handles, p + [OpenReq(t.number, t.source)], k, Pending, older)
  {
    var p' := p + [OpenReq(t.number, t.source)];
    assert p'[|p|] == OpenReq(t.number, t.source);
    if |p| == 1 { assert p'[0] == p[0]; }
  }

  lemma AcceptedCore(t: Transfer, c: Core, m: Msg, older: Reply)
    requires Inv(c) && Ready(c.server) && m.ObtainReq?
    requires t.invoke == m.invoke && t.source == m.source && t.dest == m.dest
    requires t.number == c.server.nextOut + 1 && t.files == c.server.files
    requires t.before == if Pipe(c) == [] then None else Some(Pipe(c)[0])
    requires older == if AfterOpen(t) && Pipe(c)[0].OpenResp? then Served(c.handles[Pipe(c)[0].frsm].data) else Pending
    ensures During(t, Accept(c, m), Pending, older)
  {
    assert Pipe(Accept(c, m)) == Pipe(c) + [OpenReq(c.server.nextOut + 1, m.source)];
    AcceptedOpening(t, c.handles, Pipe(c), |c.resps|, older);
  }

  lemma OlderAtStart(w: World)
    requires Accepting(w)
    ensures var t, c := TransferOf(w), CoreOf(w);
      && (AfterOpen(t) && Pipe(c)[0].OpenResp? ==> Pipe(c)[0].frsm in c.handles)
      && OlderReply(w) == if AfterOpen(t) && Pipe(c)[0].OpenResp? then Served(c.handles[Pipe(c)[0].frsm].data)
                          else Pending
  {
  }

  lemma AcceptedDuring(w: World)
    requires Accepting(w)
    ensures During(TransferOf(w), CoreOf(Act(w, Arrive(ToServer))), Pending, OlderReply(w))
  {
    ActCore(w, Arrive(ToServer));
    OlderAtStart(w);
    AcceptedCore(TransferOf(w), CoreOf(w), w.toServer[0], OlderReply(w));
  }

  /** What the client has done with the upload's own open request after a run from its acceptance. */
  function OwnReply(w: World, acts: seq<Action>): Reply
    requires w.toServer != [] && w.toServer[0].ObtainReq?
  {
    ReplyAfter(Act(w, Arrive(ToServer)), acts, TransferOf(w).number, Pending)
  }

  /** Every upload that is accepted, whatever was outstanding and whatever other calls do meanwhile:
    * until it ends the files stay as they are, and when it ends it stores and answers by `Verdict`. */
  lemma {:induction false} UploadEnds(w: World, acts: seq<Action>, a: Action)
    requires Accepting(w)
    requires var w1 := Act(w, Arrive(ToServer)); Lasts(w1, acts) && Act(After(w1, acts), a).server.obtain.None?
    ensures var t, w1 := TransferOf(w), Act(w, Arrive(ToServer));
      var w2 := After(w1, acts);
      var own, older := OwnReply(w, acts), ReplyAfter(w1, acts, OlderNumber(t), OlderReply(w));
      && w2.server.files == w.server.files
      && EndsAs(t, w2, Act(w2, a), own, older)
  {
    var t, w1 := TransferOf(w), Act(w, Arrive(ToServer));
    AcceptedDuring(w);
    RunDuring(t, w1, acts, Pending, OlderReply(w));
    StepDuring(t, After(w1, acts), a, ReplyAfter(w1, acts, t.number, Pending),
               ReplyAfter(w1, acts, OlderNumber(t), OlderReply(w)));
  }

  // ---------------------------------------------------------------- what a call returns

  /** What the message the client takes next says to call `i`, if that waits for it. */
  function Telling(u: World, a: Action, i: nat): Option<bool> {
    if a == Arrive(ToClient) && u.toClient != [] && InStage(u.client, i, Waiting) then
      if u.toClient[0] == ObtainResp(i) then Some(true)
      else if u.toClient[0] == ErrorResp(i) then Some(false) else None
    else None
  }

  /** The last word on call `i`: the answer that reached the client while the call waited for it. */
  function ToldOf(w: World, acts: seq<Action>, i: nat): Option<bool> {
    if |acts| == 0 then None
    else
      var front, a := acts[..|acts| - 1], acts[|acts| - 1];
      var now := Telling(After(w, front), a, i);
      if now.Some? then now else ToldOf(w, front, i)
  }

  predicate Agrees(c: Client, i: nat, told: Option<bool>) {
    if i !in c.calls then told == None
    else
      match c.calls[i].stage
      case Ended(result) => result == told
      case Answered(ok) => told == Some(ok)
      case _ => told == None
  }

  lemma AgreesAfter(u: World, a: Action, i: nat, told: Option<bool>)
    requires Agrees(u.client, i, told)
    ensures Agrees(Act(u, a).client, i, if Telling(u, a, i).Some? then Telling(u, a, i) else told)
  {
    if Possible(u, a) && a.Arrive? && a.d.ToClient? { AgreesTaken(u, i, told); }
  }

  lemma AgreesTaken(u: World, i: nat, told: Option<bool>)
    requires Agrees(u.client, i, told) && u.toClient != []
    ensures var now := Telling(u, Arrive(ToClient), i);
      Agrees(ClientReceive(u.client, u.toClient[0]).client, i, if now.Some? then now else told)
  {
    HandleResponds(u.client, u.toClient[0]);
  }

  /** In every run: a call that has returned has given true if the server said that the file is stored, false
    * if it reported an error, and no answer if the call gave up before either came. */
  lemma {:induction false} ReturnsWhatItIsTold(w: World, acts: seq<Action>, i: nat)
    requires i !in w.client.calls
    ensures var c, told := After(w, acts).client, ToldOf(w, acts, i);
      && (i !in c.calls ==> told == None)
      && (i in c.calls && c.calls[i].stage.Ended? ==> c.calls[i].stage.result == told)
      && (i in c.calls && c.calls[i].stage.Answered? ==> told == Some(c.calls[i].stage.ok))
      && (i in c.calls && !c.calls[i].stage.Ended? && !c.calls[i].stage.Answered? ==> told == None)
  {
    ReturnsAgrees(w, acts, i);
  }

  lemma {:induction false} ReturnsAgrees(w: World, acts: seq<Action>, i: nat)
    requires i !in w.client.calls
    ensures Agrees(After(w, acts).client, i, ToldOf(w, acts, i))
  {
    if |acts| > 0 {
      var front := acts[..|acts| - 1];
      ReturnsAgrees(w, front, i);
      AgreesAfter(After(w, front), acts[|acts| - 1], i, ToldOf(w, front, i));
    }
  }

  // ---------------------------------------------------------------- whose octets they are

  function Offer(c: Client, source: string): Option<Data> {
    if source in c.offered then Some(c.offered[source]) else None
  }

  /** What is offered under a name: the octets of the last call that began under it, and nothing once
    * any call under it has ended. */
  function LastOffer(w: World, acts: seq<Action>, source: string): Option<Data> {
    if |acts| == 0 then Offer(w.client, source)
    else
      var front, a := acts[..|acts| - 1], acts[|acts| - 1];
      var u := After(w, front);
      if a.Begin? && a.source == source && Possible(u, a) then Some(a.data)
      else if a.End? && Possible(u, a) && u.client.calls[a.invoke].source == source then None
      else LastOffer(w, front, source)
  }

  lemma {:induction false} OfferIs(w: World, acts: seq<Action>, source: string)
    ensures Offer(After(w, acts).client, source) == LastOffer(w, acts, source)
  {
    if |acts| > 0 {
      var u, a := After(w, acts[..|acts| - 1]), acts[|acts| - 1];
      OfferIs(w, acts[..|acts| - 1], source);
      if a.Arrive? && Possible(u, a) && a.d.ToClient? { HandleResponds(u.client, u.toClient[0]); }
    }
  }

  /** Action `n` is the client serving open request `number`. */
  predicate OpensAt(w: World, acts: seq<Action>, n: nat, number: nat)
    requires n < |acts|
  {
    var u := After(w, acts[..n]);
    EffectOf(u, acts[n]).Serves? && u.toClient[0].OpenReq? && u.toClient[0].invoke == number
  }

  /** The reply is what was offered under the source name at that moment. */
  ghost predicate RepliedAt(w: World, acts: seq<Action>, n: nat, number: nat, source: string, r: Reply) {
    && n < |acts| && OpensAt(w, acts, n, number)
    && r == match LastOffer(w, acts[..n], source)
            case Some(d) => Served(d)
            case None => Ignored
  }

  lemma OwnRequest(t: Transfer, c: Core, own: Reply, older: Reply)
    requires During(t, c, own, older) && c.reqs != []
    ensures c.reqs[0].OpenReq? && c.reqs[0].invoke == t.number && own.Pending? ==> c.reqs[0].name == t.source
  {
    PipeAt(c);
  }

  lemma OwnServed(t: Transfer, u: World, a: Action, older: Reply)
    requires During(t, CoreOf(u), Pending, older) && !ReplyBy(u, a, t.number, Pending).Pending?
    ensures EffectOf(u, a).Serves? && u.toClient[0].OpenReq? && u.toClient[0].invoke == t.number
    ensures ReplyBy(u, a, t.number, Pending) == match Offer(u.client, t.source)
      case Some(d) => Served(d)
      case None => Ignored
  {
    ActCore(u, a);
    OwnRequest(t, CoreOf(u), Pending, older);
  }

  lemma PipeAt(c: Core)
    ensures c.reqs != [] ==> |c.resps| < |Pipe(c)| && Pipe(c)[|c.resps|] == c.reqs[0]
  {
  }

  /** The reply is pending, or was given at some moment of the run. */
  ghost predicate ReplyGiven(w: World, acts: seq<Action>, number: nat, source: string, r: Reply) {
    r.Pending? || exists n: nat :: RepliedAt(w, acts, n, number, source, r)
  }

  lemma GivenBefore(w: World, acts: seq<Action>, number: nat, source: string, r: Reply)
    requires |acts| > 0 && ReplyGiven(w, acts[..|acts| - 1], number, source, r)
    ensures ReplyGiven(w, acts, number, source, r)
  {
    if !r.Pending? {
      var front := acts[..|acts| - 1];
      var n: nat :| RepliedAt(w, front, n, number, source, r);
      assert front[..n] == acts[..n] && acts[n] == front[n];
      assert RepliedAt(w, acts, n, number, source, r);
    }
  }

  lemma GivenNow(t: Transfer, w: World, acts: seq<Action>, older: Reply)
    requires |acts| > 0
    requires var u, a := After(w, acts[..|acts| - 1]), acts[|acts| - 1];
      During(t, CoreOf(u), Pending, older) && !ReplyBy(u, a, t.number, Pending).Pending?
    ensures var u, a := After(w, acts[..|acts| - 1]), acts[|acts| - 1];
      ReplyGiven(w, acts, t.number, t.source, ReplyBy(u, a, t.number, Pending))
  {
    var n: nat := |acts| - 1;
    var u, a := After(w, acts[..n]), acts[n];
    OwnServed(t, u, a, older);
    OfferIs(w, acts[..n], t.source);
    assert RepliedAt(w, acts, n, t.number, t.source, ReplyBy(u, a, t.number, Pending));
  }

  lemma {:induction false} OwnReplyIs(w: World, acts: seq<Action>)
    requires Accepting(w) && Lasts(Act(w, Arrive(ToServer)), acts)
    ensures ReplyGiven(Act(w, Arrive(ToServer)), acts, TransferOf(w).number, TransferOf(w).source, OwnReply(w, acts))
  {
    var t, w1 := TransferOf(w), Act(w, Arrive(ToServer));
    if |acts| > 0 {
      var front := acts[..|acts| - 1];
      LastsFront(w1, acts);
      OwnReplyIs(w, front);
      if OwnReply(w, front).Pending? && !OwnReply(w, acts).Pending? {
        AcceptedDuring(w);
        RunDuring(t, w1, front, Pending, OlderReply(w));
        GivenNow(t, w1, acts, ReplyAfter(w1, front, OlderNumber(t), OlderReply(w)));
      } else {
        GivenBefore(w1, acts, t.number, t.source, OwnReply(w, front));
      }
    }
  }

  ghost predicate EndsAfter(w: World, acts: seq<Action>, a: Action)
    requires w.toServer != []
  {
    var w1 := Act(w, Arrive(ToServer));
    Lasts(w1, acts) && Act(After(w1, acts), a).server.obtain.None?
  }

  /** An upload accepted with nothing outstanding does not fail. It stores `data` if and only if that
    * is what was offered under its source name when the client served its open request: the octets
    * of the last call begun under that name, unless one has ended under it since. */
  lemma {:induction false} OwnOctetsIff(w: World, acts: seq<Action>, a: Action, data: Data)
    requires Accepting(w) && Outstanding(w).None? && EndsAfter(w, acts, a)
    ensures var t, w1 := TransferOf(w), Act(w, Arrive(ToServer));
      var w3 := Act(After(w1, acts), a);
      && w3.toClient != [] && w3.toClient[|w3.toClient| - 1] == ObtainResp(t.invoke)
      && exists n: nat ::
           && n < |acts| && OpensAt(w1, acts, n, t.number)
           && (w3.server.files == w.server.files[t.dest := data] <==> LastOffer(w1, acts[..n], t.source) == Some(data))
  {
    var t, w1 := TransferOf(w), Act(w, Arrive(ToServer));
    UploadEnds(w, acts, a);
    OwnReplyIs(w, acts);
    var n: nat :| RepliedAt(w1, acts, n, t.number, t.source, OwnReply(w, acts));
    var files, w3 := w.server.files, Act(After(w1, acts), a);
    var d := OwnReply(w, acts).data;
    assert w3.server.files == files[t.dest := d];
    assert files[t.dest := d][t.dest] == d && files[t.dest := data][t.dest] == data;
  }
}
