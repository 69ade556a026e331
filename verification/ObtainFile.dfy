/** Uploading a file: the client asks the server to obtain it, and the server reads it back over
  * the same association with reverse open, read and close requests. Both ends, two FIFO channels. */
module ObtainFile {
  import opened Wrappers
  import opened Numbers
  import opened Octets

  type Data = seq<Byte>

  datatype Msg =
    | ObtainReq(invoke: nat, source: string, dest: string)
    | OpenReq(invoke: nat, name: string)
    | ReadReq(invoke: nat, frsm: int)
    | CloseReq(invoke: nat, frsm: int)
    | OpenResp(invoke: nat, frsm: int)
    | ReadResp(invoke: nat, data: Data, more: bool)
    | CloseResp(invoke: nat)
    | ObtainResp(invoke: nat)
    | ErrorResp(invoke: nat)

  // ---------------------------------------------------------------- server

  datatype Obtain = Obtain(invoke: nat, dest: string, frsm: Option<int>, data: Data)
  /** `accepts` is whether the file provider stores what it is given. */
  datatype Server = Server(mayWrite: bool, hasProvider: bool, accepts: bool, files: map<string, Data>,
                           obtain: Option<Obtain>, nextOut: nat)
  datatype ServerOut = ServerOut(server: Server, msgs: seq<Msg>)

  function StartObtain(s: Server, invoke: nat, source: string, dest: string): ServerOut {
    if !s.mayWrite || !s.hasProvider || s.obtain.Some? then ServerOut(s, [ErrorResp(invoke)])
    else
      var out := s.nextOut + 1;
      ServerOut(s.(nextOut := out, obtain := Some(Obtain(invoke, dest, None, []))), [OpenReq(out, source)])
  }

  /** A response of the client advances the upload in progress; without one it is dropped. */
  function ObtainStep(s: Server, m: Msg): ServerOut {
    if s.obtain.None? then ServerOut(s, [])
    else
      var st := s.obtain.value;
      var idle := s.(obtain := None);
      var out := s.nextOut + 1;
      match (m, st.frsm)
      case (OpenResp(_, frsm), None) =>
        ServerOut(s.(nextOut := out, obtain := Some(st.(frsm := Some(frsm)))), [ReadReq(out, frsm)])
      case (ReadResp(_, data, more), Some(frsm)) =>
        var all := st.data + data;
        if more then ServerOut(s.(nextOut := out, obtain := Some(st.(data := all))), [ReadReq(out, frsm)])
        else if s.hasProvider && s.accepts then
          ServerOut(idle.(nextOut := out, files := s.files[st.dest := all]),
                    [CloseReq(out, frsm), ObtainResp(st.invoke)])
        else ServerOut(idle.(nextOut := out), [CloseReq(out, frsm), ErrorResp(st.invoke)])
      case _ => ServerOut(idle, [ErrorResp(st.invoke)])
  }

  function ServerReceive(s: Server, m: Msg): ServerOut {
    match m
    case ObtainReq(invoke, source, dest) => StartObtain(s, invoke, source, dest)
    case _ => ObtainStep(s, m)
  }

  // ---------------------------------------------------------------- client

  datatype ReverseRead = ReverseRead(data: Data, pos: nat)
  /** How far a call of `upload_file` has come: file offered, request sent, answer there, and done;
    * or given up because sending failed or the answer took too long. */
  datatype Stage = Offering | Waiting | Answered(ok: bool) | GivenUp | Ended(result: Option<bool>)
  datatype Call = Call(source: string, dest: string, data: Data, stage: Stage)
  datatype Client = Client(offered: map<string, Data>, handles: map<int, ReverseRead>, calls: map<nat, Call>)
  datatype ClientOut = ClientOut(client: Client, msgs: seq<Msg>)

  /** Greatest handle in use, or 0. */
  function MaxHandle(hs: set<int>): (h: int)
    ensures forall x :: x in hs ==> x <= h
    ensures hs == {} ==> h == 0
    ensures hs != {} ==> h in hs
  {
    if hs == {} then 0
    else
      MaximumExists(hs);
      var x :| x in hs && forall y :: y in hs ==> y <= x;
      x
  }

  lemma {:induction false} MaximumExists(hs: set<int>)
    requires hs != {}
    ensures exists x :: x in hs && forall y :: y in hs ==> y <= x
  {
    var z := Pick(hs);
    var rest := hs - {z};
    if rest != {} {
      MaximumExists(rest);
      var x :| x in rest && forall y :: y in rest ==> y <= x;
      var w := if z <= x then x else z;
      forall y | y in hs
        ensures y <= w
      {
        assert y == z || y in rest;
      }
      assert w in hs;
    } else {
      assert hs == {z};
      assert z in hs && forall y :: y in hs ==> y <= z;
    }
  }

  lemma Pick<T>(hs: set<T>) returns (z: T)
    requires hs != {}
    ensures z in hs
  {
    z :| z in hs;
  }

  function ReadEnd(r: ReverseRead): nat {
    Min(r.pos + FILE_READ_CHUNK, |r.data|)
  }

  /** Serves the server's reverse requests; a request it cannot serve gets no answer. */
  function HandleReverse(c: Client, m: Msg): ClientOut {
    match m
    case OpenReq(invoke, name) =>
      if name !in c.offered then ClientOut(c, [])
      else
        var frsm := MaxHandle(c.handles.Keys) + 1;
        ClientOut(c.(handles := c.handles[frsm := ReverseRead(c.offered[name], 0)]), [OpenResp(invoke, frsm)])
    case ReadReq(invoke, frsm) =>
      if frsm !in c.handles || c.handles[frsm].pos > |c.handles[frsm].data| then ClientOut(c, [])
      else
        var r := c.handles[frsm];
        var end := ReadEnd(r);
        ClientOut(c.(handles := c.handles[frsm := r.(pos := end)]),
                  [ReadResp(invoke, r.data[r.pos..end], end < |r.data|)])
    case CloseReq(invoke, frsm) => ClientOut(c.(handles := c.handles - {frsm}), [CloseResp(invoke)])
    case _ => ClientOut(c, [])
  }

  /** An answer goes to the call that waits for it; any other is dropped. */
  function Told(c: Client, invoke: nat, ok: bool): Client {
    if invoke in c.calls && c.calls[invoke].stage.Waiting?
    then c.(calls := c.calls[invoke := c.calls[invoke].(stage := Answered(ok))]) else c
  }

  function ClientReceive(c: Client, m: Msg): ClientOut {
    match m
    case ObtainResp(invoke) => ClientOut(Told(c, invoke, true), [])
    case ErrorResp(invoke) => ClientOut(Told(c, invoke, false), [])
    case _ => HandleReverse(c, m)
  }

  // ---------------------------------------------------------------- the code's own form

  /** The connection state of the server that an upload touches. */
  class ObtainSession {
    var server: Server

    constructor (s: Server)
      ensures server == s
    {
      server := s;
    }

    method Step(m: Msg) returns (msgs: seq<Msg>)
      modifies this
      ensures ServerOut(server, msgs) == ObtainStep(old(server), m)
    {
      if server.obtain.None? { return []; }
      var st := server.obtain.value;
      server := server.(obtain := None);
      if st.frsm.None? {
        if !m.OpenResp? { return [ErrorResp(st.invoke)]; }
        server := server.(nextOut := server.nextOut + 1);
        server := server.(obtain := Some(st.(frsm := Some(m.frsm))));
        return [ReadReq(server.nextOut, m.frsm)];
      }
      if !m.ReadResp? { return [ErrorResp(st.invoke)]; }
      st := st.(data := st.data + m.data);
      server := server.(nextOut := server.nextOut + 1);
      if m.more {
        server := server.(obtain := Some(st));
        return [ReadReq(server.nextOut, st.frsm.value)];
      }
      var saved := server.hasProvider && server.accepts;
      if saved { server := server.(files := server.files[st.dest := st.data]); }
      msgs := [CloseReq(server.nextOut, st.frsm.value), if saved then ObtainResp(st.invoke) else ErrorResp(st.invoke)];
    }
  }

  /** What the client's reader task keeps for the files it offers. */
  class ReverseReads {
    var client: Client

    constructor (c: Client)
      ensures client == c
    {
      client := c;
    }

    method Handle(m: Msg) returns (msgs: seq<Msg>)
      modifies this
      ensures ClientOut(client, msgs) == HandleReverse(old(client), m)
    {
      msgs := [];
      match m {
        case OpenReq(invoke, name) =>
          if name in client.offered {
            var frsm := MaxHandle(client.handles.Keys) + 1;
            client := client.(handles := client.handles[frsm := ReverseRead(client.offered[name], 0)]);
            msgs := [OpenResp(invoke, frsm)];
          }
        case ReadReq(invoke, frsm) =>
          if frsm in client.handles && client.handles[frsm].pos <= |client.handles[frsm].data| {
            var st := client.handles[frsm];
            var end := st.pos + FILE_READ_CHUNK;
            if |st.data| < end { end := |st.data|; }
            var block := st.data[st.pos..end];
            client := client.(handles := client.handles[frsm := st.(pos := end)]);
            msgs := [ReadResp(invoke, block, end < |st.data|)];
          }
        case CloseReq(invoke, frsm) =>
          client := client.(handles := client.handles - {frsm});
          msgs := [CloseResp(invoke)];
        case _ =>
      }
    }
  }

  // ---------------------------------------------------------------- both ends together

  datatype World = World(client: Client, server: Server, toServer: seq<Msg>, toClient: seq<Msg>, readsAsked: nat)

  datatype Delivery = ToServer | ToClient

  predicate Enabled(w: World, d: Delivery) {
    if d.ToServer? then w.toServer != [] else w.toClient != []
  }

  /** A reaction of the server asks for at most one block, and asks for it first. */
  function Asks(ms: seq<Msg>): nat { if ms != [] && ms[0].ReadReq? then 1 else 0 }

  /** The oldest message of one channel reaches its end. */
  function Deliver(w: World, d: Delivery): World
    requires Enabled(w, d)
  {
    match d
    case ToServer =>
      var r := ServerReceive(w.server, w.toServer[0]);
      World(w.client, r.server, w.toServer[1..], w.toClient + r.msgs, w.readsAsked + Asks(r.msgs))
    case ToClient =>
      var r := ClientReceive(w.client, w.toClient[0]);
      World(r.client, w.server, w.toServer + r.msgs, w.toClient[1..], w.readsAsked)
  }

  /** An upload starts: nothing in flight, no upload in progress, permission and provider present. */
  ghost predicate Ready(s: Server) { s.mayWrite && s.hasProvider && s.accepts && s.obtain.None? }

  /** One upload: what the server, the client and its other calls are before it, and the file. */
  datatype Job = Job(server: Server, handles: map<int, ReverseRead>, offered: map<string, Data>,
                     calls: map<nat, Call>, invoke: nat, source: string, dest: string, data: Data)

  /** The call of the upload is in this stage, and its file is offered. */
  function Client0(j: Job, handles: map<int, ReverseRead>, stage: Stage): Client {
    Client(j.offered[j.source := j.data], handles, j.calls[j.invoke := Call(j.source, j.dest, j.data, stage)])
  }

  /** The file is offered and the request sent. */
  function Start(j: Job): World {
    World(Client0(j, j.handles, Waiting), j.server, [ObtainReq(j.invoke, j.source, j.dest)], [], 0)
  }

  predicate ToldStored(j: Job, c: Client) { j.invoke in c.calls && c.calls[j.invoke].stage == Answered(true) }
  predicate ToldRefused(j: Job, c: Client) { j.invoke in c.calls && c.calls[j.invoke].stage == Answered(false) }

  /** A run: deliveries in any order, each of them possible when it is made. */
  ghost predicate IsRun(w: World, ds: seq<Delivery>)
    decreases |ds|
  {
    |ds| == 0 || (Enabled(w, ds[0]) && IsRun(Deliver(w, ds[0]), ds[1..]))
  }

  function Run(w: World, ds: seq<Delivery>): World
    requires IsRun(w, ds)
    decreases |ds|
  {
    if |ds| == 0 then w else Run(Deliver(w, ds[0]), ds[1..])
  }

  /** Where an upload stands. `p` is how much the server had before the read in progress. */
  datatype Phase = Asked | Opening | Opened | Reading(p: nat) | Replied(p: nat) | Closing | Closed
                 | ClosedAnswered | ClosedKnown | Done

  function Handle(j: Job): int { MaxHandle(j.handles.Keys) + 1 }

  ghost predicate AtPos(j: Job, p: nat) { p % FILE_READ_CHUNK == 0 && (p == 0 || p < |j.data|) }

  function Uploading(j: Job, frsm: Option<int>, got: Data, out: nat): Server {
    j.server.(nextOut := j.server.nextOut + out, obtain := Some(Obtain(j.invoke, j.dest, frsm, got)))
  }

  function Finished(j: Job, out: nat): Server {
    j.server.(nextOut := j.server.nextOut + out, files := j.server.files[j.dest := j.data])
  }

  function ReadingAt(j: Job, p: nat): map<int, ReverseRead> { j.handles[Handle(j) := ReverseRead(j.data, p)] }

  /** The whole state of both ends and both channels in each phase. */
  ghost predicate InPhase(j: Job, w: World, ph: Phase) {
    var h, n, o := Handle(j), |j.data|, j.server.nextOut;
    match ph
    case Asked => w == Start(j)
    case Opening =>
      w == World(Client0(j, j.handles, Waiting), Uploading(j, None, [], 1), [], [OpenReq(o + 1, j.source)], 0)
    case Opened =>
      w == World(Client0(j, ReadingAt(j, 0), Waiting), Uploading(j, None, [], 1), [OpenResp(o + 1, h)], [], 0)
    case Reading(p) =>
      && AtPos(j, p) && p <= n
      && w == World(Client0(j, ReadingAt(j, p), Waiting),
                    Uploading(j, Some(h), j.data[..p], p / FILE_READ_CHUNK + 2), [],
                    [ReadReq(o + p / FILE_READ_CHUNK + 2, h)], p / FILE_READ_CHUNK + 1)
    case Replied(p) =>
      && AtPos(j, p) && p <= n
      && var e := Min(p + FILE_READ_CHUNK, n);
         w == World(Client0(j, ReadingAt(j, e), Waiting), Uploading(j, Some(h), j.data[..p], p / FILE_READ_CHUNK + 2),
                    [ReadResp(o + p / FILE_READ_CHUNK + 2, j.data[p..e], e < n)], [], p / FILE_READ_CHUNK + 1)
    case Closing =>
      w == World(Client0(j, ReadingAt(j, n), Waiting), Finished(j, ReadsFor(n) + 2), [],
                 [CloseReq(o + ReadsFor(n) + 2, h), ObtainResp(j.invoke)], ReadsFor(n))
    case Closed =>
      w == World(Client0(j, j.handles, Waiting), Finished(j, ReadsFor(n) + 2), [CloseResp(o + ReadsFor(n) + 2)],
                 [ObtainResp(j.invoke)], ReadsFor(n))
    case ClosedAnswered =>
      w == World(Client0(j, j.handles, Waiting), Finished(j, ReadsFor(n) + 2), [], [ObtainResp(j.invoke)], ReadsFor(n))
    case ClosedKnown =>
      w == World(Client0(j, j.handles, Answered(true)), Finished(j, ReadsFor(n) + 2),
                 [CloseResp(o + ReadsFor(n) + 2)], [], ReadsFor(n))
    case Done =>
      w == World(Client0(j, j.handles, Answered(true)), Finished(j, ReadsFor(n) + 2), [], [], ReadsFor(n))
  }

  /** Deliveries still to come. */
  function Left(j: Job, ph: Phase): int {
    var r := ReadsFor(|j.data|);
    match ph
    case Asked => 2 * r + 6
    case Opening => 2 * r + 5
    case Opened => 2 * r + 4
    case Reading(p) => 2 * (r - p / FILE_READ_CHUNK) + 3
    case Replied(p) => 2 * (r - p / FILE_READ_CHUNK) + 2
    case Closing => 3
    case Closed => 2
    case ClosedAnswered => 1
    case ClosedKnown => 1
    case Done => 0
  }

  function Next(j: Job, ph: Phase, d: Delivery): Phase {
    match ph
    case Asked => Opening
    case Opening => Opened
    case Opened => Reading(0)
    case Reading(p) => Replied(p)
    case Replied(p) => if p + FILE_READ_CHUNK < |j.data| then Reading(p + FILE_READ_CHUNK) else Closing
    case Closing => Closed
    case Closed => if d.ToServer? then ClosedAnswered else ClosedKnown
    case _ => Done
  }

  lemma ReadsForBlock(n: nat, p: nat)
    requires p % FILE_READ_CHUNK == 0 && (p == 0 || p < n)
    ensures p + FILE_READ_CHUNK < n ==> p / FILE_READ_CHUNK + 1 < ReadsFor(n)
    ensures p + FILE_READ_CHUNK >= n ==> p / FILE_READ_CHUNK + 1 == ReadsFor(n)
  {
    var k := p / FILE_READ_CHUNK;
    assert p == k * FILE_READ_CHUNK;
  }

  lemma ReplyAdvances(j: Job, w: World, p: nat)
    requires Ready(j.server) && InPhase(j, w, Replied(p))
    ensures InPhase(j, Deliver(w, ToServer), Next(j, Replied(p), ToServer))
  {
    var n, e := |j.data|, Min(p + FILE_READ_CHUNK, |j.data|);
    ReadsForBlock(n, p);
    BlockAdded(j.data, p, e);
    NextBlock(p);
  }

  lemma BlockAdded(data: seq<Byte>, p: nat, e: nat)
    requires p <= e <= |data|
    ensures data[..p] + data[p..e] == data[..e] && (e == |data| ==> data[..e] == data)
  {
  }

  lemma NextBlock(p: nat)
    requires p % FILE_READ_CHUNK == 0
    ensures var next := p + FILE_READ_CHUNK;
      next / FILE_READ_CHUNK == p / FILE_READ_CHUNK + 1 && next % FILE_READ_CHUNK == 0
  {
  }

  lemma AskAdvances(j: Job, w: World, p: nat)
    requires Ready(j.server) && InPhase(j, w, Reading(p))
    ensures InPhase(j, Deliver(w, ToClient), Replied(p))
  {
    var c := HandleReverse(w.client, w.toClient[0]).client;
    assert c.handles == ReadingAt(j, Min(p + FILE_READ_CHUNK, |j.data|));
  }

  lemma CloseAdvances(j: Job, w: World, ph: Phase, d: Delivery)
    requires Ready(j.server) && InPhase(j, w, ph) && Enabled(w, d)
    requires ph.Closing? || ph.Closed? || ph.ClosedAnswered? || ph.ClosedKnown?
    ensures InPhase(j, Deliver(w, d), Next(j, ph, d))
  {
    assert ReadingAt(j, |j.data|) - {Handle(j)} == j.handles;
  }

  lemma OpenAdvances(j: Job, w: World, ph: Phase, d: Delivery)
    requires Ready(j.server) && InPhase(j, w, ph) && Enabled(w, d) && (ph.Asked? || ph.Opening? || ph.Opened?)
    ensures InPhase(j, Deliver(w, d), Next(j, ph, d))
  {
    assert j.data[..0] == [];
  }

  lemma StepAdvances(j: Job, w: World, ph: Phase, d: Delivery)
    requires Ready(j.server) && InPhase(j, w, ph) && Enabled(w, d)
    ensures InPhase(j, Deliver(w, d), Next(j, ph, d))
  {
    match ph
    case Reading(p) => AskAdvances(j, w, p);
    case Replied(p) => ReplyAdvances(j, w, p);
    case Done =>
    case _ =>
      if ph.Asked? || ph.Opening? || ph.Opened? { OpenAdvances(j, w, ph, d); } else { CloseAdvances(j, w, ph, d); }
  }

  lemma LeftDecreases(j: Job, w: World, ph: Phase, d: Delivery)
    requires InPhase(j, w, ph) && Enabled(w, d)
    ensures 0 <= Left(j, Next(j, ph, d)) == Left(j, ph) - 1
  {
    match ph
    case Reading(p) => ReadsForBlock(|j.data|, p);
    case Replied(p) =>
      ReadsForBlock(|j.data|, p);
      NextBlock(p);
    case _ =>
  }

  lemma {:induction false} RunStays(j: Job, w: World, ph: Phase, ds: seq<Delivery>) returns (end: Phase)
    requires Ready(j.server) && InPhase(j, w, ph) && IsRun(w, ds)
    ensures InPhase(j, Run(w, ds), end)
    ensures Left(j, end) == Left(j, ph) - |ds|
    decreases |ds|
  {
    if |ds| == 0 {
      end := ph;
    } else {
      StepAdvances(j, w, ph, ds[0]);
      LeftDecreases(j, w, ph, ds[0]);
      end := RunStays(j, Deliver(w, ds[0]), Next(j, ph, ds[0]), ds[1..]);
    }
  }

  lemma PhaseFacts(j: Job, w: World, ph: Phase)
    requires Ready(j.server) && InPhase(j, w, ph)
    ensures Left(j, ph) >= 0
    ensures ObtainResp(j.invoke) in w.toClient || ToldStored(j, w.client) ==>
              w.server.files == j.server.files[j.dest := j.data]
    ensures !ToldRefused(j, w.client)
    ensures w.readsAsked <= ReadsFor(|j.data|)
    ensures w.toServer == [] && w.toClient == [] ==> ph == Done
  {
    match ph
    case Reading(p) => ReadsForBlock(|j.data|, p);
    case Replied(p) => ReadsForBlock(|j.data|, p);
    case _ =>
  }

  /** For every file offered and every order of deliveries: the exchange ends after 2r + 6
    * deliveries at the latest, r = max(1, ceil(n / 8192)); it asks for exactly r blocks; when
    * nothing is in flight any more the server's file store differs from the initial one exactly in
    * that `dest` holds the offered octets, the client knows it, and the client's reverse reads are
    * as before; and at no point is the final answer under way, or known, before the file is stored. */
  lemma {:induction false} UploadIsFaithful(j: Job, ds: seq<Delivery>)
    requires Ready(j.server) && IsRun(Start(j), ds)
    ensures var r, w := ReadsFor(|j.data|), Run(Start(j), ds);
      && |ds| <= 2 * r + 6
      && (ObtainResp(j.invoke) in w.toClient || ToldStored(j, w.client) ==>
            w.server.files == j.server.files[j.dest := j.data])
      && !ToldRefused(j, w.client)
      && (w.toServer == [] && w.toClient == [] ==>
            && |ds| == 2 * r + 6
            && w.readsAsked == r
            && w.server.files == j.server.files[j.dest := j.data]
            && ToldStored(j, w.client) && w.client.handles == j.handles
            && Ready(w.server))
  {
    assert InPhase(j, Start(j), Asked);
    var end := RunStays(j, Start(j), Asked, ds);
    PhaseFacts(j, Run(Start(j), ds), end);
  }
}
