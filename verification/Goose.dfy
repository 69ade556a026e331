/** The GOOSE publisher and subscriber, alone and joined by a channel. Times are in nanoseconds. */
module Goose {
  import opened Wrappers
  import opened Octets
  import opened MmsValues
  import opened Numbers

  const MS: nat := 1_000_000
  const DAY: nat := 86_400_000_000_000
  const TTL_CAP: nat := TWO_32 - 1

  datatype Config = Config(cb: string, tMin: nat, tMax: nat, simulation: bool)

  datatype Frame = Frame(cb: string, stNum: U32, sqNum: U32, ttl: U32, values: seq<MmsData>, simulation: bool)

  // ---------------------------------------------------------------- the publisher

  datatype Pub = Pub(stNum: U32, sqNum: U32, last: seq<MmsData>, interval: nat, started: bool, due: nat)

  function Idle(cfg: Config, now: nat): Pub { Pub(1, 0, [], cfg.tMin, false, now + cfg.tMin) }

  /** `timeAllowedToLive`, in whole milliseconds of a 32-bit field. */
  function TtlMs(interval: nat): U32 {
    var t := 2 * (interval / MS);
    if t < TTL_CAP then t else TTL_CAP
  }

  /** stNum 0 is reserved. */
  function NextSt(st: U32): U32 { if st == TWO_32 - 1 then 1 else st + 1 }

  function NextSq(sq: U32): U32 { (sq + 1) % TWO_32 }

  function FrameOf(cfg: Config, p: Pub): Frame {
    Frame(cfg.cb, p.stNum, p.sqNum, TtlMs(p.interval), p.last, cfg.simulation)
  }

  function Changed(cfg: Config, p: Pub, values: seq<MmsData>, now: nat): Pub {
    if p.started && values == p.last then p
    else Pub(if p.started then NextSt(p.stNum) else p.stNum, 0, values, cfg.tMin, true, now + cfg.tMin)
  }

  function Resent(cfg: Config, p: Pub, now: nat): Pub {
    var interval := Min(2 * p.interval, cfg.tMax);
    p.(sqNum := NextSq(p.sqNum), interval := interval, due := now + interval)
  }

  class Publisher {
    const cfg: Config
    var stNum: U32
    var sqNum: U32
    var lastValues: seq<MmsData>
    var interval: nat
    var started: bool
    var due: nat

    function Model(): Pub
      reads this
    {
      Pub(stNum, sqNum, lastValues, interval, started, due)
    }

    /** The frame carries these values and numbers, under the configured name and mode, and is to be
      * taken for dead when twice the whole milliseconds of the interval have passed. */
    predicate Carries(f: Frame, values: seq<MmsData>, st: U32, sq: U32)
      reads this
    {
      && f.values == values && f.cb == cfg.cb && f.simulation == cfg.simulation
      && f.stNum == st && f.sqNum == sq
      && f.ttl == Min(2 * (interval / 1_000_000), 0xffff_ffff)
    }

    constructor (config: Config, now: nat)
      ensures cfg == config && Model() == Idle(config, now)
    {
      cfg := config;
      stNum, sqNum, lastValues, interval, started, due := 1, 0, [], config.tMin, false, now + config.tMin;
    }

    method OnValues(values: seq<MmsData>, now: nat) returns (out: Option<Frame>)
      modifies this
      ensures Model() == Changed(cfg, old(Model()), values, now)
      ensures out == if old(started) && values == old(lastValues) then None else Some(FrameOf(cfg, Model()))
      ensures lastValues == values
      ensures out.Some? ==> Carries(out.value, values, if old(started) then NextSt(old(stNum)) else old(stNum), 0)
    {
      if started && values == lastValues { return None; }
      if started {
        stNum := (stNum + 1) % TWO_32;
        if stNum == 0 { stNum := 1; }
      }
      sqNum := 0;
      lastValues := values;
      interval := cfg.tMin;
      started := true;
      var frame := SendFrame();
      out := Some(frame);
      due := now + interval;
    }

    method OnTimer(now: nat) returns (out: Frame)
      requires started
      modifies this
      ensures Model() == Resent(cfg, old(Model()), now) && out == FrameOf(cfg, Model())
      ensures lastValues == old(lastValues)
      ensures Carries(out, old(lastValues), old(stNum), NextSq(old(sqNum)))
    {
      sqNum := (sqNum + 1) % TWO_32;
      interval := Min(interval * 2, cfg.tMax);
      out := SendFrame();
      due := now + interval;
    }

    method SendFrame() returns (f: Frame)
      ensures f == FrameOf(cfg, Model())
    {
      var ttlMs := Min(2 * (interval / MS), TTL_CAP);
      f := Frame(cfg.cb, stNum, sqNum, ttlMs, lastValues, cfg.simulation);
    }
  }

  function Pow2(k: nat): (r: nat)
    ensures r >= 1
  {
    if k == 0 then 1 else 2 * Pow2(k - 1)
  }

  /** What can happen to a publisher between two state changes. */
  datatype PubEvent = Same | Retransmit(now: nat)

  function PubRun(cfg: Config, p: Pub, evs: seq<PubEvent>): Pub {
    if |evs| == 0 then p
    else
      var q := PubRun(cfg, p, evs[..|evs| - 1]);
      match evs[|evs| - 1]
      case Same => Changed(cfg, q, q.last, 0)
      case Retransmit(now) => Resent(cfg, q, now)
  }

  function Retransmissions(evs: seq<PubEvent>): nat {
    if |evs| == 0 then 0
    else Retransmissions(evs[..|evs| - 1]) + if evs[|evs| - 1].Retransmit? then 1 else 0
  }

  /** `k` retransmissions after a state change, with any number of publications of unchanged values
    * in between: sqNum is `k`, the interval has doubled `k` times up to `tMax`, stNum is the same. */
  lemma {:induction false} Backoff(cfg: Config, p: Pub, values: seq<MmsData>, now: nat, evs: seq<PubEvent>)
    requires cfg.tMin <= cfg.tMax && !(p.started && values == p.last)
    ensures var p0, k := Changed(cfg, p, values, now), Retransmissions(evs);
      var q := PubRun(cfg, p0, evs);
      && q.started && q.last == values && q.stNum == p0.stNum
      && q.sqNum == k % TWO_32
      && q.interval == Min(Pow2(k) * cfg.tMin, cfg.tMax)
  {
    if |evs| > 0 {
      var front := evs[..|evs| - 1];
      Backoff(cfg, p, values, now, front);
      if evs[|evs| - 1].Retransmit? {
        var k := Retransmissions(front);
        Doubling(Pow2(k), cfg.tMin, cfg.tMax);
        NextModulo(k);
      }
    }
  }

  lemma Doubling(x: nat, t: nat, top: nat)
    ensures Min(2 * Min(x * t, top), top) == Min((2 * x) * t, top)
  {
    assert (2 * x) * t == 2 * (x * t);
  }

  lemma NextModulo(k: nat)
    ensures NextSq(k % TWO_32) == (k + 1) % TWO_32
  {
  }

  // ---------------------------------------------------------------- the subscriber

  datatype Track = Track(lastSt: U32, lastSq: U32, deadline: nat)

  datatype Kind = StateChange | Retransmission | LossSuspected(expectedSq: U32, gotSq: U32) | Expired

  datatype Event = Event(cb: string, stNum: U32, sqNum: U32, kind: Kind, values: seq<MmsData>)

  function KindOf(prev: Option<Track>, f: Frame): Kind {
    match prev
    case None => StateChange
    case Some(t) =>
      if f.stNum != t.lastSt then StateChange
      else if f.sqNum > NextSq(t.lastSq) then LossSuspected(NextSq(t.lastSq), f.sqNum)
      else Retransmission
  }

  function TrackOf(f: Frame, now: nat): Track { Track(f.stNum, f.sqNum, now + f.ttl * MS) }

  function PrevOf(tracks: map<string, Track>, cb: string): Option<Track> {
    if cb in tracks then Some(tracks[cb]) else None
  }

  /** Out of simulation mode only real frames pass; in it the simulated ones do, and the real ones
    * of every control block that has not been simulated yet. */
  function GatePasses(sim: bool, subs: set<string>, cb: string, simulated: bool): bool {
    if sim then simulated || cb !in subs else !simulated
  }

  function GateSubs(sim: bool, subs: set<string>, cb: string, simulated: bool): set<string> {
    if !sim then {} else if simulated then subs + {cb} else subs
  }

  ghost predicate IsNextDeadline(tracks: map<string, Track>, now: nat, d: nat) {
    if tracks.Keys == {} then d == now + DAY
    else (exists k :: k in tracks && tracks[k].deadline == d) && forall k :: k in tracks ==> d <= tracks[k].deadline
  }

  function Alive(tracks: map<string, Track>, now: nat): map<string, Track> {
    map k | k in tracks && tracks[k].deadline > now :: tracks[k]
  }

  /** An expiry tells the last numbers heard, and no values. */
  predicate TellsExpiry(e: Event, cb: string, t: Track) {
    e.cb == cb && e.stNum == t.lastSt && e.sqNum == t.lastSq && e.kind == Expired && e.values == []
  }

  class Subscriber {
    var tracks: map<string, Track>
    var simulatedSubs: set<string>
    var sweepAt: nat

    constructor (now: nat)
      ensures tracks == map[] && simulatedSubs == {} && sweepAt == now + DAY
    {
      tracks, simulatedSubs, sweepAt := map[], {}, now + DAY;
    }

    method SimGate(sim: bool, cb: string, frameSimulated: bool) returns (ok: bool)
      modifies this`simulatedSubs
      ensures ok == GatePasses(sim, old(simulatedSubs), cb, frameSimulated)
      ensures simulatedSubs == GateSubs(sim, old(simulatedSubs), cb, frameSimulated)
    {
      if !sim {
        if simulatedSubs != {} { simulatedSubs := {}; }
        return !frameSimulated;
      }
      if frameSimulated {
        simulatedSubs := simulatedSubs + {cb};
        ok := true;
      } else {
        ok := cb !in simulatedSubs;
      }
    }

    method TrackAndBuild(f: Frame, now: nat) returns (e: Event)
      modifies this`tracks
      ensures tracks == old(tracks)[f.cb := TrackOf(f, now)]
      ensures e == Event(f.cb, f.stNum, f.sqNum, KindOf(PrevOf(old(tracks), f.cb), f), f.values)
    {
      var kind := StateChange;
      if f.cb in tracks && f.stNum == tracks[f.cb].lastSt {
        var expected := (tracks[f.cb].lastSq + 1) % TWO_32;
        kind := Retransmission;
        if f.sqNum > expected { kind := LossSuspected(expected, f.sqNum); }
      }
      tracks := tracks[f.cb := Track(f.stNum, f.sqNum, now + f.ttl * MS)];
      e := Event(f.cb, f.stNum, f.sqNum, kind, f.values);
    }

    /** A decoded frame that the filter accepts. */
    method OnFrame(sim: bool, f: Frame, now: nat) returns (out: Option<Event>)
      modifies this
      ensures simulatedSubs == GateSubs(sim, old(simulatedSubs), f.cb, f.simulation)
      ensures !GatePasses(sim, old(simulatedSubs), f.cb, f.simulation) ==>
        out == None && tracks == old(tracks) && sweepAt == old(sweepAt)
      ensures GatePasses(sim, old(simulatedSubs), f.cb, f.simulation) ==>
        && out == Some(Event(f.cb, f.stNum, f.sqNum, KindOf(PrevOf(old(tracks), f.cb), f), f.values))
        && tracks == old(tracks)[f.cb := TrackOf(f, now)]
        && IsNextDeadline(tracks, now, sweepAt)
    {
      var ok := SimGate(sim, f.cb, f.simulation);
      if !ok { return None; }
      var e := TrackAndBuild(f, now);
      sweepAt := NextDeadline(now);
      out := Some(e);
    }

    method NextDeadline(now: nat) returns (d: nat)
      ensures IsNextDeadline(tracks, now, d)
    {
      d := now + DAY;
      var left, found := tracks.Keys, false;
      while left != {}
        invariant left <= tracks.Keys && (found <==> left < tracks.Keys)
        invariant !found ==> d == now + DAY
        invariant found ==> exists k :: k in tracks.Keys - left && tracks[k].deadline == d
        invariant found ==> forall k :: k in tracks.Keys - left ==> d <= tracks[k].deadline
        decreases |left|
      {
        var k :| k in left;
        if !found || tracks[k].deadline < d { d := tracks[k].deadline; }
        left, found := left - {k}, true;
      }
    }

    /** Exactly the overdue control blocks are reported, once each, and forgotten. */
    method OnSweep(now: nat) returns (out: seq<Event>)
      modifies this`tracks, this`sweepAt
      ensures tracks == Alive(old(tracks), now) && IsNextDeadline(tracks, now, sweepAt)
      ensures forall k :: k in old(tracks) && k !in tracks ==> exists e :: e in out && e.cb == k
      ensures forall e :: e in out ==>
        e.cb in old(tracks) && e.cb !in tracks && TellsExpiry(e, e.cb, old(tracks)[e.cb])
      ensures forall i, j :: 0 <= i < j < |out| ==> out[i].cb != out[j].cb
    {
      var overdue := set k | k in tracks && tracks[k].deadline <= now;
      out := [];
      ghost var was := tracks;
      while overdue != {}
        invariant overdue <= tracks.Keys
        invariant forall k :: k in tracks <==> k in was && (was[k].deadline > now || k in overdue)
        invariant forall k :: k in tracks ==> tracks[k] == was[k]
        invariant forall k :: k in overdue ==> was[k].deadline <= now
        invariant forall k :: k in was && k !in tracks ==> exists e :: e in out && e.cb == k
        invariant forall e :: e in out ==> e.cb in was && e.cb !in tracks && TellsExpiry(e, e.cb, was[e.cb])
        invariant forall i, j :: 0 <= i < j < |out| ==> out[i].cb != out[j].cb
        decreases |overdue|
      {
        var k :| k in overdue;
        var tr := tracks[k];
        tracks := tracks - {k};
        var expired := Event(k, tr.lastSt, tr.lastSq, Expired, []);
        ghost var before := out;
        out := out + [expired];
        assert expired in out && forall e :: e in before ==> e in out;
        overdue := overdue - {k};
      }
      assert tracks == Alive(was, now);
      sweepAt := NextDeadline(now);
    }
  }

  // ---------------------------------------------------------------- loss

  /** The kinds of the events one control block draws from frames received in order. */
  function KindsOf(prev: Option<Track>, frames: seq<Frame>): seq<Kind>
    decreases |frames|
  {
    if |frames| == 0 then []
    else [KindOf(prev, frames[0])] + KindsOf(Some(TrackOf(frames[0], 0)), frames[1..])
  }

  function Missing(kinds: seq<Kind>): int {
    if |kinds| == 0 then 0
    else (if kinds[0].LossSuspected? then kinds[0].gotSq - kinds[0].expectedSq else 0) + Missing(kinds[1..])
  }

  /** Frames of one state, in order and without duplicates; any of them may be missing. */
  ghost predicate OneState(frames: seq<Frame>, st: U32) {
    && (forall i :: 0 <= i < |frames| ==> frames[i].stNum == st)
    && forall i :: 0 <= i < |frames| - 1 ==> frames[i].sqNum < frames[i + 1].sqNum
  }

  /** Received plus reported missing is the whole range from the first frame to the last. */
  lemma {:induction false} LossConserved(prev: Option<Track>, frames: seq<Frame>, st: U32)
    requires OneState(frames, st) && |frames| > 0
    requires prev == None || prev.value.lastSt != st
    ensures var n := |frames|;
      n + Missing(KindsOf(prev, frames)) == frames[n - 1].sqNum - frames[0].sqNum + 1
  {
    var t := TrackOf(frames[0], 0);
    assert KindsOf(prev, frames)[1..] == KindsOf(Some(t), frames[1..]);
    LossFrom(t, frames[1..], st);
  }

  lemma {:induction false} LossFrom(t: Track, frames: seq<Frame>, st: U32)
    requires OneState(frames, st) && t.lastSt == st
    requires frames != [] ==> t.lastSq < frames[0].sqNum
    ensures frames != [] ==>
      |frames| + Missing(KindsOf(Some(t), frames)) == frames[|frames| - 1].sqNum - t.lastSq
    ensures frames == [] ==> Missing(KindsOf(Some(t), frames)) == 0
    decreases |frames|
  {
    if |frames| > 0 {
      var t', rest := TrackOf(frames[0], 0), frames[1..];
      assert KindsOf(Some(t), frames)[1..] == KindsOf(Some(t'), rest);
      LossFrom(t', rest, st);
    }
  }

  // ---------------------------------------------------------------- both ends

  /** A frame on its way: the state it tells, counted from 1, and how often that has been sent before. */
  datatype Sent = Sent(frame: Frame, arrival: nat, state: nat, resend: nat)

  /** What the subscriber said about such a frame, or that the publisher has expired. */
  datatype Said = Said(state: nat, resend: nat, event: Event)

  datatype World = World(now: nat, pub: Pub, chan: seq<Sent>, tracks: map<string, Track>,
                         sweepAt: nat, said: seq<Said>, sent: nat, states: nat, resends: nat)

  function Start(cfg: Config): World { World(0, Idle(cfg, 0), [], map[], DAY, [], 0, 0, 0) }

  /** `Other` is a frame of some other control block. */
  datatype Action = Publish(values: seq<MmsData>) | Timer | Deliver | Other(f: Frame) | Sweep | Tick(d: nat)

  lemma DeadlineExists(tracks: map<string, Track>, now: nat) returns (d: nat)
    ensures IsNextDeadline(tracks, now, d)
    decreases |tracks.Keys|
  {
    if tracks.Keys == {} {
      d := now + DAY;
    } else {
      var k :| k in tracks;
      var rest := tracks - {k};
      assert rest.Keys == tracks.Keys - {k};
      var r := DeadlineExists(rest, now);
      d := if rest.Keys == {} || tracks[k].deadline < r then tracks[k].deadline else r;
      assert forall x :: x in tracks ==> x == k || x in rest;
    }
  }

  ghost function NextDeadline(tracks: map<string, Track>, now: nat): (d: nat)
    ensures IsNextDeadline(tracks, now, d)
  {
    assert exists d: nat :: IsNextDeadline(tracks, now, d) by {
      var d := DeadlineExists(tracks, now);
      assert IsNextDeadline(tracks, now, d);
    }
    var d: nat :| IsNextDeadline(tracks, now, d);
    d
  }

  ghost function Receive(cfg: Config, w: World, f: Frame): World {
    if !GatePasses(false, {}, f.cb, f.simulation) then w
    else
      var tracks := w.tracks[f.cb := TrackOf(f, w.now)];
      w.(tracks := tracks, sweepAt := NextDeadline(tracks, w.now))
  }

  ghost predicate MayTick(w: World, d: nat) {
    && (w.pub.started ==> w.now + d <= w.pub.due)
    && w.now + d <= w.sweepAt
    && forall i :: 0 <= i < |w.chan| ==> w.now + d <= w.chan[i].arrival
  }

  function EventOf(prev: Option<Track>, f: Frame): Event {
    Event(f.cb, f.stNum, f.sqNum, KindOf(prev, f), f.values)
  }

  function ExpiredEvent(cb: string, t: Track): Event { Event(cb, t.lastSt, t.lastSq, Expired, []) }

  function Send(cfg: Config, delay: nat, w: World, p: Pub, state: nat, resend: nat): World {
    w.(pub := p, chan := w.chan + [Sent(FrameOf(cfg, p), w.now + delay, state, resend)],
       sent := w.sent + 1, states := state, resends := resend)
  }

  /** Frames arrive in order, `delay` after they were sent; no timer fires late. */
  ghost function Step(cfg: Config, delay: nat, w: World, a: Action): World {
    match a
    case Publish(values) =>
      if w.pub.started && values == w.pub.last then w
      else
        var p := Changed(cfg, w.pub, values, w.now);
        Send(cfg, delay, w, p, w.states + 1, 0)
    case Timer =>
      if !(w.pub.started && w.pub.due <= w.now) then w
      else
        var p := Resent(cfg, w.pub, w.now);
        Send(cfg, delay, w, p, w.states, w.resends + 1)
    case Deliver =>
      if w.chan == [] || w.chan[0].arrival > w.now then w
      else
        var s := w.chan[0];
        var e := EventOf(PrevOf(w.tracks, s.frame.cb), s.frame);
        Receive(cfg, w, s.frame).(chan := w.chan[1..], said := w.said + [Said(s.state, s.resend, e)])
    case Other(f) => if f.cb == cfg.cb then w else Receive(cfg, w, f)
    case Sweep =>
      if w.sweepAt > w.now then w
      else
        var tracks := Alive(w.tracks, w.now);
        w.(tracks := tracks, sweepAt := NextDeadline(tracks, w.now),
           said := if cfg.cb in w.tracks && cfg.cb !in tracks
                   then w.said + [Said(0, 0, ExpiredEvent(cfg.cb, w.tracks[cfg.cb]))] else w.said)
    case Tick(d) => if MayTick(w, d) then w.(now := w.now + d) else w
  }

  ghost function Run(cfg: Config, delay: nat, w: World, acts: seq<Action>): World {
    if |acts| == 0 then w else Step(cfg, delay, Run(cfg, delay, w, acts[..|acts| - 1]), acts[|acts| - 1])
  }

  /** The interval is advertised with room to spare. */
  predicate Covered(interval: nat) { MS <= interval < TTL_CAP * MS }

  lemma TtlCovers(interval: nat)
    ensures TtlMs(interval) * MS > interval <==> Covered(interval)
  {
    var q := interval / MS;
    assert interval == q * MS + interval % MS;
  }

  ghost predicate RightKind(s: Said) { s.event.kind == if s.resend == 0 then StateChange else Retransmission }

  ghost predicate Calm(said: seq<Said>) { forall i :: 0 <= i < |said| ==> RightKind(said[i]) }

  /** `s` is the frame that comes right after the one with these numbers, and is not late for it. */
  ghost predicate Follows(st: U32, sq: U32, deadline: nat, s: Sent) {
    && s.arrival < deadline
    && if s.resend == 0 then s.frame.stNum != st else s.frame.stNum == st && s.frame.sqNum == NextSq(sq)
  }

  function DeadlineOf(s: Sent): nat { s.arrival + s.frame.ttl * MS }

  ghost predicate Chained(chan: seq<Sent>) {
    forall i :: 0 <= i < |chan| - 1 ==>
      Follows(chan[i].frame.stNum, chan[i].frame.sqNum, DeadlineOf(chan[i]), chan[i + 1])
  }

  /** The last frame sent is the publisher's own state, and the next one will not be late. */
  ghost predicate TailInStep(cfg: Config, delay: nat, w: World) {
    if w.chan == [] then
      && cfg.cb in w.tracks
      && w.tracks[cfg.cb].lastSt == w.pub.stNum && w.tracks[cfg.cb].lastSq == w.pub.sqNum
      && w.pub.due + delay < w.tracks[cfg.cb].deadline
    else
      var s := w.chan[|w.chan| - 1];
      && s.frame.stNum == w.pub.stNum && s.frame.sqNum == w.pub.sqNum
      && w.pub.due + delay < DeadlineOf(s)
  }

  ghost predicate HeadInStep(cfg: Config, w: World) {
    w.chan != [] ==>
      if cfg.cb in w.tracks then
        Follows(w.tracks[cfg.cb].lastSt, w.tracks[cfg.cb].lastSq, w.tracks[cfg.cb].deadline, w.chan[0])
      else w.chan[0].resend == 0
  }

  ghost predicate OnTime(cfg: Config, w: World) {
    forall i :: 0 <= i < |w.chan| ==>
      && w.now <= w.chan[i].arrival && w.chan[i].frame.cb == cfg.cb && !w.chan[i].frame.simulation
  }

  ghost predicate InStep(cfg: Config, delay: nat, w: World) {
    && w.pub.stNum != 0
    && Calm(w.said) && w.sent == |w.said| + |w.chan|
    && OnTime(cfg, w) && Chained(w.chan) && HeadInStep(cfg, w)
    && (!w.pub.started ==> w.chan == [] && cfg.cb !in w.tracks)
    && (w.pub.started ==> w.now <= w.pub.due && Covered(w.pub.interval) && TailInStep(cfg, delay, w))
  }

  ghost predicate Suited(cfg: Config) { !cfg.simulation && Covered(cfg.tMin) && Covered(cfg.tMax) }

  /** A frame sent now takes its place behind those on their way. */
  lemma SendKeeps(cfg: Config, delay: nat, w: World, p: Pub, state: nat, resend: nat)
    requires Suited(cfg) && InStep(cfg, delay, w)
    requires p.started && p.stNum != 0 && Covered(p.interval) && p.due == w.now + p.interval
    requires w.pub.started ==>
      Follows(w.pub.stNum, w.pub.sqNum, w.now + delay + 1, Sent(FrameOf(cfg, p), w.now + delay, state, resend))
    requires !w.pub.started ==> resend == 0
    ensures InStep(cfg, delay, Send(cfg, delay, w, p, state, resend))
  {
    TtlCovers(p.interval);
    var s := Sent(FrameOf(cfg, p), w.now + delay, state, resend);
    var chan := w.chan + [s];
    forall i | 0 <= i < |chan| - 1
      ensures Follows(chan[i].frame.stNum, chan[i].frame.sqNum, DeadlineOf(chan[i]), chan[i + 1])
    {
      if i < |w.chan| - 1 {
        assert Follows(w.chan[i].frame.stNum, w.chan[i].frame.sqNum, DeadlineOf(w.chan[i]), w.chan[i + 1]);
      }
    }
  }

  lemma DeliverKeeps(cfg: Config, delay: nat, w: World)
    requires Suited(cfg) && InStep(cfg, delay, w)
    ensures InStep(cfg, delay, Step(cfg, delay, w, Deliver))
  {
    if w.chan != [] && w.chan[0].arrival <= w.now {
      var s, w' := w.chan[0], Step(cfg, delay, w, Deliver);
      assert w'.tracks == w.tracks[cfg.cb := TrackOf(s.frame, w.now)];
      assert w.now == s.arrival;
      assert RightKind(w'.said[|w.said|]);
      if |w.chan| > 1 {
        assert Follows(s.frame.stNum, s.frame.sqNum, DeadlineOf(s), w.chan[1]);
        assert w'.chan[|w'.chan| - 1] == w.chan[|w.chan| - 1];
      }
      forall i | 0 <= i < |w'.chan| - 1
        ensures Follows(w'.chan[i].frame.stNum, w'.chan[i].frame.sqNum, DeadlineOf(w'.chan[i]), w'.chan[i + 1])
      {
        assert Follows(w.chan[i + 1].frame.stNum, w.chan[i + 1].frame.sqNum, DeadlineOf(w.chan[i + 1]), w.chan[i + 2]);
      }
    }
  }

  /** The sweep never finds this publisher overdue: its next frame is due before the deadline. */
  lemma NotOverdue(cfg: Config, delay: nat, w: World)
    requires InStep(cfg, delay, w) && cfg.cb in w.tracks
    ensures w.tracks[cfg.cb].deadline > w.now
  {
  }

  lemma QuietKeeps(cfg: Config, delay: nat, w: World, a: Action)
    requires Suited(cfg) && InStep(cfg, delay, w) && (a.Other? || a.Sweep? || a.Tick?)
    ensures InStep(cfg, delay, Step(cfg, delay, w, a))
  {
    if cfg.cb in w.tracks { NotOverdue(cfg, delay, w); }
  }

  lemma StepKeeps(cfg: Config, delay: nat, w: World, a: Action)
    requires Suited(cfg) && InStep(cfg, delay, w)
    ensures InStep(cfg, delay, Step(cfg, delay, w, a))
  {
    match a
    case Publish(values) =>
      if !(w.pub.started && values == w.pub.last) {
        SendKeeps(cfg, delay, w, Changed(cfg, w.pub, values, w.now), w.states + 1, 0);
      }
    case Timer =>
      if w.pub.started && w.pub.due <= w.now {
        SendKeeps(cfg, delay, w, Resent(cfg, w.pub, w.now), w.states, w.resends + 1);
      }
    case Deliver => DeliverKeeps(cfg, delay, w);
    case _ => QuietKeeps(cfg, delay, w, a);
  }

  /** Every run of a suited publisher: a StateChange for the first frame of each state, a
    * Retransmission for every other frame, one event for each frame delivered, nothing else. */
  lemma {:induction false} NoFalseAlarm(cfg: Config, delay: nat, acts: seq<Action>)
    requires Suited(cfg)
    ensures InStep(cfg, delay, Run(cfg, delay, Start(cfg), acts))
  {
    if |acts| > 0 {
      NoFalseAlarm(cfg, delay, acts[..|acts| - 1]);
      StepKeeps(cfg, delay, Run(cfg, delay, Start(cfg), acts[..|acts| - 1]), acts[|acts| - 1]);
    }
  }

  ghost predicate NeverAlarms(cfg: Config) {
    forall delay: nat, acts: seq<Action> :: Calm(Run(cfg, delay, Start(cfg), acts).said)
  }

  /** The world right after a frame has been received without delay. */
  ghost predicate JustReceived(cfg: Config, w: World) {
    && w.chan == [] && w.pub.started && w.pub.due == w.now + w.pub.interval
    && w.tracks == map[cfg.cb := TrackOf(FrameOf(cfg, w.pub), w.now)]
    && w.sweepAt == w.now + TtlMs(w.pub.interval) * MS
  }

  lemma SingleDeadline(cb: string, t: Track, now: nat)
    ensures NextDeadline(map[cb := t], now) == t.deadline
  {
    assert cb in map[cb := t];
  }

  lemma RunSnoc(cfg: Config, w: World, acts: seq<Action>, a: Action)
    ensures Run(cfg, 0, w, acts + [a]) == Step(cfg, 0, Run(cfg, 0, w, acts), a)
  {
    assert (acts + [a])[..|acts + [a]| - 1] == acts;
  }

  lemma SendAndReceive(cfg: Config, w: World, a: Action, p: Pub, state: nat, resend: nat)
    requires !cfg.simulation && w.chan == [] && w.tracks.Keys <= {cfg.cb}
    requires p.started && p.due == w.now + p.interval
    requires Step(cfg, 0, w, a) == Send(cfg, 0, w, p, state, resend)
    ensures JustReceived(cfg, Step(cfg, 0, Step(cfg, 0, w, a), Deliver))
  {
    var t := TrackOf(FrameOf(cfg, p), w.now);
    assert w.tracks[cfg.cb := t] == map[cfg.cb := t];
    assert Send(cfg, 0, w, p, state, resend).chan == [Sent(FrameOf(cfg, p), w.now, state, resend)];
    SingleDeadline(cfg.cb, t, w.now);
  }

  lemma {:induction false} Alarm(cfg: Config, w: World, acts: seq<Action>, w': World)
    requires w' == Run(cfg, 0, Start(cfg), acts) && !Calm(w'.said)
    ensures !NeverAlarms(cfg)
  {
  }

  /** Waiting out the time to live is possible when the interval is not covered, and it expires. */
  lemma {:induction false} UncoveredExpires(cfg: Config, acts: seq<Action>)
    requires JustReceived(cfg, Run(cfg, 0, Start(cfg), acts))
    requires !Covered(Run(cfg, 0, Start(cfg), acts).pub.interval)
    ensures !NeverAlarms(cfg)
  {
    var w := Run(cfg, 0, Start(cfg), acts);
    var d := TtlMs(w.pub.interval) * MS;
    TtlCovers(w.pub.interval);
    RunSnoc(cfg, Start(cfg), acts, Tick(d));
    RunSnoc(cfg, Start(cfg), acts + [Tick(d)], Sweep);
    var w1 := Step(cfg, 0, w, Tick(d));
    assert MayTick(w, d);
    var w2 := Step(cfg, 0, w1, Sweep);
    assert cfg.cb !in Alive(w1.tracks, w1.now);
    assert w2.said[|w1.said|].event.kind == Expired;
    assert !RightKind(w2.said[|w1.said|]);
    Alarm(cfg, w, acts + [Tick(d)] + [Sweep], w2);
  }

  /** Backing off reaches an interval that is not covered whenever the last one is not. */
  lemma {:induction false} BackoffUncovered(cfg: Config, acts: seq<Action>)
    requires !cfg.simulation && !Covered(cfg.tMax)
    requires JustReceived(cfg, Run(cfg, 0, Start(cfg), acts))
    ensures !NeverAlarms(cfg)
    decreases var i := Run(cfg, 0, Start(cfg), acts).pub.interval; if Covered(i) then TTL_CAP * MS - i else 0
  {
    var w := Run(cfg, 0, Start(cfg), acts);
    var i := w.pub.interval;
    if Covered(i) {
      TtlCovers(i);
      var w1 := Step(cfg, 0, w, Tick(i));
      assert MayTick(w, i);
      var p := Resent(cfg, w1.pub, w1.now);
      SendAndReceive(cfg, w1, Timer, p, w1.states, w1.resends + 1);
      RunSnoc(cfg, Start(cfg), acts, Tick(i));
      RunSnoc(cfg, Start(cfg), acts + [Tick(i)], Timer);
      RunSnoc(cfg, Start(cfg), acts + [Tick(i)] + [Timer], Deliver);
      BackoffUncovered(cfg, acts + [Tick(i)] + [Timer] + [Deliver]);
    } else {
      UncoveredExpires(cfg, acts);
    }
  }

  /** Exactly when no run ever raises a false alarm: both the shortest and the longest interval are
    * at least a millisecond and less than 2^32 - 1 milliseconds. */
  lemma NoFalseAlarmIff(cfg: Config)
    requires !cfg.simulation
    ensures NeverAlarms(cfg) <==> Covered(cfg.tMin) && Covered(cfg.tMax)
  {
    if Covered(cfg.tMin) && Covered(cfg.tMax) {
      forall delay: nat, acts: seq<Action>
        ensures Calm(Run(cfg, delay, Start(cfg), acts).said)
      {
        NoFalseAlarm(cfg, delay, acts);
      }
    } else {
      UncoveredAlarms(cfg);
    }
  }

  lemma UncoveredAlarms(cfg: Config)
    requires !cfg.simulation && !(Covered(cfg.tMin) && Covered(cfg.tMax))
    ensures !NeverAlarms(cfg)
  {
    FirstReceived(cfg);
    if Covered(cfg.tMin) {
      BackoffUncovered(cfg, [Publish([]), Deliver]);
    } else {
      UncoveredExpires(cfg, [Publish([]), Deliver]);
    }
  }

  /** One state published and received. */
  lemma {:induction false} FirstReceived(cfg: Config)
    requires !cfg.simulation
    ensures var w := Run(cfg, 0, Start(cfg), [Publish([]), Deliver]);
      JustReceived(cfg, w) && w.pub.interval == cfg.tMin
  {
    var p := Changed(cfg, Idle(cfg, 0), [], 0);
    SendAndReceive(cfg, Start(cfg), Publish([]), p, 1, 0);
    RunSnoc(cfg, Start(cfg), [], Publish([]));
    RunSnoc(cfg, Start(cfg), [Publish([])], Deliver);
    assert [] + [Publish([])] == [Publish([])];
    assert [Publish([])] + [Deliver] == [Publish([]), Deliver];
  }

  // ---------------------------------------------------------------- what arrives

  /** The values of each state published, in order: publishing the same values again is no new state. */
  function Published(acts: seq<Action>): seq<seq<MmsData>> {
    if |acts| == 0 then []
    else
      var before, a := Published(acts[..|acts| - 1]), acts[|acts| - 1];
      if a.Publish? && (before == [] || before[|before| - 1] != a.values) then before + [a.values] else before
  }

  /** The numbers of states go round without 0. */
  function StateNumber(n: nat): U32
    requires n > 0
  {
    1 + (n - 1) % 0xffff_ffff
  }

  lemma NextStateNumber(n: nat)
    requires n > 0
    ensures NextSt(StateNumber(n)) == StateNumber(n + 1)
  {
    var q, r := (n - 1) / 0xffff_ffff, (n - 1) % 0xffff_ffff;
    assert n - 1 == 0xffff_ffff * q + r;
    if r == 0xffff_fffe {
      RemainderIs(q + 1, 0);
      assert n == 0xffff_ffff * (q + 1);
    } else {
      RemainderIs(q, r + 1);
    }
  }

  lemma RemainderIs(q: nat, r: nat)
    requires r < 0xffff_ffff
    ensures (0xffff_ffff * q + r) % 0xffff_ffff == r
  {
  }

  /** The frame of the given state, sent for the given time. */
  ghost predicate Tells(cfg: Config, values: seq<seq<MmsData>>, s: Sent) {
    && 1 <= s.state <= |values|
    && s.frame.cb == cfg.cb && s.frame.simulation == cfg.simulation && s.frame.values == values[s.state - 1]
    && s.frame.stNum == StateNumber(s.state) && s.frame.sqNum == s.resend % TWO_32
  }

  ghost predicate Heard(cfg: Config, values: seq<seq<MmsData>>, s: Said) {
    || (s.event.kind == Expired && s.event.values == [])
    || (&& 1 <= s.state <= |values|
        && s.event.cb == cfg.cb && s.event.values == values[s.state - 1]
        && s.event.stNum == StateNumber(s.state) && s.event.sqNum == s.resend % TWO_32)
  }

  ghost predicate PubTells(w: World, values: seq<seq<MmsData>>) {
    && w.states == |values| && (w.pub.started <==> values != [])
    && if values == [] then w.pub.stNum == 1
       else && w.pub.last == values[|values| - 1] && w.pub.stNum == StateNumber(|values|)
            && w.pub.sqNum == w.resends % TWO_32
  }

  ghost predicate Told(cfg: Config, w: World, values: seq<seq<MmsData>>) {
    && PubTells(w, values)
    && (forall i :: 0 <= i < |w.chan| ==> Tells(cfg, values, w.chan[i]))
    && forall i :: 0 <= i < |w.said| ==> Heard(cfg, values, w.said[i])
  }

  lemma PublishTold(cfg: Config, delay: nat, w: World, values: seq<seq<MmsData>>, v: seq<MmsData>)
    requires Told(cfg, w, values) && !(w.pub.started && v == w.pub.last)
    ensures Told(cfg, Step(cfg, delay, w, Publish(v)), values + [v])
  {
    var w' := Step(cfg, delay, w, Publish(v));
    if values != [] { NextStateNumber(|values|); }
    assert PubTells(w', values + [v]);
    forall i | 0 <= i < |w'.chan|
      ensures Tells(cfg, values + [v], w'.chan[i])
    {
      if i < |w.chan| { assert Tells(cfg, values, w.chan[i]); }
    }
    forall i | 0 <= i < |w'.said|
      ensures Heard(cfg, values + [v], w'.said[i])
    {
      assert Heard(cfg, values, w.said[i]);
    }
  }

  lemma TimerTold(cfg: Config, delay: nat, w: World, values: seq<seq<MmsData>>)
    requires Told(cfg, w, values) && w.pub.started && w.pub.due <= w.now
    ensures Told(cfg, Step(cfg, delay, w, Timer), values)
  {
    var w' := Step(cfg, delay, w, Timer);
    NextModulo(w.resends);
    forall i | 0 <= i < |w'.chan|
      ensures Tells(cfg, values, w'.chan[i])
    {
      if i < |w.chan| { assert Tells(cfg, values, w.chan[i]); }
    }
  }

  lemma DeliverTold(cfg: Config, delay: nat, w: World, values: seq<seq<MmsData>>)
    requires Told(cfg, w, values)
    ensures Told(cfg, Step(cfg, delay, w, Deliver), values)
  {
    if w.chan != [] && w.chan[0].arrival <= w.now {
      var w' := Step(cfg, delay, w, Deliver);
      assert Tells(cfg, values, w.chan[0]);
      assert forall i :: 0 <= i < |w'.chan| ==> w'.chan[i] == w.chan[i + 1];
    }
  }

  lemma StepTold(cfg: Config, delay: nat, w: World, values: seq<seq<MmsData>>, a: Action)
    requires Told(cfg, w, values)
    ensures Told(cfg, Step(cfg, delay, w, a),
                 if a.Publish? && (values == [] || values[|values| - 1] != a.values) then values + [a.values]
                 else values)
  {
    match a
    case Publish(v) => if !(w.pub.started && v == w.pub.last) { PublishTold(cfg, delay, w, values, v); }
    case Timer => if w.pub.started && w.pub.due <= w.now { TimerTold(cfg, delay, w, values); }
    case Deliver => DeliverTold(cfg, delay, w, values);
    case _ =>
  }

  /** Every run, with any configuration and any delay: each event about the publisher's frame, unless it
    * is an expiry, carries exactly the values of the publication that the frame's state came from, under
    * the number of that state and the count of its retransmissions. */
  lemma {:induction false} ValuesArrive(cfg: Config, delay: nat, acts: seq<Action>)
    ensures Told(cfg, Run(cfg, delay, Start(cfg), acts), Published(acts))
  {
    if |acts| > 0 {
      var front, a := acts[..|acts| - 1], acts[|acts| - 1];
      ValuesArrive(cfg, delay, front);
      StepTold(cfg, delay, Run(cfg, delay, Start(cfg), front), Published(front), a);
    }
  }

  // ---------------------------------------------------------------- units

  /** A second of interval is advertised as two seconds, and waited for as such; a subscriber that tracks
    * nothing looks again after a day. */
  lemma Units(f: Frame, now: nat)
    ensures TtlMs(1_000_000_000) == 2_000 && TtlMs(999_999) == 0 && TtlMs(1_000_000) == 2
    ensures f.ttl == 2_000 ==> TrackOf(f, now).deadline == now + 2_000_000_000
    ensures IsNextDeadline(map[], now, now + 24 * 60 * 60 * 1_000_000_000)
  {
  }

  // ---------------------------------------------------------------- simulation

  /** A frame at the gate: whether simulation mode is on, of which control block, simulated or not. */
  datatype AtGate = AtGate(sim: bool, cb: string, simulated: bool)

  function SubsAfter(ins: seq<AtGate>): set<string> {
    if |ins| == 0 then {}
    else
      var last := ins[|ins| - 1];
      GateSubs(last.sim, SubsAfter(ins[..|ins| - 1]), last.cb, last.simulated)
  }

  /** Frame `j` was a simulated one of `cb`, and the mode has been on ever since. */
  ghost predicate Latched(ins: seq<AtGate>, j: nat, cb: string) {
    j < |ins| && ins[j].cb == cb && ins[j].simulated && forall i :: j <= i < |ins| ==> ins[i].sim
  }

  lemma {:induction false} LatchIff(ins: seq<AtGate>, cb: string)
    ensures cb in SubsAfter(ins) <==> exists j: nat :: Latched(ins, j, cb)
  {
    if |ins| > 0 {
      var n := |ins| - 1;
      LatchIff(ins[..n], cb);
      forall j: nat | j < n
        ensures Latched(ins, j, cb) <==> Latched(ins[..n], j, cb) && ins[n].sim
      {
        if Latched(ins[..n], j, cb) && ins[n].sim {
          assert forall i :: j <= i < n ==> ins[..n][i].sim && ins[..n][i] == ins[i];
        }
        if Latched(ins, j, cb) {
          assert forall i :: j <= i < n ==> ins[..n][i] == ins[i];
        }
      }
      if Latched(ins, n, cb) { assert cb in SubsAfter(ins); }
      if cb in SubsAfter(ins) && cb !in SubsAfter(ins[..n]) { assert Latched(ins, n, cb); }
    }
  }

  /** Over every sequence of frames: a frame passes the gate when it is simulated in simulation mode, or
    * real outside it, or real in it while no simulated frame of its control block has come since the mode
    * was turned on. */
  lemma GateIff(ins: seq<AtGate>, f: AtGate)
    ensures GatePasses(f.sim, SubsAfter(ins), f.cb, f.simulated) <==>
      if f.simulated then f.sim else !(f.sim && exists j: nat :: Latched(ins, j, f.cb))
  {
    LatchIff(ins, f.cb);
  }

  // ---------------------------------------------------------------- expiry in time

  ghost predicate SweptInTime(w: World) {
    w.now <= w.sweepAt && forall k :: k in w.tracks ==> w.sweepAt <= w.tracks[k].deadline
  }

  lemma {:induction false} StepSwept(cfg: Config, delay: nat, w: World, a: Action)
    requires SweptInTime(w)
    ensures SweptInTime(Step(cfg, delay, w, a))
  {
  }

  /** In every run the next sweep is due no later than the first deadline, whatever frames of whatever control
    * blocks have come: a control block that falls silent is reported at its deadline. */
  lemma {:induction false} ExpiresInTime(cfg: Config, delay: nat, acts: seq<Action>, k: string)
    ensures var w := Run(cfg, delay, Start(cfg), acts);
      && SweptInTime(w)
      && (k in w.tracks && w.now >= w.tracks[k].deadline ==>
            w.sweepAt <= w.now && k !in Step(cfg, delay, w, Sweep).tracks)
  {
    if |acts| > 0 {
      ExpiresInTime(cfg, delay, acts[..|acts| - 1], k);
      StepSwept(cfg, delay, Run(cfg, delay, Start(cfg), acts[..|acts| - 1]), acts[|acts| - 1]);
    }
  }
}
