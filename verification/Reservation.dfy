/** Reservation of report control blocks among connections (`Resv`, `ResvTms`, implicit through
  * `RptEna`), with the window that survives a connection (clause 17 of IEC 61850-7-2). */
module Reservation {
  import opened Wrappers
  import opened Octets
  import opened MmsValues

  type ConnId = nat
  type Key = string
  /** Instants and durations are in nanoseconds. */
  const SECOND: nat := 1_000_000_000

  datatype Reserve = Reserve(connId: ConnId, resvSecs: U32, until: Option<nat>)
  type Table = map<Key, Reserve>

  datatype Attr = Resv | ResvTms | RptEna | OtherAttr(name: string)

  predicate Holds(r: Reserve, now: nat) { r.until.None? || r.until.value > now }

  /** `ResvTms` as the server reads it: negative is 0, and the cast to u32 drops the high bits. */
  function SecsOf(v: MmsData): U32 {
    match v
    case Int(n) => (if n < 0 then 0 else n) % TWO_32
    case Uint(n) => n % TWO_32
    case _ => 0
  }

  predicate Blocked(t: Table, c: ConnId, k: Key, now: nat) {
    k in t && t[k].connId != c && Holds(t[k], now)
  }

  /** The table after a write that is not blocked. */
  function Updated(t: Table, c: ConnId, k: Key, a: Attr, v: MmsData): Table {
    match a
    case Resv => if v == Bool(true) then t[k := Reserve(c, 0, None)] else t - {k}
    case ResvTms => if SecsOf(v) > 0 then t[k := Reserve(c, SecsOf(v), None)] else t - {k}
    case RptEna =>
      if v != Bool(true) || (k in t && t[k].connId == c) then t else t[k := Reserve(c, 0, None)]
    case OtherAttr(_) => t
  }

  function AfterDeath(t: Table, c: ConnId, now: nat): Table {
    map k | k in t && (t[k].connId != c || t[k].resvSecs > 0) ::
      if t[k].connId == c then t[k].(until := Some(now + t[k].resvSecs * SECOND)) else t[k]
  }

  // ---------------------------------------------------------------- the code's own form

  class Reservations {
    var table: Table

    constructor ()
      ensures table == map[]
    {
      table := map[];
    }

    /** Runs before every write to an attribute of a known block. */
    method Check(c: ConnId, k: Key, a: Attr, v: MmsData, now: nat) returns (denied: bool)
      modifies this
      ensures denied == Blocked(old(table), c, k, now)
      ensures table == if denied then old(table) else Updated(old(table), c, k, a, v)
    {
      if k in table && table[k].connId != c && Holds(table[k], now) { return true; }
      denied := false;
      match a {
        case Resv =>
          if v == Bool(true) { table := table[k := Reserve(c, 0, None)]; } else { table := table - {k}; }
        case ResvTms =>
          var secs := SecsOf(v);
          if secs > 0 { table := table[k := Reserve(c, secs, None)]; } else { table := table - {k}; }
        case RptEna =>
          if v == Bool(true) && !(k in table && table[k].connId == c) {
            table := table[k := Reserve(c, 0, None)];
          }
        case OtherAttr(_) =>
      }
    }

    /** The guard of a connection that ends, however it ends. */
    method DropConnection(c: ConnId, now: nat)
      modifies this
      ensures table == AfterDeath(old(table), c, now)
    {
      var todo := table.Keys;
      while todo != {}
        invariant todo <= table.Keys <= old(table).Keys
        invariant forall k :: k in todo ==> table[k] == old(table)[k]
        invariant forall k :: k in old(table) && k !in todo ==>
          (k in table <==> k in AfterDeath(old(table), c, now))
        invariant forall k :: k in table && k !in todo ==> table[k] == AfterDeath(old(table), c, now)[k]
        decreases todo
      {
        var k :| k in todo;
        var r := table[k];
        if r.connId == c {
          if r.resvSecs > 0 {
            table := table[k := r.(until := Some(now + r.resvSecs * SECOND))];
          } else {
            table := table - {k};
          }
        }
        todo := todo - {k};
      }
    }
  }

  // ---------------------------------------------------------------- all connections together

  /** `released` remembers which enabled blocks their connection has itself let go since it last
    * took them. */
  datatype World = World(table: Table, live: set<ConnId>, dead: set<ConnId>,
                         enabled: set<(ConnId, Key)>, released: set<(ConnId, Key)>, now: nat)

  datatype Event =
    | Connect(c: ConnId)
    | Write(c: ConnId, k: Key, a: Attr, v: MmsData)
    | Die(c: ConnId)
    | Tick(dt: nat)

  const INIT: World := World(map[], {}, {}, {}, {}, 0)

  predicate Accepted(w: World, e: Event)
    requires e.Write?
  {
    e.c in w.live && !Blocked(w.table, e.c, e.k, w.now)
  }

  predicate Releases(e: Event)
    requires e.Write?
  {
    (e.a.Resv? && e.v != Bool(true)) || (e.a.ResvTms? && SecsOf(e.v) == 0)
  }

  predicate Takes(e: Event)
    requires e.Write?
  {
    !Releases(e) && (e.a.Resv? || e.a.ResvTms? || (e.a.RptEna? && e.v == Bool(true)))
  }

  function Without(s: set<(ConnId, Key)>, c: ConnId): set<(ConnId, Key)> { set x | x in s && x.0 != c }

  /** Connection ids are never used twice. */
  function Step(w: World, e: Event): World {
    match e
    case Connect(c) => if c in w.live + w.dead then w else w.(live := w.live + {c})
    case Tick(dt) => w.(now := w.now + dt)
    case Die(c) =>
      if c !in w.live then w
      else World(AfterDeath(w.table, c, w.now), w.live - {c}, w.dead + {c},
                 Without(w.enabled, c), Without(w.released, c), w.now)
    case Write(c, k, a, v) =>
      if !Accepted(w, e) then w
      else
        w.(table := Updated(w.table, c, k, a, v),
           enabled := if !a.RptEna? then w.enabled
                      else if v == Bool(true) then w.enabled + {(c, k)} else w.enabled - {(c, k)},
           released := if Takes(e) then w.released - {(c, k)}
                       else if Releases(e) && (c, k) in w.enabled then w.released + {(c, k)}
                       else w.released)
  }

  function Run(w: World, evs: seq<Event>): World {
    if |evs| == 0 then w else Step(Run(w, evs[..|evs| - 1]), evs[|evs| - 1])
  }

  ghost predicate Owns(w: World, c: ConnId, k: Key) { k in w.table && w.table[k].connId == c }

  ghost predicate Inv(w: World) {
    && w.live !! w.dead
    && (forall k :: k in w.table ==>
          if w.table[k].until.None? then w.table[k].connId in w.live
          else w.table[k].connId in w.dead)
    && (forall c, k :: (c, k) in w.enabled ==> c in w.live && (Owns(w, c, k) || (c, k) in w.released))
  }

  lemma StepKeeps(w: World, e: Event)
    requires Inv(w)
    ensures Inv(Step(w, e))
  {
    var w' := Step(w, e);
    forall c, k | (c, k) in w'.enabled
      ensures c in w'.live && (Owns(w', c, k) || (c, k) in w'.released)
    {
      if (c, k) in w.enabled {
        assert c in w.live && (Owns(w, c, k) || (c, k) in w.released);
      }
    }
  }

  lemma {:induction false} RunKeeps(w: World, evs: seq<Event>)
    requires Inv(w)
    ensures Inv(Run(w, evs))
  {
    if |evs| > 0 {
      RunKeeps(w, evs[..|evs| - 1]);
      StepKeeps(Run(w, evs[..|evs| - 1]), evs[|evs| - 1]);
    }
  }

  /** In every reachable state a reservation without expiry belongs to a live connection and one
    * with an expiry to a dead one; and two connections have one block enabled only if one of them
    * has released its own reservation since it last took the block. */
  lemma ReservationSafety(evs: seq<Event>)
    ensures var w := Run(INIT, evs);
      && (forall k :: k in w.table ==>
            if w.table[k].until.None? then w.table[k].connId in w.live - w.dead
            else w.table[k].connId in w.dead - w.live)
      && (forall c, d, k :: c != d && (c, k) in w.enabled && (d, k) in w.enabled ==>
            (c, k) in w.released || (d, k) in w.released)
  {
    RunKeeps(INIT, evs);
    var w := Run(INIT, evs);
    forall c, d, k | c != d && (c, k) in w.enabled && (d, k) in w.enabled
      ensures (c, k) in w.released || (d, k) in w.released
    {
      assert Owns(w, c, k) || (c, k) in w.released;
      assert Owns(w, d, k) || (d, k) in w.released;
    }
  }

  /** While a connection has a block enabled, the others are kept out of it exactly until it
    * releases its reservation: the next to enable it then succeeds, and both have it enabled. */
  lemma EnabledExcludesUnlessReleased(w: World, c: ConnId, d: ConnId, k: Key, a: Attr, v: MmsData)
    requires Inv(w) && (c, k) in w.enabled && d != c && d in w.live
    ensures (c, k) !in w.released ==> !Accepted(w, Write(d, k, a, v))
    ensures forall e: Event :: e.Write? && e.c == c && e.k == k && Accepted(w, e) && Releases(e) ==>
      var w1 := Step(w, e);
      && Accepted(w1, Write(d, k, RptEna, Bool(true)))
      && var w2 := Step(w1, Write(d, k, RptEna, Bool(true)));
         (c, k) in w2.enabled && (d, k) in w2.enabled
  {
    assert c in w.live && (Owns(w, c, k) || (c, k) in w.released);
  }

  lemma {:induction false} NowGrows(w: World, evs: seq<Event>, n: nat)
    requires n <= |evs|
    ensures Run(w, evs[..n]).now <= Run(w, evs).now
  {
    if n < |evs| {
      NowGrows(w, evs[..|evs| - 1], n);
      assert evs[..|evs| - 1][..n] == evs[..n];
    } else {
      assert evs[..n] == evs;
    }
  }

  lemma {:induction false} WindowStands(w: World, evs: seq<Event>, k: Key)
    requires Inv(w) && k in w.table && w.table[k].until.Some?
    requires Run(w, evs).now < w.table[k].until.value
    ensures k in Run(w, evs).table && Run(w, evs).table[k] == w.table[k]
  {
    if |evs| > 0 {
      var front := evs[..|evs| - 1];
      NowGrows(w, evs, |evs| - 1);
      RunKeeps(w, front);
      WindowStands(w, front, k);
    }
  }

  /** A connection that dies at instant d holding a block with ResvTms = n keeps it: whatever
    * happens meanwhile, no write by anybody to the block is accepted before d + n seconds, and
    * from then on, until somebody takes the block, every live connection is let in. */
  lemma {:induction false} WindowBlocks(w: World, c: ConnId, k: Key, evs: seq<Event>, e: Event)
    requires Inv(w) && c in w.live && Owns(w, c, k) && w.table[k].resvSecs > 0
    requires e.Write? && e.k == k
    ensures var until := w.now + w.table[k].resvSecs * SECOND;
      var w' := Run(Step(w, Die(c)), evs);
      && (w'.now < until ==> !Accepted(w', e))
      && (w'.now >= until && k in w'.table && w'.table[k] == Step(w, Die(c)).table[k] && e.c in w'.live ==>
            Accepted(w', e))
  {
    var w1 := Step(w, Die(c));
    StepKeeps(w, Die(c));
    RunKeeps(w1, evs);
    var w' := Run(w1, evs);
    assert c in w1.dead && k in w1.table;
    if w'.now < w1.table[k].until.value {
      WindowStands(w1, evs, k);
    }
  }

  // ---------------------------------------------------------------- from the write to the end of the window

  /** The connection does not set or clear the reservation of the block, and lives. */
  ghost predicate Keeps(e: Event, c: ConnId, k: Key) {
    && e != Die(c)
    && !(e.Write? && e.c == c && e.k == k && (e.a.Resv? || e.a.ResvTms?))
  }

  ghost predicate Reserved(w: World, c: ConnId, k: Key, secs: U32) {
    Inv(w) && c in w.live && k in w.table && w.table[k] == Reserve(c, secs, None)
  }

  lemma ReservedStep(w: World, e: Event, c: ConnId, k: Key, secs: U32)
    requires Reserved(w, c, k, secs) && Keeps(e, c, k)
    ensures Reserved(Step(w, e), c, k, secs)
  {
    StepKeeps(w, e);
  }

  lemma {:induction false} ReservedRun(w: World, evs: seq<Event>, c: ConnId, k: Key, secs: U32)
    requires Reserved(w, c, k, secs) && forall i :: 0 <= i < |evs| ==> Keeps(evs[i], c, k)
    ensures Reserved(Run(w, evs), c, k, secs)
  {
    if |evs| > 0 {
      ReservedRun(w, evs[..|evs| - 1], c, k, secs);
      ReservedStep(Run(w, evs[..|evs| - 1]), evs[|evs| - 1], c, k, secs);
    }
  }

  /** While the reservation stands every write of its owner is accepted and no other is. */
  ghost predicate Exclusive(w: World, c: ConnId, k: Key) {
    forall e: Event :: e.Write? && e.k == k ==> (Accepted(w, e) <==> e.c == c)
  }

  /** Anybody connected is let in. */
  ghost predicate Open(w: World, k: Key) {
    forall e: Event :: e.Write? && e.k == k ==> (Accepted(w, e) <==> e.c in w.live)
  }

  /** `ResvTms` written as a number that is `secs` in 32 bits, from any reachable state: until the writer
    * dies it alone is let in, whatever happens, as long as it does not itself set or clear the
    * reservation; when it dies at instant `d`, nobody is let in before `d` plus `secs` seconds, whatever
    * happens; and from then on everybody is, if there has been no write to the block. */
  lemma ResvTmsHolds(evs0: seq<Event>, c: ConnId, k: Key, v: MmsData, n: nat, secs: nat, evs: seq<Event>,
                     evs2: seq<Event>)
    requires n < 0x1_0000_0000_0000_0000 && (v == Uint(n) || (n < 0x8000_0000_0000_0000 && v == Int(n)))
    requires secs == n % 0x1_0000_0000 && secs > 0
    requires Accepted(Run(INIT, evs0), Write(c, k, ResvTms, v))
    requires forall i :: 0 <= i < |evs| ==> Keeps(evs[i], c, k)
    ensures var w := Run(Step(Run(INIT, evs0), Write(c, k, ResvTms, v)), evs);
      var w' := Run(Step(w, Die(c)), evs2);
      var until := w.now + secs * 1_000_000_000;
      && Exclusive(w, c, k)
      && (forall e: Event :: e.Write? && e.k == k && Accepted(w', e) ==> w'.now >= until)
      && (w'.now >= until && (forall i :: 0 <= i < |evs2| ==> !(evs2[i].Write? && evs2[i].k == k)) ==> Open(w', k))
  {
    var w0 := Run(INIT, evs0);
    RunKeeps(INIT, evs0);
    var w1 := Step(w0, Write(c, k, ResvTms, v));
    StepKeeps(w0, Write(c, k, ResvTms, v));
    assert Reserved(w1, c, k, secs);
    ReservedRun(w1, evs, c, k, secs);
    var w := Run(w1, evs);
    var w' := Run(Step(w, Die(c)), evs2);
    forall e: Event | e.Write? && e.k == k && Accepted(w', e)
      ensures w'.now >= w.now + secs * 1_000_000_000
    {
      WindowBlocks(w, c, k, evs2, e);
    }
    StepKeeps(w, Die(c));
    if forall i :: 0 <= i < |evs2| ==> !(evs2[i].Write? && evs2[i].k == k) {
      UnwrittenRun(Step(w, Die(c)), evs2, k);
    }
  }

  /** The entry of a dead connection stays while nobody writes to the block. */
  lemma {:induction false} UnwrittenRun(w: World, evs: seq<Event>, k: Key)
    requires Inv(w) && k in w.table && w.table[k].until.Some?
    requires forall i :: 0 <= i < |evs| ==> !(evs[i].Write? && evs[i].k == k)
    ensures k in Run(w, evs).table && Run(w, evs).table[k] == w.table[k]
  {
    if |evs| > 0 {
      UnwrittenRun(w, evs[..|evs| - 1], k);
      RunKeeps(w, evs[..|evs| - 1]);
    }
  }

  /** `ResvTms` written as anything else gives the reservation up, as `Resv` does unless it is true. */
  lemma ResvTmsReleases(w: World, c: ConnId, k: Key, a: Attr, v: MmsData)
    requires Accepted(w, Write(c, k, a, v))
    requires if a.Resv? then v != Bool(true)
             else a.ResvTms? && (v.Int? ==> v.i <= 0) && (v.Uint? ==> v.u % 0x1_0000_0000 == 0)
    ensures Open(Step(w, Write(c, k, a, v)), k)
  {
  }

  /** A reservation made by `Resv`, or by enabling a block that nobody holds, excludes the others and ends
    * with its connection. */
  lemma {:induction false} ResvEndsWithConnection(evs0: seq<Event>, c: ConnId, k: Key, a: Attr, evs: seq<Event>)
    requires Accepted(Run(INIT, evs0), Write(c, k, a, Bool(true)))
    requires a.Resv? || (a.RptEna? && !Owns(Run(INIT, evs0), c, k))
    requires forall i :: 0 <= i < |evs| ==> Keeps(evs[i], c, k)
    ensures var w := Run(Step(Run(INIT, evs0), Write(c, k, a, Bool(true))), evs);
      Exclusive(w, c, k) && Open(Step(w, Die(c)), k)
  {
    var w0 := Run(INIT, evs0);
    RunKeeps(INIT, evs0);
    var w1 := Step(w0, Write(c, k, a, Bool(true)));
    StepKeeps(w0, Write(c, k, a, Bool(true)));
    assert Reserved(w1, c, k, 0);
    ReservedRun(w1, evs, c, k, 0);
  }
}
