/** Buffered report control blocks: the ring buffer shared by every connection, and the cursor
  * with which each connection reads it (clause 17 of IEC 61850-7-2). */
module Brcb {
  import opened Wrappers
  import opened Octets
  import opened MmsValues
  import opened Numbers

  const BRCB_CAPACITY: nat := 64

  datatype BufEntry = BufEntry(id: nat, member: nat, value: MmsData)
  datatype Buffer = Buffer(entries: seq<BufEntry>, nextId: nat, overflow: bool, capacity: nat)
  /** What one connection keeps for the block while it has it enabled. */
  datatype Cursor = Cursor(pos: nat, seqNum: U32)
  datatype Report = Report(seqNum: U32, id: nat, member: nat, value: MmsData, bufOvfl: bool)

  function NewBuffer(capacity: nat): Buffer { Buffer([], 1, false, capacity) }

  function LastId(entries: seq<BufEntry>): nat {
    if |entries| == 0 then 0 else entries[|entries| - 1].id
  }

  function Suffix<T>(s: seq<T>, n: nat): (r: seq<T>)
    ensures |r| == if |s| <= n then |s| else n
  {
    if |s| <= n then s else s[|s| - n..]
  }

  function Append(b: Buffer, member: nat, value: MmsData): Buffer {
    var all := b.entries + [BufEntry(b.nextId, member, value)];
    b.(entries := Suffix(all, b.capacity), nextId := b.nextId + 1,
       overflow := b.overflow || |all| > b.capacity)
  }

  function Purged(b: Buffer): Buffer { b.(entries := [], overflow := false) }

  /** The entries a connection standing at `pos` has still to send, oldest first. */
  function Pending(entries: seq<BufEntry>, pos: nat): seq<BufEntry> {
    if |entries| == 0 then []
    else
      var rest := Pending(entries[..|entries| - 1], pos);
      if entries[|entries| - 1].id > pos then rest + [entries[|entries| - 1]] else rest
  }

  /** `seq_num` is a u32; in a release build it wraps. */
  function SeqAfter(seqNum: U32, n: nat): U32 { (seqNum + n) % TWO_32 }

  function Reports(pending: seq<BufEntry>, seqNum: U32, ovfl: bool): (r: seq<Report>)
    ensures |r| == |pending|
  {
    seq(|pending|, i requires 0 <= i < |pending| =>
      Report(SeqAfter(seqNum, i + 1), pending[i].id, pending[i].member, pending[i].value, ovfl))
  }

  function DrainCursor(c: Cursor, b: Buffer): Cursor {
    var p := Pending(b.entries, c.pos);
    if p == [] then c else Cursor(LastId(p), SeqAfter(c.seqNum, |p|))
  }

  function DrainBuffer(c: Cursor, b: Buffer): Buffer {
    if Pending(b.entries, c.pos) == [] then b else b.(overflow := false)
  }

  function DrainReports(c: Cursor, b: Buffer): seq<Report> {
    Reports(Pending(b.entries, c.pos), c.seqNum, b.overflow)
  }

  /** An interrogation takes a sequence number; the cursor stays. */
  function Interrogated(c: Cursor): Cursor { c.(seqNum := SeqAfter(c.seqNum, 1)) }

  function DecodeEntryId(v: MmsData): nat {
    match v
    case Octet(o) => FromBe(Suffix(o, 8))
    case _ => 0
  }

  function EnableCursor(entryIdAttr: MmsData, b: Buffer): Cursor {
    var resume := DecodeEntryId(entryIdAttr);
    Cursor(if resume > 0 then resume else LastId(b.entries), 0)
  }

  // ---------------------------------------------------------------- the code's own form

  class BrcbBuffer {
    var entries: seq<BufEntry>
    var nextId: nat
    var overflow: bool
    const capacity: nat

    function Model(): Buffer
      reads this
    {
      Buffer(entries, nextId, overflow, capacity)
    }

    constructor ()
      ensures Model() == NewBuffer(BRCB_CAPACITY)
    {
      entries, nextId, overflow, capacity := [], 1, false, BRCB_CAPACITY;
    }

    method MaxId() returns (id: nat)
      ensures id == LastId(entries)
    {
      id := if |entries| > 0 then entries[|entries| - 1].id else 0;
    }

    /** One covered value change, as the buffering task records it. */
    method Push(member: nat, value: MmsData)
      modifies this
      ensures Model() == Append(old(Model()), member, value)
    {
      var entryId := nextId;
      nextId := nextId + 1;
      entries := entries + [BufEntry(entryId, member, value)];
      ghost var all := entries;
      Trim();
      assert Model() == Buffer(Suffix(all, capacity), old(nextId) + 1, old(overflow) || |all| > capacity, capacity);
    }

    /** Drops the oldest entries until the rest fit. */
    method Trim()
      modifies this`entries, this`overflow
      ensures entries == Suffix(old(entries), capacity)
      ensures overflow == (old(overflow) || |old(entries)| > capacity)
    {
      ghost var all := entries;
      while |entries| > capacity
        invariant |entries| <= |all| && entries == all[|all| - |entries|..]
        invariant |entries| < |all| ==> |entries| >= capacity
        invariant overflow == (old(overflow) || |entries| < |all|)
      {
        entries := entries[1..];
        overflow := true;
      }
    }

    method Clear()
      modifies this
      ensures Model() == Purged(old(Model()))
    {
      entries := [];
      overflow := false;
    }
  }

  /** The entries past the cursor, taken out in order. */
  method Collect(entries: seq<BufEntry>, pos: nat) returns (pending: seq<BufEntry>)
    ensures pending == Pending(entries, pos)
  {
    pending := [];
    for i := 0 to |entries|
      invariant pending == Pending(entries[..i], pos)
    {
      assert entries[..i + 1][..i] == entries[..i];
      if entries[i].id > pos { pending := pending + [entries[i]]; }
    }
    assert entries[..|entries|] == entries;
  }

  /** One connection's view of one block: `rcb` is None while it does not have it enabled. */
  class BrcbSession {
    var rcb: Option<Cursor>

    constructor ()
      ensures rcb == None
    {
      rcb := None;
    }

    method Drain(buf: BrcbBuffer) returns (out: seq<Report>)
      modifies this, buf
      ensures old(rcb).None? ==> out == [] && rcb == None && buf.Model() == old(buf.Model())
      ensures old(rcb).Some? ==>
        && out == DrainReports(old(rcb).value, old(buf.Model()))
        && rcb == Some(DrainCursor(old(rcb).value, old(buf.Model())))
        && buf.Model() == DrainBuffer(old(rcb).value, old(buf.Model()))
    {
      if rcb == None { return []; }
      var pending := Collect(buf.entries, rcb.value.pos);
      var overflow := buf.overflow;
      if pending != [] { buf.overflow := false; }
      out := Send(pending, overflow);
    }

    /** One report for each entry; the cursor follows. */
    method Send(pending: seq<BufEntry>, overflow: bool) returns (out: seq<Report>)
      requires rcb.Some?
      modifies this
      ensures out == Reports(pending, old(rcb).value.seqNum, overflow)
      ensures rcb == Some(Cursor(if pending == [] then old(rcb).value.pos else LastId(pending),
                                 SeqAfter(old(rcb).value.seqNum, |pending|)))
    {
      var start := rcb.value;
      out := [];
      for k := 0 to |pending|
        invariant rcb == Some(Cursor(if k == 0 then start.pos else pending[k - 1].id,
                                     SeqAfter(start.seqNum, k)))
        invariant |out| == k && out == Reports(pending, start.seqNum, overflow)[..k]
      {
        NextSeq(start.seqNum, k);
        rcb := Some(Cursor(pending[k].id, (rcb.value.seqNum + 1) % TWO_32));
        out := out + [Report(rcb.value.seqNum, pending[k].id, pending[k].member, pending[k].value, overflow)];
      }
    }

    /** RptEna := true, then the replay of what lies past the cursor. */
    method Enable(entryIdAttr: MmsData, buf: BrcbBuffer) returns (out: seq<Report>)
      modifies this, buf
      ensures var c := EnableCursor(entryIdAttr, old(buf.Model()));
        && out == DrainReports(c, old(buf.Model()))
        && rcb == Some(DrainCursor(c, old(buf.Model())))
        && buf.Model() == DrainBuffer(c, old(buf.Model()))
    {
      var resume := DecodeEntryId(entryIdAttr);
      var cursor := resume;
      if resume == 0 { cursor := buf.MaxId(); }
      rcb := Some(Cursor(cursor, 0));
      out := Drain(buf);
    }

    /** EntryID := value. */
    method SetEntryId(value: MmsData, buf: BrcbBuffer) returns (out: seq<Report>)
      modifies this, buf
      ensures old(rcb).None? ==> out == [] && rcb == None && buf.Model() == old(buf.Model())
      ensures old(rcb).Some? ==>
        var c := Cursor(DecodeEntryId(value), old(rcb).value.seqNum);
        && out == DrainReports(c, old(buf.Model()))
        && rcb == Some(DrainCursor(c, old(buf.Model())))
        && buf.Model() == DrainBuffer(c, old(buf.Model()))
    {
      if rcb == None { return []; }
      rcb := Some(Cursor(DecodeEntryId(value), rcb.value.seqNum));
      out := Drain(buf);
    }

    /** PurgeBuf := true. */
    method Purge(buf: BrcbBuffer)
      modifies this, buf
      ensures buf.Model() == Purged(old(buf.Model()))
      ensures rcb == if old(rcb).None? then None else Some(old(rcb).value.(pos := 0))
    {
      buf.Clear();
      if rcb.Some? { rcb := Some(rcb.value.(pos := 0)); }
    }

    /** GI := true: the sequence number of the report, if the block is enabled. */
    method Interrogate() returns (seqNum: Option<U32>)
      modifies this
      ensures old(rcb).None? ==> seqNum == None && rcb == None
      ensures old(rcb).Some? ==>
        rcb == Some(Interrogated(old(rcb).value)) && seqNum == Some(SeqAfter(old(rcb).value.seqNum, 1))
    {
      if rcb == None { return None; }
      rcb := Some(rcb.value.(seqNum := (rcb.value.seqNum + 1) % TWO_32));
      seqNum := Some(rcb.value.seqNum);
    }
  }

  lemma NextSeq(seqNum: U32, k: nat)
    ensures (SeqAfter(seqNum, k) + 1) % TWO_32 == SeqAfter(seqNum, k + 1)
  {
  }

  // ---------------------------------------------------------------- all connections together

  type ConnId = nat

  /** The shared buffer, the EntryID attribute of the store, and who has the block enabled. */
  datatype World = World(buf: Buffer, entryIdAttr: MmsData, conns: map<ConnId, Cursor>)

  datatype Event =
    | Change(member: nat, value: MmsData)
    | Notify(c: ConnId)
    | Enable(c: ConnId)
    | Disable(c: ConnId)
    | WriteEntryId(c: ConnId, v: MmsData)
    | Purge(c: ConnId)
    | Gi(c: ConnId)

  datatype Outcome = Outcome(world: World, out: seq<Report>)

  function InitWorld(capacity: nat): World { World(NewBuffer(capacity), Octet([]), map[]) }

  function DrainAs(w: World, c: ConnId, cur: Cursor): Outcome {
    Outcome(w.(buf := DrainBuffer(cur, w.buf), conns := w.conns[c := DrainCursor(cur, w.buf)]),
            DrainReports(cur, w.buf))
  }

  /** Buffered reports go to the connection the event names. An interrogation report carries no
    * EntryID and is not among them. */
  function Step(w: World, e: Event): Outcome {
    match e
    case Change(m, v) => Outcome(w.(buf := Append(w.buf, m, v)), [])
    case Notify(c) => if c in w.conns then DrainAs(w, c, w.conns[c]) else Outcome(w, [])
    case Enable(c) => DrainAs(w, c, EnableCursor(w.entryIdAttr, w.buf))
    case Disable(c) => Outcome(w.(conns := w.conns - {c}), [])
    case WriteEntryId(c, v) =>
      var r := if c in w.conns
               then DrainAs(w, c, Cursor(DecodeEntryId(v), w.conns[c].seqNum))
               else Outcome(w, []);
      r.(world := r.world.(entryIdAttr := v))
    case Purge(c) =>
      Outcome(w.(buf := Purged(w.buf),
                 conns := if c in w.conns then w.conns[c := w.conns[c].(pos := 0)] else w.conns), [])
    case Gi(c) =>
      Outcome(w.(conns := if c in w.conns then w.conns[c := Interrogated(w.conns[c])] else w.conns), [])
  }

  function Run(w: World, evs: seq<Event>): World {
    if |evs| == 0 then w else Step(Run(w, evs[..|evs| - 1]), evs[|evs| - 1]).world
  }

  // ---------------------------------------------------------------- the window

  /** The entries of all changes since the last purge, numbered by their place in the run. */
  function History(evs: seq<Event>): seq<BufEntry> {
    if |evs| == 0 then []
    else
      var before := History(evs[..|evs| - 1]);
      match evs[|evs| - 1]
      case Change(m, v) => before + [BufEntry(Changes(evs), m, v)]
      case Purge(_) => []
      case _ => before
  }

  function Changes(evs: seq<Event>): nat {
    if |evs| == 0 then 0 else Changes(evs[..|evs| - 1]) + if evs[|evs| - 1].Change? then 1 else 0
  }

  lemma SuffixAppend<T>(h: seq<T>, x: T, n: nat)
    ensures Suffix(Suffix(h, n) + [x], n) == Suffix(h + [x], n)
  {
  }

  ghost predicate IsWindow(b: Buffer, h: seq<BufEntry>, n: nat, capacity: nat) {
    && b.entries == Suffix(h, capacity)
    && b.nextId == n + 1
    && b.capacity == capacity
    && (b.overflow ==> |h| > capacity)
  }

  lemma AppendWindow(b: Buffer, h: seq<BufEntry>, n: nat, capacity: nat, m: nat, v: MmsData)
    requires IsWindow(b, h, n, capacity)
    ensures IsWindow(Append(b, m, v), h + [BufEntry(n + 1, m, v)], n + 1, capacity)
  {
    SuffixAppend(h, BufEntry(n + 1, m, v), capacity);
  }

  /** In every reachable state the buffer is exactly the last `capacity` entries since the purge. */
  lemma {:induction false} BufferIsWindow(capacity: nat, evs: seq<Event>)
    ensures IsWindow(Run(InitWorld(capacity), evs).buf, History(evs), Changes(evs), capacity)
  {
    if |evs| > 0 {
      var pre := evs[..|evs| - 1];
      BufferIsWindow(capacity, pre);
      match evs[|evs| - 1]
      case Change(m, v) => AppendWindow(Run(InitWorld(capacity), pre).buf, History(pre), Changes(pre), capacity, m, v);
      case _ =>
    }
  }

  /** Consecutive ids that end just before `nextId`. */
  ghost predicate Consecutive(b: Buffer) {
    && |b.entries| < b.nextId
    && |b.entries| <= b.capacity
    && forall i :: 0 <= i < |b.entries| ==> b.entries[i].id == b.nextId - |b.entries| + i
  }

  lemma StepConsecutive(w: World, e: Event)
    requires Consecutive(w.buf)
    ensures Consecutive(Step(w, e).world.buf)
  {
  }

  lemma {:induction false} RunConsecutive(w: World, evs: seq<Event>)
    requires Consecutive(w.buf)
    ensures Consecutive(Run(w, evs).buf)
  {
    if |evs| > 0 {
      RunConsecutive(w, evs[..|evs| - 1]);
      StepConsecutive(Run(w, evs[..|evs| - 1]), evs[|evs| - 1]);
    }
  }

  function FirstId(b: Buffer): int { b.nextId - |b.entries| }

  lemma {:induction false} NonePending(b: Buffer, n: nat, pos: nat)
    requires Consecutive(b) && n <= |b.entries| && pos >= FirstId(b) + n - 1
    ensures Pending(b.entries[..n], pos) == []
  {
    if n > 0 {
      NonePending(b, n - 1, pos);
      assert b.entries[..n][..n - 1] == b.entries[..n - 1];
    }
  }

  lemma SliceNext(s: seq<BufEntry>, lo: nat, n: nat)
    requires lo < n <= |s|
    ensures s[lo..n] == s[lo..n - 1] + [s[n - 1]]
    ensures s[..n][..n - 1] == s[..n - 1] && s[..n][n - 1] == s[n - 1]
  {
  }

  lemma {:induction false} PendingFrom(b: Buffer, lo: nat, n: nat, pos: nat)
    requires Consecutive(b) && lo <= n <= |b.entries|
    requires if pos < FirstId(b) then lo == 0 else lo == pos - FirstId(b) + 1
    ensures Pending(b.entries[..n], pos) == b.entries[lo..n]
  {
    if n > lo {
      PendingFrom(b, lo, n - 1, pos);
      SliceNext(b.entries, lo, n);
    } else if n > 0 {
      NonePending(b, n, pos);
    }
  }

  /** What a drain sends is a final segment of the buffer: the ids past the cursor, in order. */
  lemma {:induction false} PendingIsTail(b: Buffer, pos: nat)
    requires Consecutive(b)
    ensures var p := Pending(b.entries, pos);
      && |p| <= |b.entries| && p == b.entries[|b.entries| - |p|..]
      && (forall i :: 0 <= i < |b.entries| ==> (b.entries[i].id > pos <==> i >= |b.entries| - |p|))
      && (p != [] ==> LastId(p) == b.nextId - 1)
  {
    var n := |b.entries|;
    if pos >= FirstId(b) + n - 1 {
      NonePending(b, n, pos);
    } else {
      PendingFrom(b, if pos < FirstId(b) then 0 else pos - FirstId(b) + 1, n, pos);
    }
    assert b.entries[..|b.entries|] == b.entries;
  }

  // ---------------------------------------------------------------- exactly-once delivery

  ghost predicate SetsCursor(e: Event, c: ConnId) {
    && (e.Enable? || e.Disable? || e.WriteEntryId?)
    && e.c == c
  }

  /** Everything sent to `c` along a run. */
  function Sent(w: World, evs: seq<Event>, c: ConnId): seq<Report> {
    if |evs| == 0 then []
    else
      var e := evs[|evs| - 1];
      Sent(w, evs[..|evs| - 1], c)
      + if !e.Change? && e.c == c then Step(Run(w, evs[..|evs| - 1]), e).out else []
  }

  /** Where `c` started reading: its cursor when the run began, or 0 once it purged. */
  function StartOf(w: World, evs: seq<Event>, c: ConnId): nat
    requires c in w.conns
  {
    if |evs| == 0 then w.conns[c].pos
    else if evs[|evs| - 1] == Purge(c) then 0
    else StartOf(w, evs[..|evs| - 1], c)
  }

  ghost predicate StrictlyIncreasing(rs: seq<Report>) {
    forall i, j :: 0 <= i < j < |rs| ==> rs[i].id < rs[j].id
  }

  ghost function Ids(rs: seq<Report>): set<nat> { set r | r in rs :: r.id }

  lemma IdsConcat(a: seq<Report>, b: seq<Report>)
    ensures Ids(a + b) == Ids(a) + Ids(b)
  {
    forall id | id in Ids(a) + Ids(b)
      ensures id in Ids(a + b)
    {
      var r :| (r in a || r in b) && r.id == id;
      assert r in a + b;
    }
  }

  /** The ids one drain sends: what is buffered past the cursor. */
  lemma DrainIds(c: Cursor, b: Buffer)
    requires Consecutive(b)
    ensures forall id :: id in Ids(DrainReports(c, b)) <==> FirstId(b) <= id < b.nextId && id > c.pos
    ensures StrictlyIncreasing(DrainReports(c, b))
    ensures DrainCursor(c, b).pos == if b.nextId - 1 > c.pos && b.entries != [] then b.nextId - 1 else c.pos
  {
    var p, out := Pending(b.entries, c.pos), DrainReports(c, b);
    PendingIsTail(b, c.pos);
    var n := |b.entries| - |p|;
    assert forall j :: 0 <= j < |out| ==> out[j].id == b.entries[n + j].id;
    TailIds(b, c.pos, n, out);
    if |p| < |b.entries| { assert b.entries[|b.entries| - 1].id == b.nextId - 1; }
  }

  /** Reports of the entries from `n` on, which are those past `pos`. */
  lemma TailIds(b: Buffer, pos: nat, n: nat, out: seq<Report>)
    requires Consecutive(b) && n <= |b.entries| && |out| == |b.entries| - n
    requires forall i :: 0 <= i < |b.entries| ==> (b.entries[i].id > pos <==> i >= n)
    requires forall j :: 0 <= j < |out| ==> out[j].id == b.entries[n + j].id
    ensures forall id :: id in Ids(out) <==> FirstId(b) <= id < b.nextId && id > pos
    ensures StrictlyIncreasing(out)
  {
    forall id | FirstId(b) <= id < b.nextId && id > pos
      ensures id in Ids(out)
    {
      var k := id - FirstId(b);
      assert b.entries[k].id == id;
      assert out[k - n] in out && out[k - n].id == id;
    }
    forall id | id in Ids(out)
      ensures FirstId(b) <= id < b.nextId && id > pos
    {
      var j :| 0 <= j < |out| && out[j].id == id;
      assert b.entries[n + j].id == id;
    }
  }

  /** Ties a cursor to the ids sent since it stood at `start`. */
  ghost predicate Delivering(b: Buffer, pos: nat, start: nat, ids: set<nat>) {
    && Consecutive(b)
    && start <= pos
    && (pos == start || pos < b.nextId)
    && (forall id :: id in ids ==> id < b.nextId && (id <= pos || id < FirstId(b)))
    && (forall id :: FirstId(b) <= id < b.nextId ==> (id in ids <==> start < id <= pos))
  }

  lemma StepDelivers(w: World, e: Event, c: ConnId, start: nat, ids: set<nat>)
    requires c in w.conns && !SetsCursor(e, c) && Delivering(w.buf, w.conns[c].pos, start, ids)
    ensures var w' := Step(w, e).world;
      c in w'.conns &&
      Delivering(w'.buf, w'.conns[c].pos, if e == Purge(c) then 0 else start,
                 if e == Notify(c) then ids + Ids(Step(w, e).out) else ids)
  {
    match e
    case Notify(d) => if d == c { NotifyDelivers(w, c, start, ids); } else { StepConsecutive(w, e); }
    case Change(m, v) => ChangeDelivers(w.buf, m, v, w.conns[c].pos, start, ids);
    case _ => StepConsecutive(w, e);
  }

  lemma ChangeDelivers(b: Buffer, m: nat, v: MmsData, pos: nat, start: nat, ids: set<nat>)
    requires Delivering(b, pos, start, ids)
    ensures Delivering(Append(b, m, v), pos, start, ids)
  {
    var b' := Append(b, m, v);
    forall i | 0 <= i < |b'.entries|
      ensures b'.entries[i].id == b'.nextId - |b'.entries| + i
    {
    }
    assert FirstId(b) <= FirstId(b') <= b.nextId + 1;
    assert b.nextId !in ids;
  }

  lemma NotifyDelivers(w: World, c: ConnId, start: nat, ids: set<nat>)
    requires c in w.conns && Delivering(w.buf, w.conns[c].pos, start, ids)
    ensures var w' := Step(w, Notify(c)).world;
      c in w'.conns && Delivering(w'.buf, w'.conns[c].pos, start, ids + Ids(Step(w, Notify(c)).out))
  {
    DrainIds(w.conns[c], w.buf);
  }

  lemma {:induction false} RunDelivers(w: World, evs: seq<Event>, c: ConnId)
    requires Consecutive(w.buf) && c in w.conns
    requires forall i :: 0 <= i < |evs| ==> !SetsCursor(evs[i], c)
    ensures var w' := Run(w, evs);
      && c in w'.conns
      && Delivering(w'.buf, w'.conns[c].pos, StartOf(w, evs, c), Ids(Sent(w, evs, c)))
      && StrictlyIncreasing(Sent(w, evs, c))
  {
    if |evs| > 0 {
      var front, e := evs[..|evs| - 1], evs[|evs| - 1];
      var pre, sent := Run(w, front), Sent(w, front, c);
      RunDelivers(w, front, c);
      StepDelivers(pre, e, c, StartOf(w, front, c), Ids(sent));
      if e == Notify(c) {
        DrainIds(pre.conns[c], pre.buf);
        var out := Step(pre, e).out;
        IdsConcat(sent, out);
        forall i, j | 0 <= i < |sent| && 0 <= j < |out|
          ensures sent[i].id < out[j].id
        {
          assert sent[i] in sent && out[j] in out;
          assert sent[i].id in Ids(sent) && out[j].id in Ids(out);
        }
      } else {
        assert Sent(w, evs, c) == sent;
      }
    }
  }

  /** Between two writes that set its cursor, whatever the other connections, the buffering task
    * and the purges do, a connection receives strictly increasing ids, and each drain sends it
    * exactly the buffered entries it has not received yet, each with its member and value. */
  lemma {:induction false} ExactlyOnce(w: World, evs: seq<Event>, c: ConnId)
    requires Consecutive(w.buf) && c in w.conns
    requires forall i :: 0 <= i < |evs| ==> !SetsCursor(evs[i], c)
    ensures StrictlyIncreasing(Sent(w, evs, c))
    ensures var b, out := Run(w, evs).buf, Step(Run(w, evs), Notify(c)).out;
      && (forall k :: 0 <= k < |b.entries| ==>
            (b.entries[k].id in Ids(out) <==>
             b.entries[k].id > StartOf(w, evs, c) && b.entries[k].id !in Ids(Sent(w, evs, c))))
      && (forall j :: 0 <= j < |out| ==> BufEntry(out[j].id, out[j].member, out[j].value) in b.entries)
  {
    RunDelivers(w, evs, c);
    var w' := Run(w, evs);
    DrainIds(w'.conns[c], w'.buf);
    PendingIsTail(w'.buf, w'.conns[c].pos);
  }

  /** Every report of a batch carries the overflow flag as it stands, and a batch lowers it. */
  lemma BatchSaysOverflow(w: World, c: ConnId)
    requires c in w.conns
    ensures var r := Step(w, Notify(c));
      && (forall j :: 0 <= j < |r.out| ==> r.out[j].bufOvfl == w.buf.overflow)
      && r.world.buf.overflow == (w.buf.overflow && r.out == [])
  {
  }

  // ---------------------------------------------------------------- resynchronisation

  function EncodeEntryId(id: nat): MmsData { Octet(ToBe(id, 8)) }

  lemma EntryIdRoundTrip(id: nat)
    requires id < TWO_64
    ensures DecodeEntryId(EncodeEntryId(id)) == id
  {
    Pow256Eight();
    FromToBe(id, 8);
  }

  /** Of a longer octet string the last eight count; of a shorter one all; anything else is no id. */
  lemma {:induction false} EntryIdOf(v: MmsData, front: seq<Byte>, id: nat)
    requires id < TWO_64
    ensures DecodeEntryId(Octet(front + ToBe(id, 8))) == id
    ensures v.Octet? && |v.o| <= 8 ==> DecodeEntryId(v) == FromBe(v.o)
    ensures !v.Octet? ==> DecodeEntryId(v) == 0
  {
    EntryIdRoundTrip(id);
    assert Suffix(front + ToBe(id, 8), 8) == ToBe(id, 8);
  }

  /** Enabling with a previously written EntryID k replays exactly the buffered entries past k. */
  lemma EnableReplays(w: World, c: ConnId, k: nat)
    requires Consecutive(w.buf) && 1 <= k < TWO_64 && w.entryIdAttr == EncodeEntryId(k)
    ensures var out := Step(w, Enable(c)).out;
      && |out| <= |w.buf.entries|
      && (forall i :: 0 <= i < |w.buf.entries| ==>
            (w.buf.entries[i].id > k <==> i >= |w.buf.entries| - |out|))
      && (forall j :: 0 <= j < |out| ==>
            var e := w.buf.entries[|w.buf.entries| - |out| + j];
            out[j] == Report((j + 1) % TWO_32, e.id, e.member, e.value, w.buf.overflow))
  {
    EntryIdRoundTrip(k);
    PendingIsTail(w.buf, k);
  }

  /** An EntryID written by anybody is what the next enabling goes by; written by a connection that has the
    * block enabled, the entries past it are sent to that connection at once. */
  lemma WrittenIdReplays(w: World, c: ConnId, d: ConnId, k: nat)
    requires Consecutive(w.buf) && 1 <= k < TWO_64
    ensures var write := WriteEntryId(d, EncodeEntryId(k));
      && (d !in w.conns ==>
            var out := Step(Step(w, write).world, Enable(c)).out;
            && |out| <= |w.buf.entries|
            && forall i :: 0 <= i < |w.buf.entries| ==>
                 (w.buf.entries[i].id > k <==> i >= |w.buf.entries| - |out|))
      && (d in w.conns ==>
            var out := Step(w, write).out;
            && |out| <= |w.buf.entries|
            && (forall i :: 0 <= i < |w.buf.entries| ==>
                  (w.buf.entries[i].id > k <==> i >= |w.buf.entries| - |out|))
            && forall j :: 0 <= j < |out| ==>
                 var e := w.buf.entries[|w.buf.entries| - |out| + j];
                 out[j].id == e.id && out[j].member == e.member && out[j].value == e.value)
  {
    EntryIdRoundTrip(k);
    PendingIsTail(w.buf, k);
    if d !in w.conns { EnableReplays(Step(w, WriteEntryId(d, EncodeEntryId(k))).world, c, k); }
  }

  /** Enabling without an EntryID replays nothing: only later changes are reported. */
  lemma EnableFromEnd(w: World, c: ConnId)
    requires Consecutive(w.buf) && DecodeEntryId(w.entryIdAttr) == 0
    ensures Step(w, Enable(c)).out == [] && Step(w, Enable(c)).world.buf == w.buf
  {
    PendingIsTail(w.buf, LastId(w.buf.entries));
  }

  // ---------------------------------------------------------------- sequence numbers

  /** The numbers that one event takes for `c`: those of its reports, or that of an interrogation. */
  function SeqNumsOf(w: World, e: Event, c: ConnId): seq<U32> {
    if e.Change? || e.c != c then []
    else if e.Gi? then if c in w.conns then [Step(w, e).world.conns[c].seqNum] else []
    else
      var out := Step(w, e).out;
      seq(|out|, i requires 0 <= i < |out| => out[i].seqNum)
  }

  function SeqNums(w: World, evs: seq<Event>, c: ConnId): seq<U32> {
    if |evs| == 0 then []
    else SeqNums(w, evs[..|evs| - 1], c) + SeqNumsOf(Run(w, evs[..|evs| - 1]), evs[|evs| - 1], c)
  }

  /** Numbers that go on from `n`, around 2^32. */
  ghost predicate GoOn(ns: seq<U32>, n: nat) {
    forall i :: 0 <= i < |ns| ==> ns[i] == (n + i + 1) % 0x1_0000_0000
  }

  ghost predicate Counted(w: World, ns: seq<U32>, c: ConnId) {
    c in w.conns && w.conns[c].seqNum == |ns| % 0x1_0000_0000 && GoOn(ns, 0)
  }

  lemma SeqAfterMany(n: nat, k: nat)
    ensures SeqAfter(n % 0x1_0000_0000, k) == (n + k) % 0x1_0000_0000
  {
    var q, x := n / 0x1_0000_0000, n % 0x1_0000_0000 + k;
    RemainderIs(x / 0x1_0000_0000, x % 0x1_0000_0000);
    RemainderIs(q + x / 0x1_0000_0000, x % 0x1_0000_0000);
    assert n + k == 0x1_0000_0000 * (q + x / 0x1_0000_0000) + x % 0x1_0000_0000;
  }

  lemma RemainderIs(q: nat, r: nat)
    requires r < 0x1_0000_0000
    ensures (0x1_0000_0000 * q + r) % 0x1_0000_0000 == r
  {
  }

  lemma DrainNumbers(cur: Cursor, b: Buffer, n: nat)
    requires cur.seqNum == n % 0x1_0000_0000
    ensures var out := DrainReports(cur, b);
      && (forall i :: 0 <= i < |out| ==> out[i].seqNum == (n + i + 1) % 0x1_0000_0000)
      && DrainCursor(cur, b).seqNum == (n + |out|) % 0x1_0000_0000
  {
    var out := DrainReports(cur, b);
    forall i | 0 <= i < |out|
      ensures out[i].seqNum == (n + i + 1) % 0x1_0000_0000
    {
      SeqAfterMany(n, i + 1);
    }
    SeqAfterMany(n, |out|);
  }

  lemma StepCounted(w: World, e: Event, ns: seq<U32>, c: ConnId)
    requires Counted(w, ns, c) && e != Disable(c) && e != Enable(c)
    ensures Counted(Step(w, e).world, ns + SeqNumsOf(w, e, c), c)
  {
    if !e.Change? && e.c == c {
      match e
      case Notify(_) => DrainNumbers(w.conns[c], w.buf, |ns|);
      case WriteEntryId(_, v) => DrainNumbers(Cursor(DecodeEntryId(v), w.conns[c].seqNum), w.buf, |ns|);
      case Gi(_) => SeqAfterMany(|ns|, 1);
      case _ =>
    }
  }

  /** From the enabling on, until the connection disables or enables again, everything it is sent for the
    * block is numbered 1, 2, 3, ... modulo 2^32: reports of every batch and interrogations alike,
    * whatever else happens. */
  lemma {:induction false} NumbersGoOn(w: World, c: ConnId, evs: seq<Event>)
    requires forall i :: 0 <= i < |evs| ==> evs[i] != Disable(c) && evs[i] != Enable(c)
    ensures var all := [Enable(c)] + evs;
      Counted(Run(w, all), SeqNums(w, all, c), c)
  {
    if |evs| == 0 {
      EnableCounted(w, c);
      assert [Enable(c)] + evs == [Enable(c)];
    } else {
      var front, e := evs[..|evs| - 1], evs[|evs| - 1];
      NumbersGoOn(w, c, front);
      StepCounted(Run(w, [Enable(c)] + front), e, SeqNums(w, [Enable(c)] + front, c), c);
      NumbersSnoc(w, [Enable(c)] + front, e, c);
      assert [Enable(c)] + evs == [Enable(c)] + front + [e];
    }
  }

  lemma EnableCounted(w: World, c: ConnId)
    ensures Counted(Run(w, [Enable(c)]), SeqNums(w, [Enable(c)], c), c)
  {
    var one := [Enable(c)];
    NumbersSnoc(w, [], Enable(c), c);
    assert [] + one == one;
    DrainNumbers(EnableCursor(w.entryIdAttr, w.buf), w.buf, 0);
  }

  lemma NumbersSnoc(w: World, evs: seq<Event>, e: Event, c: ConnId)
    ensures SeqNums(w, evs + [e], c) == SeqNums(w, evs, c) + SeqNumsOf(Run(w, evs), e, c)
    ensures Run(w, evs + [e]) == Step(Run(w, evs), e).world
  {
    assert (evs + [e])[..|evs + [e]| - 1] == evs;
  }

  // ---------------------------------------------------------------- no silent loss

  /** A batch that skips entries the connection has not seen and does not say so. */
  ghost predicate SilentGap(pos: nat, out: seq<Report>) {
    out != [] && out[0].id > pos + 1 && !out[0].bufOvfl
  }

  /** Either nothing past `pos` has left the buffer, or the flag will say it has. */
  ghost predicate Accounted(b: Buffer, pos: nat) { b.overflow || pos + 1 >= FirstId(b) }

  /** For any buffer and cursor: a drain is silent about a gap exactly when entries are missing
    * between the cursor and the buffer, the flag is down and the buffer is not empty. */
  lemma SilentGapIff(b: Buffer, cur: Cursor)
    requires Consecutive(b)
    ensures SilentGap(cur.pos, DrainReports(cur, b)) <==> b.entries != [] && !Accounted(b, cur.pos)
  {
    PendingIsTail(b, cur.pos);
    var n := |b.entries| - |Pending(b.entries, cur.pos)|;
    if 0 < n < |b.entries| { assert b.entries[n - 1].id == b.entries[n].id - 1; }
  }

  /** Changes, and connections that enable, drain, interrogate and disable; no purge, no EntryID. */
  ghost predicate Untouched(evs: seq<Event>) {
    forall i :: 0 <= i < |evs| ==> !evs[i].Purge? && !evs[i].WriteEntryId?
  }

  /** Whoever has the block enabled is accounted for, and nothing is missing before the first purge. */
  ghost predicate AllAccounted(w: World) {
    && Consecutive(w.buf) && w.buf.capacity > 0 && DecodeEntryId(w.entryIdAttr) == 0
    && (w.buf.entries == [] ==> w.buf.nextId == 1)
    && forall c :: c in w.conns ==> Accounted(w.buf, w.conns[c].pos)
  }

  ghost predicate OneConsumer(w: World) { forall c, d :: c in w.conns && d in w.conns ==> c == d }

  lemma StepAccounted(w: World, e: Event)
    requires AllAccounted(w) && !e.Purge? && !e.WriteEntryId? && OneConsumer(w) && OneConsumer(Step(w, e).world)
    ensures AllAccounted(Step(w, e).world)
  {
    StepConsecutive(w, e);
    match e
    case Enable(c) =>
      EnableFromEnd(w, c);
      assert c in Step(w, e).world.conns;
      PendingIsTail(w.buf, LastId(w.buf.entries));
    case Notify(c) => if c in w.conns { PendingIsTail(w.buf, w.conns[c].pos); }
    case _ =>
  }

  lemma {:induction false} RunAccounted(capacity: nat, evs: seq<Event>)
    requires capacity > 0 && Untouched(evs)
    requires forall n :: 0 <= n <= |evs| ==> OneConsumer(Run(InitWorld(capacity), evs[..n]))
    ensures AllAccounted(Run(InitWorld(capacity), evs))
  {
    if |evs| > 0 {
      var front := evs[..|evs| - 1];
      forall n | 0 <= n <= |front|
        ensures OneConsumer(Run(InitWorld(capacity), front[..n]))
      {
        assert front[..n] == evs[..n];
      }
      RunAccounted(capacity, front);
      assert evs[..|evs|] == evs;
      StepAccounted(Run(InitWorld(capacity), front), evs[|evs| - 1]);
    }
  }

  /** From the start of a block never purged and whose EntryID is never written, with at most one
    * connection having it enabled at any time, which may disable and another enable: every batch
    * that does not start right after its connection's cursor carries the overflow flag. */
  lemma {:induction false} NoSilentLoss(capacity: nat, evs: seq<Event>, c: ConnId)
    requires capacity > 0 && Untouched(evs)
    requires forall n :: 0 <= n <= |evs| ==> OneConsumer(Run(InitWorld(capacity), evs[..n]))
    requires c in Run(InitWorld(capacity), evs).conns
    ensures var w := Run(InitWorld(capacity), evs);
      !SilentGap(w.conns[c].pos, Step(w, Notify(c)).out)
  {
    RunAccounted(capacity, evs);
    var w := Run(InitWorld(capacity), evs);
    SilentGapIff(w.buf, w.conns[c]);
  }

  // ---------------------------------------------------------------- several consumers

  /** Changes that the connection had behind it when it last enabled or drained. */
  function Seen(evs: seq<Event>, c: ConnId): nat {
    if |evs| == 0 then 0
    else if evs[|evs| - 1] == Enable(c) || evs[|evs| - 1] == Notify(c) then Changes(evs)
    else Seen(evs[..|evs| - 1], c)
  }

  /** Since the last change some connection has drained that had not seen it. */
  function Relayed(capacity: nat, evs: seq<Event>): bool {
    if |evs| == 0 then false
    else
      var front := evs[..|evs| - 1];
      match evs[|evs| - 1]
      case Change(_, _) => false
      case Notify(d) => Relayed(capacity, front) || (d in Run(InitWorld(capacity), front).conns
                                                     && Seen(front, d) < Changes(front))
      case _ => Relayed(capacity, front)
  }

  /** What the events of such a run leave: the flag, and every cursor. */
  ghost predicate Accounts(capacity: nat, evs: seq<Event>, w: World) {
    var n := Changes(evs);
    && Consecutive(w.buf) && w.buf.capacity == capacity && DecodeEntryId(w.entryIdAttr) == 0
    && w.buf.nextId == n + 1 && |w.buf.entries| == Min(n, capacity)
    && (w.buf.overflow <==> n > capacity && !Relayed(capacity, evs))
    && forall c :: c in w.conns ==> w.conns[c].pos == Seen(evs, c) <= n
  }

  lemma DrainAccounts(b: Buffer, cur: Cursor)
    requires Consecutive(b) && b.capacity > 0 && |b.entries| == Min(b.nextId - 1, b.capacity) && cur.pos <= b.nextId - 1
    ensures DrainCursor(cur, b).pos == b.nextId - 1
    ensures DrainBuffer(cur, b) == if cur.pos < b.nextId - 1 then b.(overflow := false) else b
  {
    PendingIsTail(b, cur.pos);
    var p := Pending(b.entries, cur.pos);
    if cur.pos < b.nextId - 1 { assert b.entries[|b.entries| - 1].id > cur.pos; }
  }

  lemma AccountsStep(capacity: nat, evs: seq<Event>, w: World)
    requires capacity > 0 && |evs| > 0 && !evs[|evs| - 1].Purge? && !evs[|evs| - 1].WriteEntryId?
    requires w == Run(InitWorld(capacity), evs[..|evs| - 1]) && Accounts(capacity, evs[..|evs| - 1], w)
    ensures Accounts(capacity, evs, Step(w, evs[|evs| - 1]).world)
  {
    StepConsecutive(w, evs[|evs| - 1]);
    match evs[|evs| - 1]
    case Notify(c) => if c in w.conns { DrainAccounts(w.buf, w.conns[c]); }
    case Enable(c) => DrainAccounts(w.buf, EnableCursor(w.entryIdAttr, w.buf));
    case _ =>
  }

  lemma {:induction false} RunAccounts(capacity: nat, evs: seq<Event>)
    requires capacity > 0 && Untouched(evs)
    ensures Accounts(capacity, evs, Run(InitWorld(capacity), evs))
  {
    if |evs| > 0 {
      RunAccounts(capacity, evs[..|evs| - 1]);
      AccountsStep(capacity, evs, Run(InitWorld(capacity), evs[..|evs| - 1]));
    } else {
      assert Suffix<Byte>([], 8) == [] && FromBe([]) == 0;
    }
  }

  /** However many connections have the block enabled, on a block never purged and whose EntryID is
    * never written: the next batch of a connection skips entries without saying so if and only if
    * entries have been dropped that it had not seen, and another connection has been sent something
    * since the last of them was dropped. */
  lemma {:induction false} SilentLossIff(capacity: nat, evs: seq<Event>, c: ConnId)
    requires capacity > 0 && Untouched(evs) && c in Run(InitWorld(capacity), evs).conns
    ensures var w := Run(InitWorld(capacity), evs);
      SilentGap(w.conns[c].pos, Step(w, Notify(c)).out)
      <==> Changes(evs) > capacity && Seen(evs, c) < Changes(evs) - capacity && Relayed(capacity, evs)
  {
    var w := Run(InitWorld(capacity), evs);
    RunAccounts(capacity, evs);
    SilentGapIff(w.buf, w.conns[c]);
  }

  function Repeat(e: Event, n: nat): seq<Event> { if n == 0 then [] else Repeat(e, n - 1) + [e] }

  /** Two connections enable, and one change more than the buffer holds follows. */
  function TwoConsumers(capacity: nat, v: MmsData): seq<Event> {
    [Enable(1), Enable(2)] + Repeat(Change(0, v), capacity + 1)
  }

  lemma {:induction false} AfterChanges(capacity: nat, v: MmsData, n: nat)
    ensures var w := Run(InitWorld(capacity), [Enable(1), Enable(2)] + Repeat(Change(0, v), n));
      && w.conns == map[1 := Cursor(0, 0), 2 := Cursor(0, 0)]
      && Consecutive(w.buf) && w.buf.capacity == capacity && w.buf.nextId == n + 1
      && |w.buf.entries| == Min(n, capacity) && w.buf.overflow == (n > capacity)
  {
    var evs := [Enable(1), Enable(2)] + Repeat(Change(0, v), n);
    if n == 0 {
      assert evs == [Enable(1), Enable(2)];
      BothEnabled(capacity);
    } else {
      AfterChanges(capacity, v, n - 1);
      assert evs[..|evs| - 1] == [Enable(1), Enable(2)] + Repeat(Change(0, v), n - 1);
      assert evs[|evs| - 1] == Change(0, v);
      StepConsecutive(Run(InitWorld(capacity), evs[..|evs| - 1]), Change(0, v));
    }
  }

  lemma BothEnabled(capacity: nat)
    ensures var w := Run(InitWorld(capacity), [Enable(1), Enable(2)]);
      w.buf == NewBuffer(capacity) && w.conns == map[1 := Cursor(0, 0), 2 := Cursor(0, 0)]
  {
    var one, two: seq<Event> := [Enable(1)], [Enable(1), Enable(2)];
    assert one[..0] == [] && two[..1] == one;
    var w0 := InitWorld(capacity);
    assert Suffix<Byte>([], 8) == [] && FromBe([]) == 0;
    assert EnableCursor(w0.entryIdAttr, w0.buf) == Cursor(0, 0) && Pending(w0.buf.entries, 0) == [];
    var w1 := w0.(conns := map[1 := Cursor(0, 0)]);
    assert Step(w0, Enable(1)).world == w1;
    assert Run(w0, one[..0]) == w0;
    assert Run(w0, one) == w1;
    assert Run(w0, two) == Step(w1, Enable(2)).world;
    assert Step(w1, Enable(2)).world == w1.(conns := map[1 := Cursor(0, 0), 2 := Cursor(0, 0)]);
  }

  /** With two consumers the flag is not enough, whatever the capacity: both are accounted for, the
    * first drain lowers the flag, and the second connection then misses entry 1 without being told. */
  lemma SilentLossWithTwoConsumers(capacity: nat, v: MmsData)
    requires capacity > 0
    ensures var w := Run(InitWorld(capacity), TwoConsumers(capacity, v));
      && w.conns == map[1 := Cursor(0, 0), 2 := Cursor(0, 0)]
      && Accounted(w.buf, 0) && FirstId(w.buf) == 2
      && var w' := Step(w, Notify(1)).world;
         2 in w'.conns && SilentGap(w'.conns[2].pos, Step(w', Notify(2)).out)
  {
    var w := Run(InitWorld(capacity), TwoConsumers(capacity, v));
    AfterChanges(capacity, v, capacity + 1);
    FirstDrainLowers(w);
    var w' := Step(w, Notify(1)).world;
    SilentGapIff(w'.buf, Cursor(0, 0));
    assert Step(w', Notify(2)).out == DrainReports(Cursor(0, 0), w'.buf);
  }

  lemma FirstDrainLowers(w: World)
    requires Consecutive(w.buf) && w.buf.entries != [] && FirstId(w.buf) > 0
    requires w.conns == map[1 := Cursor(0, 0), 2 := Cursor(0, 0)]
    ensures var w' := Step(w, Notify(1)).world;
      w'.buf == w.buf.(overflow := false) && Consecutive(w'.buf) && 2 in w'.conns && w'.conns[2] == Cursor(0, 0)
  {
    var n := |w.buf.entries|;
    PendingFrom(w.buf, 0, n, 0);
    assert w.buf.entries[..n] == w.buf.entries[0..n] == w.buf.entries;
    assert DrainBuffer(Cursor(0, 0), w.buf) == w.buf.(overflow := false);
  }

  /** At the capacity the code has, that is after 65 changes. */
  lemma SilentLossInTheCode(v: MmsData)
    ensures var w' := Step(Run(InitWorld(BRCB_CAPACITY), TwoConsumers(BRCB_CAPACITY, v)), Notify(1)).world;
      |TwoConsumers(BRCB_CAPACITY, v)| == 67 && 2 in w'.conns
      && SilentGap(w'.conns[2].pos, Step(w', Notify(2)).out)
  {
    SilentLossWithTwoConsumers(BRCB_CAPACITY, v);
    RepeatLength(Change(0, v), BRCB_CAPACITY + 1);
  }

  lemma {:induction false} RepeatLength(e: Event, n: nat)
    ensures |Repeat(e, n)| == n
  {
    if n > 0 { RepeatLength(e, n - 1); }
  }
}
