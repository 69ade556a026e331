/** Unbuffered report control blocks: change-driven reports, general interrogation and integrity
  * reports, and what a client that replays them knows (clause 17 of IEC 61850-7-2). */
module Urcb {
  import opened Wrappers
  import opened Octets
  import opened MmsValues
  import opened Assembly

  datatype Change = Change(item: Path, value: MmsData)

  /** The state a connection keeps for an enabled block. */
  datatype Rcb = Rcb(members: seq<Path>, last: map<Path, MmsData>, seqNum: U32,
                     intgPd: nat, nextIntegrity: Option<nat>)
  datatype Report = Report(seqNum: U32, inclusion: seq<bool>, values: seq<MmsData>)
  datatype Reaction = Reaction(rcb: Rcb, report: Option<Report>)

  function Bump(seqNum: U32): U32 { (seqNum + 1) % TWO_32 }

  /** Index of the first member that is the changed item or contains it. */
  function MemberCovering(members: seq<Path>, item: Path): (r: Option<nat>)
    ensures r.Some? ==> r.value < |members| && members[r.value] <= item
    ensures r.Some? ==> forall j :: 0 <= j < r.value ==> !(members[j] <= item)
    ensures r.None? ==> forall j :: 0 <= j < |members| ==> !(members[j] <= item)
  {
    if |members| == 0 then None
    else if members[0] <= item then Some(0)
    else match MemberCovering(members[1..], item)
      case None => None
      case Some(k) => Some(k + 1)
  }

  function SingleIncluded(n: nat, idx: nat): seq<bool> { seq(n, i => i == idx) }
  function AllIncluded(n: nat): seq<bool> { seq(n, i => true) }

  /** Value of a member as interrogation and integrity report it. */
  function MemberValue(ns: seq<Path>, store: Store, m: Path): MmsData {
    match Assemble(ns, m, store)
    case Some(s) => s
    case None => Lookup(store, m)
  }

  /** Value of a member as a change of `c.item` reports it. */
  function ChangedValue(ns: seq<Path>, store: Store, m: Path, c: Change): MmsData {
    if m == c.item then c.value
    else match Assemble(ns, m, store)
      case Some(s) => s
      case None => c.value
  }

  function Enabled(members: seq<Path>, store: Store, intgPd: nat, now: nat): Rcb {
    Rcb(members, map m | m in members :: Lookup(store, m), 0, intgPd,
        if intgPd > 0 then Some(now + intgPd) else None)
  }

  function OnChange(ns: seq<Path>, store: Store, r: Rcb, c: Change): Reaction {
    match MemberCovering(r.members, c.item)
    case None => Reaction(r, None)
    case Some(idx) =>
      var m := r.members[idx];
      var v := ChangedValue(ns, store, m, c);
      if m in r.last && r.last[m] == v then Reaction(r, None)
      else
        var r' := r.(last := r.last[m := v], seqNum := Bump(r.seqNum));
        Reaction(r', Some(Report(r'.seqNum, SingleIncluded(|r.members|, idx), [v])))
  }

  function Each<A, B>(f: A -> B, s: seq<A>): seq<B> {
    seq(|s|, i requires 0 <= i < |s| => f(s[i]))
  }

  function Reader(ns: seq<Path>, store: Store): Path -> MmsData { m => MemberValue(ns, store, m) }

  function MemberValues(ns: seq<Path>, store: Store, members: seq<Path>): seq<MmsData> {
    Each(Reader(ns, store), members)
  }

  function Interrogate(ns: seq<Path>, store: Store, r: Rcb): Reaction {
    var r' := r.(seqNum := Bump(r.seqNum));
    Reaction(r', Some(Report(r'.seqNum, AllIncluded(|r.members|), MemberValues(ns, store, r.members))))
  }

  function OnIntegrity(ns: seq<Path>, store: Store, r: Rcb, now: nat): Reaction {
    if r.nextIntegrity.Some? && r.nextIntegrity.value <= now then
      var x := Interrogate(ns, store, r);
      x.(rcb := x.rcb.(nextIntegrity := Some(now + r.intgPd)))
    else Reaction(r, None)
  }

  // ---------------------------------------------------------------- the code's own form

  method ReadEach<A, B>(read: A -> B, members: seq<A>) returns (values: seq<B>)
    ensures values == Each(read, members)
  {
    values := [];
    for i := 0 to |members|
      invariant |values| == i && forall j :: 0 <= j < i ==> values[j] == read(members[j])
    {
      values := values + [read(members[i])];
    }
  }

  /** One block: all its members, if its deadline has passed, and the next deadline one period from now. */
  method ReportDue(ns: seq<Path>, store: Store, r: Rcb, now: nat) returns (r': Rcb, rep: Option<Report>)
    ensures r' == OnIntegrity(ns, store, r, now).rcb && rep == OnIntegrity(ns, store, r, now).report
  {
    if r.nextIntegrity.None? || r.nextIntegrity.value > now { return r, None; }
    var values := ReadEach(Reader(ns, store), r.members);
    r' := r.(seqNum := Bump(r.seqNum), nextIntegrity := Some(now + r.intgPd));
    rep := Some(Report(r'.seqNum, AllIncluded(|r.members|), values));
  }

  /** The unbuffered blocks one connection has enabled, by name. */
  class UrcbSession {
    var rcbs: map<string, Rcb>

    constructor ()
      ensures rcbs == map[]
    {
      rcbs := map[];
    }

    /** Every enabled block reacts to the change once; the order among blocks is not fixed. */
    method OnValueChange(ns: seq<Path>, store: Store, c: Change) returns (out: seq<(string, Report)>)
      modifies this
      ensures rcbs.Keys == old(rcbs).Keys
      ensures forall k :: k in rcbs ==> rcbs[k] == OnChange(ns, store, old(rcbs)[k], c).rcb
      ensures forall k, rep :: (k, rep) in out <==>
                k in old(rcbs) && OnChange(ns, store, old(rcbs)[k], c).report == Some(rep)
      ensures NoDuplicates(out)
    {
      out := [];
      var todo := rcbs.Keys;
      while todo != {}
        invariant todo <= rcbs.Keys == old(rcbs).Keys
        invariant forall k :: k in rcbs ==>
          rcbs[k] == if k in todo then old(rcbs)[k] else OnChange(ns, store, old(rcbs)[k], c).rcb
        invariant forall k, rep :: (k, rep) in out <==>
          k in old(rcbs) && k !in todo && OnChange(ns, store, old(rcbs)[k], c).report == Some(rep)
        invariant NoDuplicates(out)
        decreases todo
      {
        var k :| k in todo;
        var x := OnChange(ns, store, rcbs[k], c);
        rcbs := rcbs[k := x.rcb];
        if x.report.Some? { out := out + [(k, x.report.value)]; }
        todo := todo - {k};
      }
    }

    /** Every enabled block whose period has passed reports all its members. */
    method ReportIntegrity(ns: seq<Path>, store: Store, now: nat) returns (out: seq<(string, Report)>)
      modifies this
      ensures rcbs.Keys == old(rcbs).Keys
      ensures forall k :: k in rcbs ==> rcbs[k] == OnIntegrity(ns, store, old(rcbs)[k], now).rcb
      ensures forall k, rep :: (k, rep) in out <==>
                k in old(rcbs) && OnIntegrity(ns, store, old(rcbs)[k], now).report == Some(rep)
      ensures NoDuplicates(out)
    {
      out := [];
      var todo := rcbs.Keys;
      while todo != {}
        invariant todo <= rcbs.Keys == old(rcbs).Keys
        invariant forall k :: k in rcbs ==>
          rcbs[k] == if k in todo then old(rcbs)[k] else OnIntegrity(ns, store, old(rcbs)[k], now).rcb
        invariant forall k, rep :: (k, rep) in out <==>
          k in old(rcbs) && k !in todo && OnIntegrity(ns, store, old(rcbs)[k], now).report == Some(rep)
        invariant NoDuplicates(out)
        decreases todo
      {
        var k :| k in todo;
        var r, rep := ReportDue(ns, store, rcbs[k], now);
        rcbs := rcbs[k := r];
        if rep.Some? { out := out + [(k, rep.value)]; }
        todo := todo - {k};
      }
    }

    /** GI := true on one block. */
    method GeneralInterrogation(ns: seq<Path>, store: Store, k: string) returns (out: Option<Report>)
      modifies this
      ensures k !in old(rcbs) ==> out == None && rcbs == old(rcbs)
      ensures k in old(rcbs) ==>
        && out == Interrogate(ns, store, old(rcbs)[k]).report
        && rcbs == old(rcbs)[k := Interrogate(ns, store, old(rcbs)[k]).rcb]
    {
      if k !in rcbs { return None; }
      var r := rcbs[k];
      var values := ReadEach(Reader(ns, store), r.members);
      var r' := r.(seqNum := Bump(r.seqNum));
      rcbs := rcbs[k := r'];
      out := Some(Report(r'.seqNum, AllIncluded(|r.members|), values));
    }
  }

  // ---------------------------------------------------------------- the client's replay

  function CountTrue(s: seq<bool>): nat {
    if |s| == 0 then 0 else CountTrue(s[..|s| - 1]) + if s[|s| - 1] then 1 else 0
  }

  /** Overwrites the included members with the values of the report, in order. */
  function Replay(mirror: seq<MmsData>, rep: Report): (r: seq<MmsData>)
    ensures |r| == |mirror|
  {
    seq(|mirror|, i requires 0 <= i < |mirror| =>
      if i < |rep.inclusion| && rep.inclusion[i] && CountTrue(rep.inclusion[..i]) < |rep.values|
      then rep.values[CountTrue(rep.inclusion[..i])] else mirror[i])
  }

  lemma {:induction false} CountSingle(n: nat, idx: nat, i: nat)
    requires i <= n
    ensures CountTrue(SingleIncluded(n, idx)[..i]) == if idx < i then 1 else 0
  {
    if i > 0 {
      CountSingle(n, idx, i - 1);
      assert SingleIncluded(n, idx)[..i][..i - 1] == SingleIncluded(n, idx)[..i - 1];
    }
  }

  lemma {:induction false} CountAll(n: nat, i: nat)
    requires i <= n
    ensures CountTrue(AllIncluded(n)[..i]) == i
  {
    if i > 0 {
      CountAll(n, i - 1);
      assert AllIncluded(n)[..i][..i - 1] == AllIncluded(n)[..i - 1];
    }
  }

  lemma ReplaySingle(mirror: seq<MmsData>, seqNum: U32, idx: nat, v: MmsData)
    requires idx < |mirror|
    ensures Replay(mirror, Report(seqNum, SingleIncluded(|mirror|, idx), [v])) == mirror[idx := v]
  {
    forall i | 0 <= i < |mirror| { CountSingle(|mirror|, idx, i); }
  }

  lemma ReplayAll(mirror: seq<MmsData>, seqNum: U32, values: seq<MmsData>)
    requires |values| == |mirror|
    ensures Replay(mirror, Report(seqNum, AllIncluded(|mirror|), values)) == values
  {
    forall i | 0 <= i < |mirror| { CountAll(|mirror|, i); }
  }

  // ---------------------------------------------------------------- runs

  /** The store, the changes queued for one connection, its block, and the client's copy. */
  datatype World = World(store: Store, queue: seq<Change>, rcb: Option<Rcb>, mirror: seq<MmsData>)

  datatype Event =
    | Write(item: Path, value: MmsData)   // by anyone: stored and queued in one step
    | Process                             // the connection takes its oldest queued change
    | Enable(intgPd: nat, now: nat)       // the client starts from the members' values
    | Disable
    | Gi
    | Integrity(now: nat)

  function Received(mirror: seq<MmsData>, report: Option<Report>): seq<MmsData> {
    match report
    case None => mirror
    case Some(rep) => Replay(mirror, rep)
  }

  function Step(ns: seq<Path>, members: seq<Path>, w: World, e: Event): World {
    match e
    case Write(item, v) =>
      w.(store := w.store[item := v], queue := w.queue + [Change(item, v)])
    case Process =>
      if w.queue == [] then w
      else if w.rcb.None? then w.(queue := w.queue[1..])
      else
        var x := OnChange(ns, w.store, w.rcb.value, w.queue[0]);
        World(w.store, w.queue[1..], Some(x.rcb), Received(w.mirror, x.report))
    case Enable(p, now) =>
      w.(rcb := Some(Enabled(members, w.store, p, now)), mirror := MemberValues(ns, w.store, members))
    case Disable => w.(rcb := None)
    case Gi =>
      if w.rcb.None? then w
      else
        var x := Interrogate(ns, w.store, w.rcb.value);
        w.(rcb := Some(x.rcb), mirror := Received(w.mirror, x.report))
    case Integrity(now) =>
      if w.rcb.None? then w
      else
        var x := OnIntegrity(ns, w.store, w.rcb.value, now);
        w.(rcb := Some(x.rcb), mirror := Received(w.mirror, x.report))
  }

  function Run(ns: seq<Path>, members: seq<Path>, w: World, evs: seq<Event>): World {
    if |evs| == 0 then w else Step(ns, members, Run(ns, members, w, evs[..|evs| - 1]), evs[|evs| - 1])
  }

  // ---------------------------------------------------------------- convergence on leaf members

  ghost predicate Leaves(ns: seq<Path>, members: seq<Path>) {
    NoDuplicates(members) && forall i :: 0 <= i < |members| ==> !HasDescendant(ns, members[i])
  }

  /** No member strictly contains the item. */
  ghost predicate Exact(members: seq<Path>, item: Path) {
    forall m :: m in members && m <= item ==> m == item
  }

  ghost predicate WritesExact(members: seq<Path>, e: Event) { e.Write? ==> Exact(members, e.item) }

  function LastChange(q: seq<Change>, item: Path): Option<MmsData> {
    if |q| == 0 then None
    else
      var r := LastChange(q[1..], item);
      if r.Some? then r else if q[0].item == item then Some(q[0].value) else None
  }

  lemma {:induction false} LastChangeSnoc(q: seq<Change>, c: Change, item: Path)
    ensures LastChange(q + [c], item) == if c.item == item then Some(c.value) else LastChange(q, item)
  {
    if |q| == 0 {
      assert (q + [c])[1..] == [];
    } else {
      LastChangeSnoc(q[1..], c, item);
      assert (q + [c])[1..] == q[1..] + [c];
    }
  }

  lemma {:induction false} LastChangeQueued(q: seq<Change>, item: Path)
    ensures LastChange(q, item).Some? ==> Change(item, LastChange(q, item).value) in q
  {
    if |q| > 0 { LastChangeQueued(q[1..], item); }
  }

  ghost predicate MemberInv(w: World, m: Path, mirrored: MmsData)
    requires w.rcb.Some?
  {
    && m in w.rcb.value.last
    && (LastChange(w.queue, m).None? ==> w.rcb.value.last[m] == Lookup(w.store, m))
    && (mirrored == w.rcb.value.last[m] || Change(m, mirrored) in w.queue)
  }

  ghost predicate Inv(members: seq<Path>, w: World) {
    && (forall c :: c in w.queue ==> Exact(members, c.item))
    && (forall item :: LastChange(w.queue, item).Some? ==> Lookup(w.store, item) == LastChange(w.queue, item).value)
    && (w.rcb.Some? ==>
          && w.rcb.value.members == members
          && |w.mirror| == |members|
          && forall i :: 0 <= i < |members| ==> MemberInv(w, members[i], w.mirror[i]))
  }

  lemma MemberValueOfLeaf(ns: seq<Path>, store: Store, m: Path)
    requires !HasDescendant(ns, m)
    ensures MemberValue(ns, store, m) == Lookup(store, m)
  {
    AssemblyIsComplete(ns, m, store);
  }

  lemma WriteKeeps(ns: seq<Path>, members: seq<Path>, w: World, e: Event)
    requires Inv(members, w) && e.Write? && WritesExact(members, e)
    ensures Inv(members, Step(ns, members, w, e))
  {
    forall item { LastChangeSnoc(w.queue, Change(e.item, e.value), item); }
  }

  /** What a change of an item that no member strictly contains does to each member. */
  lemma ReactExact(ns: seq<Path>, store: Store, r: Rcb, c: Change, mirror: seq<MmsData>, j: nat)
    requires NoDuplicates(r.members) && Exact(r.members, c.item) && |mirror| == |r.members| && j < |mirror|
    requires r.members[j] in r.last
    ensures var x := OnChange(ns, store, r, c);
      var mirror' := Received(mirror, x.report);
      && x.rcb.members == r.members && |mirror'| == |mirror| && r.members[j] in x.rcb.last
      && (r.members[j] != c.item ==>
            x.rcb.last[r.members[j]] == r.last[r.members[j]] && mirror'[j] == mirror[j])
      && (r.members[j] == c.item ==>
            && x.rcb.last[c.item] == c.value
            && (mirror'[j] == c.value || (mirror'[j] == mirror[j] && r.last[c.item] == c.value)))
  {
    match MemberCovering(r.members, c.item)
    case None => assert r.members[j] in r.members;
    case Some(idx) =>
      assert r.members[idx] in r.members;
      ReplaySingle(mirror, Bump(r.seqNum), idx, c.value);
  }

  lemma ProcessKeeps(ns: seq<Path>, members: seq<Path>, w: World)
    requires Inv(members, w) && Leaves(ns, members) && w.queue != []
    ensures Inv(members, Step(ns, members, w, Process))
  {
    var c, rest, w' := w.queue[0], w.queue[1..], Step(ns, members, w, Process);
    assert forall x :: x in rest ==> x in w.queue;
    assert forall x :: x in w.queue ==> x == c || x in rest;
    if w.rcb.Some? {
      assert Exact(members, c.item);
      var x := OnChange(ns, w.store, w.rcb.value, c);
      assert x.rcb.members == members;
      forall i | 0 <= i < |members|
        ensures MemberInv(w', members[i], w'.mirror[i])
      {
        assert MemberInv(w, members[i], w.mirror[i]);
        ReactExact(ns, w.store, w.rcb.value, c, w.mirror, i);
      }
    }
  }

  lemma InterrogationKeeps(ns: seq<Path>, members: seq<Path>, w: World)
    requires Inv(members, w) && Leaves(ns, members) && w.rcb.Some?
    ensures var x := Interrogate(ns, w.store, w.rcb.value);
      Inv(members, w.(rcb := Some(x.rcb), mirror := Received(w.mirror, x.report)))
  {
    ReplayAll(w.mirror, Bump(w.rcb.value.seqNum), MemberValues(ns, w.store, members));
    forall i | 0 <= i < |members|
      ensures MemberInv(w, members[i], MemberValue(ns, w.store, members[i]))
    {
      assert MemberInv(w, members[i], w.mirror[i]);
      MemberValueOfLeaf(ns, w.store, members[i]);
      LastChangeQueued(w.queue, members[i]);
    }
  }

  lemma StepKeeps(ns: seq<Path>, members: seq<Path>, w: World, e: Event)
    requires Inv(members, w) && Leaves(ns, members) && WritesExact(members, e)
    ensures Inv(members, Step(ns, members, w, e))
  {
    match e
    case Write(_, _) => WriteKeeps(ns, members, w, e);
    case Process => if w.queue != [] { ProcessKeeps(ns, members, w); }
    case Enable(_, _) =>
      forall i | 0 <= i < |members| { MemberValueOfLeaf(ns, w.store, members[i]); }
    case Disable =>
    case Gi => if w.rcb.Some? { InterrogationKeeps(ns, members, w); }
    case Integrity(_) => if w.rcb.Some? { InterrogationKeeps(ns, members, w); }
  }

  lemma {:induction false} RunKeeps(ns: seq<Path>, members: seq<Path>, w: World, evs: seq<Event>)
    requires Inv(members, w) && Leaves(ns, members)
    requires forall i :: 0 <= i < |evs| ==> WritesExact(members, evs[i])
    ensures Inv(members, Run(ns, members, w, evs))
  {
    if |evs| > 0 {
      RunKeeps(ns, members, w, evs[..|evs| - 1]);
      StepKeeps(ns, members, Run(ns, members, w, evs[..|evs| - 1]), evs[|evs| - 1]);
    }
  }

  /** From any store and an empty queue, after any run: once an enabled block has processed every
    * queued change, the client's copy of each leaf member is the store's value, whatever was
    * queued when it enabled and wherever interrogations and integrity reports fell. */
  lemma Convergence(ns: seq<Path>, members: seq<Path>, store: Store, mirror: seq<MmsData>, evs: seq<Event>)
    requires Leaves(ns, members)
    requires forall i :: 0 <= i < |evs| ==> WritesExact(members, evs[i])
    ensures var w := Run(ns, members, World(store, [], None, mirror), evs);
      w.rcb.Some? && w.queue == [] ==>
        && |w.mirror| == |members|
        && forall i :: 0 <= i < |members| ==> w.mirror[i] == Lookup(w.store, members[i])
  {
    RunKeeps(ns, members, World(store, [], None, mirror), evs);
    var w := Run(ns, members, World(store, [], None, mirror), evs);
    if w.rcb.Some? && w.queue == [] {
      forall i | 0 <= i < |members|
        ensures w.mirror[i] == Lookup(w.store, members[i])
      {
        assert MemberInv(w, members[i], w.mirror[i]);
      }
    }
  }

  // ---------------------------------------------------------------- what is sent, in order

  /** The report of one event, if it sends one. */
  function ReportOf(ns: seq<Path>, w: World, e: Event): Option<Report> {
    if w.rcb.None? then None
    else
      match e
      case Process => if w.queue == [] then None else OnChange(ns, w.store, w.rcb.value, w.queue[0]).report
      case Gi => Interrogate(ns, w.store, w.rcb.value).report
      case Integrity(now) => OnIntegrity(ns, w.store, w.rcb.value, now).report
      case _ => None
  }

  function Reports(ns: seq<Path>, members: seq<Path>, w: World, evs: seq<Event>): seq<Report> {
    if |evs| == 0 then []
    else
      var r := ReportOf(ns, Run(ns, members, w, evs[..|evs| - 1]), evs[|evs| - 1]);
      Reports(ns, members, w, evs[..|evs| - 1]) + if r.Some? then [r.value] else []
  }

  /** When the next integrity report is due, of a block enabled at `t` with period `pd`: one period after
    * that, and then one period after each report; never without a period. */
  function DueAfter(pd: nat, t: nat, evs: seq<Event>): Option<nat> {
    if pd == 0 then None
    else if |evs| == 0 then Some(t + pd)
    else
      var due, e := DueAfter(pd, t, evs[..|evs| - 1]), evs[|evs| - 1];
      if e.Integrity? && due.Some? && due.value <= e.now then Some(e.now + pd) else due
  }

  ghost predicate Numbered(w: World, sent: seq<Report>, pd: nat, due: Option<nat>) {
    && w.rcb.Some? && w.rcb.value.seqNum == |sent| % 0x1_0000_0000
    && w.rcb.value.intgPd == pd && w.rcb.value.nextIntegrity == due
    && (pd > 0 ==> due.Some?)
    && forall i :: 0 <= i < |sent| ==> sent[i].seqNum == (i + 1) % 0x1_0000_0000
  }

  lemma BumpMany(n: nat)
    ensures Bump(n % 0x1_0000_0000) == (n + 1) % 0x1_0000_0000
  {
  }

  lemma StepNumbered(ns: seq<Path>, members: seq<Path>, w: World, e: Event, sent: seq<Report>, pd: nat,
                     due: Option<nat>)
    requires Numbered(w, sent, pd, due) && !e.Enable? && !e.Disable? && (pd == 0 ==> due == None)
    ensures var r := ReportOf(ns, w, e);
      Numbered(Step(ns, members, w, e), sent + (if r.Some? then [r.value] else []), pd,
               if e.Integrity? && due.Some? && due.value <= e.now then Some(e.now + pd) else due)
  {
    BumpMany(|sent|);
  }

  lemma {:induction false} RunNumbered(ns: seq<Path>, members: seq<Path>, w: World, pd: nat, t: nat,
                                       evs: seq<Event>)
    requires forall i :: 0 <= i < |evs| ==> !evs[i].Enable? && !evs[i].Disable?
    ensures var w0 := Step(ns, members, w, Enable(pd, t));
      Numbered(Run(ns, members, w0, evs), Reports(ns, members, w0, evs), pd, DueAfter(pd, t, evs))
  {
    if |evs| > 0 {
      var w0, front := Step(ns, members, w, Enable(pd, t)), evs[..|evs| - 1];
      RunNumbered(ns, members, w, pd, t, front);
      StepNumbered(ns, members, Run(ns, members, w0, front), evs[|evs| - 1], Reports(ns, members, w0, front), pd,
                   DueAfter(pd, t, front));
    }
  }

  /** A change is reported exactly when some member is the item or contains it, and the value of the first
    * such member differs from the one last reported for it; then that value is the report, and kept. */
  lemma ReportIff(ns: seq<Path>, store: Store, r: Rcb, c: Change, k: nat)
    requires k < |r.members| && r.members[k] <= c.item && forall j :: 0 <= j < k ==> !(r.members[j] <= c.item)
    ensures var m, x := r.members[k], OnChange(ns, store, r, c);
      var v := ChangedValue(ns, store, m, c);
      && (x.report.Some? <==> m !in r.last || r.last[m] != v)
      && (x.report.Some? ==> x.report.value.values == [v])
      && x.rcb.last == r.last[m := v]
      && x.rcb.nextIntegrity == r.nextIntegrity && x.rcb.members == r.members
  {
    assert MemberCovering(r.members, c.item) == Some(k);
    var m := r.members[k];
    if m in r.last && r.last[m] == ChangedValue(ns, store, m, c) { assert r.last[m := r.last[m]] == r.last; }
  }

  lemma NoReport(ns: seq<Path>, store: Store, r: Rcb, c: Change)
    requires forall j :: 0 <= j < |r.members| ==> !(r.members[j] <= c.item)
    ensures OnChange(ns, store, r, c) == Reaction(r, None)
  {
  }

  /** Over every run of an enabled block, of whatever members: its reports, for changes, interrogations and
    * integrity alike, are numbered 1, 2, 3, ... modulo 2^32; and an integrity report is sent exactly when
    * a period has passed since the enabling or since the last one. */
  lemma ReportsInOrder(ns: seq<Path>, members: seq<Path>, w: World, pd: nat, t: nat, evs: seq<Event>, now: nat)
    requires forall i :: 0 <= i < |evs| ==> !evs[i].Enable? && !evs[i].Disable?
    ensures var w0 := Step(ns, members, w, Enable(pd, t));
      var sent, due := Reports(ns, members, w0, evs), DueAfter(pd, t, evs);
      && (forall i :: 0 <= i < |sent| ==> sent[i].seqNum == (i + 1) % 0x1_0000_0000)
      && (ReportOf(ns, Run(ns, members, w0, evs), Integrity(now)).Some? <==> due.Some? && due.value <= now)
      && (due.Some? <==> pd > 0)
  {
    RunNumbered(ns, members, w, pd, t, evs);
  }

  /** A member that is neither stored nor a structure is reported as false, a stored one as it is stored. */
  lemma LeafValue(ns: seq<Path>, store: Store, m: Path)
    requires !HasDescendant(ns, m)
    ensures MemberValue(ns, store, m) == if m in store then store[m] else Bool(false)
  {
    MemberValueOfLeaf(ns, store, m);
  }
}
