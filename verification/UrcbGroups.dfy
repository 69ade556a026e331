/** Unbuffered report control blocks with members that are structures: what interrogations and
  * integrity reports do to a client that also relies on the change reports. */
module UrcbGroups {
  import opened Wrappers
  import opened MmsValues
  import opened Assembly
  import opened Urcb

  /** Member `i` is a structure, and alone covers what lies below it. */
  ghost predicate GroupMember(ns: seq<Path>, members: seq<Path>, i: nat) {
    && i < |members|
    && HasDescendant(ns, members[i])
    && forall item :: members[i] <= item ==> MemberCovering(members, item) == Some(i)
  }

  ghost predicate QueuedBelow(q: seq<Change>, m: Path) { exists c :: c in q && m <= c.item }

  /** The block, if enabled, is one with these members; no write to the member's own item is queued. */
  ghost predicate Attached(members: seq<Path>, i: nat, w: World) {
    && i < |members|
    && (forall c :: c in w.queue ==> c.item != members[i])
    && (w.rcb.Some? ==>
          w.rcb.value.members == members && |w.mirror| == |members| && members[i] in w.rcb.value.last)
  }

  /** Only what lies below a structured member is written, never its own item. */
  ghost predicate Clean(members: seq<Path>, i: nat, e: Event)
    requires i < |members|
  {
    e.Write? ==> e.item != members[i]
  }

  function Current(ns: seq<Path>, members: seq<Path>, i: nat, w: World): MmsData
    requires i < |members|
  {
    MemberValue(ns, w.store, members[i])
  }

  /** The value the next change below the member is compared with. */
  function Compared(members: seq<Path>, i: nat, w: World): MmsData
    requires Attached(members, i, w) && w.rcb.Some?
  {
    w.rcb.value.last[members[i]]
  }

  /** An interrogation, or an integrity report that is due. */
  predicate Interrogates(w: World, e: Event) {
    && w.rcb.Some?
    && (e.Gi? || (e.Integrity? && w.rcb.value.nextIntegrity.Some? && w.rcb.value.nextIntegrity.value <= e.now))
  }

  /** The member can take the value by writes below it, and does not have it now. */
  predicate Elsewhere(ns: seq<Path>, members: seq<Path>, i: nat, w: World, v: MmsData)
    requires i < |members|
  {
    Fits(Shape(ns, members[i]), v) && v != Current(ns, members, i, w)
  }

  /** The client is given the current value while changes will be compared with another one. */
  predicate Harmful(ns: seq<Path>, members: seq<Path>, i: nat, w: World, e: Event)
    requires Attached(members, i, w)
  {
    || (Interrogates(w, e) && Elsewhere(ns, members, i, w, Compared(members, i, w)))
    || (e.Enable? && Elsewhere(ns, members, i, w, Lookup(w.store, members[i])))
  }

  /** What the client holds is the value changes are compared with, unless that cannot come back;
    * and it is current, unless a change below the member is still queued. */
  ghost predicate InStep(ns: seq<Path>, members: seq<Path>, i: nat, w: World)
    requires Attached(members, i, w)
  {
    w.rcb.Some? ==>
      && (Fits(Shape(ns, members[i]), Compared(members, i, w)) ==> w.mirror[i] == Compared(members, i, w))
      && (w.mirror[i] == Current(ns, members, i, w) || QueuedBelow(w.queue, members[i]))
  }

  lemma CurrentFits(ns: seq<Path>, m: Path, store: Store)
    requires HasDescendant(ns, m)
    ensures MemberValue(ns, store, m) == Fill(Shape(ns, m), store)
    ensures Fits(Shape(ns, m), MemberValue(ns, store, m))
  {
    AssembleFills(ns, m, store);
    NoChildrenIffNoDescendant(ns, m);
    FillFits(Shape(ns, m), store);
  }

  // ---------------------------------------------------------------- one step

  /** A change below the member: compared with the current value, and reported if it differs. */
  lemma ReactBelow(ns: seq<Path>, store: Store, r: Rcb, c: Change, mirror: seq<MmsData>, i: nat)
    requires GroupMember(ns, r.members, i) && |mirror| == |r.members|
    requires r.members[i] in r.last && c.item != r.members[i] && r.members[i] <= c.item
    ensures var m, x := r.members[i], OnChange(ns, store, r, c);
      var v := MemberValue(ns, store, m);
      && x.rcb.members == r.members && m in x.rcb.last && x.rcb.last[m] == v
      && x.report.Some? == (r.last[m] != v)
      && (x.report.Some? ==> x.report.value.values == [v])
      && Received(mirror, x.report) == if r.last[m] == v then mirror else mirror[i := v]
  {
    var m := r.members[i];
    CurrentFits(ns, m, store);
    AssembleFills(ns, m, store);
    NoChildrenIffNoDescendant(ns, m);
    assert MemberCovering(r.members, c.item) == Some(i);
    ReplaySingle(mirror, Bump(r.seqNum), i, MemberValue(ns, store, m));
  }

  /** Any other change leaves the member alone. */
  lemma ReactAside(ns: seq<Path>, store: Store, r: Rcb, c: Change, mirror: seq<MmsData>, i: nat)
    requires GroupMember(ns, r.members, i) && |mirror| == |r.members|
    requires r.members[i] in r.last && !(r.members[i] <= c.item)
    ensures var m, x := r.members[i], OnChange(ns, store, r, c);
      var mirror' := Received(mirror, x.report);
      && x.rcb.members == r.members && m in x.rcb.last && x.rcb.last[m] == r.last[m]
      && |mirror'| == |mirror| && mirror'[i] == mirror[i]
  {
    match MemberCovering(r.members, c.item)
    case None =>
    case Some(k) =>
      assert MemberCovering(r.members, r.members[i]) == Some(i);
      var v := ChangedValue(ns, store, r.members[k], c);
      ReplaySingle(mirror, Bump(r.seqNum), k, v);
  }

  lemma WriteBelow(ns: seq<Path>, members: seq<Path>, i: nat, w: World, item: Path, v: MmsData)
    requires GroupMember(ns, members, i) && Attached(members, i, w) && item != members[i]
    ensures var w' := Step(ns, members, w, Write(item, v));
      && Attached(members, i, w')
      && (InStep(ns, members, i, w) ==> InStep(ns, members, i, w'))
  {
    var m, c := members[i], Change(item, v);
    assert c in w.queue + [c];
    if m <= item {
      assert QueuedBelow(w.queue + [c], m);
    } else {
      AssembleFrame(ns, m, w.store, item, v);
      CurrentFits(ns, m, w.store);
      CurrentFits(ns, m, w.store[item := v]);
      if QueuedBelow(w.queue, m) {
        var x :| x in w.queue && m <= x.item;
        assert x in w.queue + [c];
      }
    }
  }

  lemma ProcessOne(ns: seq<Path>, members: seq<Path>, i: nat, w: World)
    requires GroupMember(ns, members, i) && Attached(members, i, w) && w.queue != []
    ensures var w' := Step(ns, members, w, Process);
      && Attached(members, i, w')
      && (InStep(ns, members, i, w) ==> InStep(ns, members, i, w'))
  {
    var m, c := members[i], w.queue[0];
    assert forall x :: x in w.queue[1..] ==> x in w.queue;
    if w.rcb.Some? {
      if m <= c.item {
        ReactBelow(ns, w.store, w.rcb.value, c, w.mirror, i);
        CurrentFits(ns, m, w.store);
      } else {
        ReactAside(ns, w.store, w.rcb.value, c, w.mirror, i);
        if QueuedBelow(w.queue, m) {
          var x :| x in w.queue && m <= x.item;
          assert x in w.queue[1..];
        }
      }
    }
  }

  /** Right after it, an interrogation or an enabling leaves client and server in step exactly when
    * it is not harmful, whatever went before. */
  lemma InterrogatedInStep(ns: seq<Path>, members: seq<Path>, i: nat, w: World, e: Event)
    requires GroupMember(ns, members, i) && Attached(members, i, w) && (Interrogates(w, e) || e.Enable?)
    ensures var w' := Step(ns, members, w, e);
      && Attached(members, i, w') && w'.rcb.Some? && w'.store == w.store && w'.queue == w.queue
      && w'.mirror[i] == Current(ns, members, i, w)
      && Compared(members, i, w') == (if e.Enable? then Lookup(w.store, members[i]) else Compared(members, i, w))
      && (InStep(ns, members, i, w') <==> !Harmful(ns, members, i, w, e))
  {
    if !e.Enable? { ReplayAll(w.mirror, Bump(w.rcb.value.seqNum), MemberValues(ns, w.store, members)); }
  }

  lemma StepInStep(ns: seq<Path>, members: seq<Path>, i: nat, w: World, e: Event)
    requires GroupMember(ns, members, i) && Attached(members, i, w) && Clean(members, i, e)
    ensures var w' := Step(ns, members, w, e);
      && Attached(members, i, w')
      && (InStep(ns, members, i, w) && !Harmful(ns, members, i, w, e) ==> InStep(ns, members, i, w'))
  {
    match e
    case Write(item, v) => WriteBelow(ns, members, i, w, item, v);
    case Process => if w.queue != [] { ProcessOne(ns, members, i, w); }
    case Enable(_, _) => InterrogatedInStep(ns, members, i, w, e);
    case Disable =>
    case _ => if Interrogates(w, e) { InterrogatedInStep(ns, members, i, w, e); }
  }

  // ---------------------------------------------------------------- what can still happen

  ghost predicate AllClean(members: seq<Path>, i: nat, evs: seq<Event>)
    requires i < |members|
  {
    forall k :: 0 <= k < |evs| ==> Clean(members, i, evs[k])
  }

  lemma {:induction false} RunAttached(ns: seq<Path>, members: seq<Path>, i: nat, w: World, evs: seq<Event>)
    requires GroupMember(ns, members, i) && Attached(members, i, w) && AllClean(members, i, evs)
    ensures Attached(members, i, Run(ns, members, w, evs))
  {
    if |evs| > 0 {
      RunAttached(ns, members, i, w, evs[..|evs| - 1]);
      StepInStep(ns, members, i, Run(ns, members, w, evs[..|evs| - 1]), evs[|evs| - 1]);
    }
  }

  /** A run of any events, of which none is harmful when it happens. */
  ghost predicate Gentle(ns: seq<Path>, members: seq<Path>, i: nat, w: World, evs: seq<Event>)
    requires GroupMember(ns, members, i) && Attached(members, i, w)
  {
    && AllClean(members, i, evs)
    && forall k :: 0 <= k < |evs| ==> GentleAt(ns, members, i, w, evs, k)
  }

  ghost predicate GentleAt(ns: seq<Path>, members: seq<Path>, i: nat, w: World, evs: seq<Event>, k: nat)
    requires GroupMember(ns, members, i) && Attached(members, i, w) && AllClean(members, i, evs) && k < |evs|
  {
    RunAttached(ns, members, i, w, evs[..k]);
    !Harmful(ns, members, i, Run(ns, members, w, evs[..k]), evs[k])
  }

  /** Nothing is queued for an enabled block, and still the client's value is not the store's. */
  ghost predicate Stuck(ns: seq<Path>, members: seq<Path>, i: nat, w: World)
    requires Attached(members, i, w)
  {
    w.rcb.Some? && w.queue == [] && w.mirror[i] != Current(ns, members, i, w)
  }

  /** However the run goes on without harm, the client agrees with the store when the queue is empty. */
  ghost predicate Converges(ns: seq<Path>, members: seq<Path>, i: nat, w: World)
    requires GroupMember(ns, members, i) && Attached(members, i, w)
  {
    forall evs :: Gentle(ns, members, i, w, evs) ==> NotStuckAfter(ns, members, i, w, evs)
  }

  ghost predicate NotStuckAfter(ns: seq<Path>, members: seq<Path>, i: nat, w: World, evs: seq<Event>)
    requires GroupMember(ns, members, i) && Attached(members, i, w) && AllClean(members, i, evs)
  {
    RunAttached(ns, members, i, w, evs);
    !Stuck(ns, members, i, Run(ns, members, w, evs))
  }

  lemma {:induction false} GentleInStep(ns: seq<Path>, members: seq<Path>, i: nat, w: World, evs: seq<Event>)
    requires GroupMember(ns, members, i) && Attached(members, i, w) && InStep(ns, members, i, w)
    requires Gentle(ns, members, i, w, evs)
    ensures var w' := Run(ns, members, w, evs);
      Attached(members, i, w') && InStep(ns, members, i, w')
  {
    if |evs| > 0 {
      var front := evs[..|evs| - 1];
      GentleFront(ns, members, i, w, evs);
      GentleInStep(ns, members, i, w, front);
      assert GentleAt(ns, members, i, w, evs, |evs| - 1);
      StepInStep(ns, members, i, Run(ns, members, w, front), evs[|evs| - 1]);
    }
  }

  lemma GentleFront(ns: seq<Path>, members: seq<Path>, i: nat, w: World, evs: seq<Event>)
    requires GroupMember(ns, members, i) && Attached(members, i, w) && |evs| > 0
    requires Gentle(ns, members, i, w, evs)
    ensures Gentle(ns, members, i, w, evs[..|evs| - 1])
  {
    var front := evs[..|evs| - 1];
    forall k | 0 <= k < |front|
      ensures GentleAt(ns, members, i, w, front, k)
    {
      assert front[..k] == evs[..k];
      assert GentleAt(ns, members, i, w, evs, k);
    }
  }

  /** Writes and processing are never harmful. */
  lemma QuietIsGentle(ns: seq<Path>, members: seq<Path>, i: nat, w: World, evs: seq<Event>)
    requires GroupMember(ns, members, i) && Attached(members, i, w) && AllClean(members, i, evs)
    requires forall k :: 0 <= k < |evs| ==> evs[k].Write? || evs[k].Process?
    ensures Gentle(ns, members, i, w, evs)
  {
    forall k | 0 <= k < |evs|
      ensures GentleAt(ns, members, i, w, evs, k)
    {
      RunAttached(ns, members, i, w, evs[..k]);
    }
  }

  // ---------------------------------------------------------------- how it goes wrong

  function WriteBack(paths: seq<Path>, s: Store): seq<Event> {
    seq(|paths|, k requires 0 <= k < |paths| => Write(paths[k], Lookup(s, paths[k])))
  }

  function Processes(n: nat): seq<Event> { seq(n, k => Process) }

  lemma {:induction false} RunConcat(ns: seq<Path>, members: seq<Path>, w: World, a: seq<Event>, b: seq<Event>)
    ensures Run(ns, members, w, a + b) == Run(ns, members, Run(ns, members, w, a), b)
  {
    if |b| == 0 {
      assert a + b == a;
    } else {
      RunConcat(ns, members, w, a, b[..|b| - 1]);
      assert (a + b)[..|a + b| - 1] == a + b[..|b| - 1];
    }
  }

  lemma RunSnoc(ns: seq<Path>, members: seq<Path>, w: World, evs: seq<Event>, e: Event)
    ensures Run(ns, members, w, evs + [e]) == Step(ns, members, Run(ns, members, w, evs), e)
  {
    assert (evs + [e])[..|evs + [e]| - 1] == evs;
  }

  /** What the writes leave: the paths are back, and nothing else the client sees has moved. */
  ghost predicate Restored(w: World, w': World, paths: seq<Path>, s: Store) {
    && (forall p :: p in paths ==> Lookup(w'.store, p) == Lookup(s, p))
    && w'.rcb == w.rcb && w'.mirror == w.mirror
  }

  lemma {:induction false} WriteBackRestores(ns: seq<Path>, members: seq<Path>, w: World, paths: seq<Path>, s: Store)
    ensures Restored(w, Run(ns, members, w, WriteBack(paths, s)), paths, s)
  {
    if |paths| > 0 {
      var front, p := paths[..|paths| - 1], paths[|paths| - 1];
      var last := Write(p, Lookup(s, p));
      WriteBackRestores(ns, members, w, front, s);
      assert WriteBack(paths, s) == WriteBack(front, s) + [last];
      RunSnoc(ns, members, w, WriteBack(front, s), last);
      assert paths == front + [p];
    }
  }

  /** Changes draw no report for a member whose compared value is current, or that none is below. */
  lemma {:induction false} DrainUnreported(ns: seq<Path>, members: seq<Path>, i: nat, w: World)
    requires GroupMember(ns, members, i) && Attached(members, i, w) && w.rcb.Some?
    requires Compared(members, i, w) == Current(ns, members, i, w) || !QueuedBelow(w.queue, members[i])
    ensures var w' := Run(ns, members, w, Processes(|w.queue|));
      && Attached(members, i, w') && w'.rcb.Some? && w'.queue == [] && w'.store == w.store
      && w'.mirror[i] == w.mirror[i]
    decreases |w.queue|
  {
    if w.queue != [] {
      var w1 := Step(ns, members, w, Process);
      OneUnreported(ns, members, i, w);
      DrainUnreported(ns, members, i, w1);
      RunConcat(ns, members, w, [Process], Processes(|w1.queue|));
      assert [Process] + Processes(|w1.queue|) == Processes(|w.queue|);
      RunSnoc(ns, members, w, [], Process);
      assert [] + [Process] == [Process];
    } else {
      assert Processes(0) == [];
    }
  }

  lemma OneUnreported(ns: seq<Path>, members: seq<Path>, i: nat, w: World)
    requires GroupMember(ns, members, i) && Attached(members, i, w) && w.rcb.Some? && w.queue != []
    requires Compared(members, i, w) == Current(ns, members, i, w) || !QueuedBelow(w.queue, members[i])
    ensures var w' := Step(ns, members, w, Process);
      && Attached(members, i, w') && w'.rcb.Some? && w'.queue == w.queue[1..] && w'.store == w.store
      && w'.mirror[i] == w.mirror[i]
      && (Compared(members, i, w') == Current(ns, members, i, w') || !QueuedBelow(w'.queue, members[i]))
  {
    var c := w.queue[0];
    assert c in w.queue && forall x :: x in w.queue[1..] ==> x in w.queue;
    ProcessOne(ns, members, i, w);
    if members[i] <= c.item {
      ReactBelow(ns, w.store, w.rcb.value, c, w.mirror, i);
    } else {
      ReactAside(ns, w.store, w.rcb.value, c, w.mirror, i);
    }
  }

  /** Writing the leaves below a member to what `s0` holds gives it its value in `s0`. */
  lemma RestoredValue(ns: seq<Path>, m: Path, s0: Store, s: Store)
    requires HasDescendant(ns, m)
    requires forall p :: p in Assembly.Leaves(Shape(ns, m)) ==> Lookup(s, p) == Lookup(s0, p)
    ensures MemberValue(ns, s, m) == Fill(Shape(ns, m), s0)
  {
    CurrentFits(ns, m, s);
    FillReadsLeaves(Shape(ns, m), s0, s);
  }

  /** A client that holds another value than the one compared is lost when that one comes back: the
    * leaves are written to it, the queue is worked off, no report is drawn. */
  lemma LostByWriteBack(ns: seq<Path>, members: seq<Path>, i: nat, w: World) returns (evs: seq<Event>)
    requires GroupMember(ns, members, i) && Attached(members, i, w) && w.rcb.Some?
    requires Fits(Shape(ns, members[i]), Compared(members, i, w)) && w.mirror[i] != Compared(members, i, w)
    ensures Gentle(ns, members, i, w, evs) && !NotStuckAfter(ns, members, i, w, evs)
  {
    var t := Shape(ns, members[i]);
    var back := WriteBack(Assembly.Leaves(t), WriteOut(t, Compared(members, i, w)));
    var w2 := Run(ns, members, w, back);
    ComparedComesBack(ns, members, i, w);
    DrainUnreported(ns, members, i, w2);
    evs := back + Processes(|w2.queue|);
    RunConcat(ns, members, w, back, Processes(|w2.queue|));
    ThenProcesses(members, i, back, |w2.queue|);
    QuietIsGentle(ns, members, i, w, evs);
  }

  lemma ThenProcesses(members: seq<Path>, i: nat, back: seq<Event>, n: nat)
    requires i < |members| && AllClean(members, i, back)
    requires forall k :: 0 <= k < |back| ==> back[k].Write?
    ensures AllClean(members, i, back + Processes(n))
    ensures var evs := back + Processes(n);
      forall k :: 0 <= k < |evs| ==> evs[k].Write? || evs[k].Process?
  {
  }

  lemma {:induction false} ComparedComesBack(ns: seq<Path>, members: seq<Path>, i: nat, w: World)
    requires GroupMember(ns, members, i) && Attached(members, i, w) && w.rcb.Some?
    requires Fits(Shape(ns, members[i]), Compared(members, i, w))
    ensures var t, v := Shape(ns, members[i]), Compared(members, i, w);
      var back := WriteBack(Assembly.Leaves(t), WriteOut(t, v));
      var w2 := Run(ns, members, w, back);
      && AllClean(members, i, back) && Attached(members, i, w2) && w2.rcb == w.rcb && w2.mirror == w.mirror
      && Current(ns, members, i, w2) == v
  {
    var m, v := members[i], Compared(members, i, w);
    var t := Shape(ns, m);
    var leaves, s0 := Assembly.Leaves(t), WriteOut(t, v);
    var back := WriteBack(leaves, s0);
    AssemblyIsComplete(ns, m, w.store);
    WriteOutFills(t, v);
    WriteBackRestores(ns, members, w, leaves, s0);
    forall k | 0 <= k < |back|
      ensures Clean(members, i, back[k])
    {
      assert leaves[k] in leaves;
    }
    RunAttached(ns, members, i, w, back);
    RestoredValue(ns, m, s0, Run(ns, members, w, back).store);
  }

  /** From any state: the client comes to agree with the store on every harmless continuation
    * exactly when it is in step. */
  lemma ConvergesIff(ns: seq<Path>, members: seq<Path>, i: nat, w: World)
    requires GroupMember(ns, members, i) && Attached(members, i, w)
    ensures Converges(ns, members, i, w) <==> InStep(ns, members, i, w)
  {
    if InStep(ns, members, i, w) {
      forall evs | Gentle(ns, members, i, w, evs)
        ensures NotStuckAfter(ns, members, i, w, evs)
      {
        GentleInStep(ns, members, i, w, evs);
      }
    } else if Fits(Shape(ns, members[i]), Compared(members, i, w)) && w.mirror[i] != Compared(members, i, w) {
      var evs := LostByWriteBack(ns, members, i, w);
    } else {
      var evs := Processes(|w.queue|);
      DrainUnreported(ns, members, i, w);
      QuietIsGentle(ns, members, i, w, evs);
      assert !NotStuckAfter(ns, members, i, w, evs);
    }
  }

  // ---------------------------------------------------------------- over runs from the start

  /** The value last sent for the member by a change report since the block was enabled. */
  function LastReported(ns: seq<Path>, members: seq<Path>, i: nat, w: World, evs: seq<Event>): Option<MmsData>
    requires i < |members|
  {
    if |evs| == 0 then None
    else
      var front := evs[..|evs| - 1];
      ReportedBy(ns, i, Run(ns, members, w, front), evs[|evs| - 1], LastReported(ns, members, i, w, front))
  }

  function ReportedBy(ns: seq<Path>, i: nat, w: World, e: Event, before: Option<MmsData>): Option<MmsData> {
    match e
    case Enable(_, _) => None
    case Disable => None
    case Process =>
      if w.rcb.None? || w.queue == [] || MemberCovering(w.rcb.value.members, w.queue[0].item) != Some(i) then before
      else
        var x := OnChange(ns, w.store, w.rcb.value, w.queue[0]);
        if x.report.Some? && |x.report.value.values| > 0 then Some(x.report.value.values[0]) else before
    case _ => before
  }

  /** The value compared is the one last reported, or else what the store keeps at the member's own
    * item, which writes below it do not touch. */
  ghost predicate Tracks(ns: seq<Path>, members: seq<Path>, i: nat, w: World, own: MmsData, r: Option<MmsData>) {
    && Attached(members, i, w)
    && Lookup(w.store, members[i]) == own
    && (w.rcb.Some? ==> Compared(members, i, w) == if r.Some? then r.value else own)
    && (r.Some? ==> Fits(Shape(ns, members[i]), r.value))
  }

  lemma TrackProcess(ns: seq<Path>, members: seq<Path>, i: nat, w: World, own: MmsData, r: Option<MmsData>)
    requires GroupMember(ns, members, i) && Tracks(ns, members, i, w, own, r)
    ensures Tracks(ns, members, i, Step(ns, members, w, Process), own, ReportedBy(ns, i, w, Process, r))
  {
    if w.queue != [] {
      var c := w.queue[0];
      assert c in w.queue;
      ProcessOne(ns, members, i, w);
      if w.rcb.Some? {
        if members[i] <= c.item {
          assert MemberCovering(members, c.item) == Some(i);
          ReactBelow(ns, w.store, w.rcb.value, c, w.mirror, i);
          CurrentFits(ns, members[i], w.store);
        } else {
          ReactAside(ns, w.store, w.rcb.value, c, w.mirror, i);
        }
      }
    }
  }

  lemma TrackStep(ns: seq<Path>, members: seq<Path>, i: nat, w: World, own: MmsData, r: Option<MmsData>, e: Event)
    requires GroupMember(ns, members, i) && Tracks(ns, members, i, w, own, r) && Clean(members, i, e)
    ensures Tracks(ns, members, i, Step(ns, members, w, e), own, ReportedBy(ns, i, w, e, r))
  {
    match e
    case Process => TrackProcess(ns, members, i, w, own, r);
    case _ => StepInStep(ns, members, i, w, e);
  }

  lemma {:induction false} ComparedIsReported(ns: seq<Path>, members: seq<Path>, i: nat, w0: World, evs: seq<Event>)
    requires GroupMember(ns, members, i) && w0.rcb.None? && w0.queue == [] && AllClean(members, i, evs)
    ensures Tracks(ns, members, i, Run(ns, members, w0, evs), Lookup(w0.store, members[i]),
                   LastReported(ns, members, i, w0, evs))
  {
    if |evs| > 0 {
      var front := evs[..|evs| - 1];
      ComparedIsReported(ns, members, i, w0, front);
      TrackStep(ns, members, i, Run(ns, members, w0, front), Lookup(w0.store, members[i]),
                LastReported(ns, members, i, w0, front), evs[|evs| - 1]);
    }
  }

  /** After any run from a store that keeps no value of the member's structure at the member's own
    * item: an interrogation or a due integrity report is harmless exactly when no change of the
    * member has been reported since the block was enabled, or the last one reported is current. */
  lemma {:induction false} GroupSafeIff(ns: seq<Path>, members: seq<Path>, i: nat, w0: World, evs: seq<Event>, e: Event)
    requires GroupMember(ns, members, i) && w0.rcb.None? && w0.queue == [] && AllClean(members, i, evs)
    requires !Fits(Shape(ns, members[i]), Lookup(w0.store, members[i]))
    requires Interrogates(Run(ns, members, w0, evs), e)
    ensures var w, r := Run(ns, members, w0, evs), LastReported(ns, members, i, w0, evs);
      && Attached(members, i, Step(ns, members, w, e))
      && (Converges(ns, members, i, Step(ns, members, w, e)) <==>
            r.None? || r.value == Current(ns, members, i, w))
  {
    var w := Run(ns, members, w0, evs);
    ComparedIsReported(ns, members, i, w0, evs);
    InterrogatedInStep(ns, members, i, w, e);
    ConvergesIff(ns, members, i, Step(ns, members, w, e));
  }

  /** And when no interrogation of a run is harmful in that sense, the client is never stuck. */
  lemma {:induction false} GroupConverges(ns: seq<Path>, members: seq<Path>, i: nat, w0: World, evs: seq<Event>)
    requires GroupMember(ns, members, i) && w0.rcb.None? && w0.queue == [] && AllClean(members, i, evs)
    requires !Fits(Shape(ns, members[i]), Lookup(w0.store, members[i]))
    requires forall k :: 0 <= k < |evs| ==> SafeAt(ns, members, i, w0, evs, k)
    ensures Attached(members, i, Run(ns, members, w0, evs)) && !Stuck(ns, members, i, Run(ns, members, w0, evs))
  {
    forall k | 0 <= k < |evs|
      ensures GentleAt(ns, members, i, w0, evs, k)
    {
      assert SafeAt(ns, members, i, w0, evs, k);
      ComparedIsReported(ns, members, i, w0, evs[..k]);
    }
    GentleInStep(ns, members, i, w0, evs);
  }

  ghost predicate SafeAt(ns: seq<Path>, members: seq<Path>, i: nat, w0: World, evs: seq<Event>, k: nat)
    requires i < |members| && k < |evs|
  {
    var w, r := Run(ns, members, w0, evs[..k]), LastReported(ns, members, i, w0, evs[..k]);
    Interrogates(w, evs[k]) ==> r.None? || r.value == Current(ns, members, i, w)
  }

  /** Enabled, a leaf below the member written and reported, and the leaf written again. */
  function TwoWrites(p: Path, v: MmsData, x: MmsData, pd: nat): seq<Event> {
    [Enable(pd, 0), Write(p, v), Process, Write(p, x)]
  }

  lemma {:induction false} TwoWritesReport(ns: seq<Path>, members: seq<Path>, i: nat, w0: World, p: Path,
                                           v: MmsData, x: MmsData, pd: nat)
    requires GroupMember(ns, members, i) && w0.rcb.None? && w0.queue == []
    requires !Fits(Shape(ns, members[i]), Lookup(w0.store, members[i]))
    requires LeafBelow(ns, members[i], p)
    ensures var evs := TwoWrites(p, v, x, pd);
      var w := Run(ns, members, w0, evs);
      && LastReported(ns, members, i, w0, evs) == Some(MemberValue(ns, w0.store[p := v], members[i]))
      && w.store == w0.store[p := v][p := x]
      && w.rcb.Some? && w.rcb.value.nextIntegrity == if pd > 0 then Some(pd) else None
  {
    var m, evs := members[i], TwoWrites(p, v, x, pd);
    FourSteps(ns, members, w0, evs[0], evs[1], evs[2], evs[3]);
    var w2 := Run(ns, members, w0, evs[..2]);
    assert w2.queue == [Change(p, v)];
    ReactBelow(ns, w2.store, w2.rcb.value, w2.queue[0], w2.mirror, i);
    CurrentFits(ns, m, w2.store);
    assert evs[..4] == evs && evs[..4][..3] == evs[..3] && evs[..3][..2] == evs[..2];
    assert LastReported(ns, members, i, w0, evs[..3]) == Some(MemberValue(ns, w2.store, m));
  }

  /** A state where it is harmful is reached by two writes to one leaf, the first of them reported. */
  lemma {:induction false} HarmReached(ns: seq<Path>, members: seq<Path>, i: nat, w0: World, p: Path, v: MmsData,
                                       x: MmsData, pd: nat, e: Event)
    requires GroupMember(ns, members, i) && w0.rcb.None? && w0.queue == []
    requires !Fits(Shape(ns, members[i]), Lookup(w0.store, members[i]))
    requires LeafBelow(ns, members[i], p) && v != x && (e == Gi || (pd > 0 && e == Integrity(pd)))
    ensures var w := Run(ns, members, w0, TwoWrites(p, v, x, pd));
      && AllClean(members, i, TwoWrites(p, v, x, pd))
      && Attached(members, i, Step(ns, members, w, e)) && !Converges(ns, members, i, Step(ns, members, w, e))
  {
    TwoWritesStale(ns, members, i, w0, p, v, x, pd);
    GroupSafeIff(ns, members, i, w0, TwoWrites(p, v, x, pd), e);
  }

  lemma TwoWritesClean(ns: seq<Path>, members: seq<Path>, i: nat, p: Path, v: MmsData, x: MmsData, pd: nat)
    requires i < |members| && LeafBelow(ns, members[i], p)
    ensures AllClean(members, i, TwoWrites(p, v, x, pd))
  {
  }

  lemma {:induction false} TwoWritesStale(ns: seq<Path>, members: seq<Path>, i: nat, w0: World, p: Path,
                                          v: MmsData, x: MmsData, pd: nat)
    requires GroupMember(ns, members, i) && w0.rcb.None? && w0.queue == []
    requires !Fits(Shape(ns, members[i]), Lookup(w0.store, members[i]))
    requires LeafBelow(ns, members[i], p) && v != x
    ensures var evs := TwoWrites(p, v, x, pd);
      var w, r := Run(ns, members, w0, evs), LastReported(ns, members, i, w0, evs);
      && AllClean(members, i, evs)
      && Interrogates(w, Gi) && (pd > 0 ==> Interrogates(w, Integrity(pd)))
      && r.Some? && r.value != Current(ns, members, i, w)
  {
    TwoWritesReport(ns, members, i, w0, p, v, x, pd);
    TwoWritesClean(ns, members, i, p, v, x, pd);
    LeafMoves(ns, members[i], w0.store[p := v], w0.store[p := v][p := x], p);
  }

  lemma FourSteps(ns: seq<Path>, members: seq<Path>, w0: World, e1: Event, e2: Event, e3: Event, e4: Event)
    ensures var evs := [e1, e2, e3, e4];
      var w1 := Step(ns, members, w0, e1);
      var w2 := Step(ns, members, w1, e2);
      var w3 := Step(ns, members, w2, e3);
      && Run(ns, members, w0, evs[..1]) == w1 && Run(ns, members, w0, evs[..2]) == w2
      && Run(ns, members, w0, evs[..3]) == w3 && Run(ns, members, w0, evs) == Step(ns, members, w3, e4)
  {
    var evs := [e1, e2, e3, e4];
    assert evs[..1][..0] == [] && evs[..2][..1] == evs[..1] && evs[..3][..2] == evs[..2];
  }

  /** Two stores that differ at a leaf give the member different values. */
  lemma LeafMoves(ns: seq<Path>, m: Path, s1: Store, s2: Store, p: Path)
    requires LeafBelow(ns, m, p) && Lookup(s1, p) != Lookup(s2, p)
    ensures MemberValue(ns, s1, m) != MemberValue(ns, s2, m)
  {
    assert p in ns && Below(m, p);
    AssemblyIsComplete(ns, m, s1);
    CurrentFits(ns, m, s1);
    CurrentFits(ns, m, s2);
    if MemberValue(ns, s1, m) == MemberValue(ns, s2, m) { FillDetermines(Shape(ns, m), s1, s2, p); }
  }
}
