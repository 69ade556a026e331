/** The control model: direct and select-before-operate commands, normal and enhanced security
  * (clause 20 of IEC 61850-7-2). */
module Control {
  import opened Wrappers
  import opened Octets
  import opened MmsValues

  type ConnId = nat

  /** The control object `ln$CO$do...`: `dos` holds the data object and its sub-objects. */
  datatype Obj = Obj(domain: string, ln: string, dos: seq<string>)

  const DEFAULT_SBO_TIMEOUT_MS: nat := 30_000

  datatype Cause = NotSupported | ObjectNotSelected | TimeLimitOver | BlockedByInterlocking
  datatype Failure = ObjectNonExistent | ObjectAccessDenied | ObjectAttributeInconsistent
  datatype WriteResult = Success | Failed(error: Failure)
  /** Unsolicited messages about a control object. */
  datatype Msg = LastApplError(obj: Obj, cause: Cause) | Termination(obj: Obj, positive: bool)

  function StatusItem(o: Obj): Path { [o.domain, o.ln, "ST"] + o.dos + ["stVal"] }

  function CfItem(o: Obj, attr: string): Option<Path> {
    if o.dos == [] then None else Some([o.domain, o.ln, "CF", o.dos[0], attr])
  }

  function CfValue(s: Store, o: Obj, attr: string): Option<MmsData> {
    match CfItem(o, attr)
    case Some(p) => if p in s then Some(s[p]) else None
    case None => None
  }

  /** A u64 read as i64 keeps its bits. */
  function CtlModelOf(s: Store, o: Obj): int {
    match CfValue(s, o, "ctlModel")
    case Some(Int(n)) => n
    case Some(Uint(n)) => if n >= TWO_64 / 2 then n - TWO_64 else n
    case _ => 0
  }

  function SboTimeoutOf(s: Store, o: Obj): (ms: nat)
    ensures ms > 0
  {
    var ms := match CfValue(s, o, "sboTimeout")
      case Some(Int(n)) => if n < 0 then 0 else n
      case Some(Uint(n)) => n
      case _ => 0;
    if ms == 0 then DEFAULT_SBO_TIMEOUT_MS else ms
  }

  predicate IsSbo(kind: int) { kind == 2 || kind == 4 }
  predicate IsEnhanced(kind: int) { kind == 3 || kind == 4 }

  /** When a selection made now expires, if the object takes selections at all. */
  function Granted(s: Store, o: Obj, now: nat): Option<nat> {
    if IsSbo(CtlModelOf(s, o)) then Some(now + SboTimeoutOf(s, o)) else None
  }

  function CtlVal(v: MmsData): MmsData {
    if v.Structure? && v.items != [] then v.items[0] else v
  }

  /** The interlock-check bit: bit 0 of the sixth field of the command. */
  predicate InterlockCheck(v: MmsData) {
    v.Structure? && |v.items| > 5 && v.items[5].BitStr? && v.items[5].bits != [] && v.items[5].bits[0] >= 128
  }

  predicate Interlocked(s: Store, o: Obj, v: MmsData) {
    InterlockCheck(v) && CfValue(s, o, "intlckBlk") == Some(Bool(true))
  }

  /** Outcome of one command: the answer, what else is sent, and the store and selection it leaves. */
  datatype Verdict = Verdict(result: WriteResult, msgs: seq<Msg>, applied: bool, consumed: bool)

  /** `sel` is the expiry of the connection's selection of the object, if it has one. */
  function Judge(items: set<Path>, s: Store, sel: Option<nat>, o: Obj, v: MmsData, now: nat): Verdict {
    var kind := CtlModelOf(s, o);
    if StatusItem(o) !in items then Verdict(Failed(ObjectNonExistent), [], false, false)
    else if !(1 <= kind <= 4) then
      Verdict(Failed(ObjectAccessDenied), [LastApplError(o, NotSupported)], false, false)
    else if IsSbo(kind) && sel.None? then
      Verdict(Failed(ObjectAccessDenied), [LastApplError(o, ObjectNotSelected)], false, true)
    else if IsSbo(kind) && now >= sel.value then
      Verdict(Failed(ObjectAccessDenied), [LastApplError(o, TimeLimitOver)], false, true)
    else if Interlocked(s, o, v) then
      if IsEnhanced(kind) then
        Verdict(Success, [LastApplError(o, BlockedByInterlocking), Termination(o, false)], false, IsSbo(kind))
      else
        Verdict(Failed(ObjectAccessDenied), [LastApplError(o, BlockedByInterlocking)], false, IsSbo(kind))
    else
      Verdict(Success, if IsEnhanced(kind) then [Termination(o, true)] else [], true, IsSbo(kind))
  }

  // ---------------------------------------------------------------- the code's own form

  /** The store every connection shares. */
  class LiveStore {
    var values: Store
    constructor (init: Store)
      ensures values == init
    {
      values := init;
    }
  }

  /** The variables of one Write request: commands, and items that are stored as they are. */
  datatype Command =
    | Oper(obj: Obj, value: MmsData)
    | Cancel(obj: Obj)
    | SelectWithValue(obj: Obj)
    | PlainWrite(item: Path, plain: MmsData)

  /** A variable, the instant at which its turn comes, and the answer it gets before it is looked at, if
    * the request has no data for it, or role or reservation of the connection forbid it. */
  datatype Timed = Timed(cmd: Command, now: nat, barred: Option<Failure>)

  /** What one Write request sends, in order: `pre`, the response with `results`, `post`. */
  datatype Output = Output(pre: seq<Msg>, results: seq<WriteResult>, post: seq<Msg>)

  class ControlSession {
    var selections: map<Obj, nat>

    constructor ()
      ensures selections == map[]
    {
      selections := map[];
    }

    method Operate(items: set<Path>, store: LiveStore, o: Obj, v: MmsData, now: nat)
      returns (result: WriteResult, msgs: seq<Msg>)
      modifies this, store
      ensures var r := Judge(items, old(store.values), SelOf(old(selections), o), o, v, now);
        && result == r.result && msgs == r.msgs
        && store.values == Stored(old(store.values), o, v, r)
        && selections == Unselected(old(selections), o, r)
        && (r.applied ==> HoldsOnly(old(store.values), store.values, o, v))
    {
      AppliedStores(items, Local(store.values, selections), o, v, now);
      if StatusItem(o) !in items { return Failed(ObjectNonExistent), []; }
      var kind := CtlModelOf(store.values, o);
      var blocked := Interlocked(store.values, o, v);
      if !(1 <= kind <= 4) { return Failed(ObjectAccessDenied), [LastApplError(o, NotSupported)]; }
      if IsSbo(kind) {
        var had := SelOf(selections, o);
        selections := selections - {o};
        if had.None? { return Failed(ObjectAccessDenied), [LastApplError(o, ObjectNotSelected)]; }
        if now >= had.value { return Failed(ObjectAccessDenied), [LastApplError(o, TimeLimitOver)]; }
      }
      if !IsEnhanced(kind) {
        if blocked { return Failed(ObjectAccessDenied), [LastApplError(o, BlockedByInterlocking)]; }
        store.values := store.values[StatusItem(o) := CtlVal(v)];
        return Success, [];
      }
      if blocked { return Success, [LastApplError(o, BlockedByInterlocking), Termination(o, false)]; }
      store.values := store.values[StatusItem(o) := CtlVal(v)];
      return Success, [Termination(o, true)];
    }

    /** One Write request: its variables in order, each at its own instant. */
    method HandleWrite(items: set<Path>, store: LiveStore, cmds: seq<Timed>) returns (out: Output)
      modifies this, store
      ensures var r := Handle(items, Local(old(store.values), old(selections)), cmds);
        out == r.out && store.values == r.local.store && selections == r.local.sel
    {
      out := Output([], [], []);
      for k := 0 to |cmds|
        invariant var r := Handle(items, Local(old(store.values), old(selections)), cmds[..k]);
          out == r.out && store.values == r.local.store && selections == r.local.sel
      {
        assert cmds[..k + 1][..k] == cmds[..k];
        var next := Output([], [], []);
        if cmds[k].barred.Some? {
          next := Output([], [Failed(cmds[k].barred.value)], []);
        } else {
          next := HandleVariable(items, store, cmds[k].cmd, cmds[k].now);
        }
        out := Join(out, next);
      }
      assert cmds[..|cmds|] == cmds;
    }

    /** What one variable of a request does, and what it sends before and after the response. */
    method HandleVariable(items: set<Path>, store: LiveStore, cmd: Command, now: nat) returns (out: Output)
      modifies this, store
      ensures var r := HandleOne(items, Local(old(store.values), old(selections)), cmd, now);
        out == r.out && store.values == r.local.store && selections == r.local.sel
    {
      match cmd {
        case Oper(o, v) =>
          var result, msgs := Operate(items, store, o, v, now);
          out := if result.Failed? then Output(msgs, [result], []) else Output([], [result], msgs);
        case Cancel(o) =>
          selections := selections - {o};
          out := Output([], [Success], []);
        case SelectWithValue(o) =>
          if IsSbo(CtlModelOf(store.values, o)) {
            selections := selections[o := now + SboTimeoutOf(store.values, o)];
            out := Output([], [Success], []);
          } else {
            out := Output([LastApplError(o, NotSupported)], [Failed(ObjectAccessDenied)], []);
          }
        case PlainWrite(item, v) =>
          if item in items {
            store.values := store.values[item := v];
            out := Output([], [Success], []);
          } else {
            out := Output([], [Failed(ObjectNonExistent)], []);
          }
      }
    }
  }

  function SelOf(sel: map<Obj, nat>, o: Obj): Option<nat> { if o in sel then Some(sel[o]) else None }

  function Stored(s: Store, o: Obj, v: MmsData, r: Verdict): Store {
    if r.applied then s[StatusItem(o) := CtlVal(v)] else s
  }

  function Unselected(sel: map<Obj, nat>, o: Obj, r: Verdict): map<Obj, nat> {
    if r.consumed then sel - {o} else sel
  }

  datatype Local = Local(store: Store, sel: map<Obj, nat>)
  datatype Handled = Handled(local: Local, out: Output)

  function HandleOne(items: set<Path>, l: Local, cmd: Command, now: nat): Handled {
    match cmd
    case Oper(o, v) =>
      var r := Judge(items, l.store, SelOf(l.sel, o), o, v, now);
      Handled(Local(Stored(l.store, o, v, r), Unselected(l.sel, o, r)),
              if r.result.Failed? then Output(r.msgs, [r.result], []) else Output([], [r.result], r.msgs))
    case Cancel(o) => Handled(l.(sel := l.sel - {o}), Output([], [Success], []))
    case SelectWithValue(o) =>
      (match Granted(l.store, o, now)
       case Some(x) => Handled(l.(sel := l.sel[o := x]), Output([], [Success], []))
       case None => Handled(l, Output([LastApplError(o, NotSupported)], [Failed(ObjectAccessDenied)], [])))
    case PlainWrite(item, v) =>
      if item in items then Handled(l.(store := l.store[item := v]), Output([], [Success], []))
      else Handled(l, Output([], [Failed(ObjectNonExistent)], []))
  }

  function HandleTimed(items: set<Path>, l: Local, t: Timed): Handled {
    match t.barred
    case Some(f) => Handled(l, Output([], [Failed(f)], []))
    case None => HandleOne(items, l, t.cmd, t.now)
  }

  function Join(a: Output, b: Output): Output { Output(a.pre + b.pre, a.results + b.results, a.post + b.post) }

  function Handle(items: set<Path>, l: Local, cmds: seq<Timed>): Handled {
    if |cmds| == 0 then Handled(l, Output([], [], []))
    else
      var a, last := Handle(items, l, cmds[..|cmds| - 1]), cmds[|cmds| - 1];
      var b := HandleTimed(items, a.local, last);
      Handled(b.local, Join(a.out, b.out))
  }

  // ---------------------------------------------------------------- what a command stores

  /** The status item of `o` holds the control value of the command, which is the first field of a
    * structure and otherwise the value itself; every other item is as it was. */
  ghost predicate HoldsOnly(s: Store, s': Store, o: Obj, v: MmsData) {
    var at := [o.domain, o.ln, "ST"] + o.dos + ["stVal"];
    && s'.Keys == s.Keys + {at}
    && (if v.Structure? && |v.items| > 0 then s'[at] == v.items[0] else s'[at] == v)
    && forall p :: p in s && p != at ==> s'[p] == s[p]
  }

  lemma AppliedStores(items: set<Path>, l: Local, o: Obj, v: MmsData, now: nat)
    ensures var r, l' := Judge(items, l.store, SelOf(l.sel, o), o, v, now), HandleOne(items, l, Oper(o, v), now).local;
      if r.applied then HoldsOnly(l.store, l'.store, o, v) else l'.store == l.store
  {
  }

  /** A command whose value is a structure, whatever follows its first field. */
  lemma FirstFieldIsStored(items: set<Path>, l: Local, o: Obj, x: MmsData, rest: seq<MmsData>, now: nat)
    requires Judge(items, l.store, SelOf(l.sel, o), o, Structure([x] + rest), now).applied
    ensures var s' := HandleOne(items, l, Oper(o, Structure([x] + rest)), now).local.store;
      var at := [o.domain, o.ln, "ST"] + o.dos + ["stVal"];
      at in s' && s'[at] == x && forall p :: p in s' && p != at ==> p in l.store && s'[p] == l.store[p]
  {
    AppliedStores(items, l, o, Structure([x] + rest), now);
    assert ([x] + rest)[0] == x;
  }

  // ---------------------------------------------------------------- what the configuration says

  /** `ctlModel` of the data object, at its item under CF: a signed number, an unsigned one taken modulo
    * 2^64, and 0, which allows no command, when it is neither or is missing. */
  lemma CtlModelIs(s: Store, o: Obj, top: string, subs: seq<string>)
    requires o.dos == [top] + subs
    ensures var at := [o.domain, o.ln, "CF", top, "ctlModel"];
      && (at !in s ==> CtlModelOf(s, o) == 0)
      && (at in s && s[at].Int? ==> CtlModelOf(s, o) == s[at].i)
      && (at in s && s[at].Uint? ==>
            (CtlModelOf(s, o) - s[at].u) % 0x1_0000_0000_0000_0000 == 0
            && -0x8000_0000_0000_0000 <= CtlModelOf(s, o) < 0x8000_0000_0000_0000)
      && (at in s && !s[at].Int? && !s[at].Uint? ==> CtlModelOf(s, o) == 0)
  {
  }

  /** `sboTimeout` in milliseconds: thirty seconds unless a positive number is configured. */
  lemma SboTimeoutIs(s: Store, o: Obj, top: string, subs: seq<string>)
    requires o.dos == [top] + subs
    ensures var at := [o.domain, o.ln, "CF", top, "sboTimeout"];
      && (at in s && s[at].Int? && s[at].i > 0 ==> SboTimeoutOf(s, o) == s[at].i)
      && (at in s && s[at].Uint? && s[at].u > 0 ==> SboTimeoutOf(s, o) == s[at].u)
      && ((at in s ==> !(s[at].Int? && s[at].i > 0) && !(s[at].Uint? && s[at].u > 0)) ==>
            SboTimeoutOf(s, o) == 30_000)
  {
  }

  /** A command is blocked when it asks for the interlock check, in the first bit of its sixth field, and
    * `intlckBlk` of the data object is true. */
  lemma InterlockedIff(s: Store, o: Obj, top: string, subs: seq<string>, fields: seq<MmsData>, unused: Byte,
                       octet: Byte, octets: seq<Byte>, more: seq<MmsData>)
    requires o.dos == [top] + subs && |fields| == 5
    ensures var at := [o.domain, o.ln, "CF", top, "intlckBlk"];
      Interlocked(s, o, Structure(fields + [BitStr(unused, [octet] + octets)] + more)) <==>
      octet >= 128 && at in s && s[at] == Bool(true)
  {
    var v := Structure(fields + [BitStr(unused, [octet] + octets)] + more);
    assert v.items[5] == BitStr(unused, [octet] + octets);
  }

  /** A command without a data object finds no configuration. */
  lemma NoObjectNoModel(s: Store, o: Obj, v: MmsData)
    requires o.dos == []
    ensures CtlModelOf(s, o) == 0 && SboTimeoutOf(s, o) == 30_000 && !Interlocked(s, o, v)
  {
  }

  /** Nothing else asks for it. */
  lemma NoCheckNoBlock(s: Store, o: Obj, v: MmsData)
    requires !v.Structure? || |v.items| < 6 || !v.items[5].BitStr? || v.items[5].bits == []
    ensures !Interlocked(s, o, v)
  {
  }

  /** When a command is carried out, when it is answered with Write+, and why it is not: by control model,
    * 1 and 3 direct, 2 and 4 select before operate, 3 and 4 with enhanced security. */
  lemma JudgedBy(items: set<Path>, s: Store, sel: Option<nat>, o: Obj, v: MmsData, now: nat)
    ensures var kind, r := CtlModelOf(s, o), Judge(items, s, sel, o, v, now);
      var known := StatusItem(o) in items;
      var selected := kind == 1 || kind == 3 || ((kind == 2 || kind == 4) && sel.Some? && now < sel.value);
      && (r.applied <==> known && selected && !Interlocked(s, o, v))
      && (r.result == Success <==> r.applied || (known && selected && kind >= 3))
      && (r.result == Failed(ObjectNonExistent) <==> !known)
      && (LastApplError(o, NotSupported) in r.msgs <==> known && !(1 <= kind <= 4))
      && (LastApplError(o, ObjectNotSelected) in r.msgs <==> known && (kind == 2 || kind == 4) && sel.None?)
      && (LastApplError(o, TimeLimitOver) in r.msgs <==>
            known && (kind == 2 || kind == 4) && sel.Some? && now >= sel.value)
      && (LastApplError(o, BlockedByInterlocking) in r.msgs <==> known && selected && Interlocked(s, o, v))
      && (r.consumed <==> known && (kind == 2 || kind == 4))
      && (r.applied ==> r.msgs == if kind >= 3 then [Termination(o, true)] else [])
      && (r.result == Success && !r.applied ==>
            r.msgs == [LastApplError(o, BlockedByInterlocking), Termination(o, false)])
  {
  }

  /** Selecting with a value: models 2 and 4 remember the selection for the configured time; the others
    * refuse it, with the error before the answer. */
  lemma SelectJudged(items: set<Path>, l: Local, o: Obj, now: nat)
    ensures var kind, r := CtlModelOf(l.store, o), HandleOne(items, l, SelectWithValue(o), now);
      && r.local.store == l.store
      && if kind == 2 || kind == 4 then
           r.out == Output([], [Success], []) && r.local.sel == l.sel[o := now + SboTimeoutOf(l.store, o)]
         else
           r.out == Output([LastApplError(o, NotSupported)], [Failed(ObjectAccessDenied)], []) && r.local.sel == l.sel
  {
  }

  // ---------------------------------------------------------------- answers and terminations

  function Terminations(msgs: seq<Msg>): seq<Msg> {
    if |msgs| == 0 then []
    else Terminations(msgs[..|msgs| - 1]) + if msgs[|msgs| - 1].Termination? then [msgs[|msgs| - 1]] else []
  }

  lemma {:induction false} TerminationsConcat(a: seq<Msg>, b: seq<Msg>)
    ensures Terminations(a + b) == Terminations(a) + Terminations(b)
  {
    if |b| == 0 {
      assert a + b == a;
    } else {
      TerminationsConcat(a, b[..|b| - 1]);
      assert (a + b)[..|a + b| - 1] == a + b[..|b| - 1];
    }
  }

  /** What one command owes after the response: under enhanced security and answered with Write+,
    * one termination, positive exactly when its status value was stored. */
  function OwedBy(items: set<Path>, l: Local, t: Timed): seq<Msg> {
    var cmd, now := t.cmd, t.now;
    if t.barred.None? && cmd.Oper? && IsEnhanced(CtlModelOf(l.store, cmd.obj)) then
      var r := Judge(items, l.store, SelOf(l.sel, cmd.obj), cmd.obj, cmd.value, now);
      if r.result.Success? then [Termination(cmd.obj, r.applied)] else []
    else []
  }

  /** Objects of the commands answered with Write- past the check of their status item: each owes
    * one error before the response. */
  function Refused(items: set<Path>, l: Local, t: Timed): seq<Obj> {
    if t.barred.Some? then []
    else
      match t.cmd
      case Oper(o, v) =>
        if StatusItem(o) in items && Judge(items, l.store, SelOf(l.sel, o), o, v, t.now).result.Failed? then [o] else []
      case SelectWithValue(o) => if IsSbo(CtlModelOf(l.store, o)) then [] else [o]
      case _ => []
  }

  function Owed(items: set<Path>, l: Local, cmds: seq<Timed>): seq<Msg> {
    if |cmds| == 0 then []
    else
      var front, last := cmds[..|cmds| - 1], cmds[|cmds| - 1];
      Owed(items, l, front) + OwedBy(items, Handle(items, l, front).local, last)
  }

  function RefusedIn(items: set<Path>, l: Local, cmds: seq<Timed>): seq<Obj> {
    if |cmds| == 0 then []
    else
      var front, last := cmds[..|cmds| - 1], cmds[|cmds| - 1];
      RefusedIn(items, l, front) + Refused(items, Handle(items, l, front).local, last)
  }

  /** Each object's error, in order. */
  ghost predicate ErrorsOf(objs: seq<Obj>, msgs: seq<Msg>) {
    |objs| == |msgs| && forall i :: 0 <= i < |msgs| ==> msgs[i].LastApplError? && msgs[i].obj == objs[i]
  }

  lemma JudgeAnswers(items: set<Path>, s: Store, sel: Option<nat>, o: Obj, v: MmsData, now: nat)
    ensures var r := Judge(items, s, sel, o, v, now);
      && (r.result.Failed? && StatusItem(o) in items ==>
            |r.msgs| == 1 && r.msgs[0].LastApplError? && r.msgs[0].obj == o)
      && (r.result.Failed? && StatusItem(o) !in items ==> r.msgs == [])
      && (r.result.Success? ==>
            Terminations(r.msgs) == if IsEnhanced(CtlModelOf(s, o)) then [Termination(o, r.applied)] else [])
      && (r.applied ==> r.result.Success?)
  {
    var r := Judge(items, s, sel, o, v, now);
    if |r.msgs| == 2 {
      assert Terminations(r.msgs[..1]) == [] by { assert r.msgs[..1][..0] == []; }
    } else if |r.msgs| == 1 {
      assert r.msgs[..0] == [];
    }
  }

  lemma OneAnswers(items: set<Path>, l: Local, t: Timed)
    ensures var out := HandleTimed(items, l, t).out;
      && |out.results| == 1
      && Terminations(out.post) == OwedBy(items, l, t)
      && ErrorsOf(Refused(items, l, t), out.pre)
  {
    var cmd := t.cmd;
    if cmd.Oper? { JudgeAnswers(items, l.store, SelOf(l.sel, cmd.obj), cmd.obj, cmd.value, t.now); }
  }

  /** Over a whole request: after the response come exactly the owed terminations, in the order of
    * the commands; before it comes exactly one error for each refused command, in their order. */
  lemma {:induction false} RequestMessages(items: set<Path>, l: Local, cmds: seq<Timed>)
    ensures var out := Handle(items, l, cmds).out;
      && |out.results| == |cmds|
      && Terminations(out.post) == Owed(items, l, cmds)
      && ErrorsOf(RefusedIn(items, l, cmds), out.pre)
  {
    if |cmds| > 0 {
      var front, last := cmds[..|cmds| - 1], cmds[|cmds| - 1];
      RequestMessages(items, l, front);
      var a := Handle(items, l, front);
      OneAnswers(items, a.local, last);
      TerminationsConcat(a.out.post, HandleTimed(items, a.local, last).out.post);
    }
  }

  /** Each variable is answered in its place by what it does after those before it; a barred one is
    * answered with its failure and does nothing. */
  lemma {:induction false} ResultAt(items: set<Path>, l: Local, cmds: seq<Timed>, k: nat)
    requires k < |cmds|
    ensures var r, before := Handle(items, l, cmds), Handle(items, l, cmds[..k]).local;
      && |r.out.results| == |cmds|
      && [r.out.results[k]] == HandleTimed(items, before, cmds[k]).out.results
      && (cmds[k].barred.Some? ==>
            r.out.results[k] == Failed(cmds[k].barred.value)
            && Handle(items, l, cmds[..k + 1]).local == before)
  {
    var front, last := cmds[..|cmds| - 1], cmds[|cmds| - 1];
    RequestMessages(items, l, cmds);
    RequestMessages(items, l, front);
    OneAnswers(items, Handle(items, l, cmds[..k]).local, cmds[k]);
    assert cmds[..k + 1][..k] == cmds[..k];
    if k < |cmds| - 1 {
      ResultAt(items, l, front, k);
      assert front[..k] == cmds[..k] && front[..k + 1] == cmds[..k + 1];
    }
  }

  // ---------------------------------------------------------------- authorisation over whole runs

  datatype World = World(store: Store, sel: map<(ConnId, Obj), nat>, now: nat)

  datatype Event =
    | Tick(ms: nat)
    | SetValue(item: Path, value: MmsData)      // any other write to the store
    | Select(c: ConnId, obj: Obj)               // reads SBO, or writes SBOw
    | CancelBy(c: ConnId, obj: Obj)
    | OperBy(c: ConnId, obj: Obj, value: MmsData)
    | Close(c: ConnId)

  function SelectionOf(w: World, c: ConnId, o: Obj): Option<nat> {
    if (c, o) in w.sel then Some(w.sel[(c, o)]) else None
  }

  function JudgeIn(items: set<Path>, w: World, c: ConnId, o: Obj, v: MmsData): Verdict {
    Judge(items, w.store, SelectionOf(w, c, o), o, v, w.now)
  }

  function Step(items: set<Path>, w: World, e: Event): World {
    match e
    case Tick(ms) => w.(now := w.now + ms)
    case SetValue(item, v) => w.(store := w.store[item := v])
    case Select(c, o) =>
      (match Granted(w.store, o, w.now)
       case Some(x) => w.(sel := w.sel[(c, o) := x])
       case None => w)
    case CancelBy(c, o) => w.(sel := w.sel - {(c, o)})
    case OperBy(c, o, v) =>
      var r := JudgeIn(items, w, c, o, v);
      w.(store := Stored(w.store, o, v, r), sel := if r.consumed then w.sel - {(c, o)} else w.sel)
    case Close(c) => w.(sel := map k | k in w.sel && k.0 != c :: w.sel[k])
  }

  function Own(sel: map<(ConnId, Obj), nat>, c: ConnId): map<Obj, nat> {
    map k | k in sel && k.0 == c :: k.1 := sel[k]
  }

  /** What one connection sees: the store, and its own selections. */
  function LocalOf(w: World, c: ConnId): Local { Local(w.store, Own(w.sel, c)) }

  lemma OwnIs(sel: map<(ConnId, Obj), nat>, c: ConnId, o: Obj)
    ensures o in Own(sel, c) <==> (c, o) in sel
    ensures o in Own(sel, c) ==> Own(sel, c)[o] == sel[(c, o)]
  {
  }

  lemma OwnSet(sel: map<(ConnId, Obj), nat>, c: ConnId, o: Obj, x: nat, d: ConnId)
    ensures Own(sel[(c, o) := x], d) == if d == c then Own(sel, d)[o := x] else Own(sel, d)
  {
    var a, b := Own(sel[(c, o) := x], d), if d == c then Own(sel, d)[o := x] else Own(sel, d);
    assert forall p :: p in a <==> p in b;
    assert forall p :: p in a ==> a[p] == b[p];
  }

  lemma OwnRemoved(sel: map<(ConnId, Obj), nat>, c: ConnId, o: Obj, d: ConnId)
    ensures Own(sel - {(c, o)}, d) == if d == c then Own(sel, d) - {o} else Own(sel, d)
  {
    var a, b := Own(sel - {(c, o)}, d), if d == c then Own(sel, d) - {o} else Own(sel, d);
    assert forall p :: p in a <==> p in b;
    assert forall p :: p in a ==> a[p] == b[p];
  }

  lemma SameJudge(items: set<Path>, w: World, c: ConnId, o: Obj, v: MmsData)
    ensures Judge(items, w.store, SelOf(Own(w.sel, c), o), o, v, w.now) == JudgeIn(items, w, c, o, v)
  {
    OwnIs(w.sel, c, o);
    assert SelOf(Own(w.sel, c), o) == SelectionOf(w, c, o);
  }

  /** From `w` to `w'` connection `c` does what handling the command as a variable of a Write request
    * does, and connection `d`, if it is another one, keeps its selections. */
  predicate DoneFor(items: set<Path>, w: World, w': World, c: ConnId, cmd: Command, d: ConnId) {
    && w'.now == w.now
    && LocalOf(w', c) == HandleOne(items, LocalOf(w, c), cmd, w.now).local
    && (d != c ==> Own(w'.sel, d) == Own(w.sel, d))
  }

  lemma SelectHere(items: set<Path>, w: World, c: ConnId, o: Obj)
    ensures LocalOf(Step(items, w, Select(c, o)), c) == HandleOne(items, LocalOf(w, c), SelectWithValue(o), w.now).local
  {
    var g := Granted(w.store, o, w.now);
    if g.Some? { OwnSet(w.sel, c, o, g.value, c); }
  }

  lemma SelectElsewhere(items: set<Path>, w: World, c: ConnId, o: Obj, d: ConnId)
    requires d != c
    ensures Own(Step(items, w, Select(c, o)).sel, d) == Own(w.sel, d)
  {
    var g := Granted(w.store, o, w.now);
    if g.Some? { OwnSet(w.sel, c, o, g.value, d); }
  }

  lemma SelectIsHandled(items: set<Path>, w: World, c: ConnId, o: Obj, d: ConnId)
    ensures DoneFor(items, w, Step(items, w, Select(c, o)), c, SelectWithValue(o), d)
  {
    SelectHere(items, w, c, o);
    if d != c { SelectElsewhere(items, w, c, o, d); }
  }

  lemma CancelIsHandled(items: set<Path>, w: World, c: ConnId, o: Obj, d: ConnId)
    ensures DoneFor(items, w, Step(items, w, CancelBy(c, o)), c, Cancel(o), d)
  {
    OwnRemoved(w.sel, c, o, d);
    OwnRemoved(w.sel, c, o, c);
  }

  lemma OperIsHandled(items: set<Path>, w: World, c: ConnId, o: Obj, v: MmsData, d: ConnId)
    ensures DoneFor(items, w, Step(items, w, OperBy(c, o, v)), c, Oper(o, v), d)
  {
    SameJudge(items, w, c, o, v);
    OwnRemoved(w.sel, c, o, d);
    OwnRemoved(w.sel, c, o, c);
    var r := JudgeIn(items, w, c, o, v);
    assert Unselected(Own(w.sel, c), o, r) == Own(if r.consumed then w.sel - {(c, o)} else w.sel, c);
  }

  lemma PlainIsHandled(items: set<Path>, w: World, c: ConnId, item: Path, v: MmsData, d: ConnId)
    requires item in items
    ensures DoneFor(items, w, Step(items, w, SetValue(item, v)), c, PlainWrite(item, v), d)
  {
  }

  /** State before event `n` of a run that starts without selections. */
  function At(items: set<Path>, s0: Store, evs: seq<Event>, n: nat): World
    requires n <= |evs|
  {
    if n == 0 then World(s0, map[], 0) else Step(items, At(items, s0, evs, n - 1), evs[n - 1])
  }

  ghost predicate Grants(items: set<Path>, s0: Store, evs: seq<Event>, i: nat, c: ConnId, o: Obj)
    requires i < |evs|
  {
    evs[i] == Select(c, o) && IsSbo(CtlModelOf(At(items, s0, evs, i).store, o))
  }

  /** Events that end a selection: Cancel, end of the connection, and any command judged under an
    * SBO model, whether it succeeds or not. */
  ghost predicate Ends(items: set<Path>, s0: Store, evs: seq<Event>, i: nat, c: ConnId, o: Obj)
    requires i < |evs|
  {
    || evs[i] == CancelBy(c, o)
    || evs[i] == Close(c)
    || (evs[i].OperBy? && evs[i].c == c && evs[i].obj == o
        && StatusItem(o) in items && IsSbo(CtlModelOf(At(items, s0, evs, i).store, o)))
  }

  ghost predicate AppliedSbo(items: set<Path>, s0: Store, evs: seq<Event>, j: nat)
    requires j < |evs|
  {
    var w := At(items, s0, evs, j);
    && evs[j].OperBy?
    && IsSbo(CtlModelOf(w.store, evs[j].obj))
    && JudgeIn(items, w, evs[j].c, evs[j].obj, evs[j].value).applied
  }

  /** The selection made at `i` is the one in force before event `n`. */
  ghost predicate InForce(items: set<Path>, s0: Store, evs: seq<Event>, i: nat, n: nat, c: ConnId, o: Obj)
    requires n <= |evs|
  {
    && i < n && Grants(items, s0, evs, i, c, o)
    && (forall k :: i < k < n ==> !Grants(items, s0, evs, k, c, o) && !Ends(items, s0, evs, k, c, o))
  }

  function ExpiryOf(items: set<Path>, s0: Store, evs: seq<Event>, i: nat, o: Obj): nat
    requires i < |evs|
  {
    At(items, s0, evs, i).now + SboTimeoutOf(At(items, s0, evs, i).store, o)
  }

  ghost function LastGrant(items: set<Path>, s0: Store, evs: seq<Event>, n: nat, c: ConnId, o: Obj): Option<nat>
    requires n <= |evs|
  {
    if n == 0 then None
    else if Grants(items, s0, evs, n - 1, c, o) then Some(n - 1)
    else if Ends(items, s0, evs, n - 1, c, o) then None
    else LastGrant(items, s0, evs, n - 1, c, o)
  }

  lemma StepSelection(items: set<Path>, s0: Store, evs: seq<Event>, n: nat, c: ConnId, o: Obj)
    requires n < |evs|
    ensures SelectionOf(At(items, s0, evs, n + 1), c, o) ==
            if Grants(items, s0, evs, n, c, o) then Some(ExpiryOf(items, s0, evs, n, o))
            else if Ends(items, s0, evs, n, c, o) then None
            else SelectionOf(At(items, s0, evs, n), c, o)
  {
  }

  lemma {:induction false} SelectionIsLastGrant(items: set<Path>, s0: Store, evs: seq<Event>, n: nat, c: ConnId, o: Obj)
    requires n <= |evs|
    ensures var g := LastGrant(items, s0, evs, n, c, o);
      && (g.Some? ==> InForce(items, s0, evs, g.value, n, c, o))
      && SelectionOf(At(items, s0, evs, n), c, o) ==
         if g.Some? then Some(ExpiryOf(items, s0, evs, g.value, o)) else None
  {
    if n > 0 {
      SelectionIsLastGrant(items, s0, evs, n - 1, c, o);
      StepSelection(items, s0, evs, n - 1, c, o);
    }
  }

  lemma {:induction false} InForceIsLastGrant(items: set<Path>, s0: Store, evs: seq<Event>, i: nat, n: nat,
                                              c: ConnId, o: Obj)
    requires n <= |evs| && InForce(items, s0, evs, i, n, c, o)
    ensures LastGrant(items, s0, evs, n, c, o) == Some(i)
  {
    if i < n - 1 { InForceIsLastGrant(items, s0, evs, i, n - 1, c, o); }
  }

  /** A command on an object under an SBO model whose status item exists and which no interlock
    * blocks is applied exactly when a selection of that object by that connection is in force and
    * the instant is strictly before its expiry. */
  lemma {:induction false} SboAuthorisation(items: set<Path>, s0: Store, evs: seq<Event>, j: nat)
    requires j < |evs| && evs[j].OperBy?
    requires var w := At(items, s0, evs, j);
      && StatusItem(evs[j].obj) in items && IsSbo(CtlModelOf(w.store, evs[j].obj))
      && !Interlocked(w.store, evs[j].obj, evs[j].value)
    ensures AppliedSbo(items, s0, evs, j) <==>
            exists i :: InForce(items, s0, evs, i, j, evs[j].c, evs[j].obj)
              && At(items, s0, evs, j).now < ExpiryOf(items, s0, evs, i, evs[j].obj)
  {
    var c, o := evs[j].c, evs[j].obj;
    SelectionIsLastGrant(items, s0, evs, j, c, o);
    var g := LastGrant(items, s0, evs, j, c, o);
    if i :| InForce(items, s0, evs, i, j, c, o) && At(items, s0, evs, j).now < ExpiryOf(items, s0, evs, i, o) {
      InForceIsLastGrant(items, s0, evs, i, j, c, o);
    }
  }

  /** The selection that authorises an applied command. */
  ghost function GrantOf(items: set<Path>, s0: Store, evs: seq<Event>, j: nat): Option<nat>
    requires j < |evs| && evs[j].OperBy?
  {
    LastGrant(items, s0, evs, j, evs[j].c, evs[j].obj)
  }

  /** Every applied SBO command has its own earlier selection, of the same object on the same
    * connection, unexpired and not cancelled in between; no selection serves two commands. */
  lemma SboInjective(items: set<Path>, s0: Store, evs: seq<Event>)
    ensures forall j :: 0 <= j < |evs| && AppliedSbo(items, s0, evs, j) ==>
      var g := GrantOf(items, s0, evs, j);
      && g.Some?
      && InForce(items, s0, evs, g.value, j, evs[j].c, evs[j].obj)
      && At(items, s0, evs, j).now < ExpiryOf(items, s0, evs, g.value, evs[j].obj)
    ensures forall j, k :: 0 <= j < k < |evs| && AppliedSbo(items, s0, evs, j) && AppliedSbo(items, s0, evs, k) ==>
      GrantOf(items, s0, evs, j) != GrantOf(items, s0, evs, k)
  {
    forall j | 0 <= j < |evs| && AppliedSbo(items, s0, evs, j)
      ensures var g := GrantOf(items, s0, evs, j);
        && g.Some?
        && InForce(items, s0, evs, g.value, j, evs[j].c, evs[j].obj)
        && At(items, s0, evs, j).now < ExpiryOf(items, s0, evs, g.value, evs[j].obj)
    {
      SelectionIsLastGrant(items, s0, evs, j, evs[j].c, evs[j].obj);
    }
    forall j, k | 0 <= j < k < |evs| && AppliedSbo(items, s0, evs, j) && AppliedSbo(items, s0, evs, k)
      ensures GrantOf(items, s0, evs, j) != GrantOf(items, s0, evs, k)
    {
      SelectionIsLastGrant(items, s0, evs, j, evs[j].c, evs[j].obj);
      SelectionIsLastGrant(items, s0, evs, k, evs[k].c, evs[k].obj);
      assert Ends(items, s0, evs, j, evs[j].c, evs[j].obj);
    }
  }

  // ---------------------------------------------------------------- values over whole runs

  /** Event `k` stores something at the item: an applied command on the object it is the status of, or any
    * other write to it. */
  ghost predicate StoresAt(items: set<Path>, s0: Store, evs: seq<Event>, k: nat, p: Path)
    requires k < |evs|
  {
    || (evs[k].SetValue? && evs[k].item == p)
    || (evs[k].OperBy? && StatusItem(evs[k].obj) == p
        && JudgeIn(items, At(items, s0, evs, k), evs[k].c, evs[k].obj, evs[k].value).applied)
  }

  lemma OnlyStored(items: set<Path>, s0: Store, evs: seq<Event>, k: nat, p: Path)
    requires k < |evs| && !StoresAt(items, s0, evs, k, p)
    ensures var s, s' := At(items, s0, evs, k).store, At(items, s0, evs, k + 1).store;
      (p in s' <==> p in s) && (p in s ==> s'[p] == s[p])
  {
  }

  /** Every item of the store holds what it held until something is stored at it. */
  lemma {:induction false} Untouched(items: set<Path>, s0: Store, evs: seq<Event>, i: nat, n: nat, p: Path)
    requires i <= n <= |evs| && forall k :: i <= k < n ==> !StoresAt(items, s0, evs, k, p)
    ensures var s, s' := At(items, s0, evs, i).store, At(items, s0, evs, n).store;
      (p in s' <==> p in s) && (p in s ==> s'[p] == s[p])
  {
    if i < n {
      Untouched(items, s0, evs, i, n - 1, p);
      OnlyStored(items, s0, evs, n - 1, p);
    }
  }

  /** Over every run: the status item holds the control value of the last command applied to the object,
    * the first field of a structure whatever follows it, until something else is stored there. */
  lemma {:induction false} CommandValueStays(items: set<Path>, s0: Store, evs: seq<Event>, j: nat, n: nat,
                                             c: ConnId, o: Obj, v: MmsData, x: MmsData, rest: seq<MmsData>)
    requires v == Structure([x] + rest) || (v == x && (!v.Structure? || v.items == []))
    requires j < n <= |evs| && evs[j] == OperBy(c, o, v) && JudgeIn(items, At(items, s0, evs, j), c, o, v).applied
    requires forall k :: j < k < n ==> !StoresAt(items, s0, evs, k, [o.domain, o.ln, "ST"] + o.dos + ["stVal"])
    ensures var at, s := [o.domain, o.ln, "ST"] + o.dos + ["stVal"], At(items, s0, evs, n).store;
      at in s && s[at] == x
  {
    var at := [o.domain, o.ln, "ST"] + o.dos + ["stVal"];
    assert ([x] + rest)[0] == x;
    var w := At(items, s0, evs, j);
    assert At(items, s0, evs, j + 1).store == Stored(w.store, o, v, JudgeIn(items, w, c, o, v));
    Untouched(items, s0, evs, j + 1, n, at);
  }
}
