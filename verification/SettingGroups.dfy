/** Setting groups: a flat store keyed by strings that stands for N groups and one edit buffer per
  * logical device (clause 16 of IEC 61850-7-2). */
module SettingGroups {
  import opened Wrappers
  import opened Octets
  import opened MmsValues

  type Key = (string, string)                    // domain, item
  type Store = map<Key, MmsData>

  /** The setting group control block of a domain: its base item and the number of groups. */
  datatype Sgcb = Sgcb(base: string, numOfSgs: U32)
  type Model = map<string, Sgcb>

  datatype SettingRef = SettingRef(editable: bool, canonical: string)
  datatype SgWrite = SelectActive | SelectEdit | ConfirmEdit | EditValue(canonical: string) | ActiveValue
  datatype WriteResult = Success | ValueInvalid | AccessDenied

  // ---------------------------------------------------------------- internal keys

  function Digit(d: nat): (c: char)
    requires d < 10
    ensures c != '@'
  {
    "0123456789"[d]
  }

  function Decimal(n: nat): (s: string)
    ensures |s| > 0 && '@' !in s
  {
    if n < 10 then [Digit(n)] else Decimal(n / 10) + [Digit(n % 10)]
  }

  function GroupPrefix(g: nat): string { "@sg@" + Decimal(g) + "@" }
  function SgGroupKey(g: nat, canonical: string): string { GroupPrefix(g) + canonical }
  function SgEditKey(canonical: string): string { "@se@" + canonical }
  predicate IsEditKey(item: string) { "@se@" <= item }

  lemma DigitInjective(a: nat, b: nat)
    requires a < 10 && b < 10 && Digit(a) == Digit(b)
    ensures a == b
  {
    var t := "0123456789";
    assert forall i, j :: 0 <= i < j < 10 ==> t[i] != t[j];
  }

  lemma {:induction false} DecimalInjective(a: nat, b: nat)
    requires Decimal(a) == Decimal(b)
    ensures a == b
  {
    var s := Decimal(a);
    assert s[|s| - 1] == Digit(a % 10) == Digit(b % 10);
    DigitInjective(a % 10, b % 10);
    if a >= 10 && b >= 10 {
      assert s[..|s| - 1] == Decimal(a / 10) == Decimal(b / 10);
      DecimalInjective(a / 10, b / 10);
    }
  }

  /** Two texts without `@`, each followed by `@`: equal wholes have equal parts. */
  lemma SplitAtSign(a: string, x: string, b: string, y: string)
    requires '@' !in a && '@' !in b && a + "@" + x == b + "@" + y
    ensures a == b && x == y
  {
    var s := a + "@" + x;
    assert s[|a|] == '@' && s[|b|] == '@';
    assert |a| == |b|;
    assert a == s[..|a|] && b == s[..|b|];
    assert x == s[|a| + 1..] && y == s[|b| + 1..];
  }

  lemma GroupKeyInjective(g: nat, c: string, h: nat, d: string)
    requires SgGroupKey(g, c) == SgGroupKey(h, d)
    ensures g == h && c == d
  {
    assert SgGroupKey(g, c)[4..] == Decimal(g) + "@" + c;
    assert SgGroupKey(h, d)[4..] == Decimal(h) + "@" + d;
    SplitAtSign(Decimal(g), c, Decimal(h), d);
    DecimalInjective(g, h);
  }

  /** Internal keys name one group and one setting, or one staged setting, and nothing else. */
  lemma KeysInjective(g: nat, c: string, h: nat, d: string, item: string)
    requires item == "" || item[0] != '@'
    ensures SgGroupKey(g, c) == SgGroupKey(h, d) <==> g == h && c == d
    ensures SgEditKey(c) == SgEditKey(d) <==> c == d
    ensures SgGroupKey(g, c) != SgEditKey(d)
    ensures item != SgGroupKey(g, c) && item != SgEditKey(c)
  {
    if SgGroupKey(g, c) == SgGroupKey(h, d) { GroupKeyInjective(g, c, h, d); }
    if SgEditKey(c) == SgEditKey(d) { assert SgEditKey(c)[4..] == c && SgEditKey(d)[4..] == d; }
    assert SgGroupKey(g, c)[2] == 'g' && SgEditKey(d)[2] == 'e';
    assert SgGroupKey(g, c)[0] == '@' && SgEditKey(c)[0] == '@';
  }

  // ---------------------------------------------------------------- reading the store

  function Get(s: Store, k: Key): Option<MmsData> { if k in s then Some(s[k]) else None }

  /** Text before and after the first `$`. */
  function SplitDollar(s: string): Option<(string, string)> {
    if s == "" then None
    else if s[0] == '$' then Some(("", s[1..]))
    else match SplitDollar(s[1..])
      case None => None
      case Some(p) => Some(([s[0]] + p.0, p.1))
  }

  /** `ln$SG$tail` or `ln$SE$tail` in a domain with setting groups. */
  function SettingRefOf(m: Model, domain: string, item: string): Option<SettingRef> {
    if domain !in m then None
    else match SplitDollar(item)
      case None => None
      case Some(a) =>
        match SplitDollar(a.1)
        case None => None
        case Some(b) =>
          if b.0 == "SG" then Some(SettingRef(false, a.0 + "$" + b.1))
          else if b.0 == "SE" then Some(SettingRef(true, a.0 + "$" + b.1))
          else None
  }

  function Classify(m: Model, domain: string, item: string): Option<SgWrite> {
    if domain in m && item == m[domain].base + "$ActSG" then Some(SelectActive)
    else if domain in m && item == m[domain].base + "$EditSG" then Some(SelectEdit)
    else if domain in m && item == m[domain].base + "$CnfEdit" then Some(ConfirmEdit)
    else match SettingRefOf(m, domain, item)
      case None => None
      case Some(r) => Some(if r.editable then EditValue(r.canonical) else ActiveValue)
  }

  function SgcbU32(m: Model, s: Store, domain: string, attr: string): U32 {
    if domain !in m then 0
    else match Get(s, (domain, m[domain].base + "$" + attr))
      case Some(Uint(u)) => u % TWO_32
      case _ => 0
  }

  predicate ValidGroup(m: Model, domain: string, g: nat) { domain in m && 1 <= g <= m[domain].numOfSgs }

  function Clamp(m: Model, domain: string, g: nat): nat { if ValidGroup(m, domain, g) then g else 1 }

  function ResolveSetting(m: Model, s: Store, domain: string, r: SettingRef): Option<MmsData> {
    if r.editable then
      match Get(s, (domain, SgEditKey(r.canonical)))
      case Some(v) => Some(v)
      case None => Get(s, (domain, SgGroupKey(Clamp(m, domain, SgcbU32(m, s, domain, "EditSG")), r.canonical)))
    else Get(s, (domain, SgGroupKey(Clamp(m, domain, SgcbU32(m, s, domain, "ActSG")), r.canonical)))
  }

  // ---------------------------------------------------------------- writing the store

  /** What key `k` holds once the staged values of `domain` have been moved into group `g`. */
  function ConfirmedAt(s: Store, domain: string, g: nat, k: Key): Option<MmsData> {
    if k.0 == domain && IsEditKey(k.1) then None
    else if k.0 == domain && GroupPrefix(g) <= k.1 && (domain, SgEditKey(k.1[|GroupPrefix(g)|..])) in s
    then Some(s[(domain, SgEditKey(k.1[|GroupPrefix(g)|..]))])
    else Get(s, k)
  }

  /** The same while the staged keys `todo` have not been moved yet. */
  ghost function PartlyConfirmedAt(s: Store, domain: string, g: nat, todo: set<Key>, k: Key): Option<MmsData> {
    if k in todo then Get(s, k)
    else if k.0 == domain && GroupPrefix(g) <= k.1 && (domain, SgEditKey(k.1[|GroupPrefix(g)|..])) in todo
    then Get(s, k)
    else ConfirmedAt(s, domain, g, k)
  }

  function Confirmed(s: Store, domain: string, g: nat): (s': Store)
    ensures forall k :: Get(s', k) == ConfirmedAt(s, domain, g, k)
  {
    var staged := set k | k in s && k.0 == domain && IsEditKey(k.1);
    var moved := set k | k in staged :: (domain, SgGroupKey(g, k.1[4..]));
    var s' := map k | k in s.Keys + moved && ConfirmedAt(s, domain, g, k).Some? :: ConfirmedAt(s, domain, g, k).value;
    assert forall k :: ConfirmedAt(s, domain, g, k).Some? ==> k in s.Keys + moved by {
      forall k | ConfirmedAt(s, domain, g, k).Some? && k !in s
        ensures k in moved
      {
        var c := k.1[|GroupPrefix(g)|..];
        assert (domain, SgEditKey(c)) in staged && SgEditKey(c)[4..] == c;
        assert k.1 == SgGroupKey(g, c) && k == (k.0, k.1);
      }
    }
    s'
  }

  function ConfirmEditSg(m: Model, s: Store, domain: string): Store {
    var g := SgcbU32(m, s, domain, "EditSG");
    if ValidGroup(m, domain, g) then Confirmed(s, domain, g) else s
  }

  function HandleSgWrite(m: Model, s: Store, domain: string, item: string, v: MmsData, w: SgWrite)
    : (WriteResult, Store)
  {
    match w
    case SelectActive => SelectGroup(m, s, domain, item, v)
    case SelectEdit => SelectGroup(m, s, domain, item, v)
    case ConfirmEdit =>
      var s1 := if v == Bool(true) then ConfirmEditSg(m, s, domain) else s;
      (Success, if domain in m then s1[(domain, m[domain].base + "$CnfEdit") := Bool(false)] else s1)
    case EditValue(c) => (Success, s[(domain, SgEditKey(c)) := v])
    case ActiveValue => (AccessDenied, s)
  }

  function SelectGroup(m: Model, s: Store, domain: string, item: string, v: MmsData): (WriteResult, Store) {
    if v.Uint? && ValidGroup(m, domain, v.u) then (Success, s[(domain, item) := v]) else (ValueInvalid, s)
  }

  lemma MoveOne(s: Store, domain: string, g: nat, todo: set<Key>, k: Key, x: Key)
    requires k in todo && k in s && k.0 == domain && IsEditKey(k.1)
    requires forall y :: y in todo ==> IsEditKey(y.1)
    ensures var target := (domain, SgGroupKey(g, k.1[4..]));
      && target != k
      && PartlyConfirmedAt(s, domain, g, todo - {k}, x) ==
         if x == k then None else if x == target then Some(s[k]) else PartlyConfirmedAt(s, domain, g, todo, x)
  {
    var c := k.1[4..];
    var target := (domain, SgGroupKey(g, c));
    assert k == (domain, SgEditKey(c)) by { assert k.1 == SgEditKey(c) && k == (k.0, k.1); }
    assert target.1[2] == 'g' && k.1[2] == 'e' && !IsEditKey(target.1);
    assert target.1[|GroupPrefix(g)|..] == c;
    if x.0 == domain && GroupPrefix(g) <= x.1 {
      var d := x.1[|GroupPrefix(g)|..];
      assert x.1 == SgGroupKey(g, d) && x.1[2] == 'g' && x == (x.0, x.1);
      assert SgEditKey(d) == SgEditKey(c) ==> d == c by { KeysInjective(g, c, g, d, ""); }
    }
  }

  // ---------------------------------------------------------------- the code's own form

  class SgStore {
    var values: Store

    constructor (init: Store)
      ensures values == init
    {
      values := init;
    }

    method ConfirmEditSgValues(m: Model, domain: string)
      modifies this
      ensures values == ConfirmEditSg(m, old(values), domain)
    {
      var g := SgcbU32(m, values, domain, "EditSG");
      if !ValidGroup(m, domain, g) { return; }
      ghost var was := values;
      var staged := map k | k in values && k.0 == domain && IsEditKey(k.1) :: values[k];
      var todo := staged.Keys;
      while todo != {}
        invariant todo <= staged.Keys && (forall k :: k in todo ==> k.0 == domain && IsEditKey(k.1))
        invariant forall k :: Get(values, k) == PartlyConfirmedAt(was, domain, g, todo, k)
        decreases todo
      {
        var k :| k in todo;
        var c := k.1[4..];
        var target := SgGroupKey(g, c);
        values := values[(domain, target) := staged[k]];
        values := values - {k};
        assert todo == todo - {k} + {k};
        todo := todo - {k};
        forall x { MoveOne(was, domain, g, todo + {k}, k, x); }
      }
      assert values == Confirmed(was, domain, g) by {
        forall k
          ensures Get(values, k) == Get(Confirmed(was, domain, g), k)
        {
          assert Get(values, k) == ConfirmedAt(was, domain, g, k);
        }
        SameGets(values, Confirmed(was, domain, g));
      }
    }
  }

  lemma SameGets(a: Store, b: Store)
    requires forall k :: Get(a, k) == Get(b, k)
    ensures a == b
  {
    forall k
      ensures k in a <==> k in b
      ensures k in a ==> a[k] == b[k]
    {
      assert Get(a, k) == Get(b, k);
    }
  }

  // ---------------------------------------------------------------- N groups and an edit buffer

  /** What a domain's keys stand for. */
  datatype Groups = Groups(group: imap<(nat, string), MmsData>, edit: imap<string, MmsData>,
                           act: nat, editSg: nat)

  ghost function GroupsIn(s: Store, domain: string): imap<(nat, string), MmsData> {
    imap p: (nat, string) | (domain, SgGroupKey(p.0, p.1)) in s :: s[(domain, SgGroupKey(p.0, p.1))]
  }

  ghost function EditsIn(s: Store, domain: string): imap<string, MmsData> {
    imap c: string | (domain, SgEditKey(c)) in s :: s[(domain, SgEditKey(c))]
  }

  ghost function Abstract(m: Model, s: Store, domain: string): Groups {
    Groups(GroupsIn(s, domain), EditsIn(s, domain),
           SgcbU32(m, s, domain, "ActSG"), SgcbU32(m, s, domain, "EditSG"))
  }

  ghost function ReadActive(n: nat, a: Groups, c: string): Option<MmsData> {
    var p := (if 1 <= a.act <= n then a.act else 1, c);
    if p in a.group then Some(a.group[p]) else None
  }

  ghost function ReadEdit(n: nat, a: Groups, c: string): Option<MmsData> {
    var p := (if 1 <= a.editSg <= n then a.editSg else 1, c);
    if c in a.edit then Some(a.edit[c]) else if p in a.group then Some(a.group[p]) else None
  }

  /** The staged values become the values of the group being edited, and the buffer is emptied. */
  ghost function ConfirmGroups(n: nat, a: Groups): Groups {
    if !(1 <= a.editSg <= n) then a
    else a.(group := imap p: (nat, string) | p in a.group || (p.0 == a.editSg && p.1 in a.edit) ::
              if p.0 == a.editSg && p.1 in a.edit then a.edit[p.1] else a.group[p],
            edit := imap[])
  }

  ghost function AbstractWrite(n: nat, a: Groups, v: MmsData, w: SgWrite): Groups {
    match w
    case SelectActive => if v.Uint? && 1 <= v.u <= n then a.(act := v.u) else a
    case SelectEdit => if v.Uint? && 1 <= v.u <= n then a.(editSg := v.u) else a
    case ConfirmEdit => if v == Bool(true) then ConfirmGroups(n, a) else a
    case EditValue(c) => a.(edit := a.edit[c := v])
    case ActiveValue => a
  }

  ghost predicate WellFormed(m: Model) {
    forall d :: d in m ==> m[d].base != "" && m[d].base[0] != '@'
  }

  ghost predicate SameInternal(s: Store, s': Store, domain: string) {
    forall k: Key :: k.0 == domain && k.1 != "" && k.1[0] == '@' ==> Get(s', k) == Get(s, k)
  }

  /** Groups and buffer depend on the internal keys only. */
  lemma InternalFrame(s: Store, s': Store, domain: string)
    requires SameInternal(s, s', domain)
    ensures GroupsIn(s', domain) == GroupsIn(s, domain)
    ensures EditsIn(s', domain) == EditsIn(s, domain)
  {
    var g, g' := GroupsIn(s, domain), GroupsIn(s', domain);
    forall p: (nat, string)
      ensures p in g' <==> p in g
      ensures p in g ==> g'[p] == g[p]
    {
      var k := (domain, SgGroupKey(p.0, p.1));
      assert k.1[0] == '@' && Get(s', k) == Get(s, k);
    }
    assert g' == g;
    EditFrame(s, s', domain);
  }

  lemma EditFrame(s: Store, s': Store, domain: string)
    requires SameInternal(s, s', domain)
    ensures EditsIn(s', domain) == EditsIn(s, domain)
  {
    var e, e' := EditsIn(s, domain), EditsIn(s', domain);
    forall c: string
      ensures c in e' <==> c in e
      ensures c in e ==> e'[c] == e[c]
    {
      var k := (domain, SgEditKey(c));
      assert k.1[0] == '@' && Get(s', k) == Get(s, k);
    }
    assert e' == e;
  }

  /** Only keys the abstraction reads matter: internal ones and the two selectors. */
  lemma AbstractFrame(m: Model, s: Store, s': Store, domain: string)
    requires SameInternal(s, s', domain)
    requires SgcbU32(m, s', domain, "ActSG") == SgcbU32(m, s, domain, "ActSG")
    requires SgcbU32(m, s', domain, "EditSG") == SgcbU32(m, s, domain, "EditSG")
    ensures Abstract(m, s', domain) == Abstract(m, s, domain)
  {
    InternalFrame(s, s', domain);
  }

  /** A write to an item that is not internal and not one of the two selectors of its domain. */
  ghost predicate Foreign(m: Model, domain: string, item: string) {
    && (item == "" || item[0] != '@')
    && (domain in m ==> item != m[domain].base + "$ActSG" && item != m[domain].base + "$EditSG")
  }

  lemma ForeignWrite(m: Model, s: Store, d: string, item: string, v: MmsData, domain: string)
    requires Foreign(m, d, item)
    ensures Abstract(m, s[(d, item) := v], domain) == Abstract(m, s, domain)
  {
    var s' := s[(d, item) := v];
    if domain in m { SelectorKeys(m[domain].base); }
    AbstractFrame(m, s, s', domain);
  }

  lemma SelectorKeys(base: string)
    ensures base + "$" + "ActSG" == base + "$ActSG" && base + "$" + "EditSG" == base + "$EditSG"
    ensures base + "$ActSG" != base + "$EditSG"
    ensures base + "$CnfEdit" != base + "$ActSG" && base + "$CnfEdit" != base + "$EditSG"
  {
    var n := |base|;
    assert (base + "$ActSG")[n + 1] == 'A' && (base + "$EditSG")[n + 1] == 'E' && (base + "$CnfEdit")[n + 1] == 'C';
  }

  lemma ConfirmRefines(m: Model, s: Store, domain: string, d: string)
    requires WellFormed(m) && domain in m
    ensures Abstract(m, ConfirmEditSg(m, s, domain), d) ==
            if d == domain then ConfirmGroups(m[domain].numOfSgs, Abstract(m, s, d)) else Abstract(m, s, d)
  {
    var g := SgcbU32(m, s, domain, "EditSG");
    if ValidGroup(m, domain, g) {
      var s' := Confirmed(s, domain, g);
      assert forall k :: Get(s', k) == ConfirmedAt(s, domain, g, k);
      if d in m {
        var act, edit := (d, m[d].base + "$" + "ActSG"), (d, m[d].base + "$" + "EditSG");
        assert act.1[0] != '@' && edit.1[0] != '@' && GroupPrefix(g)[0] == '@';
        assert Get(s', act) == Get(s, act) && Get(s', edit) == Get(s, edit);
      }
      if d != domain {
        AbstractFrame(m, s, s', d);
      } else {
        ConfirmedGroups(m, s, domain, g);
      }
    }
  }

  lemma ConfirmedGroups(m: Model, s: Store, domain: string, g: nat)
    ensures var a, a' := Abstract(m, s, domain), Abstract(m, Confirmed(s, domain, g), domain);
      && a'.edit == imap[]
      && a'.group == imap p: (nat, string) | p in a.group || (p.0 == g && p.1 in a.edit) ::
                       if p.0 == g && p.1 in a.edit then a.edit[p.1] else a.group[p]
  {
    var s' := Confirmed(s, domain, g);
    var groups, edits := GroupsIn(s, domain), EditsIn(s, domain);
    ConfirmedEdits(s, domain, g);
    forall p: (nat, string)
      ensures p in GroupsIn(s', domain) <==> p in groups || (p.0 == g && p.1 in edits)
      ensures p in GroupsIn(s', domain) ==>
        GroupsIn(s', domain)[p] == if p.0 == g && p.1 in edits then edits[p.1] else groups[p]
    {
      ConfirmedGroup(s, domain, g, p);
    }
  }

  lemma ConfirmedEdits(s: Store, domain: string, g: nat)
    ensures EditsIn(Confirmed(s, domain, g), domain) == imap[]
  {
    var s' := Confirmed(s, domain, g);
    forall c: string
      ensures c !in EditsIn(s', domain)
    {
      assert Get(s', (domain, SgEditKey(c))) == ConfirmedAt(s, domain, g, (domain, SgEditKey(c)));
    }
  }

  lemma ConfirmedGroup(s: Store, domain: string, g: nat, p: (nat, string))
    ensures var k, k' := (domain, SgGroupKey(p.0, p.1)), (domain, SgEditKey(p.1));
      Get(Confirmed(s, domain, g), k) == if p.0 == g && k' in s then Get(s, k') else Get(s, k)
  {
    var k := (domain, SgGroupKey(p.0, p.1));
    assert Get(Confirmed(s, domain, g), k) == ConfirmedAt(s, domain, g, k);
    assert k.1[2] == 'g' && !IsEditKey(k.1);
    if GroupPrefix(g) <= k.1 {
      var c := k.1[|GroupPrefix(g)|..];
      assert k.1 == SgGroupKey(g, c);
      GroupKeyInjective(p.0, p.1, g, c);
    } else {
      assert p.0 != g;
    }
  }

  lemma StageRefines(m: Model, s: Store, domain: string, c: string, v: MmsData, d: string)
    requires WellFormed(m)
    ensures Abstract(m, s[(domain, SgEditKey(c)) := v], d) ==
            if d == domain then Abstract(m, s, d).(edit := Abstract(m, s, d).edit[c := v]) else Abstract(m, s, d)
  {
    var s' := s[(domain, SgEditKey(c)) := v];
    if d in m { assert (m[d].base + "$" + "ActSG")[0] != '@' && (m[d].base + "$" + "EditSG")[0] != '@'; }
    assert SgEditKey(c)[0] == '@';
    if d != domain {
      AbstractFrame(m, s, s', d);
    } else {
      var a, a' := Abstract(m, s, d), Abstract(m, s', d);
      forall p: (nat, string)
        ensures p in a'.group <==> p in a.group
        ensures p in a.group ==> a'.group[p] == a.group[p]
      {
        KeysInjective(p.0, p.1, 0, c, "");
      }
      forall x: string
        ensures x in a'.edit <==> x in a.edit || x == c
        ensures x in a'.edit ==> a'.edit[x] == if x == c then v else a.edit[x]
      {
        KeysInjective(0, x, 0, c, "");
      }
      assert a'.group == a.group && a'.edit == a.edit[c := v];
    }
  }

  lemma SelectRefines(m: Model, s: Store, domain: string, w: SgWrite, g: U32, d: string)
    requires WellFormed(m) && domain in m && (w.SelectActive? || w.SelectEdit?)
    ensures var item := m[domain].base + if w.SelectActive? then "$ActSG" else "$EditSG";
      Abstract(m, s[(domain, item) := Uint(g)], d) ==
      if d != domain then Abstract(m, s, d)
      else if w.SelectActive? then Abstract(m, s, d).(act := g) else Abstract(m, s, d).(editSg := g)
  {
    var item := m[domain].base + if w.SelectActive? then "$ActSG" else "$EditSG";
    var s' := s[(domain, item) := Uint(g)];
    SelectorKeys(m[domain].base);
    if d != domain {
      AbstractFrame(m, s, s', d);
    } else {
      assert item[0] != '@';
      InternalFrame(s, s', d);
    }
  }

  lemma SelectWriteRefines(m: Model, s: Store, domain: string, item: string, v: MmsData, w: SgWrite, d: string)
    requires WellFormed(m) && Classify(m, domain, item) == Some(w) && (w.SelectActive? || w.SelectEdit?)
    ensures Abstract(m, HandleSgWrite(m, s, domain, item, v, w).1, d) ==
            if d == domain then AbstractWrite(m[domain].numOfSgs, Abstract(m, s, d), v, w) else Abstract(m, s, d)
  {
    SelectsItem(m, domain, item, w);
    if v.Uint? && ValidGroup(m, domain, v.u) { SelectRefines(m, s, domain, w, v.u, d); }
  }

  lemma SelectsItem(m: Model, domain: string, item: string, w: SgWrite)
    requires Classify(m, domain, item) == Some(w) && (w.SelectActive? || w.SelectEdit?)
    ensures domain in m && item == m[domain].base + if w.SelectActive? then "$ActSG" else "$EditSG"
  {
  }

  /** The flat store refines the groups and the buffer: every classified write does to the domain
    * what it does to them, and leaves every other domain alone. */
  lemma SgWriteRefines(m: Model, s: Store, domain: string, item: string, v: MmsData, w: SgWrite, d: string)
    requires WellFormed(m) && Classify(m, domain, item) == Some(w)
    ensures Abstract(m, HandleSgWrite(m, s, domain, item, v, w).1, d) ==
            if d == domain then AbstractWrite(m[domain].numOfSgs, Abstract(m, s, d), v, w) else Abstract(m, s, d)
  {
    match w
    case SelectActive => SelectWriteRefines(m, s, domain, item, v, w, d);
    case SelectEdit => SelectWriteRefines(m, s, domain, item, v, w, d);
    case ConfirmEdit => ConfirmWriteRefines(m, s, domain, item, v, d);
    case EditValue(c) => StageRefines(m, s, domain, c, v, d);
    case ActiveValue =>
  }

  lemma ConfirmWriteRefines(m: Model, s: Store, domain: string, item: string, v: MmsData, d: string)
    requires WellFormed(m) && domain in m
    ensures Abstract(m, HandleSgWrite(m, s, domain, item, v, ConfirmEdit).1, d) ==
            if d == domain then AbstractWrite(m[domain].numOfSgs, Abstract(m, s, d), v, ConfirmEdit)
            else Abstract(m, s, d)
  {
    var s1 := if v == Bool(true) then ConfirmEditSg(m, s, domain) else s;
    ConfirmRefines(m, s, domain, d);
    SelectorKeys(m[domain].base);
    ForeignWrite(m, s1, domain, m[domain].base + "$CnfEdit", Bool(false), d);
  }

  /** Reading a setting reads the groups and the buffer. */
  lemma ReadsAgree(m: Model, s: Store, domain: string, c: string)
    requires domain in m
    ensures var n, a := m[domain].numOfSgs, Abstract(m, s, domain);
      && ResolveSetting(m, s, domain, SettingRef(false, c)) == ReadActive(n, a, c)
      && ResolveSetting(m, s, domain, SettingRef(true, c)) == ReadEdit(n, a, c)
  {
  }

  // ---------------------------------------------------------------- runs

  /** Writes by any client, past the checks of role and reservation, and by the application to items of
    * the namespace. `applied` is what a control command stores, if it is carried out. */
  datatype Event = ClientWrite(domain: string, item: string, v: MmsData, applied: Option<MmsData>)
                 | ServerWrite(domain: string, item: string, v: MmsData)

  /** The items of the namespace, and the base items of the report control blocks. */
  datatype Names = Names(items: set<Key>, reports: set<Key>)

  predicate EndsWith(s: string, suffix: string) { |suffix| <= |s| && s[|s| - |suffix|..] == suffix }

  predicate Contains(s: string, part: string) {
    |part| <= |s| && (s[..|part|] == part || (|s| > 0 && Contains(s[1..], part)))
  }

  /** What a write is taken for, by the text of its item, in the order of the tests. */
  datatype Branch = Enabling(base: string) | ReportAttribute | Operating | NotStored | Setting(w: SgWrite) | Plain

  predicate OfReport(item: string) {
    EndsWith(item, "$GI") || EndsWith(item, "$EntryID") || EndsWith(item, "$PurgeBuf")
  }

  predicate OfOperate(item: string) { Contains(item, "$CO$") && EndsWith(item, "$Oper") }

  predicate OfSelection(item: string) {
    (Contains(item, "$CO$") && EndsWith(item, "$Cancel")) || EndsWith(item, "$SBOw")
  }

  function BranchOf(m: Model, domain: string, item: string): Branch {
    if EndsWith(item, "$RptEna") then Enabling(item[..|item| - 7])
    else if OfReport(item) then ReportAttribute
    else if OfOperate(item) then Operating
    else if OfSelection(item) then NotStored
    else match Classify(m, domain, item)
      case Some(w) => Setting(w)
      case None => Plain
  }

  /** What a client's write means for the setting groups, if anything. */
  function Meaning(m: Model, domain: string, item: string): Option<SgWrite> {
    var b := BranchOf(m, domain, item);
    if b.Setting? then Some(b.w) else None
  }

  function ReplaceFirst(s: string, part: string, text: string): string {
    if |part| <= |s| && s[..|part|] == part then text + s[|part|..]
    else if s == "" then ""
    else [s[0]] + ReplaceFirst(s[1..], part, text)
  }

  function ReplaceAll(s: string, part: string, text: string): string
    requires part != ""
  {
    if |part| <= |s| && s[..|part|] == part then text + ReplaceAll(s[|part|..], part, text)
    else if s == "" then ""
    else [s[0]] + ReplaceAll(s[1..], part, text)
  }

  /** The status value a command changes. */
  function StatusOf(item: string): string { ReplaceAll(ReplaceFirst(item, "$CO$", "$ST$"), "$Oper", "$stVal") }

  /** The item a client's write stores, if any, outside the setting groups. */
  function StoredAt(b: Branch, ns: Names, domain: string, item: string, applied: Option<MmsData>): Option<string> {
    match b
    case Enabling(base) => if (domain, base) in ns.reports then Some(item) else None
    case ReportAttribute => Some(item)
    case Operating => if applied.Some? && (domain, StatusOf(item)) in ns.items then Some(StatusOf(item)) else None
    case Plain => if (domain, item) in ns.items then Some(item) else None
    case _ => None
  }

  function WriteOther(b: Branch, ns: Names, s: Store, domain: string, item: string, v: MmsData,
                      applied: Option<MmsData>): Store {
    match StoredAt(b, ns, domain, item, applied)
    case Some(at) => s[(domain, at) := if b.Operating? then applied.value else v]
    case None => s
  }

  function Step(m: Model, ns: Names, s: Store, e: Event): Store {
    match e
    case ServerWrite(d, i, v) => s[(d, i) := v]
    case ClientWrite(d, i, v, applied) =>
      match Meaning(m, d, i)
      case Some(w) => HandleSgWrite(m, s, d, i, v, w).1
      case None => WriteOther(BranchOf(m, d, i), ns, s, d, i, v, applied)
  }

  function Run(m: Model, ns: Names, s: Store, evs: seq<Event>): Store {
    if |evs| == 0 then s else Step(m, ns, Run(m, ns, s, evs[..|evs| - 1]), evs[|evs| - 1])
  }

  predicate Named(item: string) { item != "" && item[0] != '@' }

  /** Names of the namespace, of report control blocks and of their attributes do not begin with `@`;
    * the application leaves the selectors alone. */
  ghost predicate Assumed(m: Model, ns: Names, e: Event) {
    && WellFormed(m)
    && (forall k :: k in ns.items || k in ns.reports ==> Named(k.1))
    && (e.ServerWrite? ==> Foreign(m, e.domain, e.item))
    && (e.ClientWrite? && BranchOf(m, e.domain, e.item).ReportAttribute? ==> Named(e.item))
  }

  // ---------------------------------------------------------------- what other writes store

  lemma EndsApart(item: string, suffix: string, base: string)
    requires EndsWith(item, suffix) && suffix != "" && suffix[|suffix| - 1] != 'G'
    ensures item != base + "$ActSG" && item != base + "$EditSG"
  {
    assert item[|item| - 1] == item[|item| - |suffix|..][|suffix| - 1];
    var a, b := base + "$ActSG", base + "$EditSG";
    assert a[|a| - 1] == 'G' && b[|b| - 1] == 'G';
  }

  lemma TailEnds(s: string, n: nat, suffix: string)
    requires EndsWith(s, suffix) && n + |suffix| <= |s|
    ensures EndsWith(s[n..], suffix)
  {
  }

  lemma EndsConcat(a: string, b: string, suffix: string)
    requires EndsWith(b, suffix)
    ensures EndsWith(a + b, suffix)
  {
    assert (a + b)[|a + b| - |suffix|..] == b[|b| - |suffix|..];
  }

  /** A command's item still ends with `$Oper` when its constraint is replaced. */
  lemma {:induction false} FirstEnds(s: string)
    requires EndsWith(s, "$Oper")
    ensures EndsWith(ReplaceFirst(s, "$CO$", "$ST$"), "$Oper")
  {
    if 4 <= |s| && s[..4] == "$CO$" {
      HeadReplaced(s);
    } else if |s| == 5 {
      OperKept(s);
    } else {
      TailEnds(s, 1, "$Oper");
      FirstEnds(s[1..]);
      EndsConcat([s[0]], ReplaceFirst(s[1..], "$CO$", "$ST$"), "$Oper");
    }
  }

  lemma HeadReplaced(s: string)
    requires EndsWith(s, "$Oper") && s[..4] == "$CO$"
    ensures EndsWith("$ST$" + s[4..], "$Oper")
  {
    var n, end := |s| - 5, "$Oper";
    assert s[1] == 'C' && s[2] == 'O';
    assert s[n] == s[n..][0] == end[0] && s[n + 1] == s[n..][1] == end[1];
    assert n >= 3;
    assert ("$ST$" + s[4..])[n..] == end;
  }

  lemma OperKept(s: string)
    requires |s| == 5 && EndsWith(s, "$Oper")
    ensures EndsWith(ReplaceFirst(s, "$CO$", "$ST$"), "$Oper")
  {
    var end, part := "$Oper", "$CO$";
    assert s == end && end[1] != part[1] && end[1] != part[0];
    var one, two := s[1..], s[1..][1..];
    TooShort(two, part, "$ST$");
    assert s[..4][1] == end[1] && one[..4][0] == end[1];
    assert ReplaceFirst(one, part, "$ST$") == [one[0]] + two == one;
    assert ReplaceFirst(s, part, "$ST$") == [s[0]] + one == s;
  }

  lemma {:induction false} TooShort(s: string, part: string, text: string)
    requires |s| < |part|
    ensures ReplaceFirst(s, part, text) == s
  {
    if s != "" { TooShort(s[1..], part, text); }
  }

  lemma {:induction false} AllEnds(s: string, part: string, text: string)
    requires part != "" && part[0] !in part[1..] && EndsWith(s, part)
    ensures EndsWith(ReplaceAll(s, part, text), text)
    decreases |s|
  {
    var n, k := |s| - |part|, |part|;
    if s[..k] == part && n == 0 {
      assert s[k..] == "" && text + "" == text;
    } else if s[..k] == part {
      PartsApart(s, part, n);
      TailEnds(s, k, part);
      AllEnds(s[k..], part, text);
      EndsConcat(text, ReplaceAll(s[k..], part, text), text);
    } else {
      TailEnds(s, 1, part);
      AllEnds(s[1..], part, text);
      EndsConcat([s[0]], ReplaceAll(s[1..], part, text), text);
    }
  }

  /** A text whose first character comes once does not overlap itself. */
  lemma PartsApart(s: string, part: string, n: nat)
    requires part != "" && part[0] !in part[1..] && n > 0 && |s| == n + |part|
    requires s[..|part|] == part && s[n..] == part
    ensures n >= |part|
  {
    assert s[n] == s[n..][0] == part[0];
    forall k | 0 < k < |part|
      ensures s[k] != part[0]
    {
      assert s[k] == s[..|part|][k] && part[1..][k - 1] == part[k];
    }
  }

  lemma EnablingIsForeign(m: Model, domain: string, item: string)
    requires EndsWith(item, "$RptEna")
    ensures Named(item[..|item| - 7]) ==> Foreign(m, domain, item)
  {
    if domain in m { EndsApart(item, "$RptEna", m[domain].base); }
  }

  lemma AttributeIsForeign(m: Model, domain: string, item: string)
    requires Named(item) && OfReport(item)
    ensures Foreign(m, domain, item)
  {
    if domain in m {
      if EndsWith(item, "$GI") { EndsApart(item, "$GI", m[domain].base); }
      else if EndsWith(item, "$EntryID") { EndsApart(item, "$EntryID", m[domain].base); }
      else { EndsApart(item, "$PurgeBuf", m[domain].base); }
    }
  }

  lemma StatusIsForeign(m: Model, domain: string, item: string)
    requires OfOperate(item)
    ensures Named(StatusOf(item)) ==> Foreign(m, domain, StatusOf(item))
  {
    FirstEnds(item);
    AllEnds(ReplaceFirst(item, "$CO$", "$ST$"), "$Oper", "$stVal");
    if domain in m { EndsApart(StatusOf(item), "$stVal", m[domain].base); }
  }

  /** What the text of an item says when a branch is taken. */
  predicate Fits(m: Model, domain: string, item: string, b: Branch) {
    match b
    case Enabling(base) => EndsWith(item, "$RptEna") && base == item[..|item| - 7]
    case ReportAttribute => OfReport(item)
    case Operating => OfOperate(item)
    case Plain => Classify(m, domain, item).None?
    case _ => true
  }

  lemma BranchFits(m: Model, domain: string, item: string)
    ensures Fits(m, domain, item, BranchOf(m, domain, item))
  {
  }

  /** Whatever a write stores outside the setting groups, it is not a key that they read. */
  lemma StoredIsForeign(m: Model, ns: Names, domain: string, item: string, b: Branch, applied: Option<MmsData>)
    requires Fits(m, domain, item, b) && (b.ReportAttribute? ==> Named(item))
    requires forall k :: k in ns.items || k in ns.reports ==> Named(k.1)
    ensures var at := StoredAt(b, ns, domain, item, applied); at.Some? ==> Foreign(m, domain, at.value)
  {
    match b
    case Enabling(base) => EnablingIsForeign(m, domain, item);
    case ReportAttribute => AttributeIsForeign(m, domain, item);
    case Operating => StatusIsForeign(m, domain, item);
    case _ =>
  }

  predicate Is(m: Model, e: Event, domain: string, w: SgWrite) {
    e.ClientWrite? && e.domain == domain && Meaning(m, domain, e.item) == Some(w)
  }

  lemma OtherWriteRefines(m: Model, ns: Names, s: Store, domain: string, item: string, v: MmsData, b: Branch,
                          applied: Option<MmsData>, d: string)
    requires Fits(m, domain, item, b) && (b.ReportAttribute? ==> Named(item))
    requires forall k :: k in ns.items || k in ns.reports ==> Named(k.1)
    ensures Abstract(m, WriteOther(b, ns, s, domain, item, v, applied), d) == Abstract(m, s, d)
  {
    StoredIsForeign(m, ns, domain, item, b, applied);
    var at := StoredAt(b, ns, domain, item, applied);
    if at.Some? { ForeignWrite(m, s, domain, at.value, if b.Operating? then applied.value else v, d); }
  }

  lemma MeaningIs(m: Model, domain: string, item: string)
    ensures Meaning(m, domain, item).Some? ==> Classify(m, domain, item) == Meaning(m, domain, item)
  {
  }

  /** Every step of the store is the step of the groups, or leaves them as they are. */
  lemma StepRefines(m: Model, ns: Names, s: Store, e: Event, d: string)
    requires Assumed(m, ns, e) && d in m
    ensures Abstract(m, Step(m, ns, s, e), d) ==
            if e.ClientWrite? && e.domain == d && Meaning(m, d, e.item).Some?
            then AbstractWrite(m[d].numOfSgs, Abstract(m, s, d), e.v, Meaning(m, d, e.item).value)
            else Abstract(m, s, d)
  {
    if e.ServerWrite? {
      ForeignWrite(m, s, e.domain, e.item, e.v, d);
    } else if Meaning(m, e.domain, e.item).Some? {
      MeaningIs(m, e.domain, e.item);
      SgWriteRefines(m, s, e.domain, e.item, e.v, Meaning(m, e.domain, e.item).value, d);
    } else {
      BranchFits(m, e.domain, e.item);
      OtherWriteRefines(m, ns, s, e.domain, e.item, e.v, BranchOf(m, e.domain, e.item), e.applied, d);
    }
  }

  lemma ActiveReadKept(m: Model, ns: Names, s: Store, e: Event, d: string, c: string)
    requires d in m && Assumed(m, ns, e) && !Is(m, e, d, SelectActive) && !Is(m, e, d, ConfirmEdit)
    ensures ResolveSetting(m, Step(m, ns, s, e), d, SettingRef(false, c)) ==
            ResolveSetting(m, s, d, SettingRef(false, c))
  {
    StepRefines(m, ns, s, e, d);
    ReadsAgree(m, s, d, c);
    ReadsAgree(m, Step(m, ns, s, e), d, c);
    if e.ClientWrite? && e.domain == d && Meaning(m, d, e.item).Some? {
      ActiveUnmoved(m[d].numOfSgs, Abstract(m, s, d), e.v, Meaning(m, d, e.item).value, c);
    }
  }

  lemma ActiveUnmoved(n: nat, a: Groups, x: MmsData, w: SgWrite, c: string)
    requires !w.SelectActive? && !w.ConfirmEdit?
    ensures ReadActive(n, AbstractWrite(n, a, x, w), c) == ReadActive(n, a, c)
  {
  }

  /** What a client reads of the active group changes only with SelectActiveSG or ConfirmEditSGValues. */
  lemma {:induction false} ActiveReadsStable(m: Model, ns: Names, s: Store, evs: seq<Event>, d: string, c: string)
    requires d in m
    requires forall i :: 0 <= i < |evs| ==> Assumed(m, ns, evs[i])
    requires forall i :: 0 <= i < |evs| ==> !Is(m, evs[i], d, SelectActive) && !Is(m, evs[i], d, ConfirmEdit)
    ensures ResolveSetting(m, Run(m, ns, s, evs), d, SettingRef(false, c)) ==
            ResolveSetting(m, s, d, SettingRef(false, c))
  {
    if |evs| > 0 {
      ActiveReadsStable(m, ns, s, evs[..|evs| - 1], d, c);
      ActiveReadKept(m, ns, Run(m, ns, s, evs[..|evs| - 1]), evs[|evs| - 1], d, c);
    }
  }

  lemma EditReadKept(n: nat, a: Groups, x: MmsData, w: SgWrite, c: string)
    requires !w.SelectEdit? && w != EditValue(c) && ReadEdit(n, a, c).Some?
    ensures ReadEdit(n, AbstractWrite(n, a, x, w), c) == ReadEdit(n, a, c)
  {
  }

  /** The last value written to the editable view is what is read from it, before and after any
    * confirmations, as long as the group being edited is not changed. */
  lemma {:induction false} EditReadsLastWrite(m: Model, ns: Names, s: Store, e: Event, evs: seq<Event>, d: string,
                                              c: string)
    requires d in m && Is(m, e, d, EditValue(c)) && Assumed(m, ns, e)
    requires forall i :: 0 <= i < |evs| ==> Assumed(m, ns, evs[i])
    requires forall i :: 0 <= i < |evs| ==> !Is(m, evs[i], d, SelectEdit) && !Is(m, evs[i], d, EditValue(c))
    ensures ResolveSetting(m, Run(m, ns, Step(m, ns, s, e), evs), d, SettingRef(true, c)) == Some(e.v)
  {
    var s1 := Step(m, ns, s, e);
    if |evs| == 0 {
      StepRefines(m, ns, s, e, d);
      ReadsAgree(m, s1, d, c);
    } else {
      var pre, last := Run(m, ns, s1, evs[..|evs| - 1]), evs[|evs| - 1];
      EditReadsLastWrite(m, ns, s, e, evs[..|evs| - 1], d, c);
      StepKeepsEditRead(m, ns, pre, last, d, c);
    }
  }

  lemma StepKeepsEditRead(m: Model, ns: Names, s: Store, e: Event, d: string, c: string)
    requires d in m && Assumed(m, ns, e) && !Is(m, e, d, SelectEdit) && !Is(m, e, d, EditValue(c))
    requires ResolveSetting(m, s, d, SettingRef(true, c)).Some?
    ensures ResolveSetting(m, Step(m, ns, s, e), d, SettingRef(true, c)) == ResolveSetting(m, s, d, SettingRef(true, c))
  {
    ReadsAgree(m, s, d, c);
    ReadsAgree(m, Step(m, ns, s, e), d, c);
    StepRefines(m, ns, s, e, d);
    if e.ClientWrite? && e.domain == d && Meaning(m, d, e.item).Some? {
      EditReadKept(m[d].numOfSgs, Abstract(m, s, d), e.v, Meaning(m, d, e.item).value, c);
    }
  }

  /** A confirmation under a valid EditSG moves exactly the staged values into that group: every
    * other group and every setting not staged keep their values, and nothing stays staged. */
  lemma ConfirmMovesStaged(m: Model, s: Store, d: string, c: string, h: nat)
    requires WellFormed(m) && d in m && ValidGroup(m, d, SgcbU32(m, s, d, "EditSG"))
    ensures var g, s' := SgcbU32(m, s, d, "EditSG"), ConfirmEditSg(m, s, d);
      && Get(s', (d, SgEditKey(c))) == None
      && Get(s', (d, SgGroupKey(h, c))) ==
         if h == g && (d, SgEditKey(c)) in s then Get(s, (d, SgEditKey(c))) else Get(s, (d, SgGroupKey(h, c)))
  {
    var g := SgcbU32(m, s, d, "EditSG");
    var s' := ConfirmEditSg(m, s, d);
    ConfirmedGroups(m, s, d, g);
    var a, a' := Abstract(m, s, d), Abstract(m, s', d);
    assert c !in a'.edit;
    assert (h, c) in a'.group <==> (h, c) in a.group || (h == g && c in a.edit);
  }

  // ---------------------------------------------------------------- where a staged value goes

  /** The group being edited after a run that began with `g`: that of the last accepted selection. */
  function EditedAfter(m: Model, d: string, g: U32, evs: seq<Event>): U32 {
    if |evs| == 0 then g else EditedBy(m, d, EditedAfter(m, d, g, evs[..|evs| - 1]), evs[|evs| - 1])
  }

  function EditedBy(m: Model, d: string, g: U32, e: Event): U32 {
    if Is(m, e, d, SelectEdit) && e.v.Uint? && ValidGroup(m, d, e.v.u) then e.v.u else g
  }

  /** Setting `c` has `v` staged while group `g` is edited, and the groups hold `group`. */
  ghost predicate Staged(m: Model, s: Store, d: string, c: string, v: MmsData, g: U32,
                         group: imap<(nat, string), MmsData>) {
    && c in EditsIn(s, d) && EditsIn(s, d)[c] == v
    && SgcbU32(m, s, d, "EditSG") == g && GroupsIn(s, d) == group
  }

  lemma StagedStep(m: Model, ns: Names, s: Store, e: Event, d: string, c: string, v: MmsData, g: U32,
                   group: imap<(nat, string), MmsData>)
    requires d in m && Assumed(m, ns, e) && !Is(m, e, d, ConfirmEdit) && !Is(m, e, d, EditValue(c))
    requires Staged(m, s, d, c, v, g, group)
    ensures Staged(m, Step(m, ns, s, e), d, c, v, EditedBy(m, d, g, e), group)
  {
    StepRefines(m, ns, s, e, d);
    var a, a' := Abstract(m, s, d), Abstract(m, Step(m, ns, s, e), d);
    assert c in a.edit && a.editSg == g && a.group == group;
    assert a'.edit == EditsIn(Step(m, ns, s, e), d) && a'.group == GroupsIn(Step(m, ns, s, e), d);
  }

  lemma {:induction false} StagedRun(m: Model, ns: Names, s: Store, evs: seq<Event>, d: string, c: string,
                                     v: MmsData, g: U32, group: imap<(nat, string), MmsData>)
    requires d in m && Staged(m, s, d, c, v, g, group)
    requires forall i :: 0 <= i < |evs| ==> Assumed(m, ns, evs[i])
    requires forall i :: 0 <= i < |evs| ==> !Is(m, evs[i], d, ConfirmEdit) && !Is(m, evs[i], d, EditValue(c))
    ensures Staged(m, Run(m, ns, s, evs), d, c, v, EditedAfter(m, d, g, evs), group)
  {
    if |evs| > 0 {
      var front, e := evs[..|evs| - 1], evs[|evs| - 1];
      StagedRun(m, ns, s, front, d, c, v, g, group);
      StagedStep(m, ns, Run(m, ns, s, front), e, d, c, v, EditedAfter(m, d, g, front), group);
    }
  }

  lemma StagedBy(m: Model, ns: Names, s: Store, e: Event, d: string, c: string)
    requires d in m && Is(m, e, d, EditValue(c)) && Assumed(m, ns, e)
    ensures Staged(m, Step(m, ns, s, e), d, c, e.v, SgcbU32(m, s, d, "EditSG"), GroupsIn(s, d))
  {
    var s1 := Step(m, ns, s, e);
    StepRefines(m, ns, s, e, d);
    assert Abstract(m, s1, d).edit == EditsIn(s1, d) && Abstract(m, s1, d).group == GroupsIn(s1, d);
  }

  function GroupValue(s: Store, d: string, g: nat, c: string): Option<MmsData> { Get(s, (d, SgGroupKey(g, c))) }

  /** A value staged for `c` by `e`, anything but a confirmation or another value for `c`, and then a
    * confirmation: it goes into the group edited at the confirmation, if that is one of the groups,
    * and into no other. */
  lemma {:induction false} StagedGoesToEdited(m: Model, ns: Names, s: Store, e: Event, evs: seq<Event>, k: Event,
                                              d: string, c: string, h: nat)
    requires d in m && Is(m, e, d, EditValue(c)) && Assumed(m, ns, e)
    requires Is(m, k, d, ConfirmEdit) && k.v == Bool(true) && Assumed(m, ns, k)
    requires forall i :: 0 <= i < |evs| ==> Assumed(m, ns, evs[i])
    requires forall i :: 0 <= i < |evs| ==> !Is(m, evs[i], d, ConfirmEdit) && !Is(m, evs[i], d, EditValue(c))
    ensures var s' := Step(m, ns, Run(m, ns, Step(m, ns, s, e), evs), k);
      var at := EditedAfter(m, d, SgcbU32(m, s, d, "EditSG"), evs);
      GroupValue(s', d, h, c) == if h == at && ValidGroup(m, d, at) then Some(e.v) else GroupValue(s, d, h, c)
  {
    var g := SgcbU32(m, s, d, "EditSG");
    var s1 := Step(m, ns, s, e);
    var w := Run(m, ns, s1, evs);
    StagedBy(m, ns, s, e, d, c);
    StagedRun(m, ns, s1, evs, d, c, e.v, g, GroupsIn(s, d));
    StepRefines(m, ns, w, k, d);
    ConfirmedValue(m, w, Step(m, ns, w, k), d, c, h);
    SameGroupValue(s, w, d, h, c);
  }

  lemma SameGroupValue(s: Store, w: Store, d: string, h: nat, c: string)
    requires GroupsIn(w, d) == GroupsIn(s, d)
    ensures GroupValue(w, d, h, c) == GroupValue(s, d, h, c)
  {
    assert (h, c) in GroupsIn(w, d) <==> (h, c) in GroupsIn(s, d);
  }

  lemma ConfirmedValue(m: Model, w: Store, s': Store, d: string, c: string, h: nat)
    requires d in m && c in EditsIn(w, d)
    requires Abstract(m, s', d) == ConfirmGroups(m[d].numOfSgs, Abstract(m, w, d))
    ensures var at := SgcbU32(m, w, d, "EditSG");
      GroupValue(s', d, h, c) ==
      if h == at && ValidGroup(m, d, at) then Some(EditsIn(w, d)[c]) else GroupValue(w, d, h, c)
  {
    var a, a' := Abstract(m, w, d), Abstract(m, s', d);
    assert a'.group == GroupsIn(s', d) && a.group == GroupsIn(w, d) && a.edit == EditsIn(w, d);
    assert (h, c) in a'.group <==> (h, c) in GroupsIn(s', d);
  }

  /** What a client expects: the value is in the group it was staged for, every other group is as it
    * was. Selecting another group does not discard what is staged, so this is met exactly when the
    * last accepted selection in between, if there was one, is of that group; or else when both
    * groups held the value already. */
  lemma {:induction false} StagedStaysIff(m: Model, ns: Names, s: Store, e: Event, evs: seq<Event>, k: Event,
                                          d: string, c: string)
    requires d in m && Is(m, e, d, EditValue(c)) && Assumed(m, ns, e)
    requires Is(m, k, d, ConfirmEdit) && k.v == Bool(true) && Assumed(m, ns, k)
    requires forall i :: 0 <= i < |evs| ==> Assumed(m, ns, evs[i])
    requires forall i :: 0 <= i < |evs| ==> !Is(m, evs[i], d, ConfirmEdit) && !Is(m, evs[i], d, EditValue(c))
    requires ValidGroup(m, d, SgcbU32(m, s, d, "EditSG"))
    ensures var g, s' := SgcbU32(m, s, d, "EditSG"), Step(m, ns, Run(m, ns, Step(m, ns, s, e), evs), k);
      var at := EditedAfter(m, d, g, evs);
      (forall h: nat :: GroupValue(s', d, h, c) == if h == g then Some(e.v) else GroupValue(s, d, h, c))
      <==> at == g || (GroupValue(s, d, g, c) == Some(e.v) && GroupValue(s, d, at, c) == Some(e.v))
  {
    var g, s' := SgcbU32(m, s, d, "EditSG"), Step(m, ns, Run(m, ns, Step(m, ns, s, e), evs), k);
    var at := EditedAfter(m, d, g, evs);
    EditedIsValid(m, d, g, evs);
    forall h: nat
      ensures GroupValue(s', d, h, c) == if h == at then Some(e.v) else GroupValue(s, d, h, c)
    {
      StagedGoesToEdited(m, ns, s, e, evs, k, d, c, h);
    }
    if at != g {
      assert GroupValue(s', d, g, c) == GroupValue(s, d, g, c) && GroupValue(s', d, at, c) == Some(e.v);
    }
  }

  lemma {:induction false} EditedIsValid(m: Model, d: string, g: U32, evs: seq<Event>)
    requires ValidGroup(m, d, g)
    ensures ValidGroup(m, d, EditedAfter(m, d, g, evs))
  {
    if |evs| > 0 { EditedIsValid(m, d, g, evs[..|evs| - 1]); }
  }

  /** The failing case is reached from any store by a value, one selection and a confirmation. */
  lemma {:induction false} StagedStrays(m: Model, ns: Names, s: Store, e: Event, x: Event, k: Event, d: string,
                                        c: string)
    requires d in m && Is(m, e, d, EditValue(c)) && Assumed(m, ns, e)
    requires Is(m, k, d, ConfirmEdit) && k.v == Bool(true) && Assumed(m, ns, k)
    requires Is(m, x, d, SelectEdit) && Assumed(m, ns, x) && x.v.Uint? && ValidGroup(m, d, x.v.u)
    requires x.v.u != SgcbU32(m, s, d, "EditSG")
    ensures var s' := Step(m, ns, Run(m, ns, Step(m, ns, s, e), [x]), k);
      && GroupValue(s', d, x.v.u, c) == Some(e.v)
      && GroupValue(s', d, SgcbU32(m, s, d, "EditSG"), c) == GroupValue(s, d, SgcbU32(m, s, d, "EditSG"), c)
  {
    assert [x][..0] == [];
    StagedGoesToEdited(m, ns, s, e, [x], k, d, c, x.v.u);
    StagedGoesToEdited(m, ns, s, e, [x], k, d, c, SgcbU32(m, s, d, "EditSG"));
  }
}
