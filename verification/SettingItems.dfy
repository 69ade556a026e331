/** Setting groups as a client sees them: by the texts of the items it reads and writes. `ln$SG$tail` is
  * a setting in the active group, `ln$SE$tail` the same setting in the group being edited. */
module SettingItems {
  import opened Wrappers
  import opened Octets
  import opened MmsValues
  import opened SettingGroups

  type Store = SettingGroups.Store

  // ---------------------------------------------------------------- reading by item

  datatype ReadResult = Selecting | WholeBlock | Value(value: MmsData) | Absent

  /** A read by its text, in the order of the tests. `blocks` are the base items of the control blocks;
    * an item that is neither stored nor a setting is assembled from its leaves. */
  function ReadItem(m: Model, blocks: set<Key>, s: Store, domain: string, item: string): ReadResult {
    if EndsWith(item, "$SBO") then Selecting
    else if (domain, item) in blocks then WholeBlock
    else match SettingRefOf(m, domain, item)
      case Some(r) => Found(ResolveSetting(m, s, domain, r))
      case None => Found(Get(s, (domain, item)))
  }

  function Found(v: Option<MmsData>): ReadResult { if v.Some? then Value(v.value) else Absent }

  /** The answer to a client's write, if it is one of the setting groups. */
  function Answer(m: Model, s: Store, domain: string, item: string, v: MmsData): Option<WriteResult> {
    match Meaning(m, domain, item)
    case Some(w) => Some(HandleSgWrite(m, s, domain, item, v, w).0)
    case None => None
  }

  /** No test before that of the settings takes a write to the item. */
  predicate Untaken(m: Model, domain: string, item: string) {
    && !EndsWith(item, "$RptEna") && !OfReport(item) && !OfOperate(item) && !OfSelection(item)
    && (domain in m ==> item != m[domain].base + "$ActSG" && item != m[domain].base + "$EditSG"
                        && item != m[domain].base + "$CnfEdit")
  }

  /** No test before that of the settings takes a read of the item. */
  predicate Readable(blocks: set<Key>, domain: string, item: string) {
    !EndsWith(item, "$SBO") && (domain, item) !in blocks
  }

  // ---------------------------------------------------------------- texts

  lemma {:induction false} SplitJoined(ln: string, rest: string)
    requires '$' !in ln
    ensures SplitDollar(ln + "$" + rest) == Some((ln, rest))
  {
    var s := ln + "$" + rest;
    if ln == "" {
      assert s[0] == '$' && s[1..] == rest;
    } else {
      SplitJoined(ln[1..], rest);
      assert s[1..] == ln[1..] + "$" + rest && s[0] == ln[0];
      assert [ln[0]] + ln[1..] == ln;
    }
  }

  lemma {:induction false} JoinedSplit(s: string)
    ensures SplitDollar(s).Some? ==>
      var p := SplitDollar(s).value; '$' !in p.0 && s == p.0 + "$" + p.1
  {
    if s != "" && s[0] == '$' {
      assert s == "" + "$" + s[1..];
    } else if s != "" {
      JoinedSplit(s[1..]);
      if SplitDollar(s[1..]).Some? {
        var p := SplitDollar(s[1..]).value;
        assert s == [s[0]] + s[1..];
        assert s == [s[0]] + p.0 + "$" + p.1;
      }
    }
  }

  lemma ThreeParts(ln: string, fc: string, tail: string)
    ensures ln + ("$" + fc + "$") + tail == ln + "$" + (fc + "$" + tail)
  {
  }

  /** The text `ln$fc$tail` of a domain with setting groups: only `SG` and `SE` make a setting of it. */
  lemma RefOfText(m: Model, d: string, ln: string, fc: string, tail: string)
    requires d in m && '$' !in ln && '$' !in fc
    ensures SettingRefOf(m, d, ln + ("$" + fc + "$") + tail) ==
            if fc == "SG" then Some(SettingRef(false, ln + "$" + tail))
            else if fc == "SE" then Some(SettingRef(true, ln + "$" + tail)) else None
  {
    ThreeParts(ln, fc, tail);
    SplitJoined(ln, fc + "$" + tail);
    SplitJoined(fc, tail);
  }

  lemma ItemRefs(m: Model, d: string, ln: string, tail: string)
    requires d in m && '$' !in ln
    ensures SettingRefOf(m, d, ln + "$SG$" + tail) == Some(SettingRef(false, ln + "$" + tail))
    ensures SettingRefOf(m, d, ln + "$SE$" + tail) == Some(SettingRef(true, ln + "$" + tail))
  {
    var sg, se := "SG", "SE";
    assert sg[1] != se[1] && "$" + sg + "$" == "$SG$" && "$" + se + "$" == "$SE$";
    RefOfText(m, d, ln, sg, tail);
    RefOfText(m, d, ln, se, tail);
  }

  /** A setting's reference determines the text of its item. */
  lemma RefIsText(m: Model, d: string, item: string, ln: string, tail: string)
    requires '$' !in ln && SettingRefOf(m, d, item).Some?
    requires SettingRefOf(m, d, item).value.canonical == ln + "$" + tail
    ensures item == ln + (if SettingRefOf(m, d, item).value.editable then "$SE$" else "$SG$") + tail
  {
    JoinedSplit(item);
    var a := SplitDollar(item).value;
    JoinedSplit(a.1);
    var b := SplitDollar(a.1).value;
    SplitJoined(ln, tail);
    SplitJoined(a.0, b.1);
    assert a.0 == ln && b.1 == tail;
    ThreeParts(ln, b.0, tail);
    assert "$" + b.0 + "$" == if b.0 == "SE" then "$SE$" else "$SG$";
  }

  lemma EndsDiffer(item: string, suffix: string)
    requires item != "" && suffix != "" && item[|item| - 1] != suffix[|suffix| - 1]
    ensures !EndsWith(item, suffix)
  {
    if EndsWith(item, suffix) { LastOf(item, suffix); }
  }

  lemma LastOf(item: string, suffix: string)
    requires suffix != "" && EndsWith(item, suffix)
    ensures item[|item| - 1] == suffix[|suffix| - 1]
  {
    assert item[|item| - 1] == item[|item| - |suffix|..][|suffix| - 1];
  }

  /** An item that ends with `t` or `G` is none of those tested before the settings. */
  lemma EndsUntaken(item: string)
    requires item != "" && item[|item| - 1] in "tG"
    ensures !EndsWith(item, "$RptEna") && !OfReport(item) && !OfOperate(item) && !OfSelection(item)
  {
    EndsDiffer(item, "$RptEna");
    EndsDiffer(item, "$GI");
    EndsDiffer(item, "$EntryID");
    EndsDiffer(item, "$PurgeBuf");
    EndsDiffer(item, "$Oper");
    EndsDiffer(item, "$Cancel");
    EndsDiffer(item, "$SBOw");
  }

  /** What writes to the control block of the settings and to settings mean, by their texts. */
  lemma MeaningOfText(m: Model, d: string, ln: string, tail: string)
    requires d in m && '$' !in ln
    ensures Meaning(m, d, m[d].base + "$ActSG") == Some(SelectActive)
    ensures Meaning(m, d, m[d].base + "$EditSG") == Some(SelectEdit)
    ensures Meaning(m, d, m[d].base + "$CnfEdit") == Some(ConfirmEdit)
    ensures Untaken(m, d, ln + "$SE$" + tail) ==>
      Meaning(m, d, ln + "$SE$" + tail) == Some(EditValue(ln + "$" + tail))
    ensures Untaken(m, d, ln + "$SG$" + tail) ==> Meaning(m, d, ln + "$SG$" + tail) == Some(ActiveValue)
  {
    SelectorKeys(m[d].base);
    EndsUntaken(m[d].base + "$ActSG");
    EndsUntaken(m[d].base + "$EditSG");
    EndsUntaken(m[d].base + "$CnfEdit");
    ItemRefs(m, d, ln, tail);
  }

  /** And no other item means that. */
  lemma TextOfMeaning(m: Model, d: string, item: string, ln: string, tail: string)
    requires d in m && '$' !in ln
    ensures Meaning(m, d, item) == Some(SelectActive) ==> item == m[d].base + "$ActSG"
    ensures Meaning(m, d, item) == Some(SelectEdit) ==> item == m[d].base + "$EditSG"
    ensures Meaning(m, d, item) == Some(ConfirmEdit) ==> item == m[d].base + "$CnfEdit"
    ensures Meaning(m, d, item) == Some(EditValue(ln + "$" + tail)) ==> item == ln + "$SE$" + tail
  {
    MeaningIs(m, d, item);
    if Meaning(m, d, item) == Some(EditValue(ln + "$" + tail)) { RefIsText(m, d, item, ln, tail); }
  }

  // ---------------------------------------------------------------- one write

  lemma StageStep(m: Model, ns: Names, s: Store, d: string, item: string, v: MmsData, applied: Option<MmsData>,
                  c: string)
    requires Meaning(m, d, item) == Some(EditValue(c))
    ensures Answer(m, s, d, item, v) == Some(Success)
    ensures Step(m, ns, s, ClientWrite(d, item, v, applied)) == s[(d, SgEditKey(c)) := v]
  {
  }

  lemma RefusedStep(m: Model, ns: Names, s: Store, d: string, item: string, v: MmsData, applied: Option<MmsData>)
    requires Meaning(m, d, item) == Some(ActiveValue)
    ensures Answer(m, s, d, item, v) == Some(AccessDenied)
    ensures Step(m, ns, s, ClientWrite(d, item, v, applied)) == s
  {
  }

  lemma StagedIsRead(m: Model, blocks: set<Key>, s: Store, d: string, item: string, v: MmsData, c: string)
    requires Readable(blocks, d, item) && SettingRefOf(m, d, item) == Some(SettingRef(true, c))
    ensures ReadItem(m, blocks, s[(d, SgEditKey(c)) := v], d, item) == Value(v)
  {
  }

  /** Staging `v` for `c` is seen at the item of `c` only. */
  lemma StagedElsewhere(m: Model, blocks: set<Key>, s: Store, d: string, c: string, v: MmsData, x: string,
                        item: string)
    requires WellFormed(m) && (item == "" || item[0] != '@')
    requires x == d ==> SettingRefOf(m, x, item) != Some(SettingRef(true, c))
    ensures ReadItem(m, blocks, s[(d, SgEditKey(c)) := v], x, item) == ReadItem(m, blocks, s, x, item)
  {
    assert SgEditKey(c)[0] == '@';
    var ref := SettingRefOf(m, x, item);
    if ref.Some? {
      var r := ref.value;
      SelectorsKept(m, s, d, c, v, x);
      KeysInjective(Clamp(m, x, SgcbU32(m, s, x, "EditSG")), r.canonical, 0, c, "");
      KeysInjective(Clamp(m, x, SgcbU32(m, s, x, "ActSG")), r.canonical, 0, c, "");
      if x == d && r.editable { KeysInjective(0, r.canonical, 0, c, ""); }
      assert ResolveSetting(m, s[(d, SgEditKey(c)) := v], x, r) == ResolveSetting(m, s, x, r);
    }
  }

  /** A value written to `ln$SE$tail` is accepted, and is what is then read there. */
  lemma EditedIsRead(m: Model, ns: Names, blocks: set<Key>, s: Store, d: string, ln: string, tail: string,
                     v: MmsData, applied: Option<MmsData>)
    requires d in m && '$' !in ln
    requires var se := ln + "$SE$" + tail; Untaken(m, d, se) && Readable(blocks, d, se)
    ensures var se := ln + "$SE$" + tail;
      && Answer(m, s, d, se, v) == Some(Success)
      && ReadItem(m, blocks, Step(m, ns, s, ClientWrite(d, se, v, applied)), d, se) == Value(v)
  {
    MeaningOfText(m, d, ln, tail);
    ItemRefs(m, d, ln, tail);
    StageStep(m, ns, s, d, ln + "$SE$" + tail, v, applied, ln + "$" + tail);
    StagedIsRead(m, blocks, s, d, ln + "$SE$" + tail, v, ln + "$" + tail);
  }

  /** A value written to `ln$SG$tail` is refused, and nothing changes. */
  lemma ActiveIsReadOnly(m: Model, ns: Names, s: Store, d: string, ln: string, tail: string, v: MmsData,
                         applied: Option<MmsData>)
    requires d in m && '$' !in ln
    requires Untaken(m, d, ln + "$SG$" + tail)
    ensures var sg := ln + "$SG$" + tail;
      && Answer(m, s, d, sg, v) == Some(AccessDenied)
      && Step(m, ns, s, ClientWrite(d, sg, v, applied)) == s
  {
    MeaningOfText(m, d, ln, tail);
    RefusedStep(m, ns, s, d, ln + "$SG$" + tail, v, applied);
  }

  lemma SelectStep(m: Model, ns: Names, s: Store, d: string, item: string, v: MmsData, applied: Option<MmsData>)
    requires d in m && Meaning(m, d, item) in {Some(SelectActive), Some(SelectEdit)}
    ensures var ok := v.Uint? && 1 <= v.u <= m[d].numOfSgs;
      && Answer(m, s, d, item, v) == Some(if ok then Success else ValueInvalid)
      && Step(m, ns, s, ClientWrite(d, item, v, applied)) == if ok then s[(d, item) := v] else s
  {
  }

  lemma ConfirmStep(m: Model, ns: Names, s: Store, d: string, item: string, v: MmsData, applied: Option<MmsData>)
    requires d in m && Meaning(m, d, item) == Some(ConfirmEdit)
    ensures Answer(m, s, d, item, v) == Some(Success)
    ensures Get(Step(m, ns, s, ClientWrite(d, item, v, applied)), (d, m[d].base + "$CnfEdit")) == Some(Bool(false))
    ensures v != Bool(true) ==>
      Step(m, ns, s, ClientWrite(d, item, v, applied)) == s[(d, m[d].base + "$CnfEdit") := Bool(false)]
  {
  }

  /** Writes to the control block: `ActSG` and `EditSG` take a number from 1 to the number of groups and
    * nothing else; `CnfEdit` takes any value, confirms on `true` and is false afterwards. */
  lemma ControlBlockWrites(m: Model, ns: Names, s: Store, d: string, v: MmsData, applied: Option<MmsData>)
    requires d in m
    ensures var ok := v.Uint? && 1 <= v.u <= m[d].numOfSgs;
      forall item :: item == m[d].base + "$ActSG" || item == m[d].base + "$EditSG" ==>
        && Answer(m, s, d, item, v) == Some(if ok then Success else ValueInvalid)
        && Step(m, ns, s, ClientWrite(d, item, v, applied)) == if ok then s[(d, item) := v] else s
    ensures var item := m[d].base + "$CnfEdit";
      var s' := Step(m, ns, s, ClientWrite(d, item, v, applied));
      && Answer(m, s, d, item, v) == Some(Success) && Get(s', (d, item)) == Some(Bool(false))
      && (v != Bool(true) ==> s' == s[(d, item) := Bool(false)])
  {
    MeaningOfText(m, d, "", "");
    SelectStep(m, ns, s, d, m[d].base + "$ActSG", v, applied);
    SelectStep(m, ns, s, d, m[d].base + "$EditSG", v, applied);
    ConfirmStep(m, ns, s, d, m[d].base + "$CnfEdit", v, applied);
  }

  /** A value written to `ln$SE$tail` changes what is read at that item only: not the active view of
    * the same setting, not another setting, not an item outside the settings or in another domain. */
  lemma OtherReadsKept(m: Model, ns: Names, blocks: set<Key>, s: Store, d: string, ln: string, tail: string,
                       v: MmsData, applied: Option<MmsData>, x: string, item: string)
    requires WellFormed(m) && d in m && '$' !in ln && Untaken(m, d, ln + "$SE$" + tail)
    requires (x, item) != (d, ln + "$SE$" + tail) && (item == "" || item[0] != '@')
    ensures ReadItem(m, blocks, Step(m, ns, s, ClientWrite(d, ln + "$SE$" + tail, v, applied)), x, item) ==
            ReadItem(m, blocks, s, x, item)
  {
    var c := ln + "$" + tail;
    MeaningOfText(m, d, ln, tail);
    StageStep(m, ns, s, d, ln + "$SE$" + tail, v, applied, c);
    if SettingRefOf(m, x, item) == Some(SettingRef(true, c)) { RefIsText(m, x, item, ln, tail); }
    StagedElsewhere(m, blocks, s, d, c, v, x, item);
  }

  lemma SelectorsKept(m: Model, s: Store, d: string, c: string, v: MmsData, x: string)
    requires WellFormed(m) && x in m
    ensures var s' := s[(d, SgEditKey(c)) := v];
      && SgcbU32(m, s', x, "ActSG") == SgcbU32(m, s, x, "ActSG")
      && SgcbU32(m, s', x, "EditSG") == SgcbU32(m, s, x, "EditSG")
  {
    assert SgEditKey(c)[0] == '@';
    assert (m[x].base + "$" + "ActSG")[0] != '@' && (m[x].base + "$" + "EditSG")[0] != '@';
  }

  // ---------------------------------------------------------------- runs

  predicate Writes(e: Event, d: string, item: string) { e.ClientWrite? && e.domain == d && e.item == item }

  lemma NotMeant(m: Model, e: Event, d: string, ln: string, tail: string)
    requires d in m && '$' !in ln
    ensures !Writes(e, d, m[d].base + "$ActSG") ==> !Is(m, e, d, SelectActive)
    ensures !Writes(e, d, m[d].base + "$EditSG") ==> !Is(m, e, d, SelectEdit)
    ensures !Writes(e, d, m[d].base + "$CnfEdit") ==> !Is(m, e, d, ConfirmEdit)
    ensures !Writes(e, d, ln + "$SE$" + tail) ==> !Is(m, e, d, EditValue(ln + "$" + tail))
  {
    if e.ClientWrite? && e.domain == d { TextOfMeaning(m, d, e.item, ln, tail); }
  }

  lemma ReadsSetting(m: Model, blocks: set<Key>, s: Store, d: string, ln: string, tail: string)
    requires d in m && '$' !in ln
    ensures var sg := ln + "$SG$" + tail;
      Readable(blocks, d, sg) ==>
      ReadItem(m, blocks, s, d, sg) == Found(ResolveSetting(m, s, d, SettingRef(false, ln + "$" + tail)))
    ensures var se := ln + "$SE$" + tail;
      Readable(blocks, d, se) ==>
      ReadItem(m, blocks, s, d, se) == Found(ResolveSetting(m, s, d, SettingRef(true, ln + "$" + tail)))
  {
    ItemRefs(m, d, ln, tail);
  }

  /** Reading the two views of a setting reads the groups and the buffer of the domain: the active group
    * at `ln$SG$tail`, the buffer and then the edited group at `ln$SE$tail`. */
  lemma ItemsAgree(m: Model, blocks: set<Key>, s: Store, d: string, ln: string, tail: string)
    requires d in m && '$' !in ln
    requires Readable(blocks, d, ln + "$SG$" + tail) && Readable(blocks, d, ln + "$SE$" + tail)
    ensures var n, a := m[d].numOfSgs, Abstract(m, s, d);
      && ReadItem(m, blocks, s, d, ln + "$SG$" + tail) == Found(ReadActive(n, a, ln + "$" + tail))
      && ReadItem(m, blocks, s, d, ln + "$SE$" + tail) == Found(ReadEdit(n, a, ln + "$" + tail))
  {
    ReadsSetting(m, blocks, s, d, ln, tail);
    ReadsAgree(m, s, d, ln + "$" + tail);
  }

  /** What is read at `ln$SG$tail` changes only with a write to `ActSG` or `CnfEdit` of the domain. */
  lemma {:induction false} ActiveItemStable(m: Model, ns: Names, blocks: set<Key>, s: Store, evs: seq<Event>,
                                            d: string, ln: string, tail: string)
    requires d in m && '$' !in ln && Readable(blocks, d, ln + "$SG$" + tail)
    requires forall i :: 0 <= i < |evs| ==> Assumed(m, ns, evs[i])
    requires forall i :: 0 <= i < |evs| ==>
      !Writes(evs[i], d, m[d].base + "$ActSG") && !Writes(evs[i], d, m[d].base + "$CnfEdit")
    ensures ReadItem(m, blocks, Run(m, ns, s, evs), d, ln + "$SG$" + tail) ==
            ReadItem(m, blocks, s, d, ln + "$SG$" + tail)
  {
    forall i | 0 <= i < |evs|
      ensures !Is(m, evs[i], d, SelectActive) && !Is(m, evs[i], d, ConfirmEdit)
    {
      NotMeant(m, evs[i], d, ln, tail);
    }
    ActiveReadsStable(m, ns, s, evs, d, ln + "$" + tail);
    ReadsSetting(m, blocks, s, d, ln, tail);
    ReadsSetting(m, blocks, Run(m, ns, s, evs), d, ln, tail);
  }

  /** The last value written to `ln$SE$tail` is read there, before and after any confirmations, until
    * `EditSG` of the domain is written. */
  lemma {:induction false} EditItemReadsLastWrite(m: Model, ns: Names, blocks: set<Key>, s: Store, v: MmsData,
                                                  applied: Option<MmsData>, evs: seq<Event>, d: string, ln: string,
                                                  tail: string)
    requires d in m && '$' !in ln
    requires var se := ln + "$SE$" + tail; Untaken(m, d, se) && Readable(blocks, d, se)
    requires Assumed(m, ns, ClientWrite(d, ln + "$SE$" + tail, v, applied))
    requires forall i :: 0 <= i < |evs| ==> Assumed(m, ns, evs[i])
    requires forall i :: 0 <= i < |evs| ==>
      !Writes(evs[i], d, m[d].base + "$EditSG") && !Writes(evs[i], d, ln + "$SE$" + tail)
    ensures var e := ClientWrite(d, ln + "$SE$" + tail, v, applied);
      ReadItem(m, blocks, Run(m, ns, Step(m, ns, s, e), evs), d, ln + "$SE$" + tail) == Value(v)
  {
    var c, e := ln + "$" + tail, ClientWrite(d, ln + "$SE$" + tail, v, applied);
    forall i | 0 <= i < |evs|
      ensures !Is(m, evs[i], d, SelectEdit) && !Is(m, evs[i], d, EditValue(c))
    {
      NotMeant(m, evs[i], d, ln, tail);
    }
    MeaningOfText(m, d, ln, tail);
    EditReadsLastWrite(m, ns, s, e, evs, d, c);
    ReadsSetting(m, blocks, Run(m, ns, Step(m, ns, s, e), evs), d, ln, tail);
  }

  // ---------------------------------------------------------------- through a confirmation

  /** The control block of `d` holds group `g` under the attribute. */
  predicate Selected(m: Model, s: Store, d: string, attr: string, g: U32) {
    d in m && Get(s, (d, m[d].base + attr)) == Some(Uint(g)) && 1 <= g <= m[d].numOfSgs
  }

  lemma SelectedGroup(m: Model, s: Store, d: string, g: U32)
    ensures Selected(m, s, d, "$ActSG", g) ==> SgcbU32(m, s, d, "ActSG") == g
    ensures Selected(m, s, d, "$EditSG", g) ==> SgcbU32(m, s, d, "EditSG") == g
  {
    if d in m { SelectorKeys(m[d].base); }
  }

  lemma SelectedReads(m: Model, s: Store, d: string, g: U32, c: string)
    requires Selected(m, s, d, "$ActSG", g)
    ensures ResolveSetting(m, s, d, SettingRef(false, c)) == GroupValue(s, d, g, c)
  {
    SelectedGroup(m, s, d, g);
  }

  lemma SameActive(m: Model, s: Store, k: Event, ns: Names, d: string, g: U32)
    requires Selected(m, s, d, "$ActSG", g) && Is(m, k, d, ConfirmEdit) && Assumed(m, ns, k)
    ensures SgcbU32(m, Step(m, ns, s, k), d, "ActSG") == g
  {
    SelectedGroup(m, s, d, g);
    StepRefines(m, ns, s, k, d);
    assert Abstract(m, Step(m, ns, s, k), d).act == Abstract(m, s, d).act;
  }

  lemma ActiveValueRead(m: Model, s: Store, d: string, g: U32, c: string)
    requires d in m && 1 <= g <= m[d].numOfSgs && SgcbU32(m, s, d, "ActSG") == g
    ensures ResolveSetting(m, s, d, SettingRef(false, c)) == GroupValue(s, d, g, c)
  {
  }

  /** What the confirmation of a run that staged `e.v` for `c` leaves in the active group. */
  lemma {:induction false} ConfirmedActive(m: Model, ns: Names, s: Store, e: Event, evs: seq<Event>, k: Event,
                                           d: string, c: string, g: U32, h: U32)
    requires d in m && Is(m, e, d, EditValue(c)) && Assumed(m, ns, e)
    requires Is(m, k, d, ConfirmEdit) && k.v == Bool(true) && Assumed(m, ns, k)
    requires forall i :: 0 <= i < |evs| ==> Assumed(m, ns, evs[i])
    requires forall i :: 0 <= i < |evs| ==> !Is(m, evs[i], d, ConfirmEdit) && !Is(m, evs[i], d, EditValue(c))
    requires var w := Run(m, ns, Step(m, ns, s, e), evs);
      Selected(m, w, d, "$EditSG", g) && Selected(m, w, d, "$ActSG", h)
    ensures var w := Run(m, ns, Step(m, ns, s, e), evs);
      ResolveSetting(m, Step(m, ns, w, k), d, SettingRef(false, c)) ==
      if g == h then Some(e.v) else ResolveSetting(m, w, d, SettingRef(false, c))
  {
    var w := Run(m, ns, Step(m, ns, s, e), evs);
    SelectedGroup(m, w, d, g);
    SelectedReads(m, w, d, h, c);
    SameActive(m, w, k, ns, d, h);
    ActiveValueRead(m, Step(m, ns, w, k), d, h, c);
    StagedAfter(m, ns, s, e, evs, d, c);
    StepRefines(m, ns, w, k, d);
    ConfirmedValue(m, w, Step(m, ns, w, k), d, c, h);
  }

  lemma StagedAfter(m: Model, ns: Names, s: Store, e: Event, evs: seq<Event>, d: string, c: string)
    requires d in m && Is(m, e, d, EditValue(c)) && Assumed(m, ns, e)
    requires forall i :: 0 <= i < |evs| ==> Assumed(m, ns, evs[i])
    requires forall i :: 0 <= i < |evs| ==> !Is(m, evs[i], d, ConfirmEdit) && !Is(m, evs[i], d, EditValue(c))
    ensures var w := Run(m, ns, Step(m, ns, s, e), evs); c in EditsIn(w, d) && EditsIn(w, d)[c] == e.v
  {
    var g := SgcbU32(m, s, d, "EditSG");
    StagedBy(m, ns, s, e, d, c);
    StagedRun(m, ns, Step(m, ns, s, e), evs, d, c, e.v, g, GroupsIn(s, d));
  }

  lemma ConfirmEvent(m: Model, ns: Names, s: Store, d: string, item: string, applied: Option<MmsData>)
    requires WellFormed(m) && (forall k :: k in ns.items || k in ns.reports ==> Named(k.1))
    requires Meaning(m, d, item) == Some(ConfirmEdit)
    ensures var k := ClientWrite(d, item, Bool(true), applied);
      && Is(m, k, d, ConfirmEdit) && Assumed(m, ns, k)
      && Answer(m, s, d, item, Bool(true)) == Some(Success)
  {
  }

  lemma ReadsActive(m: Model, blocks: set<Key>, s: Store, d: string, item: string, c: string)
    requires Readable(blocks, d, item) && SettingRefOf(m, d, item) == Some(SettingRef(false, c))
    ensures ReadItem(m, blocks, s, d, item) == Found(ResolveSetting(m, s, d, SettingRef(false, c)))
  {
  }

  /** A value written to `ln$SE$tail`, anything but a confirmation or another value for that item, and
    * `true` written to `CnfEdit`: if the group edited at that time is the active one, the value is read
    * at `ln$SG$tail`; if another group is, what is read there does not change. */
  lemma {:induction false} ConfirmedIsRead(m: Model, ns: Names, blocks: set<Key>, s: Store, v: MmsData,
                                           applied: Option<MmsData>, evs: seq<Event>, d: string, ln: string,
                                           tail: string, g: U32, h: U32)
    requires d in m && '$' !in ln && Untaken(m, d, ln + "$SE$" + tail) && Readable(blocks, d, ln + "$SG$" + tail)
    requires Assumed(m, ns, ClientWrite(d, ln + "$SE$" + tail, v, applied))
    requires forall i :: 0 <= i < |evs| ==> Assumed(m, ns, evs[i])
    requires forall i :: 0 <= i < |evs| ==>
      !Writes(evs[i], d, m[d].base + "$CnfEdit") && !Writes(evs[i], d, ln + "$SE$" + tail)
    requires var w := Run(m, ns, Step(m, ns, s, ClientWrite(d, ln + "$SE$" + tail, v, applied)), evs);
      Selected(m, w, d, "$EditSG", g) && Selected(m, w, d, "$ActSG", h)
    ensures var w := Run(m, ns, Step(m, ns, s, ClientWrite(d, ln + "$SE$" + tail, v, applied)), evs);
      var w' := Step(m, ns, w, ClientWrite(d, m[d].base + "$CnfEdit", Bool(true), applied));
      && Answer(m, w, d, m[d].base + "$CnfEdit", Bool(true)) == Some(Success)
      && ReadItem(m, blocks, w', d, ln + "$SG$" + tail) ==
         if g == h then Value(v) else ReadItem(m, blocks, w, d, ln + "$SG$" + tail)
  {
    var c, e := ln + "$" + tail, ClientWrite(d, ln + "$SE$" + tail, v, applied);
    var k := ClientWrite(d, m[d].base + "$CnfEdit", Bool(true), applied);
    forall i | 0 <= i < |evs|
      ensures !Is(m, evs[i], d, ConfirmEdit) && !Is(m, evs[i], d, EditValue(c))
    {
      NotMeant(m, evs[i], d, ln, tail);
    }
    MeaningOfText(m, d, ln, tail);
    ItemRefs(m, d, ln, tail);
    var w := Run(m, ns, Step(m, ns, s, e), evs);
    ConfirmEvent(m, ns, w, d, m[d].base + "$CnfEdit", applied);
    ConfirmedActive(m, ns, s, e, evs, k, d, c, g, h);
    ReadsActive(m, blocks, w, d, ln + "$SG$" + tail, c);
    ReadsActive(m, blocks, Step(m, ns, w, k), d, ln + "$SG$" + tail, c);
  }
}
