/** The model tree: looking up a reference and enumerating every data attribute. */
module Namespace {
  import opened Wrappers

  datatype DataAttribute = DataAttribute(name: string, fc: nat, basicType: nat, children: seq<DataAttribute>)

  datatype DataObject = DataObject(name: string, attributes: seq<DataAttribute>, subObjects: seq<DataObject>)

  datatype LogicalNode = LogicalNode(prefix: string, class_: string, inst: string, dataObjects: seq<DataObject>) {
    function Name(): string { prefix + class_ + inst }
  }

  datatype LogicalDevice = LogicalDevice(ldName: Option<string>, inst: string, logicalNodes: seq<LogicalNode>)

  /** `servers` in the order of the IED names. */
  datatype Ied = Ied(name: string, logicalDevices: seq<LogicalDevice>)

  type Model = seq<Ied>

  datatype Ref = Ref(ld: string, ln: string, path: seq<string>, fc: Option<nat>)

  datatype NodeRef =
    | DeviceNode(ld: LogicalDevice)
    | LogicalNodeNode(ln: LogicalNode)
    | ObjectNode(dobj: DataObject)
    | AttributeNode(da: DataAttribute)

  datatype Entry = Entry(ref: Ref, da: DataAttribute)

  function EffectiveLdName(ied: string, ld: LogicalDevice): string {
    match ld.ldName
    case Some(n) => n
    case None => ied + ld.inst
  }

  // ---------------------------------------------------------------- lookup by name

  function IndexOf(names: seq<string>, name: string): (r: Option<nat>)
    ensures match r
      case Some(i) => i < |names| && names[i] == name && forall j :: 0 <= j < i ==> names[j] != name
      case None => name !in names
  {
    if |names| == 0 then None
    else if names[0] == name then Some(0)
    else
      match IndexOf(names[1..], name)
      case Some(i) => Some(i + 1)
      case None => None
  }

  ghost predicate Distinct(names: seq<string>) {
    forall i, j :: 0 <= i < j < |names| ==> names[i] != names[j]
  }

  lemma IndexOfDistinct(names: seq<string>, i: nat)
    requires Distinct(names) && i < |names|
    ensures IndexOf(names, names[i]) == Some(i)
  {
  }

  function AttributeNames(das: seq<DataAttribute>): (r: seq<string>)
    ensures |r| == |das|
  {
    seq(|das|, i requires 0 <= i < |das| => das[i].name)
  }

  function ObjectNames(dos: seq<DataObject>): (r: seq<string>)
    ensures |r| == |dos|
  {
    seq(|dos|, i requires 0 <= i < |dos| => dos[i].name)
  }

  function NodeNames(lns: seq<LogicalNode>): (r: seq<string>)
    ensures |r| == |lns|
  {
    seq(|lns|, i requires 0 <= i < |lns| => lns[i].Name())
  }

  function DescendAttribute(da: DataAttribute, path: seq<string>): Option<DataAttribute>
    decreases |path|
  {
    if |path| == 0 then Some(da) else DescendAmong(da.children, path)
  }

  /** The attribute reached from a list of siblings. */
  function DescendAmong(das: seq<DataAttribute>, path: seq<string>): Option<DataAttribute>
    requires |path| > 0
    decreases |path|, 0
  {
    match IndexOf(AttributeNames(das), path[0])
    case Some(i) => DescendAttribute(das[i], path[1..])
    case None => None
  }

  function DescendObject(dobj: DataObject, path: seq<string>): Option<NodeRef>
    decreases |path|
  {
    if |path| == 0 then Some(ObjectNode(dobj))
    else if path[0] in AttributeNames(dobj.attributes) then
      match DescendAmong(dobj.attributes, path)
      case Some(da) => Some(AttributeNode(da))
      case None => None
    else DescendObjects(dobj.subObjects, path)
  }

  function DescendObjects(dos: seq<DataObject>, path: seq<string>): Option<NodeRef>
    requires |path| > 0
    decreases |path|, 0
  {
    match IndexOf(ObjectNames(dos), path[0])
    case Some(i) => DescendObject(dos[i], path[1..])
    case None => None
  }

  /** A device under its effective name. */
  type Named = (string, LogicalDevice)

  function DevicesOf(ied: Ied): seq<Named> {
    seq(|ied.logicalDevices|, i requires 0 <= i < |ied.logicalDevices| =>
      (EffectiveLdName(ied.name, ied.logicalDevices[i]), ied.logicalDevices[i]))
  }

  function Devices(m: Model): seq<Named> {
    if |m| == 0 then [] else DevicesOf(m[0]) + Devices(m[1..])
  }

  /** A device without the logical node does not end the search; one with it does. */
  function ResolveIn(lds: seq<Named>, r: Ref): Option<NodeRef> {
    if |lds| == 0 then None
    else if lds[0].0 != r.ld then ResolveIn(lds[1..], r)
    else if r.ln == "" then Some(DeviceNode(lds[0].1))
    else
      match IndexOf(NodeNames(lds[0].1.logicalNodes), r.ln)
      case None => ResolveIn(lds[1..], r)
      case Some(i) =>
        var ln := lds[0].1.logicalNodes[i];
        if |r.path| == 0 then Some(LogicalNodeNode(ln)) else DescendObjects(ln.dataObjects, r.path)
  }

  method Resolve(m: Model, r: Ref) returns (node: Option<NodeRef>)
    ensures node == ResolveIn(Devices(m), r)
  {
    for k := 0 to |m|
      invariant ResolveIn(Devices(m), r) == ResolveIn(Devices(m[k..]), r)
    {
      var lds := m[k].logicalDevices;
      ghost var all := DevicesOf(m[k]);
      ghost var rest := Devices(m[k + 1..]);
      assert m[k..][1..] == m[k + 1..];
      assert all[0..] + rest == all + rest;
      for i := 0 to |lds|
        invariant ResolveIn(Devices(m), r) == ResolveIn(all[i..] + rest, r)
      {
        ghost var here := all[i..] + rest;
        assert here[0] == all[i] && here[1..] == all[i + 1..] + rest;
        if EffectiveLdName(m[k].name, lds[i]) != r.ld { continue; }
        if r.ln == "" { return Some(DeviceNode(lds[i])); }
        var at := IndexOf(NodeNames(lds[i].logicalNodes), r.ln);
        if at == None { continue; }
        var ln := lds[i].logicalNodes[at.value];
        if |r.path| == 0 { return Some(LogicalNodeNode(ln)); }
        return DescendObjects(ln.dataObjects, r.path);
      }
      assert all[|lds|..] + rest == rest;
    }
    assert m[|m|..] == [];
    node := None;
  }

  // ---------------------------------------------------------------- enumeration

  function CollectAttribute(ld: string, ln: string, path: seq<string>, da: DataAttribute): seq<Entry>
    decreases da
  {
    [Entry(Ref(ld, ln, path, Some(da.fc)), da)] + CollectAttributes(ld, ln, path, da.children)
  }

  function CollectAttributes(ld: string, ln: string, path: seq<string>, das: seq<DataAttribute>): seq<Entry>
    decreases das
  {
    if |das| == 0 then []
    else
      var last := das[|das| - 1];
      CollectAttributes(ld, ln, path, das[..|das| - 1]) + CollectAttribute(ld, ln, path + [last.name], last)
  }

  function CollectObject(ld: string, ln: string, path: seq<string>, dobj: DataObject): seq<Entry>
    decreases dobj
  {
    CollectAttributes(ld, ln, path, dobj.attributes) + CollectObjects(ld, ln, path, dobj.subObjects)
  }

  function CollectObjects(ld: string, ln: string, path: seq<string>, dos: seq<DataObject>): seq<Entry>
    decreases dos
  {
    if |dos| == 0 then []
    else
      var last := dos[|dos| - 1];
      CollectObjects(ld, ln, path, dos[..|dos| - 1]) + CollectObject(ld, ln, path + [last.name], last)
  }

  function CollectNodes(ld: string, lns: seq<LogicalNode>): seq<Entry> {
    if |lns| == 0 then []
    else
      var last := lns[|lns| - 1];
      CollectNodes(ld, lns[..|lns| - 1]) + CollectObjects(ld, last.Name(), [], last.dataObjects)
  }

  function CollectDevices(lds: seq<Named>): seq<Entry> {
    if |lds| == 0 then []
    else
      var last := lds[|lds| - 1];
      CollectDevices(lds[..|lds| - 1]) + CollectNodes(last.0, last.1.logicalNodes)
  }

  method CollectAttributeRecursive(ld: string, ln: string, path: seq<string>, da: DataAttribute, out: seq<Entry>)
    returns (r: seq<Entry>)
    ensures r == out + CollectAttribute(ld, ln, path, da)
    decreases da
  {
    r := out + [Entry(Ref(ld, ln, path, Some(da.fc)), da)];
    ghost var start := r;
    for i := 0 to |da.children|
      invariant r == start + CollectAttributes(ld, ln, path, da.children[..i])
    {
      assert da.children[..i + 1][..i] == da.children[..i];
      r := CollectAttributeRecursive(ld, ln, path + [da.children[i].name], da.children[i], r);
    }
    assert da.children[..|da.children|] == da.children;
  }

  method CollectDataAttributes(ld: string, ln: string, doPath: seq<string>, dobj: DataObject, out: seq<Entry>)
    returns (r: seq<Entry>)
    ensures r == out + CollectObject(ld, ln, doPath, dobj)
    decreases dobj
  {
    r := out;
    for i := 0 to |dobj.attributes|
      invariant r == out + CollectAttributes(ld, ln, doPath, dobj.attributes[..i])
    {
      assert dobj.attributes[..i + 1][..i] == dobj.attributes[..i];
      r := CollectAttributeRecursive(ld, ln, doPath + [dobj.attributes[i].name], dobj.attributes[i], r);
    }
    assert dobj.attributes[..|dobj.attributes|] == dobj.attributes;
    ghost var mid := r;
    for i := 0 to |dobj.subObjects|
      invariant r == mid + CollectObjects(ld, ln, doPath, dobj.subObjects[..i])
    {
      assert dobj.subObjects[..i + 1][..i] == dobj.subObjects[..i];
      r := CollectDataAttributes(ld, ln, doPath + [dobj.subObjects[i].name], dobj.subObjects[i], r);
    }
    assert dobj.subObjects[..|dobj.subObjects|] == dobj.subObjects;
  }

  method CollectLogicalNode(ld: string, ln: LogicalNode, out: seq<Entry>) returns (r: seq<Entry>)
    ensures r == out + CollectObjects(ld, ln.Name(), [], ln.dataObjects)
  {
    r := out;
    for i := 0 to |ln.dataObjects|
      invariant r == out + CollectObjects(ld, ln.Name(), [], ln.dataObjects[..i])
    {
      assert ln.dataObjects[..i + 1][..i] == ln.dataObjects[..i];
      assert [] + [ln.dataObjects[i].name] == [ln.dataObjects[i].name];
      r := CollectDataAttributes(ld, ln.Name(), [ln.dataObjects[i].name], ln.dataObjects[i], r);
    }
    assert ln.dataObjects[..|ln.dataObjects|] == ln.dataObjects;
  }

  method CollectDevice(name: string, ld: LogicalDevice, out: seq<Entry>) returns (r: seq<Entry>)
    ensures r == out + CollectNodes(name, ld.logicalNodes)
  {
    r := out;
    for i := 0 to |ld.logicalNodes|
      invariant r == out + CollectNodes(name, ld.logicalNodes[..i])
    {
      assert ld.logicalNodes[..i + 1][..i] == ld.logicalNodes[..i];
      r := CollectLogicalNode(name, ld.logicalNodes[i], r);
    }
    assert ld.logicalNodes[..|ld.logicalNodes|] == ld.logicalNodes;
  }

  method CollectIed(ied: Ied, ghost seen: seq<Named>, out: seq<Entry>) returns (r: seq<Entry>)
    requires out == CollectDevices(seen)
    ensures r == CollectDevices(seen + DevicesOf(ied))
  {
    r := out;
    var lds := ied.logicalDevices;
    ghost var all := DevicesOf(ied);
    assert seen + all[..0] == seen;
    for i := 0 to |lds|
      invariant r == CollectDevices(seen + all[..i])
    {
      ghost var now := seen + all[..i + 1];
      assert now[..|now| - 1] == seen + all[..i] && now[|now| - 1] == all[i];
      r := CollectDevice(EffectiveLdName(ied.name, lds[i]), lds[i], r);
    }
    assert all[..|lds|] == all;
  }

  method IterDataAttributes(m: Model) returns (out: seq<Entry>)
    ensures out == CollectDevices(Devices(m))
  {
    out := [];
    ghost var seen: seq<Named> := [];
    for k := 0 to |m|
      invariant out == CollectDevices(seen) && seen + Devices(m[k..]) == Devices(m)
    {
      assert m[k..][1..] == m[k + 1..];
      out := CollectIed(m[k], seen, out);
      seen := seen + DevicesOf(m[k]);
    }
    assert m[|m|..] == [] && seen + [] == seen;
  }

  // ---------------------------------------------------------------- agreement

  ghost predicate UniqueAttributes(das: seq<DataAttribute>) {
    Distinct(AttributeNames(das)) && forall i :: 0 <= i < |das| ==> UniqueAttributes(das[i].children)
  }

  ghost predicate UniqueObject(dobj: DataObject) {
    && UniqueAttributes(dobj.attributes) && UniqueObjects(dobj.subObjects)
    && forall n :: n in AttributeNames(dobj.attributes) ==> n !in ObjectNames(dobj.subObjects)
  }

  ghost predicate UniqueObjects(dos: seq<DataObject>) {
    Distinct(ObjectNames(dos)) && forall i :: 0 <= i < |dos| ==> UniqueObject(dos[i])
  }

  ghost predicate UniqueNodes(lns: seq<LogicalNode>) {
    Distinct(NodeNames(lns)) && forall i :: 0 <= i < |lns| ==> UniqueObjects(lns[i].dataObjects)
  }

  function DeviceNames(lds: seq<Named>): (r: seq<string>)
    ensures |r| == |lds|
  {
    seq(|lds|, i requires 0 <= i < |lds| => lds[i].0)
  }

  ghost predicate Unique(lds: seq<Named>) {
    Distinct(DeviceNames(lds)) && forall i :: 0 <= i < |lds| ==> UniqueNodes(lds[i].1.logicalNodes)
  }

  /** Each entry comes from one of the siblings, and each sibling's entries are all there. */
  lemma {:induction false} FromSibling(ld: string, ln: string, path: seq<string>, das: seq<DataAttribute>, e: Entry)
    ensures e in CollectAttributes(ld, ln, path, das) <==>
            exists i :: 0 <= i < |das| && e in CollectAttribute(ld, ln, path + [das[i].name], das[i])
    decreases |das|
  {
    if |das| > 0 {
      var n := |das| - 1;
      FromSibling(ld, ln, path, das[..n], e);
      if i :| 0 <= i < |das| && e in CollectAttribute(ld, ln, path + [das[i].name], das[i]) {
        if i < n { assert das[..n][i] == das[i]; }
      }
    }
  }

  lemma {:induction false} FromSiblingObject(ld: string, ln: string, path: seq<string>, dos: seq<DataObject>, e: Entry)
    ensures e in CollectObjects(ld, ln, path, dos) <==>
            exists i :: 0 <= i < |dos| && e in CollectObject(ld, ln, path + [dos[i].name], dos[i])
    decreases |dos|
  {
    if |dos| > 0 {
      var n := |dos| - 1;
      FromSiblingObject(ld, ln, path, dos[..n], e);
      if i :| 0 <= i < |dos| && e in CollectObject(ld, ln, path + [dos[i].name], dos[i]) {
        if i < n { assert dos[..n][i] == dos[i]; }
      }
    }
  }

  /** The entry belongs to this place of the tree and is reached from it by the rest of its path. */
  ghost predicate Placed(ld: string, ln: string, path: seq<string>, e: Entry) {
    e.ref.ld == ld && e.ref.ln == ln && e.ref.fc == Some(e.da.fc) && path <= e.ref.path
  }

  lemma SplitHead(path: seq<string>, name: string, whole: seq<string>)
    requires path + [name] <= whole
    ensures path <= whole && |path| < |whole|
    ensures whole[|path|..] == [name] + whole[|path| + 1..]
  {
    assert whole[..|path| + 1] == path + [name];
  }

  lemma {:induction false} AttributeFound(ld: string, ln: string, path: seq<string>, da: DataAttribute, e: Entry)
    requires UniqueAttributes(da.children) && e in CollectAttribute(ld, ln, path, da)
    ensures Placed(ld, ln, path, e)
    ensures DescendAttribute(da, e.ref.path[|path|..]) == Some(e.da)
    decreases da, 1
  {
    if e in CollectAttributes(ld, ln, path, da.children) {
      AttributesFound(ld, ln, path, da.children, e);
    } else {
      assert e == Entry(Ref(ld, ln, path, Some(da.fc)), da);
    }
  }

  lemma {:induction false} AttributesFound(ld: string, ln: string, path: seq<string>, das: seq<DataAttribute>, e: Entry)
    requires UniqueAttributes(das) && e in CollectAttributes(ld, ln, path, das)
    ensures Placed(ld, ln, path, e) && |e.ref.path| > |path|
    ensures e.ref.path[|path|] in AttributeNames(das)
    ensures DescendAmong(das, e.ref.path[|path|..]) == Some(e.da)
    decreases das, 0
  {
    FromSibling(ld, ln, path, das, e);
    var i :| 0 <= i < |das| && e in CollectAttribute(ld, ln, path + [das[i].name], das[i]);
    AttributeFound(ld, ln, path + [das[i].name], das[i], e);
    SplitHead(path, das[i].name, e.ref.path);
    IndexOfDistinct(AttributeNames(das), i);
    assert AttributeNames(das)[i] == das[i].name;
    assert e.ref.path[|path|..][1..] == e.ref.path[|path| + 1..];
  }

  lemma {:induction false} ObjectFound(ld: string, ln: string, path: seq<string>, dobj: DataObject, e: Entry)
    requires UniqueObject(dobj) && e in CollectObject(ld, ln, path, dobj)
    ensures Placed(ld, ln, path, e)
    ensures DescendObject(dobj, e.ref.path[|path|..]) == Some(AttributeNode(e.da))
    decreases dobj, 1
  {
    if e in CollectAttributes(ld, ln, path, dobj.attributes) {
      AttributesFound(ld, ln, path, dobj.attributes, e);
    } else {
      ObjectsFound(ld, ln, path, dobj.subObjects, e);
    }
  }

  lemma {:induction false} ObjectsFound(ld: string, ln: string, path: seq<string>, dos: seq<DataObject>, e: Entry)
    requires UniqueObjects(dos) && e in CollectObjects(ld, ln, path, dos)
    ensures Placed(ld, ln, path, e) && |e.ref.path| > |path|
    ensures e.ref.path[|path|] in ObjectNames(dos)
    ensures DescendObjects(dos, e.ref.path[|path|..]) == Some(AttributeNode(e.da))
    decreases dos, 0
  {
    FromSiblingObject(ld, ln, path, dos, e);
    var i :| 0 <= i < |dos| && e in CollectObject(ld, ln, path + [dos[i].name], dos[i]);
    ObjectFound(ld, ln, path + [dos[i].name], dos[i], e);
    SplitHead(path, dos[i].name, e.ref.path);
    IndexOfDistinct(ObjectNames(dos), i);
    assert ObjectNames(dos)[i] == dos[i].name;
    assert e.ref.path[|path|..][1..] == e.ref.path[|path| + 1..];
  }

  lemma {:induction false} FromNode(ld: string, lns: seq<LogicalNode>, e: Entry)
    ensures e in CollectNodes(ld, lns) <==>
            exists i :: 0 <= i < |lns| && e in CollectObjects(ld, lns[i].Name(), [], lns[i].dataObjects)
  {
    if |lns| > 0 {
      var n := |lns| - 1;
      FromNode(ld, lns[..n], e);
      if i :| 0 <= i < |lns| && e in CollectObjects(ld, lns[i].Name(), [], lns[i].dataObjects) {
        if i < n { assert lns[..n][i] == lns[i]; }
      }
    }
  }

  lemma {:induction false} FromDevice(lds: seq<Named>, e: Entry)
    ensures e in CollectDevices(lds) <==>
            exists i :: 0 <= i < |lds| && e in CollectNodes(lds[i].0, lds[i].1.logicalNodes)
  {
    if |lds| > 0 {
      var n := |lds| - 1;
      FromDevice(lds[..n], e);
      if i :| 0 <= i < |lds| && e in CollectNodes(lds[i].0, lds[i].1.logicalNodes) {
        if i < n { assert lds[..n][i] == lds[i]; }
      }
    }
  }

  lemma {:induction false} ResolveAt(lds: seq<Named>, i: nat, r: Ref)
    requires Distinct(DeviceNames(lds)) && i < |lds| && lds[i].0 == r.ld
    ensures ResolveIn(lds, r) == ResolveIn(lds[i..], r)
    decreases i
  {
    if i > 0 {
      assert DeviceNames(lds)[0] != DeviceNames(lds)[i];
      assert forall j :: 0 <= j < |lds| - 1 ==> DeviceNames(lds[1..])[j] == DeviceNames(lds)[j + 1];
      ResolveAt(lds[1..], i - 1, r);
      assert lds[1..][i - 1..] == lds[i..];
    }
  }

  /** A pair of the enumeration, resolved: the attribute, or the device when its node has no name. */
  lemma EntryResolves(lds: seq<Named>, e: Entry)
    requires Unique(lds) && e in CollectDevices(lds)
    ensures e.ref.fc == Some(e.da.fc)
    ensures if e.ref.ln == "" then ResolveIn(lds, e.ref).Some? && ResolveIn(lds, e.ref).value.DeviceNode?
            else ResolveIn(lds, e.ref) == Some(AttributeNode(e.da))
  {
    FromDevice(lds, e);
    var i :| 0 <= i < |lds| && e in CollectNodes(lds[i].0, lds[i].1.logicalNodes);
    var lns := lds[i].1.logicalNodes;
    FromNode(lds[i].0, lns, e);
    var k :| 0 <= k < |lns| && e in CollectObjects(lds[i].0, lns[k].Name(), [], lns[k].dataObjects);
    ObjectsFound(lds[i].0, lns[k].Name(), [], lns[k].dataObjects, e);
    assert e.ref.path[0..] == e.ref.path;
    ResolveAt(lds, i, e.ref);
    assert NodeNames(lns)[k] == lns[k].Name();
    IndexOfDistinct(NodeNames(lns), k);
  }

  /** Devices before the `i`-th do not have the name, or have it and not the logical node. */
  ghost predicate PassedOver(lds: seq<Named>, i: nat, r: Ref) {
    i <= |lds| && forall j :: 0 <= j < i && lds[j].0 == r.ld ==> r.ln != "" && r.ln !in NodeNames(lds[j].1.logicalNodes)
  }

  lemma {:induction false} SearchSkips(lds: seq<Named>, i: nat, r: Ref)
    requires PassedOver(lds, i, r)
    ensures ResolveIn(lds, r) == ResolveIn(lds[i..], r)
    decreases i
  {
    if i > 0 {
      assert PassedOver(lds[1..], i - 1, r);
      SearchSkips(lds[1..], i - 1, r);
      assert lds[1..][i - 1..] == lds[i..];
    } else {
      assert lds[0..] == lds;
    }
  }

  /** With or without unique names: the first device of the name that has the logical node is where the
    * search goes on, and devices of the name without it are passed over. */
  lemma {:induction false} SearchFinds(lds: seq<Named>, i: nat, k: nat, r: Ref)
    requires PassedOver(lds, i, r) && i < |lds| && lds[i].0 == r.ld && r.ln != ""
    requires k < |lds[i].1.logicalNodes| && lds[i].1.logicalNodes[k].Name() == r.ln
    requires forall j :: 0 <= j < k ==> lds[i].1.logicalNodes[j].Name() != r.ln
    ensures var ln := lds[i].1.logicalNodes[k];
      ResolveIn(lds, r) == if |r.path| == 0 then Some(LogicalNodeNode(ln)) else DescendObjects(ln.dataObjects, r.path)
  {
    SearchSkips(lds, i, r);
    FirstOfName(lds[i].1.logicalNodes, k, r.ln);
    assert lds[i..][0] == lds[i];
  }

  lemma FirstOfName(lns: seq<LogicalNode>, k: nat, name: string)
    requires k < |lns| && lns[k].Name() == name && forall j :: 0 <= j < k ==> lns[j].Name() != name
    ensures IndexOf(NodeNames(lns), name) == Some(k)
  {
    assert NodeNames(lns)[k] == name;
    assert forall j :: 0 <= j < k ==> NodeNames(lns)[j] != name;
  }

  lemma {:induction false} SearchFails(lds: seq<Named>, r: Ref)
    requires forall j :: 0 <= j < |lds| && lds[j].0 == r.ld ==> r.ln != "" && r.ln !in NodeNames(lds[j].1.logicalNodes)
    ensures ResolveIn(lds, r) == None
  {
    if |lds| > 0 { SearchFails(lds[1..], r); }
  }

  /** The enumeration follows the configuration: an attribute comes before those inside it, and siblings come
    * in their order, as do the objects of a node and of an object. */
  lemma {:induction false} SourceOrder(ld: string, ln: string, path: seq<string>, das: seq<DataAttribute>, i: nat)
    requires i < |das|
    ensures var p := path + [das[i].name];
      CollectAttributes(ld, ln, path, das) ==
      CollectAttributes(ld, ln, path, das[..i]) + [Entry(Ref(ld, ln, p, Some(das[i].fc)), das[i])]
      + CollectAttributes(ld, ln, p, das[i].children) + CollectAttributes(ld, ln, path, das[i + 1..])
    decreases |das|
  {
    var n := |das| - 1;
    if i < n {
      SourceOrder(ld, ln, path, das[..n], i);
      assert das[..n][..i] == das[..i] && das[..n][i + 1..] == das[i + 1..][..n - i - 1];
      assert das[i + 1..][|das[i + 1..]| - 1] == das[n];
    } else {
      assert das[i + 1..] == [];
    }
  }

  lemma {:induction false} ObjectOrder(ld: string, ln: string, path: seq<string>, dos: seq<DataObject>, i: nat)
    requires i < |dos|
    ensures CollectObjects(ld, ln, path, dos) ==
            CollectObjects(ld, ln, path, dos[..i]) + CollectObject(ld, ln, path + [dos[i].name], dos[i])
            + CollectObjects(ld, ln, path, dos[i + 1..])
    decreases |dos|
  {
    var n := |dos| - 1;
    if i < n {
      var front, rest := dos[..n], dos[i + 1..][..n - i - 1];
      ObjectOrder(ld, ln, path, front, i);
      assert front[..i] == dos[..i] && front[i + 1..] == rest;
      assert dos[i + 1..] == rest + [dos[n]] && dos == front + [dos[n]];
      ObjectsSnoc(ld, ln, path, rest, dos[n]);
      ObjectsSnoc(ld, ln, path, front, dos[n]);
      ConcatLast(CollectObjects(ld, ln, path, dos[..i]), CollectObject(ld, ln, path + [dos[i].name], dos[i]),
                 CollectObjects(ld, ln, path, rest), CollectObject(ld, ln, path + [dos[n].name], dos[n]));
    } else {
      assert dos[i + 1..] == [] && dos == dos[..n] + [dos[n]];
      ObjectsSnoc(ld, ln, path, dos[..n], dos[n]);
    }
  }

  lemma ConcatLast(a: seq<Entry>, b: seq<Entry>, c: seq<Entry>, d: seq<Entry>)
    ensures (a + b + c) + d == a + b + (c + d)
  {
  }

  lemma ObjectsSnoc(ld: string, ln: string, path: seq<string>, dos: seq<DataObject>, dobj: DataObject)
    ensures CollectObjects(ld, ln, path, dos + [dobj]) ==
            CollectObjects(ld, ln, path, dos) + CollectObject(ld, ln, path + [dobj.name], dobj)
  {
    assert (dos + [dobj])[..|dos|] == dos;
  }

  lemma {:induction false} DeviceAt(m: Model, i: nat, j: nat) returns (n: nat)
    requires i < |m| && j < |m[i].logicalDevices|
    ensures n < |Devices(m)| && Devices(m)[n] == DevicesOf(m[i])[j]
    decreases i
  {
    if i == 0 {
      n := j;
    } else {
      var k := DeviceAt(m[1..], i - 1, j);
      n := |DevicesOf(m[0])| + k;
    }
  }

  /** By the names of the configuration: a device is known by its `ldName` or else by the name of its IED
    * with its instance, a logical node by prefix, class and instance, and that reference finds it. */
  lemma {:induction false} NodeIsReached(m: Model, i: nat, j: nat, k: nat)
    requires Unique(Devices(m))
    requires i < |m| && j < |m[i].logicalDevices| && k < |m[i].logicalDevices[j].logicalNodes|
    ensures var d := m[i].logicalDevices[j];
      var ln := d.logicalNodes[k];
      var ld, text := if d.ldName.Some? then d.ldName.value else m[i].name + d.inst, ln.prefix + ln.class_ + ln.inst;
      && ResolveIn(Devices(m), Ref(ld, "", [], None)) == Some(DeviceNode(d))
      && (text != "" ==> ResolveIn(Devices(m), Ref(ld, text, [], None)) == Some(LogicalNodeNode(ln)))
  {
    var lds, d := Devices(m), m[i].logicalDevices[j];
    var n := DeviceAt(m, i, j);
    assert lds[n] == (EffectiveLdName(m[i].name, d), d);
    ResolveAt(lds, n, Ref(lds[n].0, "", [], None));
    assert UniqueNodes(lds[n].1.logicalNodes);
    IndexOfDistinct(NodeNames(d.logicalNodes), k);
    ResolveAt(lds, n, Ref(lds[n].0, NodeNames(d.logicalNodes)[k], [], None));
  }

  ghost predicate NamedNodes(lds: seq<Named>) {
    forall i, k :: 0 <= i < |lds| && 0 <= k < |lds[i].1.logicalNodes| ==>
      HasAttributes(lds[i].1.logicalNodes[k]) ==> lds[i].1.logicalNodes[k].Name() != ""
  }

  ghost predicate HasAttributes(ln: LogicalNode) { CollectObjects("", "", [], ln.dataObjects) != [] }

  lemma {:induction false} SizeOfAttributes(ld: string, ln: string, path: seq<string>, das: seq<DataAttribute>)
    ensures CollectAttributes(ld, ln, path, das) == [] <==> das == []
  {
  }

  lemma {:induction false} SizeOfObjects(ld: string, ln: string, path: seq<string>, path': seq<string>,
                                         dos: seq<DataObject>)
    ensures CollectObjects(ld, ln, path, dos) == [] <==> CollectObjects("", "", path', dos) == []
    decreases dos
  {
    if |dos| > 0 {
      var n := |dos| - 1;
      var last := dos[n];
      SizeOfObjects(ld, ln, path, path', dos[..n]);
      SizeOfObjects(ld, ln, path + [last.name], path' + [last.name], last.subObjects);
      SizeOfAttributes(ld, ln, path + [last.name], last.attributes);
      SizeOfAttributes("", "", path' + [last.name], last.attributes);
    }
  }

  /** With unique names, every enumerated pair resolves to its attribute exactly when every logical
    * node that has attributes has a name: the reference of a nameless node denotes the device. */
  lemma EnumerationResolvesIff(lds: seq<Named>)
    requires Unique(lds)
    ensures (forall e :: e in CollectDevices(lds) ==> ResolveIn(lds, e.ref) == Some(AttributeNode(e.da)))
            <==> NamedNodes(lds)
  {
    forall e | e in CollectDevices(lds)
      ensures e.ref.ln != "" ==> ResolveIn(lds, e.ref) == Some(AttributeNode(e.da))
      ensures NamedNodes(lds) ==> e.ref.ln != ""
    {
      EntryResolves(lds, e);
      EntryOfNamed(lds, e);
    }
    forall i, k | 0 <= i < |lds| && 0 <= k < |lds[i].1.logicalNodes| && HasAttributes(lds[i].1.logicalNodes[k])
      ensures lds[i].1.logicalNodes[k].Name() == "" ==>
        exists e :: e in CollectDevices(lds) && ResolveIn(lds, e.ref) != Some(AttributeNode(e.da))
    {
      if lds[i].1.logicalNodes[k].Name() == "" {
        var e := Nameless(lds, i, k);
        EntryResolves(lds, e);
      }
    }
  }

  lemma EntryOfNamed(lds: seq<Named>, e: Entry)
    requires Unique(lds) && e in CollectDevices(lds)
    ensures NamedNodes(lds) ==> e.ref.ln != ""
  {
    FromDevice(lds, e);
    var i :| 0 <= i < |lds| && e in CollectNodes(lds[i].0, lds[i].1.logicalNodes);
    var lns := lds[i].1.logicalNodes;
    FromNode(lds[i].0, lns, e);
    var k :| 0 <= k < |lns| && e in CollectObjects(lds[i].0, lns[k].Name(), [], lns[k].dataObjects);
    ObjectsFound(lds[i].0, lns[k].Name(), [], lns[k].dataObjects, e);
    SizeOfObjects(lds[i].0, lns[k].Name(), [], [], lns[k].dataObjects);
    assert HasAttributes(lds[i].1.logicalNodes[k]);
  }

  lemma Nameless(lds: seq<Named>, i: nat, k: nat) returns (e: Entry)
    requires Unique(lds) && i < |lds| && k < |lds[i].1.logicalNodes|
    requires HasAttributes(lds[i].1.logicalNodes[k]) && lds[i].1.logicalNodes[k].Name() == ""
    ensures e in CollectDevices(lds) && e.ref.ln == ""
  {
    var ln := lds[i].1.logicalNodes[k];
    SizeOfObjects(lds[i].0, "", [], [], ln.dataObjects);
    e := CollectObjects(lds[i].0, "", [], ln.dataObjects)[0];
    assert e in CollectObjects(lds[i].0, ln.Name(), [], ln.dataObjects);
    FromNode(lds[i].0, lds[i].1.logicalNodes, e);
    FromDevice(lds, e);
    ObjectsFound(lds[i].0, "", [], ln.dataObjects, e);
  }

  // ---------------------------------------------------------------- completeness

  lemma {:induction false} AttributeListed(ld: string, ln: string, path: seq<string>, da: DataAttribute,
                                           rest: seq<string>)
    requires DescendAttribute(da, rest).Some?
    ensures var x := DescendAttribute(da, rest).value;
      Entry(Ref(ld, ln, path + rest, Some(x.fc)), x) in CollectAttribute(ld, ln, path, da)
    decreases |rest|, 1
  {
    if |rest| > 0 {
      AttributesListed(ld, ln, path, da.children, rest);
    } else {
      assert path + rest == path;
    }
  }

  lemma {:induction false} AttributesListed(ld: string, ln: string, path: seq<string>, das: seq<DataAttribute>,
                                            rest: seq<string>)
    requires |rest| > 0 && DescendAmong(das, rest).Some?
    ensures var x := DescendAmong(das, rest).value;
      Entry(Ref(ld, ln, path + rest, Some(x.fc)), x) in CollectAttributes(ld, ln, path, das)
    decreases |rest|, 0
  {
    var x, i := DescendAmong(das, rest).value, IndexOf(AttributeNames(das), rest[0]).value;
    AttributeListed(ld, ln, path + [das[i].name], das[i], rest[1..]);
    assert path + [das[i].name] + rest[1..] == path + rest;
    FromSibling(ld, ln, path, das, Entry(Ref(ld, ln, path + rest, Some(x.fc)), x));
  }

  lemma {:induction false} ObjectListed(ld: string, ln: string, path: seq<string>, dobj: DataObject,
                                        rest: seq<string>, x: DataAttribute)
    requires DescendObject(dobj, rest) == Some(AttributeNode(x))
    ensures Entry(Ref(ld, ln, path + rest, Some(x.fc)), x) in CollectObject(ld, ln, path, dobj)
    decreases |rest|, 1
  {
    if rest[0] in AttributeNames(dobj.attributes) {
      AttributesListed(ld, ln, path, dobj.attributes, rest);
    } else {
      ObjectsListed(ld, ln, path, dobj.subObjects, rest, x);
    }
  }

  lemma {:induction false} ObjectsListed(ld: string, ln: string, path: seq<string>, dos: seq<DataObject>,
                                         rest: seq<string>, x: DataAttribute)
    requires |rest| > 0 && DescendObjects(dos, rest) == Some(AttributeNode(x))
    ensures Entry(Ref(ld, ln, path + rest, Some(x.fc)), x) in CollectObjects(ld, ln, path, dos)
    decreases |rest|, 0
  {
    var i := IndexOf(ObjectNames(dos), rest[0]).value;
    ObjectListed(ld, ln, path + [dos[i].name], dos[i], rest[1..], x);
    assert path + [dos[i].name] + rest[1..] == path + rest;
    FromSiblingObject(ld, ln, path, dos, Entry(Ref(ld, ln, path + rest, Some(x.fc)), x));
  }

  /** Every attribute that a lookup reaches is enumerated under that reference, whatever the names. */
  lemma {:induction false} ReachableIsListed(lds: seq<Named>, r: Ref, x: DataAttribute)
    requires ResolveIn(lds, r) == Some(AttributeNode(x))
    ensures Entry(Ref(r.ld, r.ln, r.path, Some(x.fc)), x) in CollectDevices(lds)
    decreases |lds|
  {
    var e := Entry(Ref(r.ld, r.ln, r.path, Some(x.fc)), x);
    var lns := lds[0].1.logicalNodes;
    if lds[0].0 != r.ld || IndexOf(NodeNames(lns), r.ln) == None {
      ReachableIsListed(lds[1..], r, x);
      FromDevice(lds[1..], e);
      var i :| 0 <= i < |lds[1..]| && e in CollectNodes(lds[1..][i].0, lds[1..][i].1.logicalNodes);
      assert lds[1..][i] == lds[i + 1];
    } else {
      var k := IndexOf(NodeNames(lns), r.ln).value;
      ObjectsListed(r.ld, r.ln, [], lns[k].dataObjects, r.path, x);
      assert [] + r.path == r.path;
      FromNode(r.ld, lns, e);
    }
    FromDevice(lds, e);
  }

  // ---------------------------------------------------------------- once each

  ghost predicate Once(es: seq<Entry>) { forall i, j :: 0 <= i < j < |es| ==> es[i].ref != es[j].ref }

  lemma OnceConcat(a: seq<Entry>, b: seq<Entry>)
    requires Once(a) && Once(b)
    requires forall x, y :: x in a && y in b ==> x.ref != y.ref
    ensures Once(a + b)
  {
    forall i, j | 0 <= i < j < |a + b|
      ensures (a + b)[i].ref != (a + b)[j].ref
    {
      if i < |a| <= j { assert a[i] in a && b[j - |a|] in b; }
    }
  }

  lemma UniqueFront(das: seq<DataAttribute>, n: nat)
    requires UniqueAttributes(das) && n <= |das|
    ensures UniqueAttributes(das[..n])
  {
    assert forall i :: 0 <= i < n ==> AttributeNames(das[..n])[i] == AttributeNames(das)[i];
  }

  lemma UniqueFrontObjects(dos: seq<DataObject>, n: nat)
    requires UniqueObjects(dos) && n <= |dos|
    ensures UniqueObjects(dos[..n])
  {
    assert forall i :: 0 <= i < n ==> ObjectNames(dos[..n])[i] == ObjectNames(dos)[i];
  }

  lemma {:induction false} AttributesOnce(ld: string, ln: string, path: seq<string>, das: seq<DataAttribute>)
    requires UniqueAttributes(das)
    ensures Once(CollectAttributes(ld, ln, path, das))
    decreases das
  {
    if |das| > 0 {
      var n := |das| - 1;
      var last := das[n];
      UniqueFront(das, n);
      AttributesOnce(ld, ln, path, das[..n]);
      AttributesOnce(ld, ln, path + [last.name], last.children);
      var self := [Entry(Ref(ld, ln, path + [last.name], Some(last.fc)), last)];
      var below := CollectAttributes(ld, ln, path + [last.name], last.children);
      forall y | y in below
        ensures y.ref != self[0].ref
      {
        AttributesFound(ld, ln, path + [last.name], last.children, y);
      }
      OnceConcat(self, below);
      var a, b := CollectAttributes(ld, ln, path, das[..n]), CollectAttribute(ld, ln, path + [last.name], last);
      forall x, y | x in a && y in b
        ensures x.ref != y.ref
      {
        AttributesFound(ld, ln, path, das[..n], x);
        AttributeFound(ld, ln, path + [last.name], last, y);
        SplitHead(path, last.name, y.ref.path);
        assert y.ref.path[|path|] == y.ref.path[|path|..][0] == last.name;
        NotInFront(AttributeNames(das), n, AttributeNames(das[..n]));
      }
      OnceConcat(a, b);
    }
  }

  lemma NotInFront(names: seq<string>, n: nat, front: seq<string>)
    requires Distinct(names) && n < |names| && |front| == n && forall i :: 0 <= i < n ==> front[i] == names[i]
    ensures names[n] !in front
  {
  }

  lemma {:induction false} ObjectsOnce(ld: string, ln: string, path: seq<string>, dos: seq<DataObject>)
    requires UniqueObjects(dos)
    ensures Once(CollectObjects(ld, ln, path, dos))
    decreases dos
  {
    if |dos| > 0 {
      var n := |dos| - 1;
      var last := dos[n];
      UniqueFrontObjects(dos, n);
      ObjectsOnce(ld, ln, path, dos[..n]);
      ObjectOnce(ld, ln, path + [last.name], last);
      var a, b := CollectObjects(ld, ln, path, dos[..n]), CollectObject(ld, ln, path + [last.name], last);
      forall x, y | x in a && y in b
        ensures x.ref != y.ref
      {
        ObjectsFound(ld, ln, path, dos[..n], x);
        ObjectFound(ld, ln, path + [last.name], last, y);
        SplitHead(path, last.name, y.ref.path);
        assert y.ref.path[|path|] == y.ref.path[|path|..][0] == last.name;
        NotInFront(ObjectNames(dos), n, ObjectNames(dos[..n]));
      }
      OnceConcat(a, b);
    }
  }

  lemma {:induction false} ObjectOnce(ld: string, ln: string, path: seq<string>, dobj: DataObject)
    requires UniqueObject(dobj)
    ensures Once(CollectObject(ld, ln, path, dobj))
    decreases dobj
  {
    AttributesOnce(ld, ln, path, dobj.attributes);
    ObjectsOnce(ld, ln, path, dobj.subObjects);
    var a, b := CollectAttributes(ld, ln, path, dobj.attributes), CollectObjects(ld, ln, path, dobj.subObjects);
    forall x, y | x in a && y in b
      ensures x.ref != y.ref
    {
      AttributesFound(ld, ln, path, dobj.attributes, x);
      ObjectsFound(ld, ln, path, dobj.subObjects, y);
    }
    OnceConcat(a, b);
  }

  lemma {:induction false} NodesOnce(ld: string, lns: seq<LogicalNode>)
    requires UniqueNodes(lns)
    ensures Once(CollectNodes(ld, lns))
    ensures forall e :: e in CollectNodes(ld, lns) ==> e.ref.ld == ld && e.ref.ln in NodeNames(lns)
  {
    if |lns| > 0 {
      var n := |lns| - 1;
      var last := lns[n];
      assert forall i :: 0 <= i < n ==> NodeNames(lns[..n])[i] == NodeNames(lns)[i];
      NodesOnce(ld, lns[..n]);
      ObjectsOnce(ld, last.Name(), [], last.dataObjects);
      NotInFront(NodeNames(lns), n, NodeNames(lns[..n]));
      forall y | y in CollectObjects(ld, last.Name(), [], last.dataObjects)
        ensures y.ref.ld == ld && y.ref.ln == NodeNames(lns)[n]
      {
        ObjectsFound(ld, last.Name(), [], last.dataObjects, y);
      }
      OnceConcat(CollectNodes(ld, lns[..n]), CollectObjects(ld, last.Name(), [], last.dataObjects));
      assert forall x :: x in NodeNames(lns[..n]) ==> x in NodeNames(lns);
    }
  }

  /** With unique names no reference is enumerated twice. */
  lemma {:induction false} EnumeratedOnce(lds: seq<Named>)
    requires Unique(lds)
    ensures Once(CollectDevices(lds))
    ensures forall e :: e in CollectDevices(lds) ==> e.ref.ld in DeviceNames(lds)
  {
    if |lds| > 0 {
      var n := |lds| - 1;
      assert forall i :: 0 <= i < n ==> DeviceNames(lds[..n])[i] == DeviceNames(lds)[i];
      EnumeratedOnce(lds[..n]);
      NodesOnce(lds[n].0, lds[n].1.logicalNodes);
      NotInFront(DeviceNames(lds), n, DeviceNames(lds[..n]));
      assert DeviceNames(lds)[n] == lds[n].0;
      OnceConcat(CollectDevices(lds[..n]), CollectNodes(lds[n].0, lds[n].1.logicalNodes));
      assert forall x :: x in DeviceNames(lds[..n]) ==> x in DeviceNames(lds);
    }
  }
}
