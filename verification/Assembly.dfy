/** Assembling the MMS structure of a composite item from the flat namespace of the server. */
module Assembly {
  import opened Wrappers
  import opened MmsValues

  /** `p` is `item$...`. */
  predicate Below(item: Path, p: Path) { item < p }

  function Lookup(store: Store, p: Path): MmsData {
    if p in store then store[p] else Bool(false)
  }

  /** The direct children of `item`, in the order in which the namespace first mentions them. */
  function Children(ns: seq<Path>, item: Path): (kids: seq<Path>)
    ensures forall k :: k in kids ==> |k| == |item| + 1 && item < k
  {
    if |ns| == 0 then []
    else
      var kids := Children(ns[..|ns| - 1], item);
      var it := ns[|ns| - 1];
      if Below(item, it) && it[..|item| + 1] !in kids then kids + [it[..|item| + 1]] else kids
  }

  method CollectChildren(ns: seq<Path>, item: Path) returns (kids: seq<Path>)
    ensures kids == Children(ns, item)
  {
    kids := [];
    for i := 0 to |ns|
      invariant kids == Children(ns[..i], item)
    {
      assert ns[..i + 1][..i] == ns[..i];
      if Below(item, ns[i]) {
        var child := ns[i][..|item| + 1];
        if child !in kids { kids := kids + [child]; }
      }
    }
    assert ns[..|ns|] == ns;
  }

  function Depth(ns: seq<Path>): nat {
    if |ns| == 0 then 0
    else
      var d := Depth(ns[..|ns| - 1]);
      if |ns[|ns| - 1]| > d then |ns[|ns| - 1]| else d
  }

  lemma {:induction false} DepthBounds(ns: seq<Path>, p: Path)
    requires p in ns
    ensures |p| <= Depth(ns)
  {
    if p != ns[|ns| - 1] {
      DepthBounds(ns[..|ns| - 1], p);
    }
  }

  ghost predicate NoDuplicates<T>(s: seq<T>) {
    forall i, j :: 0 <= i < j < |s| ==> s[i] != s[j]
  }

  /** Some item of the namespace is `k` or lies below it. */
  ghost predicate Passed(ns: seq<Path>, k: Path) { exists p :: p in ns && k <= p }

  lemma PassedSnoc(ns: seq<Path>, k: Path)
    requires |ns| > 0
    ensures Passed(ns, k) <==> Passed(ns[..|ns| - 1], k) || k <= ns[|ns| - 1]
  {
    var front := ns[..|ns| - 1];
    assert ns == front + [ns[|ns| - 1]];
    if Passed(ns, k) {
      var p :| p in ns && k <= p;
      assert p in front || p == ns[|ns| - 1];
    }
    assert ns[|ns| - 1] in ns;
    if Passed(front, k) {
      var p :| p in front && k <= p;
      assert p in ns;
    }
  }

  /** A child is listed once, exactly when some item of the namespace passes through it. */
  lemma {:induction false} ChildrenAre(ns: seq<Path>, item: Path)
    ensures NoDuplicates(Children(ns, item))
    ensures forall k :: k in Children(ns, item) <==> |k| == |item| + 1 && item < k && Passed(ns, k)
  {
    if |ns| > 0 {
      var front, it := ns[..|ns| - 1], ns[|ns| - 1];
      ChildrenAre(front, item);
      forall k
        ensures k in Children(ns, item) <==> |k| == |item| + 1 && item < k && Passed(ns, k)
      {
        PassedSnoc(ns, k);
        if |k| == |item| + 1 && item < k && k <= it { assert k == it[..|item| + 1]; }
      }
    }
  }

  lemma ChildDepth(ns: seq<Path>, item: Path, k: Path)
    requires k in Children(ns, item)
    ensures |item| < |k| <= Depth(ns)
  {
    ChildrenAre(ns, item);
    var p :| p in ns && k <= p;
    DepthBounds(ns, p);
  }

  /** `None` when the item has no children; otherwise the structure of its components. */
  function Assemble(ns: seq<Path>, item: Path, store: Store): Option<MmsData>
    decreases Depth(ns) - |item|, 0, 0
  {
    var kids := Children(ns, item);
    if kids == [] then None
    else
      ChildDepth(ns, item, kids[0]);
      Some(Structure(Components(ns, kids, |item| + 1, store)))
  }

  function Components(ns: seq<Path>, kids: seq<Path>, level: nat, store: Store): (r: seq<MmsData>)
    requires forall k :: k in kids ==> |k| == level
    ensures |r| == |kids|
    decreases Depth(ns) - level, 1, |kids|
  {
    if |kids| == 0 then []
    else
      assert kids[0] in kids;
      var head := match Assemble(ns, kids[0], store)
        case Some(s) => s
        case None => Lookup(store, kids[0]);
      [head] + Components(ns, kids[1..], level, store)
  }

  // ---------------------------------------------------------------- what the structure contains

  /** The shape of an assembled value: which item supplies each leaf. */
  datatype Tree = Leaf(path: Path) | Node(kids: seq<Tree>)

  function Shape(ns: seq<Path>, item: Path): Tree
    decreases Depth(ns) - |item|, 0, 0
  {
    var kids := Children(ns, item);
    if kids == [] then Leaf(item)
    else
      ChildDepth(ns, item, kids[0]);
      Node(Shapes(ns, kids, |item| + 1))
  }

  function Shapes(ns: seq<Path>, kids: seq<Path>, level: nat): (r: seq<Tree>)
    requires forall k :: k in kids ==> |k| == level
    ensures |r| == |kids|
    decreases Depth(ns) - level, 1, |kids|
  {
    if |kids| == 0 then []
    else
      assert kids[0] in kids;
      [Shape(ns, kids[0])] + Shapes(ns, kids[1..], level)
  }

  function Fill(t: Tree, store: Store): MmsData {
    match t
    case Leaf(p) => Lookup(store, p)
    case Node(kids) => Structure(FillAll(kids, store))
  }

  function FillAll(ts: seq<Tree>, store: Store): seq<MmsData> {
    if |ts| == 0 then [] else [Fill(ts[0], store)] + FillAll(ts[1..], store)
  }

  function Leaves(t: Tree): seq<Path> {
    match t
    case Leaf(p) => [p]
    case Node(kids) => LeavesOf(kids)
  }

  function LeavesOf(ts: seq<Tree>): seq<Path> {
    if |ts| == 0 then [] else Leaves(ts[0]) + LeavesOf(ts[1..])
  }

  /** The value is the shape filled from the store; intermediate nodes never supply a value. */
  lemma {:induction false} AssembleFills(ns: seq<Path>, item: Path, store: Store)
    ensures Assemble(ns, item, store) ==
            if Children(ns, item) == [] then None else Some(Fill(Shape(ns, item), store))
    decreases Depth(ns) - |item|, 0, 0
  {
    var kids := Children(ns, item);
    if kids != [] {
      ChildDepth(ns, item, kids[0]);
      ComponentsFill(ns, kids, |item| + 1, store);
    }
  }

  lemma {:induction false} ComponentsFill(ns: seq<Path>, kids: seq<Path>, level: nat, store: Store)
    requires forall k :: k in kids ==> |k| == level
    ensures Components(ns, kids, level, store) == FillAll(Shapes(ns, kids, level), store)
    decreases Depth(ns) - level, 1, |kids|
  {
    if |kids| > 0 {
      assert kids[0] in kids;
      AssembleFills(ns, kids[0], store);
      ComponentsFill(ns, kids[1..], level, store);
      var ts := Shapes(ns, kids, level);
      assert ts[1..] == Shapes(ns, kids[1..], level);
    }
  }

  ghost predicate HasDescendant(ns: seq<Path>, item: Path) { exists p :: p in ns && Below(item, p) }

  /** A descendant of `item` that no other item of the namespace extends. */
  ghost predicate LeafBelow(ns: seq<Path>, item: Path, p: Path) {
    p in ns && item < p && !HasDescendant(ns, p)
  }

  lemma NoChildrenIffNoDescendant(ns: seq<Path>, item: Path)
    ensures Children(ns, item) == [] <==> !HasDescendant(ns, item)
  {
    ChildrenAre(ns, item);
    if HasDescendant(ns, item) {
      var p :| p in ns && Below(item, p);
      assert p[..|item| + 1] in Children(ns, item);
    }
    if Children(ns, item) != [] {
      var k := Children(ns, item)[0];
      assert k in Children(ns, item);
      var p :| p in ns && k <= p;
      assert Below(item, p);
    }
  }

  lemma {:induction false} ShapeLeaves(ns: seq<Path>, item: Path)
    ensures NoDuplicates(Leaves(Shape(ns, item)))
    ensures forall p :: p in Leaves(Shape(ns, item)) <==>
              if HasDescendant(ns, item) then LeafBelow(ns, item, p) else p == item
    decreases Depth(ns) - |item|, 0, 0
  {
    var kids := Children(ns, item);
    NoChildrenIffNoDescendant(ns, item);
    ChildrenAre(ns, item);
    if kids != [] {
      ChildDepth(ns, item, kids[0]);
      ShapesLeaves(ns, kids, |item| + 1);
      assert Leaves(Shape(ns, item)) == LeavesOf(Shapes(ns, kids, |item| + 1));
      forall p
        ensures p in Leaves(Shape(ns, item)) <==> LeafBelow(ns, item, p)
      {
        LeafThroughChild(ns, item, p);
      }
    }
  }

  /** An item is below another exactly when one of its prefixes is a child of that one. */
  lemma LeafThroughChild(ns: seq<Path>, item: Path, p: Path)
    ensures LeafBelow(ns, item, p) <==>
            |p| >= |item| + 1 && p in ns && !HasDescendant(ns, p) && p[..|item| + 1] in Children(ns, item)
  {
    ChildrenAre(ns, item);
    if LeafBelow(ns, item, p) {
      assert p[..|item| + 1] in Children(ns, item) && p[..|item| + 1] <= p;
    }
  }

  /** A leaf of the namespace that passes through one of the children. */
  ghost predicate LeafThrough(ns: seq<Path>, kids: seq<Path>, level: nat, p: Path) {
    |p| >= level && p in ns && !HasDescendant(ns, p) && p[..level] in kids
  }

  ghost predicate LeafFrom(ns: seq<Path>, k: Path, p: Path) { p in ns && !HasDescendant(ns, p) && k <= p }

  lemma LeafThroughFirst(ns: seq<Path>, kids: seq<Path>, level: nat, p: Path)
    requires |kids| > 0 && |kids[0]| == level && NoDuplicates(kids)
    ensures LeafThrough(ns, kids, level, p) <==> LeafFrom(ns, kids[0], p) || LeafThrough(ns, kids[1..], level, p)
    ensures LeafFrom(ns, kids[0], p) ==> !LeafThrough(ns, kids[1..], level, p)
  {
    assert kids == [kids[0]] + kids[1..] && kids[0] !in kids[1..];
    if |p| >= level { assert kids[0] <= p <==> p[..level] == kids[0]; }
  }

  lemma {:induction false} ShapesLeaves(ns: seq<Path>, kids: seq<Path>, level: nat)
    requires forall k :: k in kids ==> |k| == level && Passed(ns, k)
    requires NoDuplicates(kids)
    ensures NoDuplicates(LeavesOf(Shapes(ns, kids, level)))
    ensures forall p :: p in LeavesOf(Shapes(ns, kids, level)) <==> LeafThrough(ns, kids, level, p)
    decreases Depth(ns) - level, 1, |kids|
  {
    if |kids| > 0 {
      var rest := kids[1..];
      assert kids[0] in kids;
      OneShapeLeaves(ns, kids[0]);
      ShapesLeaves(ns, rest, level);
      ShapesSplit(ns, kids, level);
      forall p { LeafThroughFirst(ns, kids, level, p); }
      NoDuplicatesConcat(Leaves(Shape(ns, kids[0])), LeavesOf(Shapes(ns, rest, level)));
    }
  }

  lemma {:induction false} OneShapeLeaves(ns: seq<Path>, k: Path)
    requires Passed(ns, k)
    ensures NoDuplicates(Leaves(Shape(ns, k)))
    ensures forall p :: p in Leaves(Shape(ns, k)) <==> LeafFrom(ns, k, p)
    decreases Depth(ns) - |k|, 0, 1
  {
    ShapeLeaves(ns, k);
    forall p { FirstLeaves(ns, k, p); }
  }

  lemma ShapesSplit(ns: seq<Path>, kids: seq<Path>, level: nat)
    requires forall k :: k in kids ==> |k| == level
    requires |kids| > 0
    ensures LeavesOf(Shapes(ns, kids, level)) == Leaves(Shape(ns, kids[0])) + LeavesOf(Shapes(ns, kids[1..], level))
  {
    assert kids[0] in kids;
    assert Shapes(ns, kids, level)[1..] == Shapes(ns, kids[1..], level);
  }

  lemma NoDuplicatesConcat<T>(a: seq<T>, b: seq<T>)
    requires NoDuplicates(a) && NoDuplicates(b)
    requires forall x :: x in a ==> x !in b
    ensures NoDuplicates(a + b)
  {
    forall i, j | 0 <= i < j < |a + b|
      ensures (a + b)[i] != (a + b)[j]
    {
      if i < |a| <= j { assert a[i] in a && b[j - |a|] in b; }
    }
  }

  /** A child passed through by some item is a leaf itself or has leaves below it. */
  lemma FirstLeaves(ns: seq<Path>, k: Path, p: Path)
    requires Passed(ns, k)
    ensures (if HasDescendant(ns, k) then LeafBelow(ns, k, p) else p == k) <==> LeafFrom(ns, k, p)
  {
    var q :| q in ns && k <= q;
    if q != k { assert Below(k, q); }
    if p in ns && k <= p && p != k { assert Below(k, p); }
  }

  /** An item is a structure exactly when it has descendants. Then the leaves of the structure are,
    * each once, the descendants that nothing extends, each carrying its own store value or the
    * default; the entries the store keeps for intermediate nodes do not appear. */
  lemma AssemblyIsComplete(ns: seq<Path>, item: Path, store: Store)
    ensures Assemble(ns, item, store).None? <==> !HasDescendant(ns, item)
    ensures HasDescendant(ns, item) ==>
      var leaves := Leaves(Shape(ns, item));
      && Assemble(ns, item, store) == Some(Fill(Shape(ns, item), store))
      && NoDuplicates(leaves)
      && forall p :: p in leaves <==> LeafBelow(ns, item, p)
  {
    NoChildrenIffNoDescendant(ns, item);
    AssembleFills(ns, item, store);
    ShapeLeaves(ns, item);
  }

  /** Two stores that agree on the leaves below an item give it the same value. */
  lemma {:induction false} FillReadsLeaves(t: Tree, s1: Store, s2: Store)
    requires forall p :: p in Leaves(t) ==> Lookup(s1, p) == Lookup(s2, p)
    ensures Fill(t, s1) == Fill(t, s2)
  {
    match t
    case Leaf(p) => assert p in Leaves(t);
    case Node(kids) => FillAllReadsLeaves(kids, s1, s2);
  }

  lemma {:induction false} FillAllReadsLeaves(ts: seq<Tree>, s1: Store, s2: Store)
    requires forall p :: p in LeavesOf(ts) ==> Lookup(s1, p) == Lookup(s2, p)
    ensures FillAll(ts, s1) == FillAll(ts, s2)
  {
    if |ts| > 0 {
      FillReadsLeaves(ts[0], s1, s2);
      FillAllReadsLeaves(ts[1..], s1, s2);
    }
  }

  /** A write to an item that is not a leaf below `item` leaves the assembled value unchanged. */
  lemma AssembleFrame(ns: seq<Path>, item: Path, store: Store, written: Path, v: MmsData)
    requires !LeafBelow(ns, item, written)
    ensures Assemble(ns, item, store[written := v]) == Assemble(ns, item, store)
  {
    AssemblyIsComplete(ns, item, store);
    AssemblyIsComplete(ns, item, store[written := v]);
    if HasDescendant(ns, item) {
      FillReadsLeaves(Shape(ns, item), store, store[written := v]);
    }
  }

  // ---------------------------------------------------------------- which values can be assembled

  /** A value with the structure of the tree. */
  predicate Fits(t: Tree, v: MmsData) {
    match t
    case Leaf(_) => true
    case Node(kids) => v.Structure? && FitsAll(kids, v.items)
  }

  predicate FitsAll(ts: seq<Tree>, vs: seq<MmsData>) {
    |ts| == |vs| && (|ts| > 0 ==> Fits(ts[0], vs[0]) && FitsAll(ts[1..], vs[1..]))
  }

  /** A store that holds, at the leaves of the tree, what the value has there. */
  function WriteOut(t: Tree, v: MmsData): Store
    requires Fits(t, v)
  {
    match t
    case Leaf(p) => map[p := v]
    case Node(kids) => WriteOutAll(kids, v.items)
  }

  function WriteOutAll(ts: seq<Tree>, vs: seq<MmsData>): Store
    requires FitsAll(ts, vs)
  {
    if |ts| == 0 then map[] else WriteOut(ts[0], vs[0]) + WriteOutAll(ts[1..], vs[1..])
  }

  lemma {:induction false} FillFits(t: Tree, s: Store)
    ensures Fits(t, Fill(t, s))
  {
    match t
    case Leaf(_) =>
    case Node(kids) => FillAllFits(kids, s);
  }

  lemma {:induction false} FillAllFits(ts: seq<Tree>, s: Store)
    ensures FitsAll(ts, FillAll(ts, s))
  {
    if |ts| > 0 {
      FillFits(ts[0], s);
      FillAllFits(ts[1..], s);
      assert FillAll(ts, s)[1..] == FillAll(ts[1..], s);
    }
  }

  lemma {:induction false} WriteOutKeys(t: Tree, v: MmsData)
    requires Fits(t, v)
    ensures forall p :: p in WriteOut(t, v) <==> p in Leaves(t)
  {
    match t
    case Leaf(_) =>
    case Node(kids) => WriteOutAllKeys(kids, v.items);
  }

  lemma {:induction false} WriteOutAllKeys(ts: seq<Tree>, vs: seq<MmsData>)
    requires FitsAll(ts, vs)
    ensures forall p :: p in WriteOutAll(ts, vs) <==> p in LeavesOf(ts)
  {
    if |ts| > 0 {
      WriteOutKeys(ts[0], vs[0]);
      WriteOutAllKeys(ts[1..], vs[1..]);
    }
  }

  lemma NoDuplicatesParts<T>(a: seq<T>, b: seq<T>)
    requires NoDuplicates(a + b)
    ensures NoDuplicates(a) && NoDuplicates(b) && forall x :: x in a ==> x !in b
  {
    var s := a + b;
    assert forall i :: 0 <= i < |a| ==> s[i] == a[i];
    assert forall i :: 0 <= i < |b| ==> s[|a| + i] == b[i];
  }

  /** A value that fits is assembled from some store. */
  lemma {:induction false} WriteOutFills(t: Tree, v: MmsData)
    requires Fits(t, v) && NoDuplicates(Leaves(t))
    ensures Fill(t, WriteOut(t, v)) == v
  {
    match t
    case Leaf(_) =>
    case Node(kids) => WriteOutFillsAll(kids, v.items);
  }

  lemma {:induction false} WriteOutFillsAll(ts: seq<Tree>, vs: seq<MmsData>)
    requires FitsAll(ts, vs) && NoDuplicates(LeavesOf(ts))
    ensures FillAll(ts, WriteOutAll(ts, vs)) == vs
  {
    if |ts| > 0 {
      var a, b, all := WriteOut(ts[0], vs[0]), WriteOutAll(ts[1..], vs[1..]), WriteOutAll(ts, vs);
      NoDuplicatesParts(Leaves(ts[0]), LeavesOf(ts[1..]));
      WriteOutKeys(ts[0], vs[0]);
      WriteOutAllKeys(ts[1..], vs[1..]);
      WriteOutFills(ts[0], vs[0]);
      WriteOutFillsAll(ts[1..], vs[1..]);
      FillReadsLeaves(ts[0], all, a);
      FillAllReadsLeaves(ts[1..], all, b);
    }
  }

  /** The value determines what the store holds at each leaf. */
  lemma {:induction false} FillDetermines(t: Tree, s1: Store, s2: Store, p: Path)
    requires Fill(t, s1) == Fill(t, s2) && p in Leaves(t)
    ensures Lookup(s1, p) == Lookup(s2, p)
  {
    match t
    case Leaf(_) =>
    case Node(kids) => FillAllDetermines(kids, s1, s2, p);
  }

  lemma {:induction false} FillAllDetermines(ts: seq<Tree>, s1: Store, s2: Store, p: Path)
    requires FillAll(ts, s1) == FillAll(ts, s2) && p in LeavesOf(ts)
    ensures Lookup(s1, p) == Lookup(s2, p)
  {
    assert FillAll(ts, s1)[0] == Fill(ts[0], s1) && FillAll(ts, s2)[0] == Fill(ts[0], s2);
    if p in Leaves(ts[0]) {
      FillDetermines(ts[0], s1, s2, p);
    } else {
      assert FillAll(ts, s1)[1..] == FillAll(ts[1..], s1) && FillAll(ts, s2)[1..] == FillAll(ts[1..], s2);
      FillAllDetermines(ts[1..], s1, s2, p);
    }
  }
}
