/** The order of the components of an assembled structure: that of the sorted namespace, against the
  * one in which the configuration (SCL) lists them. */
module SclOrder {
  import opened Assembly
  import opened MmsValues
  import opened Names
  import opened Wrappers

  /** The text of an item, without its domain. */
  function Join(segments: seq<string>): string {
    if |segments| == 0 then "" else if |segments| == 1 then segments[0] else segments[0] + "$" + Join(segments[1..])
  }

  function Text(p: Path): string
    requires |p| > 0
  {
    Join(p[1..])
  }

  // ---------------------------------------------------------------- sorting the namespace

  /** Items of one domain; the characters of their names come after the separator. */
  ghost predicate OfDomain(domain: string, items: seq<Path>) {
    forall p :: p in items ==> PlainItem(domain, p)
  }

  ghost predicate PlainItem(domain: string, p: Path) {
    |p| > 1 && p[0] == domain && forall i :: 1 <= i < |p| ==> Plain(p[i])
  }

  ghost predicate Plain(s: string) { forall c :: c in s ==> c > '$' }

  ghost predicate Sorted(items: seq<Path>) {
    && (forall p :: p in items ==> |p| > 0)
    && forall i, j :: 0 <= i < j < |items| ==> Less(Text(items[i]), Text(items[j]))
  }

  /** Puts an item into a sorted list that may hold it already. */
  function Insert(p: Path, items: seq<Path>): seq<Path>
    requires |p| > 0 && forall q :: q in items ==> |q| > 0
  {
    if |items| == 0 then [p]
    else if p == items[0] then items
    else if Less(Text(p), Text(items[0])) then [p] + items
    else [items[0]] + Insert(p, items[1..])
  }

  /** Sorted by text, without duplicates. */
  function SortDedup(items: seq<Path>): (r: seq<Path>)
    requires forall p :: p in items ==> |p| > 0
    ensures forall p :: p in r <==> p in items
  {
    if |items| == 0 then []
    else
      var front, last := items[..|items| - 1], items[|items| - 1];
      InsertHas(last, SortDedup(front));
      assert items == front + [last];
      Insert(last, SortDedup(front))
  }

  lemma {:induction false} InsertHas(p: Path, items: seq<Path>)
    requires |p| > 0 && forall q :: q in items ==> |q| > 0
    ensures forall q :: q in Insert(p, items) <==> q == p || q in items
    decreases |items|
  {
    if |items| > 0 && p != items[0] && !Less(Text(p), Text(items[0])) {
      InsertHas(p, items[1..]);
      assert items == [items[0]] + items[1..];
    }
  }

  lemma {:induction false} LessTrichotomy(a: string, b: string)
    ensures Less(a, b) || a == b || Less(b, a)
  {
    if |a| > 0 && |b| > 0 && a[0] == b[0] {
      LessTrichotomy(a[1..], b[1..]);
      assert a == [a[0]] + a[1..] && b == [b[0]] + b[1..];
    }
  }

  lemma {:induction false} LessTransitive(a: string, b: string, c: string)
    requires Less(a, b) && Less(b, c)
    ensures Less(a, c)
  {
    if |a| > 0 && a[0] == b[0] == c[0] { LessTransitive(a[1..], b[1..], c[1..]); }
  }

  /** Plain names can be read back from the text. */
  lemma JoinTail(a: seq<string>)
    requires |a| > 0
    ensures |Join(a)| >= |a[0]|
    ensures Join(a)[|a[0]|..] == if |a| == 1 then "" else "$" + Join(a[1..])
  {
  }

  lemma {:induction false} JoinInjective(a: seq<string>, b: seq<string>)
    requires |a| > 0 && |b| > 0 && Join(a) == Join(b)
    requires (forall i :: 0 <= i < |a| ==> Plain(a[i])) && (forall i :: 0 <= i < |b| ==> Plain(b[i]))
    ensures a == b
    decreases |a|
  {
    HeadEqual(a, b);
    var n := |a[0]|;
    JoinTail(a);
    JoinTail(b);
    if |a| > 1 {
      assert Join(a)[n..][1..] == Join(a[1..]) && Join(b)[n..][1..] == Join(b[1..]);
      JoinInjective(a[1..], b[1..]);
      assert a == [a[0]] + a[1..] && b == [b[0]] + b[1..];
    }
  }

  lemma HeadEqual(a: seq<string>, b: seq<string>)
    requires |a| > 0 && |b| > 0 && Join(a) == Join(b) && Plain(a[0]) && Plain(b[0])
    ensures a[0] == b[0]
  {
    HeadLength(a, b);
    HeadLength(b, a);
    assert Join(a)[..|a[0]|] == a[0] && Join(b)[..|b[0]|] == b[0];
  }

  lemma HeadLength(a: seq<string>, b: seq<string>)
    requires |a| > 0 && |b| > 0 && Join(a) == Join(b) && Plain(b[0])
    ensures |a[0]| >= |b[0]|
  {
    assert |Join(b)| >= |b[0]| && forall i :: 0 <= i < |b[0]| ==> Join(b)[i] == b[0][i] && b[0][i] in b[0];
    assert if |a| == 1 then |Join(a)| == |a[0]| else Join(a)[|a[0]|] == '$';
  }

  lemma TextInjective(domain: string, p: Path, q: Path)
    requires PlainItem(domain, p) && PlainItem(domain, q) && Text(p) == Text(q)
    ensures p == q
  {
    JoinInjective(p[1..], q[1..]);
    assert p == [domain] + p[1..] && q == [domain] + q[1..];
  }

  lemma {:induction false} InsertSorts(domain: string, p: Path, items: seq<Path>)
    requires OfDomain(domain, items) && PlainItem(domain, p) && Sorted(items)
    ensures Sorted(Insert(p, items))
    decreases |items|
  {
    if |items| > 0 && p != items[0] {
      assert items[0] in items;
      var rest := items[1..];
      if Less(Text(p), Text(items[0])) {
        forall j | 0 < j < |items|
          ensures Less(Text(p), Text(items[j]))
        {
          LessTransitive(Text(p), Text(items[0]), Text(items[j]));
        }
      } else {
        LessTrichotomy(Text(p), Text(items[0]));
        if Text(p) == Text(items[0]) { TextInjective(domain, p, items[0]); }
        InsertSorts(domain, p, rest);
        InsertHas(p, rest);
        forall q | q in Insert(p, rest)
          ensures Less(Text(items[0]), Text(q))
        {
          if q in rest {
            var k :| 0 <= k < |rest| && rest[k] == q;
            assert items[k + 1] == q;
          }
        }
      }
    }
  }

  lemma {:induction false} SortDedupSorts(domain: string, items: seq<Path>)
    requires OfDomain(domain, items)
    ensures Sorted(SortDedup(items)) && OfDomain(domain, SortDedup(items))
  {
    if |items| > 0 {
      var front := items[..|items| - 1];
      SortDedupSorts(domain, front);
      InsertSorts(domain, items[|items| - 1], SortDedup(front));
    }
  }

  // ---------------------------------------------------------------- order of text and of segments

  lemma {:induction false} LessCancels(x: string, a: string, b: string)
    ensures Less(x + a, x + b) <==> Less(a, b)
  {
    if |x| == 0 {
      assert x + a == a && x + b == b;
    } else {
      LessCancels(x[1..], a, b);
      assert (x + a)[1..] == x[1..] + a && (x + b)[1..] == x[1..] + b;
    }
  }

  /** What may follow a segment. */
  ghost predicate Follows(r: string) { r == "" || r[0] == '$' }

  /** Different plain segments are in the order of the texts that they begin. */
  lemma {:induction false} HeadOrder(s: string, r: string, t: string, u: string)
    requires Plain(s) && Plain(t) && s != t && Follows(r) && Follows(u) && Less(s + r, t + u)
    ensures Less(s, t)
  {
    assert |s| > 0 ==> s[0] in s && (s + r)[0] == s[0];
    assert |t| == 0 ==> t + u == u;
    if |s| > 0 && |t| > 0 {
      assert s == [s[0]] + s[1..] && t == [t[0]] + t[1..];
      assert (s + r)[1..] == s[1..] + r && (t + u)[1..] == t[1..] + u;
      assert (s + r)[0] == s[0] && (t + u)[0] == t[0];
      assert (forall c :: c in s[1..] ==> c in s) && forall c :: c in t[1..] ==> c in t;
      if s[0] == t[0] { HeadOrder(s[1..], r, t[1..], u); }
    }
  }

  lemma {:induction false} JoinAt(segments: seq<string>, n: nat) returns (x: string, r: string)
    requires n < |segments|
    ensures Join(segments) == x + (segments[n] + r) && Follows(r)
    ensures x == Before(segments, n)
  {
    x := Before(segments, n);
    r := if n + 1 < |segments| then "$" + Join(segments[n + 1..]) else "";
    JoinSplits(segments, n);
  }

  /** The text before segment `n`. */
  function Before(segments: seq<string>, n: nat): string
    requires n < |segments|
  {
    if n == 0 then "" else segments[0] + "$" + Before(segments[1..], n - 1)
  }

  lemma {:induction false} JoinSplits(segments: seq<string>, n: nat)
    requires n < |segments|
    ensures Join(segments) ==
            Before(segments, n) + (segments[n] + if n + 1 < |segments| then "$" + Join(segments[n + 1..]) else "")
    decreases n
  {
    var r := if n + 1 < |segments| then "$" + Join(segments[n + 1..]) else "";
    if n == 0 {
      assert Join(segments) == segments[0] + r;
      assert "" + (segments[0] + r) == segments[0] + r;
    } else {
      JoinSplits(segments[1..], n - 1);
      assert segments[1..][n..] == segments[n + 1..];
      var a, b, c := segments[0] + "$", Before(segments[1..], n - 1), segments[n] + r;
      assert a + (b + c) == a + b + c;
    }
  }

  lemma {:induction false} SameBefore(a: seq<string>, b: seq<string>, n: nat)
    requires n < |a| && n < |b| && a[..n] == b[..n]
    ensures Before(a, n) == Before(b, n)
    decreases n
  {
    if n > 0 {
      assert a[0] == a[..n][0] && b[0] == b[..n][0];
      assert a[1..][..n - 1] == a[..n][1..] && b[1..][..n - 1] == b[..n][1..];
      SameBefore(a[1..], b[1..], n - 1);
    }
  }

  /** Items below the same item that part there are in the order of the segments in which they part. */
  lemma TextOrder(domain: string, item: Path, p: Path, q: Path)
    requires PlainItem(domain, p) && PlainItem(domain, q) && |item| > 0 && item < p && item < q
    requires p[|item|] != q[|item|] && Less(Text(p), Text(q))
    ensures Less(p[|item|], q[|item|])
  {
    var n := |item| - 1;
    var x, r := JoinAt(p[1..], n);
    var y, u := JoinAt(q[1..], n);
    assert p[1..][..n] == item[1..] == q[1..][..n];
    assert x == y by { SameBefore(p[1..], q[1..], n); }
    LessCancels(x, p[|item|] + r, q[|item|] + u);
    HeadOrder(p[|item|], r, q[|item|], u);
  }

  // ---------------------------------------------------------------- order of the children

  /** Siblings in the order of their last segments. */
  ghost predicate Ascending(kids: seq<Path>) {
    && (forall k :: k in kids ==> |k| > 0)
    && forall i, j :: 0 <= i < j < |kids| ==> Less(kids[i][|kids[i]| - 1], kids[j][|kids[j]| - 1])
  }

  /** A sorted namespace mentions the children of every item in ascending order. */
  lemma {:induction false} ChildrenAscend(domain: string, ns: seq<Path>, item: Path)
    requires OfDomain(domain, ns) && Sorted(ns) && |item| > 0
    ensures Ascending(Children(ns, item))
  {
    if |ns| > 0 {
      var front, it := ns[..|ns| - 1], ns[|ns| - 1];
      assert it in ns && ns == front + [it] && forall p :: p in front ==> p in ns;
      ChildrenAscend(domain, front, item);
      NextChildAscends(domain, front, it, item);
    }
  }

  lemma NextChildAscends(domain: string, front: seq<Path>, it: Path, item: Path)
    requires OfDomain(domain, front) && PlainItem(domain, it) && Sorted(front + [it]) && |item| > 0
    requires Ascending(Children(front, item))
    ensures Ascending(Children(front + [it], item))
  {
    var kids, ns := Children(front, item), front + [it];
    assert ns[..|ns| - 1] == front && ns[|ns| - 1] == it;
    if Below(item, it) && it[..|item| + 1] !in kids {
      forall i | 0 <= i < |kids|
        ensures Less(kids[i][|kids[i]| - 1], it[|item|])
      {
        assert kids[i] in kids;
        EarlierChild(domain, front, it, item, kids[i]);
      }
      AscendSnoc(kids, it[..|item| + 1]);
    }
  }

  lemma AscendSnoc(kids: seq<Path>, k: Path)
    requires Ascending(kids) && |k| > 0
    requires forall i :: 0 <= i < |kids| ==> Less(kids[i][|kids[i]| - 1], k[|k| - 1])
    ensures Ascending(kids + [k])
  {
  }

  lemma EarlierChild(domain: string, front: seq<Path>, it: Path, item: Path, kid: Path)
    requires OfDomain(domain, front) && PlainItem(domain, it) && Sorted(front + [it]) && |item| > 0
    requires Below(item, it) && kid in Children(front, item) && it[..|item| + 1] !in Children(front, item)
    ensures Less(kid[|item|], it[|item|])
  {
    ChildrenAre(front, item);
    var p :| p in front && kid <= p;
    EarlierText(front, it, p);
    PartHere(item, kid, it);
    TextOrder(domain, item, p, it);
  }

  lemma EarlierText(front: seq<Path>, it: Path, p: Path)
    requires Sorted(front + [it]) && p in front
    ensures |p| > 0 && |it| > 0 && Less(Text(p), Text(it))
  {
    var k :| 0 <= k < |front| && front[k] == p;
    assert (front + [it])[k] == p && (front + [it])[|front|] == it;
  }

  lemma PartHere(item: Path, kid: Path, it: Path)
    requires |kid| == |item| + 1 && item < kid && item < it && kid != it[..|item| + 1]
    ensures kid[|item|] != it[|item|]
  {
    assert kid == item + [kid[|item|]] && it[..|item| + 1] == item + [it[|item|]];
  }

  lemma FirstOnce(a: seq<Path>)
    requires Ascending(a) && |a| > 0
    ensures a[0] !in a[1..] && forall k :: k in a <==> k == a[0] || k in a[1..]
  {
    LessIrreflexive(a[0][|a[0]| - 1]);
    assert forall i :: 0 < i < |a| ==> a[i] != a[0];
    assert a == [a[0]] + a[1..];
  }

  /** There is one ascending order of a set of siblings. */
  lemma {:induction false} AscendingUnique(a: seq<Path>, b: seq<Path>)
    requires Ascending(a) && Ascending(b) && forall k :: k in a <==> k in b
    ensures a == b
    decreases |a|
  {
    assert |b| > 0 ==> b[0] in b;
    if |a| > 0 {
      assert a[0] in a && a[0] in b;
      assert b[0] in a;
      if a[0] != b[0] {
        var i :| 0 <= i < |a| && a[i] == b[0];
        var j :| 0 <= j < |b| && b[j] == a[0];
        LessAsymmetric(a[0][|a[0]| - 1], b[0][|b[0]| - 1]);
      }
      FirstOnce(a);
      FirstOnce(b);
      AscendingUnique(a[1..], b[1..]);
    }
  }

  /** The code's children are those of the configuration, in its order exactly when it lists them in
    * ascending order. */
  lemma SclOrderIff(domain: string, scl: seq<Path>, item: Path)
    requires OfDomain(domain, scl) && |item| > 0
    ensures forall k :: k in Children(SortDedup(scl), item) <==> k in Children(scl, item)
    ensures Ascending(Children(SortDedup(scl), item))
    ensures Children(SortDedup(scl), item) == Children(scl, item) <==> Ascending(Children(scl, item))
  {
    var ns := SortDedup(scl);
    SortDedupSorts(domain, scl);
    ChildrenAscend(domain, ns, item);
    ChildrenAre(ns, item);
    ChildrenAre(scl, item);
    forall k
      ensures k in Children(ns, item) <==> k in Children(scl, item)
    {
      SamePassed(ns, scl, k);
    }
    if Ascending(Children(scl, item)) { AscendingUnique(Children(ns, item), Children(scl, item)); }
  }

  lemma SamePassed(ns: seq<Path>, scl: seq<Path>, k: Path)
    requires forall p :: p in ns <==> p in scl
    ensures Passed(ns, k) <==> Passed(scl, k)
  {
    if Passed(ns, k) { var p :| p in ns && k <= p; assert p in scl; }
    if Passed(scl, k) { var p :| p in scl && k <= p; assert p in ns; }
  }

  // ---------------------------------------------------------------- order at every level

  /** Every list of siblings in the structure below the item. */
  ghost predicate AllAscending(scl: seq<Path>, item: Path) {
    forall k :: item <= k ==> Ascending(Children(scl, k))
  }

  /** The whole structure below an item is in the order of the configuration exactly when every list
    * of siblings in it is ascending there. */
  lemma StructureInSclOrderIff(domain: string, scl: seq<Path>, item: Path)
    requires OfDomain(domain, scl) && |item| > 0
    ensures Shape(SortDedup(scl), item) == Shape(scl, item) <==> AllAscending(scl, item)
  {
    if Shape(SortDedup(scl), item) == Shape(scl, item) {
      forall k | item <= k
        ensures Ascending(Children(scl, k))
      {
        SameShapeAscending(domain, scl, item, k);
      }
    }
    if AllAscending(scl, item) { AscendingSameShape(domain, scl, item); }
  }

  lemma SameShapeAscending(domain: string, scl: seq<Path>, item: Path, k: Path)
    requires OfDomain(domain, scl) && |item| > 0 && item <= k && Shape(SortDedup(scl), item) == Shape(scl, item)
    ensures Ascending(Children(scl, k))
  {
    SameShapeBelow(domain, scl, item, k);
    if Passed(scl, k) {
      SameShapeSameChildren(domain, scl, k);
      SclOrderIff(domain, scl, k);
    } else {
      NoChildrenIffNoDescendant(scl, k);
      assert forall p :: p in scl ==> !(k <= p);
      assert !HasDescendant(scl, k);
    }
  }

  lemma BelowChild(scl: seq<Path>, item: Path, c: Path)
    requires AllAscending(scl, item) && item <= c
    ensures AllAscending(scl, c)
  {
    forall k | c <= k
      ensures Ascending(Children(scl, k))
    {
      assert item <= k;
    }
  }

  lemma {:induction false} AscendingSameShape(domain: string, scl: seq<Path>, item: Path)
    requires OfDomain(domain, scl) && |item| > 0 && AllAscending(scl, item)
    ensures Shape(SortDedup(scl), item) == Shape(scl, item)
    decreases Depth(scl) - |item|, 0, 0
  {
    SclOrderIff(domain, scl, item);
    var kids := Children(scl, item);
    assert item <= item && Ascending(kids);
    if kids != [] {
      ChildDepth(scl, item, kids[0]);
      ChildDepth(SortDedup(scl), item, kids[0]);
      ChildrenAre(scl, item);
      forall c | c in kids
        ensures AllAscending(scl, c)
      {
        BelowChild(scl, item, c);
      }
      AscendingSameShapes(domain, scl, kids, |item| + 1);
    }
  }

  lemma {:induction false} AscendingSameShapes(domain: string, scl: seq<Path>, kids: seq<Path>, level: nat)
    requires OfDomain(domain, scl) && level > 0 && forall k :: k in kids ==> |k| == level
    requires forall c :: c in kids ==> AllAscending(scl, c)
    ensures Shapes(SortDedup(scl), kids, level) == Shapes(scl, kids, level)
    decreases Depth(scl) - level, 1, |kids|
  {
    if |kids| > 0 {
      assert kids[0] in kids;
      AscendingSameShape(domain, scl, kids[0]);
      AscendingSameShapes(domain, scl, kids[1..], level);
    }
  }

  /** Every shape has a leaf, and all its leaves lie at or below the item it is the shape of. */
  lemma {:induction false} ShapeHasLeaf(ns: seq<Path>, k: Path)
    ensures Leaves(Shape(ns, k)) != []
    decreases Depth(ns) - |k|
  {
    var kids := Children(ns, k);
    if kids != [] {
      ChildDepth(ns, k, kids[0]);
      assert kids[0] in kids;
      ShapeHasLeaf(ns, kids[0]);
      ShapesSplit(ns, kids, |k| + 1);
    }
  }

  /** Siblings can be read back from their shapes. */
  lemma SameShapeSameItem(ns: seq<Path>, scl: seq<Path>, k: Path, c: Path)
    requires Passed(ns, k) && Passed(scl, c) && |k| == |c| && Shape(ns, k) == Shape(scl, c)
    ensures k == c
  {
    ShapeHasLeaf(ns, k);
    var p := Leaves(Shape(ns, k))[0];
    assert p in Leaves(Shape(ns, k));
    OneShapeLeaves(ns, k);
    OneShapeLeaves(scl, c);
    assert k == p[..|k|] == c;
  }

  lemma {:induction false} ShapesAt(ns: seq<Path>, kids: seq<Path>, level: nat, i: nat)
    requires (forall k :: k in kids ==> |k| == level) && i < |kids|
    ensures Shapes(ns, kids, level)[i] == Shape(ns, kids[i])
    decreases |kids|
  {
    assert kids[0] in kids;
    if i > 0 {
      ShapesAt(ns, kids[1..], level, i - 1);
      assert Shapes(ns, kids, level)[1..] == Shapes(ns, kids[1..], level);
    }
  }

  lemma SameShapeSameChildren(domain: string, scl: seq<Path>, item: Path)
    requires OfDomain(domain, scl) && |item| > 0 && Shape(SortDedup(scl), item) == Shape(scl, item)
    ensures Children(SortDedup(scl), item) == Children(scl, item)
    ensures forall i :: 0 <= i < |Children(scl, item)| ==>
              Shape(SortDedup(scl), Children(scl, item)[i]) == Shape(scl, Children(scl, item)[i])
  {
    var ns := SortDedup(scl);
    var a, b := Children(ns, item), Children(scl, item);
    SclOrderIff(domain, scl, item);
    ChildrenAre(ns, item);
    ChildrenAre(scl, item);
    assert |b| > 0 ==> b[0] in b;
    if a != [] {
      assert a[0] in a && a[0] in b;
      ChildDepth(ns, item, a[0]);
      ChildDepth(scl, item, a[0]);
      SameShapesSameItems(ns, scl, a, b, |item| + 1);
    }
  }

  lemma SameShapesSameItems(ns: seq<Path>, scl: seq<Path>, a: seq<Path>, b: seq<Path>, level: nat)
    requires forall k :: k in a ==> |k| == level && Passed(ns, k)
    requires forall k :: k in b ==> |k| == level && Passed(scl, k)
    requires Shapes(ns, a, level) == Shapes(scl, b, level)
    ensures a == b && forall i :: 0 <= i < |b| ==> Shape(ns, b[i]) == Shape(scl, b[i])
  {
    assert |a| == |b|;
    forall i | 0 <= i < |a|
      ensures a[i] == b[i] && Shape(ns, b[i]) == Shape(scl, b[i])
    {
      assert a[i] in a && b[i] in b;
      ShapesAt(ns, a, level, i);
      ShapesAt(scl, b, level, i);
      SameShapeSameItem(ns, scl, a[i], b[i]);
    }
  }

  lemma {:induction false} SameShapeBelow(domain: string, scl: seq<Path>, item: Path, k: Path)
    requires OfDomain(domain, scl) && |item| > 0 && item <= k && Shape(SortDedup(scl), item) == Shape(scl, item)
    ensures Passed(scl, k) ==> Shape(SortDedup(scl), k) == Shape(scl, k)
    decreases |k|
  {
    if item != k && Passed(scl, k) {
      var up := k[..|k| - 1];
      var p :| p in scl && k <= p;
      assert up <= p;
      SameShapeBelow(domain, scl, item, up);
      SameShapeSameChildren(domain, scl, up);
      ChildrenAre(scl, up);
      assert k in Children(scl, up);
    }
  }

  // ---------------------------------------------------------------- a status and its quality

  /** A data object whose configuration lists `stVal` before `q`, as they mostly do. */
  function StatusScl(): seq<Path> { [["LD0", "LN", "ST", "Pos", "stVal"], ["LD0", "LN", "ST", "Pos", "q"]] }

  /** Its value comes with the quality first. */
  lemma QualityComesFirst(store: Store)
    ensures var scl, item := StatusScl(), ["LD0", "LN", "ST", "Pos"];
      && Children(scl, item) == scl
      && Children(SortDedup(scl), item) == [scl[1], scl[0]]
      && Assemble(SortDedup(scl), item, store) == Some(Structure([Lookup(store, scl[1]), Lookup(store, scl[0])]))
  {
    var scl, item := StatusScl(), ["LD0", "LN", "ST", "Pos"];
    var ns := SortDedup(scl);
    StatusSorted();
    LeafValue(ns, scl[0], store);
    LeafValue(ns, scl[1], store);
    ChildDepth(ns, item, scl[1]);
    TwoComponents(ns, scl[1], scl[0], store);
  }

  lemma StatusSorted()
    ensures var scl, item := StatusScl(), ["LD0", "LN", "ST", "Pos"];
      && Children(scl, item) == scl
      && Children(SortDedup(scl), item) == [scl[1], scl[0]]
  {
    var scl, item := StatusScl(), ["LD0", "LN", "ST", "Pos"];
    var kids, st, q := Children(SortDedup(scl), item), scl[0], scl[1];
    StatusChildren();
    StatusPlain();
    SclOrderIff("LD0", scl, item);
    QualityFirst(q, st);
    AscendingUnique(kids, [q, st]);
  }

  lemma QualityFirst(q: Path, st: Path)
    requires |q| > 0 && |st| > 0 && q[|q| - 1] == "q" && st[|st| - 1] == "stVal"
    ensures Ascending([q, st])
  {
    assert Less("q", "stVal");
  }

  lemma StatusChildren()
    ensures Children(StatusScl(), ["LD0", "LN", "ST", "Pos"]) == StatusScl()
  {
    var scl, item := StatusScl(), ["LD0", "LN", "ST", "Pos"];
    assert scl[..1] == [scl[0]] && scl[..1][..0] == [];
    assert scl[0] == item + ["stVal"] && scl[1] == item + ["q"];
    assert scl[0][..5] == scl[0] && scl[1][..5] == scl[1];
    assert Children(scl[..1], item) == [scl[0]];
    assert scl[0][4] != scl[1][4];
  }

  lemma StatusPlain()
    ensures OfDomain("LD0", StatusScl())
  {
  }

  /** An item of full length has no children. */
  lemma LeafValue(ns: seq<Path>, p: Path, store: Store)
    requires forall q :: q in ns ==> |q| <= |p|
    ensures Assemble(ns, p, store) == None
  {
    NoChildrenIffNoDescendant(ns, p);
  }

  lemma TwoComponents(ns: seq<Path>, a: Path, b: Path, store: Store)
    requires |a| == |b| && Assemble(ns, a, store) == None && Assemble(ns, b, store) == None
    ensures Components(ns, [a, b], |a|, store) == [Lookup(store, a), Lookup(store, b)]
  {
    assert [a, b][1..] == [b] && [b][1..] == [];
    assert Components(ns, [b], |a|, store) == [Lookup(store, b)];
  }
}
