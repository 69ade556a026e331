/** GetNameList: the server answers in pages, the client asks until nothing follows. */
module Paging {
  import opened Names
  import opened Wrappers

  datatype Page = Page(identifiers: seq<string>, more: bool)

  /** Length of the longest prefix of names that are at most `bound`. */
  function PartitionPoint(names: seq<string>, bound: string): (r: nat)
    ensures r <= |names|
    ensures forall i :: 0 <= i < r ==> AtMost(names[i], bound)
    ensures r < |names| ==> !AtMost(names[r], bound)
  {
    if |names| == 0 || !AtMost(names[0], bound) then 0 else 1 + PartitionPoint(names[1..], bound)
  }

  function BuildNameList(source: seq<string>, continueAfter: Option<string>, pageSize: nat): Page {
    var start := match continueAfter
      case Some(ca) => PartitionPoint(source, ca)
      case None => 0;
    var end := if start + pageSize <= |source| then start + pageSize else |source|;
    Page(source[start..end], end < |source|)
  }

  lemma NextIsBeyond(source: seq<string>, k: nat)
    requires StrictlySorted(source) && k + 1 < |source|
    ensures !AtMost(source[k + 1], source[k])
  {
  }

  /** Continuing after a name of a sorted list resumes right after it. */
  lemma {:induction false} ResumesAfter(source: seq<string>, k: nat)
    requires StrictlySorted(source) && k < |source|
    ensures PartitionPoint(source, source[k]) == k + 1
  {
    var r := PartitionPoint(source, source[k]);
    if r > k + 1 {
      NextIsBeyond(source, k);
    } else if r <= k {
      if r < k { LessAsymmetric(source[r], source[k]); } else { LessIrreflexive(source[k]); }
    }
  }

  function Requests(n: nat, pageSize: nat): nat
    requires pageSize >= 1
  {
    if n == 0 then 1 else (n + pageSize - 1) / pageSize
  }

  lemma LastRequest(n: nat, pageSize: nat, k: nat)
    requires pageSize >= 1 && (k == 0 || k * pageSize < n) && (k + 1) * pageSize >= n
    ensures k + 1 == Requests(n, pageSize)
  {
    if n > 0 {
      var q := (n + pageSize - 1) / pageSize;
      DivBounds(n + pageSize - 1, pageSize);
      if q <= k { MulMonotone(q, k, pageSize); }
      if q >= k + 2 { MulMonotone(k + 2, q, pageSize); }
    }
  }

  lemma DivBounds(a: nat, d: nat)
    requires d >= 1
    ensures a / d * d <= a < a / d * d + d
  {
  }

  lemma MulMonotone(a: nat, b: nat, d: nat)
    requires a <= b
    ensures a * d <= b * d
  {
  }

  lemma MulNext(k: nat, d: nat)
    ensures (k + 1) * d == k * d + d
  {
  }

  /** The page that follows the first `k` names. */
  lemma NextPage(source: seq<string>, continueAfter: Option<string>, k: nat, pageSize: nat)
    requires StrictlySorted(source) && k <= |source| && pageSize >= 1
    requires if k == 0 then continueAfter == None else continueAfter == Some(source[k - 1])
    ensures var end := if k + pageSize <= |source| then k + pageSize else |source|;
      BuildNameList(source, continueAfter, pageSize) == Page(source[k..end], end < |source|)
  {
    if k > 0 { ResumesAfter(source, k - 1); }
  }

  lemma PageFollows(source: seq<string>, k: nat, end: nat)
    requires k <= end <= |source|
    ensures source[..k] + source[k..end] == source[..end]
    ensures k < end ==> source[k..end][end - k - 1] == source[end - 1]
  {
  }

  /** The page that follows the first `from` names, and whether the client asks again. */
  lemma AnswerAfter(source: seq<string>, continueAfter: Option<string>, from: nat, pageSize: nat)
    requires StrictlySorted(source) && pageSize >= 1 && from <= |source| && (from == 0 || from < |source|)
    requires if from == 0 then continueAfter == None else continueAfter == Some(source[from - 1])
    ensures var page := BuildNameList(source, continueAfter, pageSize);
      var end := from + |page.identifiers|;
      && end <= |source| && source[..from] + page.identifiers == source[..end]
      && (if page.more && page.identifiers != [] then
            && end == from + pageSize < |source|
            && page.identifiers[|page.identifiers| - 1] == source[end - 1]
          else end == |source| <= from + pageSize)
  {
    NextPage(source, continueAfter, from, pageSize);
    PageFollows(source, from, if from + pageSize <= |source| then from + pageSize else |source|);
  }

  /** Requests counted by the names they have brought. */
  lemma RequestsCounted(n: nat, pageSize: nat, k: nat, from: nat)
    requires pageSize >= 1 && from == k * pageSize && (k == 0 || from < n)
    ensures (k + 1) * pageSize == from + pageSize
    ensures n <= from + pageSize ==> k + 1 == Requests(n, pageSize)
  {
    MulNext(k, pageSize);
    if n <= from + pageSize { LastRequest(n, pageSize, k); }
  }

  /** The client's loop against that server: for every strictly sorted list and page size it returns
    * exactly the list, in max(1, ceil(n / page)) requests. */
  method GetNameListAll(source: seq<string>, pageSize: nat) returns (out: seq<string>, requests: nat)
    requires StrictlySorted(source) && pageSize >= 1
    ensures out == source && requests == Requests(|source|, pageSize)
  {
    out, requests := [], 0;
    var continueAfter: Option<string> := None;
    var done := false;
    while !done
      invariant |out| <= |source| && out == source[..|out|]
      invariant !done ==> |out| == requests * pageSize && (requests == 0 || 0 < |out| < |source|)
      invariant !done ==> continueAfter == if requests == 0 then None else Some(source[|out| - 1])
      invariant done ==> |out| == |source| && requests == Requests(|source|, pageSize)
      decreases !done, |source| - |out|
    {
      var page := BuildNameList(source, continueAfter, pageSize);
      AnswerAfter(source, continueAfter, |out|, pageSize);
      RequestsCounted(|source|, pageSize, requests, |out|);
      out := out + page.identifiers;
      requests := requests + 1;
      var last := if page.identifiers == [] then None else Some(page.identifiers[|page.identifiers| - 1]);
      if page.more && last.Some? {
        continueAfter := last;
      } else {
        done := true;
      }
    }
  }
}
