/** Downloading by blocks: several files open on one connection, each read through its own handle. */
module FileBlocks {
  import opened Wrappers
  import opened Numbers
  import opened Octets

  type Data = seq<Byte>

  datatype FileRead = FileRead(data: Data, pos: nat)
  datatype Chunk = Chunk(data: Data, more: bool)
  /** `provider` is the file store behind the server, if it has one. */
  datatype Files = Files(mayRead: bool, provider: Option<map<string, Data>>, handles: map<int, FileRead>,
                         nextFrsm: int)

  /** The next handle; `next_frsm` starts at 0 and is never negative below 2^31 openings. */
  function NextHandle(s: Files): int { (if s.nextFrsm < 0 then 0 else s.nextFrsm) + 1 }

  /** What the connection may open: it needs the permission, a provider, and the file. */
  function Available(s: Files, name: string): Option<Data> {
    if s.mayRead && s.provider.Some? && name in s.provider.value then Some(s.provider.value[name]) else None
  }

  function Opened(s: Files, name: string, pos: U32): Files {
    match Available(s, name)
    case None => s
    case Some(d) =>
      s.(nextFrsm := NextHandle(s), handles := s.handles[NextHandle(s) := FileRead(d, Min(pos, |d|))])
  }

  predicate Open(s: Files, h: int) { h in s.handles && s.handles[h].pos <= |s.handles[h].data| }

  function ReadResult(s: Files, h: int): Option<Chunk> {
    if !Open(s, h) then None
    else
      var f := s.handles[h];
      var end := Min(f.pos + FILE_READ_CHUNK, |f.data|);
      Some(Chunk(f.data[f.pos..end], end < |f.data|))
  }

  function AfterRead(s: Files, h: int): Files {
    if !Open(s, h) then s
    else
      var f := s.handles[h];
      s.(handles := s.handles[h := f.(pos := Min(f.pos + FILE_READ_CHUNK, |f.data|))])
  }

  function Closed(s: Files, h: int): Files { s.(handles := s.handles - {h}) }

  /** Handles in use are at most the last one given out, and positions lie inside the data. */
  ghost predicate Inv(s: Files) {
    s.nextFrsm >= 0 && forall h :: h in s.handles ==> h <= s.nextFrsm && Open(s, h)
  }

  /** A file is opened exactly with the permission, a provider, and a file of that name, under the number
    * after the last one given out; a read brings at most 8192 octets, and says whether more follow. */
  lemma OpeningsAndBlocks(s: Files, name: string, pos: U32, h: int)
    requires Inv(s)
    ensures Available(s, name).Some? <==> s.mayRead && s.provider.Some? && name in s.provider.value
    ensures Available(s, name).Some? ==>
      var d := s.provider.value[name];
      Opened(s, name, pos) == s.(nextFrsm := s.nextFrsm + 1,
                                 handles := s.handles[s.nextFrsm + 1 := FileRead(d, if pos <= |d| then pos else |d|)])
    ensures Available(s, name).None? ==> Opened(s, name, pos) == s
    ensures ReadResult(s, h).Some? <==> h in s.handles
    ensures h in s.handles ==>
      var f := s.handles[h];
      var left, c := |f.data| - f.pos, ReadResult(s, h).value;
      && c.more == (left > 8192) && c.data == f.data[f.pos..][..if left > 8192 then 8192 else left]
      && AfterRead(s, h) == s.(handles := s.handles[h := FileRead(f.data, f.pos + |c.data|)])
    ensures h !in s.handles ==> AfterRead(s, h) == s
  {
    if h in s.handles { assert Open(s, h); }
  }

  // ---------------------------------------------------------------- the code's own form

  class FileSession {
    var files: Files

    constructor (mayRead: bool, provider: Option<map<string, Data>>)
      ensures files == Files(mayRead, provider, map[], 0)
    {
      files := Files(mayRead, provider, map[], 0);
    }

    method OpenFile(name: string, pos: U32) returns (frsm: Option<int>)
      modifies this
      ensures files == Opened(old(files), name, pos)
      ensures frsm == if Available(old(files), name).Some? then Some(NextHandle(old(files))) else None
    {
      if !files.mayRead { return None; }
      if files.provider == None { return None; }
      if name !in files.provider.value { return None; }
      var d := files.provider.value[name];
      var start := pos;
      if |d| < start { start := |d|; }
      files := files.(nextFrsm := NextHandle(files));
      files := files.(handles := files.handles[files.nextFrsm := FileRead(d, start)]);
      frsm := Some(files.nextFrsm);
    }

    method ReadFile(h: int) returns (chunk: Option<Chunk>)
      modifies this
      ensures chunk == ReadResult(old(files), h) && files == AfterRead(old(files), h)
    {
      if !Open(files, h) { return None; }
      var st := files.handles[h];
      var end := st.pos + FILE_READ_CHUNK;
      if |st.data| < end { end := |st.data|; }
      var block := st.data[st.pos..end];
      files := files.(handles := files.handles[h := st.(pos := end)]);
      chunk := Some(Chunk(block, end < |st.data|));
    }

    method CloseFile(h: int)
      modifies this
      ensures files == Closed(old(files), h)
    {
      files := files.(handles := files.handles - {h});
    }

    /** The client's download: open at 0, read until nothing follows, close. It returns the whole
      * file after max(1, ceil(n / 8192)) reads and leaves every other handle as it was. */
    method DownloadFile(name: string) returns (out: Option<Data>, readCount: nat)
      requires Inv(files)
      modifies this
      ensures Inv(files) && files.mayRead == old(files).mayRead && files.provider == old(files).provider
      ensures out == Available(old(files), name)
      ensures out.Some? ==> readCount == ReadsFor(|out.value|)
      ensures files.handles == old(files).handles
    {
      readCount := 0;
      var frsm := OpenFile(name, 0);
      if frsm.None? { return None, 0; }
      var h := frsm.value;
      ghost var d := Available(old(files), name).value;
      var got: Data := [];
      var more := true;
      while more
        invariant Inv(files) && h !in old(files).handles
        invariant files.mayRead == old(files).mayRead && files.provider == old(files).provider
        invariant files.handles == old(files).handles[h := FileRead(d, |got|)]
        invariant |got| <= |d| && got == d[..|got|]
        invariant more ==> |got| == readCount * FILE_READ_CHUNK && (readCount == 0 || |got| < |d|)
        invariant !more ==> |got| == |d| && readCount == ReadsFor(|d|)
        decreases more, |d| - |got|
      {
        BlocksLeft(|d|, readCount);
        var chunk := ReadFile(h);
        got := got + chunk.value.data;
        more := chunk.value.more;
        readCount := readCount + 1;
      }
      CloseFile(h);
      assert files.handles == old(files).handles && got == d;
      out := Some(got);
    }
  }

  lemma BlocksLeft(n: nat, k: nat)
    requires k == 0 || k * FILE_READ_CHUNK < n
    ensures k * FILE_READ_CHUNK + FILE_READ_CHUNK >= n ==> k + 1 == ReadsFor(n)
  {
  }

  // ---------------------------------------------------------------- any interleaving

  datatype Event = OpenEv(name: string, pos: U32) | ReadEv(h: int) | CloseEv(h: int)

  function Step(s: Files, e: Event): Files {
    match e
    case OpenEv(name, pos) => Opened(s, name, pos)
    case ReadEv(h) => AfterRead(s, h)
    case CloseEv(h) => Closed(s, h)
  }

  function Run(s: Files, evs: seq<Event>): Files {
    if |evs| == 0 then s else Step(Run(s, evs[..|evs| - 1]), evs[|evs| - 1])
  }

  /** All the data returned for handle `h` along a run. */
  function Blocks(s: Files, evs: seq<Event>, h: int): Data {
    if |evs| == 0 then []
    else
      Blocks(s, evs[..|evs| - 1], h)
      + if evs[|evs| - 1] != ReadEv(h) then []
        else match ReadResult(Run(s, evs[..|evs| - 1]), h)
          case None => []
          case Some(c) => c.data
  }

  function ReadsOf(evs: seq<Event>, h: int): nat {
    if |evs| == 0 then 0 else ReadsOf(evs[..|evs| - 1], h) + if evs[|evs| - 1] == ReadEv(h) then 1 else 0
  }

  /** Position after `k` reads that began at `start` in a file of `n` octets. */
  function EndAfter(start: nat, k: nat, n: nat): nat
    requires start <= n
  {
    Min(start + k * FILE_READ_CHUNK, n)
  }

  /** Handle `h` stands at `end` of a file `d`, and `got` is what was read from `start` on. */
  ghost predicate ReadThrough(s: Files, h: int, d: Data, start: nat, end: nat, got: Data) {
    && Inv(s) && h in s.handles && s.handles[h] == FileRead(d, end)
    && start <= end <= |d| && got == d[start..end]
  }

  lemma StepReadsThrough(s: Files, e: Event, h: int, d: Data, start: nat, end: nat, got: Data)
    requires ReadThrough(s, h, d, start, end, got) && e != CloseEv(h)
    ensures e == ReadEv(h) ==>
      && ReadResult(s, h).Some?
      && ReadThrough(Step(s, e), h, d, start, Min(end + FILE_READ_CHUNK, |d|), got + ReadResult(s, h).value.data)
    ensures e != ReadEv(h) ==> ReadThrough(Step(s, e), h, d, start, end, got)
  {
    if e == ReadEv(h) {
      var end' := Min(end + FILE_READ_CHUNK, |d|);
      assert d[start..end] + d[end..end'] == d[start..end'];
    }
  }

  lemma EndAfterOneMore(start: nat, k: nat, n: nat)
    requires start <= n
    ensures EndAfter(start, k + 1, n) == Min(EndAfter(start, k, n) + FILE_READ_CHUNK, n)
  {
  }

  /** However openings, reads and closings of other files interleave, what is read through a handle
    * is, in order and without gap, the file from its start position on, one block of at most 8192
    * octets per read. */
  lemma {:induction false} BlocksConcatenate(s: Files, name: string, pos: U32, evs: seq<Event>)
    requires Inv(s) && Available(s, name).Some?
    requires forall i :: 0 <= i < |evs| ==> evs[i] != CloseEv(NextHandle(s))
    ensures var h, d, s1 := NextHandle(s), Available(s, name).value, Opened(s, name, pos);
      var start := Min(pos, |d|);
      ReadThrough(Run(s1, evs), h, d, start, EndAfter(start, ReadsOf(evs, h), |d|), Blocks(s1, evs, h))
  {
    var h, d, s1 := NextHandle(s), Available(s, name).value, Opened(s, name, pos);
    var start := Min(pos, |d|);
    if |evs| == 0 {
      assert d[start..start] == [];
    } else {
      var front, e := evs[..|evs| - 1], evs[|evs| - 1];
      var w, got, k := Run(s1, front), Blocks(s1, front, h), ReadsOf(front, h);
      BlocksConcatenate(s, name, pos, front);
      StepReadsThrough(w, e, h, d, start, EndAfter(start, k, |d|), got);
      EndAfterOneMore(start, k, |d|);
      assert got + [] == got;
    }
  }
}
