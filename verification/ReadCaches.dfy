/** The local read cache: cached bytes from pages, missing ranges from a remote store. */
module ReadCaches {
  import opened PageLayout
  import PC = PageCaches
  import opened PageKeys
  import opened FileViews
  import opened Runs

  /** The remote store: what it holds, which range downloads fail, and what a failed download
      leaves in the caller's buffer. */
  datatype Adaptor = Adaptor(content: (string, int) -> byte, fails: (string, int, int) -> bool, junk: (string, int) -> byte)

  /** The byte a download of `n` bytes at `off` puts at offset `i`. */
  function Delivered(ad: Adaptor, key: string, off: int, n: int, i: int): byte {
    if ad.fails(key, off, n) then ad.junk(key, i) else ad.content(key, i)
  }

  datatype Status = SUCCESS | ADAPTOR_NOT_FOUND | DOWNLOAD_FAILED

  /** Every cached byte equals the remote byte. */
  ghost predicate Agrees(cfg: Config, items: Items, md5: Hash, content: (string, int) -> byte) {
    && 0 < cfg.PageBodySize
    && forall k, off :: 0 <= off && FileByte(cfg, items, md5, ReadSide, k, off).Some? ==>
         FileByte(cfg, items, md5, ReadSide, k, off).value == content(k, off)
  }

  // ---- total length of pieces ----

  function SumLens(runs: seq<Run>): int {
    if runs == [] then 0 else runs[0].1 + SumLens(runs[1..])
  }

  lemma {:induction false} SumLensAppend(a: seq<Run>, b: seq<Run>)
    ensures SumLens(a + b) == SumLens(a) + SumLens(b)
  {
    if a == [] {
      assert a + b == b;
    } else {
      SumLensAppend(a[1..], b);
      assert (a + b)[1..] == a[1..] + b;
    }
  }

  ghost predicate OrderedIn(lo: int, hi: int, runs: seq<Run>) {
    && (forall k :: 0 <= k < |runs| ==> lo <= runs[k].0 && 0 < runs[k].1 && runs[k].0 + runs[k].1 <= hi)
    && (forall j, k :: 0 <= j < k < |runs| ==> runs[j].0 + runs[j].1 <= runs[k].0)
  }

  lemma {:induction false} SumLensBound(lo: int, hi: int, runs: seq<Run>)
    requires OrderedIn(lo, hi, runs) && lo <= hi
    ensures SumLens(runs) <= hi - lo
    decreases |runs|
  {
    if runs != [] {
      SumLensBound(runs[0].0 + runs[0].1, hi, runs[1..]);
    }
  }

  /** Disjoint pieces whose lengths add up to the window leave no gap in it. */
  lemma {:induction false} FullCover(lo: int, hi: int, runs: seq<Run>, i: int)
    requires OrderedIn(lo, hi, runs) && SumLens(runs) == hi - lo && lo <= i < hi
    ensures Covered(runs, i)
    decreases |runs|
  {
    SumLensBound(runs[0].0 + runs[0].1, hi, runs[1..]);
    if InRun(runs[0], i) {
    } else {
      FullCover(runs[0].0 + runs[0].1, hi, runs[1..], i);
      var k :| 0 <= k < |runs| - 1 && InRun(runs[1..][k], i);
      assert InRun(runs[k + 1], i);
    }
  }

  /** Disjoint pieces that leave no gap have lengths adding up to the window. */
  lemma {:induction false} CoveredSum(lo: int, hi: int, runs: seq<Run>)
    requires OrderedIn(lo, hi, runs) && lo <= hi
    requires forall i :: lo <= i < hi ==> Covered(runs, i)
    ensures SumLens(runs) == hi - lo
    decreases |runs|
  {
    if runs == [] {
      assert lo < hi ==> Covered(runs, lo);
    } else {
      assert lo <= runs[0].0 < runs[0].0 + runs[0].1 <= hi;
      assert Covered(runs, lo);
      forall i | runs[0].0 + runs[0].1 <= i < hi ensures Covered(runs[1..], i) {
        assert Covered(runs, i) && !InRun(runs[0], i);
        var k :| 0 <= k < |runs| && InRun(runs[k], i);
        assert InRun(runs[1..][k - 1], i);
      }
      CoveredSum(runs[0].0 + runs[0].1, hi, runs[1..]);
    }
  }

  /** The offsets of [0, len) outside `s`. */
  ghost function Missing(s: set<int>, len: nat): set<int> {
    set j: int | 0 <= j < len && !MemberAt(s, 0, j)
  }

  /** The gap loop after `it` pieces: everything before `upTo` is decided, `remain` bytes are missing after it. */
  ghost predicate GapState(s: set<int>, len: nat, pieces: seq<Run>, it: int, upTo: int, remain: int, tasks: seq<Run>) {
    && 0 <= it <= |pieces| && 0 <= upTo <= len
    && IsPieces(s, 0, len, pieces)
    && (remain > 0 ==> upTo == if it == 0 then 0 else pieces[it - 1].0 + pieces[it - 1].1)
    && OrderedIn(upTo, len, pieces[it..])
    && remain == len - upTo - SumLens(pieces[it..])
    && IsRuns(Missing(s, len), 0, upTo, tasks)
  }

  lemma GapsStart(s: set<int>, len: nat, pieces: seq<Run>)
    requires IsPieces(s, 0, len, pieces)
    ensures GapState(s, len, pieces, 0, 0, len - SumLens(pieces), []) && SumLens(pieces) <= len
  {
    assert pieces[0..] == pieces;
    SumLensBound(0, len, pieces);
  }

  lemma GapBeforePiece(s: set<int>, len: nat, pieces: seq<Run>, it: int, upTo: int, remain: int, tasks: seq<Run>)
    requires GapState(s, len, pieces, it, upTo, remain, tasks) && remain > 0 && it < |pieces|
    ensures upTo <= pieces[it].0
    ensures var b := pieces[it];
      GapState(s, len, pieces, it + 1, b.0 + b.1, remain - (b.0 - upTo), if b.0 == upTo then tasks else tasks + [(upTo, b.0 - upTo)])
  {
    hide IsRuns, IsPieces, Missing;
    var b, missing := pieces[it], Missing(s, len);
    assert pieces[it..][0] == b && pieces[it..][1..] == pieces[it + 1..];
    GapBlock(s, len, pieces, it);
    HitBlock(s, len, pieces, it);
    if b.0 == upTo {
      AppendGap(missing, 0, upTo, b.0 + b.1, tasks);
    } else {
      AppendRun(missing, 0, upTo, b.0, tasks);
      AppendGap(missing, 0, b.0, b.0 + b.1, tasks + [(upTo, b.0 - upTo)]);
    }
  }

  lemma GapAtEnd(s: set<int>, len: nat, pieces: seq<Run>, upTo: int, remain: int, tasks: seq<Run>)
    requires GapState(s, len, pieces, |pieces|, upTo, remain, tasks) && remain > 0
    ensures remain == len - upTo && GapState(s, len, pieces, |pieces|, len, 0, tasks + [(upTo, remain)])
  {
    GapBlock(s, len, pieces, |pieces|);
    AppendRun(Missing(s, len), 0, upTo, len, tasks);
  }

  lemma GapsDone(s: set<int>, len: nat, pieces: seq<Run>, it: int, upTo: int, remain: int, tasks: seq<Run>)
    requires GapState(s, len, pieces, it, upTo, remain, tasks)
    ensures 0 <= remain
    ensures remain == 0 ==> IsRuns(Missing(s, len), 0, len, tasks)
  {
    SumLensBound(upTo, len, pieces[it..]);
    if remain == 0 {
      RestIsHit(s, len, pieces, it, upTo);
      AppendGap(Missing(s, len), 0, upTo, len, tasks);
    }
  }

  /** Turns the collected hits into the download list: exactly the maximal missing ranges, in order. */
  method GapTasks(dataBoundary: seq<Run>, len: nat, realReadLen: int, ghost s: set<int>) returns (tasks: seq<Run>)
    requires IsPieces(s, 0, len, dataBoundary) && realReadLen == SumLens(dataBoundary)
    ensures IsRuns(Missing(s, len), 0, len, tasks)
  {
    hide GapState, IsPieces, IsRuns;
    var remainLen, stepStart, it := len - realReadLen, 0, 0;
    ghost var upTo := 0;
    tasks := [];
    GapsStart(s, len, dataBoundary);
    while remainLen > 0
      invariant 0 <= it <= |dataBoundary| && 0 <= remainLen && (remainLen > 0 ==> stepStart == upTo)
      invariant GapState(s, len, dataBoundary, it, upTo, remainLen, tasks)
      decreases |dataBoundary| - it, remainLen
    {
      if it < |dataBoundary| {
        GapBeforePiece(s, len, dataBoundary, it, upTo, remainLen, tasks);
        var readLen := dataBoundary[it].0 - stepStart;
        if readLen != 0 {
          tasks := tasks + [(stepStart, readLen)];
          remainLen := remainLen - readLen;
        }
        stepStart := dataBoundary[it].0 + dataBoundary[it].1;
        it := it + 1;
        upTo := stepStart;
      } else {
        GapAtEnd(s, len, dataBoundary, upTo, remainLen, tasks);
        tasks := tasks + [(stepStart, remainLen)];
        remainLen := 0;
        upTo := len;
      }
      GapsDone(s, len, dataBoundary, it, upTo, remainLen, tasks);
    }
    GapsDone(s, len, dataBoundary, it, upTo, remainLen, tasks);
  }

  /** When the pieces left fill the rest of the window, nothing is missing there. */
  lemma RestIsHit(s: set<int>, len: nat, pieces: seq<Run>, it: int, upTo: int)
    requires IsPieces(s, 0, len, pieces) && 0 <= it <= |pieces| && 0 <= upTo <= len
    requires OrderedIn(upTo, len, pieces[it..]) && SumLens(pieces[it..]) == len - upTo
    ensures forall i :: upTo <= i < len ==> i !in Missing(s, len)
  {
    forall i | upTo <= i < len ensures MemberAt(s, 0, i) {
      FullCover(upTo, len, pieces[it..], i);
      var k :| 0 <= k < |pieces[it..]| && InRun(pieces[it..][k], i);
      assert InRun(pieces[it + k], i);
    }
  }

  lemma HitBlock(s: set<int>, len: nat, pieces: seq<Run>, it: int)
    requires IsPieces(s, 0, len, pieces) && 0 <= it < |pieces|
    ensures forall i :: pieces[it].0 <= i < pieces[it].0 + pieces[it].1 ==> i !in Missing(s, len)
  {
    assert forall i :: pieces[it].0 <= i < pieces[it].0 + pieces[it].1 ==> InRun(pieces[it], i);
  }

  /** Between two pieces, before the first and after the last, everything is missing. */
  lemma GapBlock(s: set<int>, len: nat, pieces: seq<Run>, it: int)
    requires IsPieces(s, 0, len, pieces) && 0 <= it <= |pieces|
    ensures var lo, hi := if it == 0 then 0 else pieces[it - 1].0 + pieces[it - 1].1, if it == |pieces| then len else pieces[it].0;
      (forall i :: lo <= i < hi ==> i in Missing(s, len)) && (lo == 0 || lo - 1 !in Missing(s, len))
  {
    var lo, hi := if it == 0 then 0 else pieces[it - 1].0 + pieces[it - 1].1, if it == |pieces| then len else pieces[it].0;
    forall i | lo <= i < hi ensures i in Missing(s, len) {
      assert forall k :: 0 <= k < |pieces| ==> !InRun(pieces[k], i);
      assert !MemberAt(s, 0, i);
    }
    if it > 0 { HitBlock(s, len, pieces, it - 1); }
  }

  // ---- downloads ----

  ghost function ByteAt(cfg: Config, items: Items, md5: Hash, key: string, start: int, a: int): Option<byte>
    requires 0 < cfg.PageBodySize && 0 <= start + a
  {
    FileByte(cfg, items, md5, ReadSide, key, start + a)
  }

  /** The byte that download `t` of a read at `start` delivers at position `a` of the buffer. */
  ghost function TaskByte(ad: Adaptor, key: string, start: int, t: Run, a: int): byte {
    Delivered(ad, key, start + t.0, t.1, start + a)
  }

  predicate Dropped(ad: Adaptor, logging: bool, key: string, start: int, t: Run) {
    logging && ad.fails(key, start + t.0, t.1)
  }

  /** The buffer after the downloads in `done`: each of them delivered its range, nothing else changed. */
  ghost predicate BufferAfter(ad: Adaptor, key: string, start: int, tasks: seq<Run>, done: set<int>, before: seq<byte>, after: seq<byte>) {
    && |after| == |before|
    && (forall k, a :: 0 <= k < |tasks| && InRun(tasks[k], a) && 0 <= a < |before| ==>
          after[a] == if k in done then TaskByte(ad, key, start, tasks[k], a) else before[a])
    && (forall a :: 0 <= a < |before| && !Covered(tasks, a) ==> after[a] == before[a])
  }

  /** The cache after the downloads in `done`: each range is cached with the delivered bytes, unless its
      download failed and was logged; every other byte of every file is as before. */
  ghost predicate CacheAfter(cfg: Config, before: Items, after: Items, md5: Hash, ad: Adaptor, logging: bool, key: string, start: nat,
                             tasks: seq<Run>, done: set<int>)
    requires 0 < cfg.PageBodySize
  {
    && (forall f, k, a :: 0 <= k < |tasks| && InRun(tasks[k], a) && 0 <= a ==>
          ByteAt(cfg, after, md5, f, start, a) ==
          if k in done && Collide(md5, f, key) && !Dropped(ad, logging, key, start, tasks[k])
          then Some(TaskByte(ad, key, start, tasks[k], a)) else ByteAt(cfg, before, md5, f, start, a))
    && (forall f, off :: 0 <= off && !Covered(tasks, off - start) ==>
          FileByte(cfg, after, md5, ReadSide, f, off) == FileByte(cfg, before, md5, ReadSide, f, off))
  }

  /** A position lies in at most one task. */
  lemma OneTask(lo: int, hi: int, tasks: seq<Run>, j: int, k: int, a: int)
    requires Separated(lo, hi, tasks) && 0 <= j < |tasks| && 0 <= k < |tasks| && InRun(tasks[j], a) && InRun(tasks[k], a)
    ensures j == k
  {
  }

  /** One more download in the buffer. */
  lemma BufferStep(ad: Adaptor, key: string, start: int, tasks: seq<Run>, done: set<int>, k: int, len: int,
                   b0: seq<byte>, b1: seq<byte>, b2: seq<byte>)
    requires Separated(0, len, tasks) && 0 <= k < |tasks| && k !in done
    requires BufferAfter(ad, key, start, tasks, done, b0, b1) && |b2| == |b1|
    requires forall a :: 0 <= a < |b1| ==> b2[a] == if InRun(tasks[k], a) then TaskByte(ad, key, start, tasks[k], a) else b1[a]
    ensures BufferAfter(ad, key, start, tasks, done + {k}, b0, b2)
  {
    hide TaskByte;
    forall j, a | 0 <= j < |tasks| && InRun(tasks[j], a) && 0 <= a < |b0|
      ensures b2[a] == if j in done + {k} then TaskByte(ad, key, start, tasks[j], a) else b0[a]
    {
      if InRun(tasks[k], a) { OneTask(0, len, tasks, j, k, a); }
    }
  }

  /** One more range in the cache. */
  lemma CacheStep(cfg: Config, i0: Items, i1: Items, i2: Items, md5: Hash, ad: Adaptor, logging: bool, key: string, start: nat,
                  tasks: seq<Run>, done: set<int>, k: int, len: int, piece: seq<byte>)
    requires Separated(0, len, tasks) && 0 <= k < |tasks| && k !in done && 0 < cfg.PageBodySize
    requires CacheAfter(cfg, i0, i1, md5, ad, logging, key, start, tasks, done)
    requires !Dropped(ad, logging, key, start, tasks[k])
    requires Written(cfg, i1, i2, md5, ReadSide, key, start + tasks[k].0, piece)
    requires |piece| == tasks[k].1 && forall a :: InRun(tasks[k], a) ==> piece[a - tasks[k].0] == TaskByte(ad, key, start, tasks[k], a)
    ensures CacheAfter(cfg, i0, i2, md5, ad, logging, key, start, tasks, done + {k})
  {
    hide TaskByte, FileByte, Collide, Dropped;
    forall f, j, a | 0 <= j < |tasks| && InRun(tasks[j], a) && 0 <= a
      ensures ByteAt(cfg, i2, md5, f, start, a) ==
          if j in done + {k} && Collide(md5, f, key) && !Dropped(ad, logging, key, start, tasks[j])
          then Some(TaskByte(ad, key, start, tasks[j], a)) else ByteAt(cfg, i0, md5, f, start, a)
    {
      assert WrittenAt(cfg, i1, i2, md5, ReadSide, key, start + tasks[k].0, piece, f, start + a);
      if InRun(tasks[k], a) {
        OneTask(0, len, tasks, j, k, a);
        assert start + a - (start + tasks[k].0) == a - tasks[k].0;
      }
    }
    forall f, off | 0 <= off && !Covered(tasks, off - start)
      ensures FileByte(cfg, i2, md5, ReadSide, f, off) == FileByte(cfg, i0, md5, ReadSide, f, off)
    {
      assert WrittenAt(cfg, i1, i2, md5, ReadSide, key, start + tasks[k].0, piece, f, off);
      assert !InRun(tasks[k], off - start);
    }
  }

  lemma CacheSkip(cfg: Config, i0: Items, i1: Items, md5: Hash, ad: Adaptor, logging: bool, key: string, start: nat,
                  tasks: seq<Run>, done: set<int>, k: int, len: int)
    requires Separated(0, len, tasks) && 0 <= k < |tasks| && 0 < cfg.PageBodySize
    requires CacheAfter(cfg, i0, i1, md5, ad, logging, key, start, tasks, done)
    requires Dropped(ad, logging, key, start, tasks[k])
    ensures CacheAfter(cfg, i0, i1, md5, ad, logging, key, start, tasks, done + {k})
  {
    hide TaskByte, ByteAt, FileByte, Collide, Dropped;
    forall f, j, a | 0 <= j < |tasks| && InRun(tasks[j], a) && 0 <= a
      ensures ByteAt(cfg, i1, md5, f, start, a) ==
          if j in done + {k} && Collide(md5, f, key) && !Dropped(ad, logging, key, start, tasks[j])
          then Some(TaskByte(ad, key, start, tasks[j], a)) else ByteAt(cfg, i0, md5, f, start, a)
    {
      if InRun(tasks[k], a) { OneTask(0, len, tasks, j, k, a); }
    }
  }

  /** The remote store's download: fills the range, or leaves junk in it. */
  method DownLoad(ad: Adaptor, key: string, off: int, n: nat, buf: array<byte>, at: nat) returns (ok: bool)
    requires at + n <= buf.Length
    modifies buf
    ensures ok == !ad.fails(key, off, n)
    ensures forall a :: 0 <= a < buf.Length ==>
      buf[a] == if at <= a < at + n then Delivered(ad, key, off, n, off + (a - at)) else old(buf[a])
  {
    ok := !ad.fails(key, off, n);
    var i := 0;
    while i < n
      invariant 0 <= i <= n
      invariant forall a :: 0 <= a < buf.Length ==>
        buf[a] == if at <= a < at + i then Delivered(ad, key, off, n, off + (a - at)) else old(buf[a])
    {
      buf[at + i] := Delivered(ad, key, off, n, off + i);
      i := i + 1;
    }
  }

  class ReadCache {
    const pageCache: PC.PageCache
    const md5: Hash
    const EnableLogging: bool
    const dataAdaptor: Option<Adaptor>

    ghost predicate Valid()
      reads this, pageCache
    {
      pageCache.Valid() && 0 < pageCache.cfg.PageBodySize && forall s :: 0 < |md5(s)|
    }

    constructor (cfg: Config, md5: Hash, logging: bool, adaptor: Option<Adaptor>)
      requires cfg.Valid() && 0 < cfg.PageBodySize && forall s :: 0 < |md5(s)|
      ensures Valid() && fresh(pageCache) && EnableLogging == logging && dataAdaptor == adaptor && this.md5 == md5
      ensures pageCache.items == map[] && pageCache.cfg == cfg
    {
      pageCache := new PC.PageCache(cfg);
      this.md5 := md5;
      EnableLogging := logging;
      dataAdaptor := adaptor;
    }

    /** The hit loop: copies what is cached and collects it as pieces, page by page. */
    method CollectHits(key: string, start: nat, len: nat, buf: array<byte>) returns (dataBoundary: seq<Run>, realReadLen: int)
      requires Valid() && len <= buf.Length
      modifies buf
      ensures IsPieces(FileHits(pageCache.cfg, pageCache.items, md5, ReadSide, key, start, len), 0, len, dataBoundary)
      ensures realReadLen == SumLens(dataBoundary)
      ensures FileFilled(pageCache.cfg, pageCache.items, md5, ReadSide, key, start, len, old(buf[..]), buf[..], 0)
    {
      hide FileByte, IsPieces, FileHits, Shifted, SumLens;
      ghost var cfg, items := pageCache.cfg, pageCache.items;
      ghost var s := FileHits(cfg, items, md5, ReadSide, key, start, len);
      var pageSize := pageCache.cfg.PageBodySize;
      var index, pagePos := Locate(pageSize, start);
      var bufOffset: nat, remainLen: nat := 0, len;
      dataBoundary, realReadLen := [], 0;
      NoPieces(s);
      while remainLen > 0
        invariant bufOffset + remainLen == len
        invariant remainLen > 0 ==> 0 <= index && 0 <= pagePos < pageSize && index * pageSize + pagePos == start + bufOffset
        invariant IsPieces(s, 0, bufOffset, dataBoundary) && realReadLen == SumLens(dataBoundary)
        invariant FileFilled(cfg, items, md5, ReadSide, key, start, bufOffset, old(buf[..]), buf[..], 0)
      {
        var readLen: nat := if pagePos + remainLen > pageSize then pageSize - pagePos else remainLen;
        dataBoundary, realReadLen := HitStep(key, start, len, bufOffset, index, pagePos, readLen, buf, dataBoundary, realReadLen, old(buf[..]));
        NextPage(pageSize, index, pagePos);
        remainLen := remainLen - readLen;
        index := index + 1;
        bufOffset := bufOffset + readLen;
        pagePos := (pagePos + readLen) % pageSize;
      }
    }

    static lemma NoPieces(s: set<int>)
      ensures IsPieces(s, 0, 0, []) && SumLens([]) == 0
    {
    }

    /** One round of the hit loop. */
    method HitStep(key: string, ghost start: nat, ghost len: nat, bufOffset: nat, index: nat, pagePos: nat, readLen: nat,
                   buf: array<byte>, runs: seq<Run>, sum: int, ghost before: seq<byte>) returns (dataBoundary: seq<Run>, realReadLen: int)
      requires Valid() && len <= buf.Length && bufOffset + readLen <= len
      requires 0 < readLen && pagePos + readLen <= pageCache.cfg.PageBodySize
      requires index * pageCache.cfg.PageBodySize + pagePos == start + bufOffset
      requires IsPieces(FileHits(pageCache.cfg, pageCache.items, md5, ReadSide, key, start, len), 0, bufOffset, runs) && sum == SumLens(runs)
      requires FileFilled(pageCache.cfg, pageCache.items, md5, ReadSide, key, start, bufOffset, before, buf[..], 0)
      modifies buf
      ensures IsPieces(FileHits(pageCache.cfg, pageCache.items, md5, ReadSide, key, start, len), 0, bufOffset + readLen, dataBoundary)
      ensures realReadLen == SumLens(dataBoundary)
      ensures FileFilled(pageCache.cfg, pageCache.items, md5, ReadSide, key, start, bufOffset + readLen, before, buf[..], 0)
    {
      hide FileByte, IsRuns, IsPieces, FileHits, Shifted, FileFilled;
      ghost var cfg, items, mid := pageCache.cfg, pageCache.items, buf[..];
      var _, step := GetPiece(pageCache, md5, ReadSide, key, index, pagePos, readLen, start + bufOffset, buf, bufOffset);
      SubWindow(cfg, items, md5, ReadSide, key, start, len, bufOffset, readLen);
      var moved;
      moved, realReadLen := MoveRuns(step, bufOffset, sum);
      dataBoundary := runs + moved;
      AppendPieces(FileHits(cfg, items, md5, ReadSide, key, start, len), bufOffset, readLen, runs,
                   FileHits(cfg, items, md5, ReadSide, key, start + bufOffset, readLen), step, moved);
      SumLensAppend(runs, moved);
      FilledTwice(cfg, items, md5, ReadSide, key, start, bufOffset, readLen, before, mid, buf[..], 0);
    }

    /** Moves page-relative runs to the buffer and adds up their lengths. */
    static method MoveRuns(step: seq<Run>, shift: nat, sum0: int) returns (moved: seq<Run>, sum: int)
      ensures |moved| == |step| && forall k :: 0 <= k < |step| ==> moved[k] == (step[k].0 + shift, step[k].1)
      ensures sum == sum0 + SumLens(moved)
    {
      moved, sum := [], sum0;
      var k := 0;
      while k < |step|
        invariant 0 <= k <= |step| && |moved| == k
        invariant forall j :: 0 <= j < k ==> moved[j] == (step[j].0 + shift, step[j].1)
        invariant sum == sum0 + SumLens(moved)
      {
        SumLensAppend(moved, [(step[k].0 + shift, step[k].1)]);
        moved := moved + [(step[k].0 + shift, step[k].1)];
        sum := sum + step[k].1;
        k := k + 1;
      }
    }

    /** One download task, run by the executor: fetch the range, then cache it unless the failure
        was noticed. */
    method RunTask(ad: Adaptor, key: string, start: nat, len: nat, tasks: seq<Run>, k: int, buf: array<byte>,
                   ghost done: set<int>, ghost b0: seq<byte>, ghost i0: Items) returns (res: Status)
      requires Valid() && len <= buf.Length
      requires Separated(0, len, tasks) && 0 <= k < |tasks| && k !in done
      requires BufferAfter(ad, key, start, tasks, done, b0, buf[..])
      requires CacheAfter(pageCache.cfg, i0, pageCache.items, md5, ad, EnableLogging, key, start, tasks, done)
      modifies buf, pageCache
      ensures Valid()
      ensures res == if Dropped(ad, EnableLogging, key, start, tasks[k]) then DOWNLOAD_FAILED else SUCCESS
      ensures BufferAfter(ad, key, start, tasks, done + {k}, b0, buf[..])
      ensures CacheAfter(pageCache.cfg, i0, pageCache.items, md5, ad, EnableLogging, key, start, tasks, done + {k})
    {
      hide CacheAfter, BufferAfter, Written;
      var stepStart, readLen := tasks[k].0, tasks[k].1;
      ghost var b1, i1 := buf[..], pageCache.items;
      var ok := DownLoad(ad, key, start + stepStart, readLen, buf, stepStart);
      BufferStep(ad, key, start, tasks, done, k, len, b0, b1, buf[..]);
      if EnableLogging && !ok {
        CacheSkip(pageCache.cfg, i0, i1, md5, ad, EnableLogging, key, start, tasks, done, k, len);
        return DOWNLOAD_FAILED;
      }
      var piece := buf[stepStart..stepStart + readLen];
      var _ := PutPages(pageCache, md5, ReadSide, key, start + stepStart, piece);
      CacheStep(pageCache.cfg, i0, i1, pageCache.items, md5, ad, EnableLogging, key, start, tasks, done, k, len, piece);
      res := SUCCESS;
    }

    /** Runs all tasks, in whatever order the executor picks them. */
    method RunTasks(ad: Adaptor, key: string, start: nat, len: nat, tasks: seq<Run>, buf: array<byte>) returns (res: Status)
      requires Valid() && len <= buf.Length && Separated(0, len, tasks)
      modifies buf, pageCache
      ensures Valid()
      ensures res == if SomeDropped(ad, EnableLogging, key, start, tasks, AllOf(tasks)) then DOWNLOAD_FAILED else SUCCESS
      ensures BufferAfter(ad, key, start, tasks, AllOf(tasks), old(buf[..]), buf[..])
      ensures CacheAfter(pageCache.cfg, old(pageCache.items), pageCache.items, md5, ad, EnableLogging, key, start, tasks, AllOf(tasks))
    {
      hide CacheAfter, BufferAfter, Dropped, SomeDropped, Separated;
      ghost var b0, i0 := buf[..], pageCache.items;
      var pending := set k: int | 0 <= k < |tasks| && IsIndex(tasks, k);
      ghost var done: set<int> := {};
      NothingDone(pageCache.cfg, i0, md5, ad, EnableLogging, key, start, tasks, b0);
      res := SUCCESS;
      while pending != {}
        invariant Valid() && pending == AllOf(tasks) - done && done <= AllOf(tasks)
        invariant res == if SomeDropped(ad, EnableLogging, key, start, tasks, done) then DOWNLOAD_FAILED else SUCCESS
        invariant BufferAfter(ad, key, start, tasks, done, b0, buf[..])
        invariant CacheAfter(pageCache.cfg, i0, pageCache.items, md5, ad, EnableLogging, key, start, tasks, done)
        decreases pending
      {
        var k :| k in pending;
        var one := RunTask(ad, key, start, len, tasks, k, buf, done, b0, i0);
        if one != SUCCESS { res := one; }
        DroppedStep(ad, EnableLogging, key, start, tasks, done, k);
        pending := pending - {k};
        done := done + {k};
      }
      assert done == AllOf(tasks);
    }

    /** A read: what is cached comes from the pages, every missing range is downloaded once and
        cached. Without an adaptor a read that misses anything fails and changes no page. */
    method Get(key: string, start: nat, len: nat, buf: array<byte>) returns (res: Status, tasks: seq<Run>)
      requires Valid() && len <= buf.Length
      modifies buf, pageCache
      ensures Valid()
      ensures res == ADAPTOR_NOT_FOUND <==>
        dataAdaptor.None? && Missing(old(FileHits(pageCache.cfg, pageCache.items, md5, ReadSide, key, start, len)), len) != {}
      ensures res == ADAPTOR_NOT_FOUND ==> tasks == [] && pageCache.items == old(pageCache.items)
      ensures res != ADAPTOR_NOT_FOUND ==>
        IsRuns(Missing(old(FileHits(pageCache.cfg, pageCache.items, md5, ReadSide, key, start, len)), len), 0, len, tasks)
      ensures res != ADAPTOR_NOT_FOUND && dataAdaptor.None? ==> res == SUCCESS && tasks == []
      ensures res != ADAPTOR_NOT_FOUND && dataAdaptor.None? ==> pageCache.items == old(pageCache.items)
      ensures res != ADAPTOR_NOT_FOUND && dataAdaptor.None? ==>
        FileFilled(pageCache.cfg, pageCache.items, md5, ReadSide, key, start, len, old(buf[..]), buf[..], 0)
      ensures dataAdaptor.Some? ==>
        && ReadDone(pageCache.cfg, old(pageCache.items), pageCache.items, md5, dataAdaptor.value, EnableLogging, key, start, len, tasks,
                    old(buf[..]), buf[..])
        && res == if SomeDropped(dataAdaptor.value, EnableLogging, key, start, tasks, AllOf(tasks)) then DOWNLOAD_FAILED else SUCCESS
    {
      hide IsPieces, IsRuns, FileHits, FileFilled, BufferAfter, CacheAfter, SumLens, SomeDropped, ReadDone, Missing, Separated, FileByte;
      ghost var cfg, i0, b0 := pageCache.cfg, pageCache.items, buf[..];
      ghost var hits := FileHits(cfg, i0, md5, ReadSide, key, start, len);
      var dataBoundary, realReadLen := CollectHits(key, start, len, buf);
      ghost var mid := buf[..];
      var gaps := GapTasks(dataBoundary, len, realReadLen, hits);
      GapTotal(hits, len, dataBoundary, gaps);
      var remainLen := len - realReadLen;
      if remainLen > 0 && dataAdaptor.None? { return ADAPTOR_NOT_FOUND, []; }
      tasks := gaps;
      if dataAdaptor.None? { return SUCCESS, tasks; }
      res := RunTasks(dataAdaptor.value, key, start, len, tasks, buf);
      ReadDoneFrom(cfg, i0, pageCache.items, md5, dataAdaptor.value, EnableLogging, key, start, len, tasks, b0, mid, buf[..]);
    }
  }

  predicate IsIndex(tasks: seq<Run>, k: int) {
    0 <= k < |tasks|
  }

  ghost function AllOf(tasks: seq<Run>): set<int> {
    set k: int | 0 <= k < |tasks| && IsIndex(tasks, k)
  }

  ghost predicate SomeDropped(ad: Adaptor, logging: bool, key: string, start: int, tasks: seq<Run>, done: set<int>) {
    exists k :: k in done && 0 <= k < |tasks| && Dropped(ad, logging, key, start, tasks[k])
  }

  lemma DroppedStep(ad: Adaptor, logging: bool, key: string, start: int, tasks: seq<Run>, done: set<int>, k: int)
    requires 0 <= k < |tasks|
    ensures SomeDropped(ad, logging, key, start, tasks, done + {k}) <==>
      SomeDropped(ad, logging, key, start, tasks, done) || Dropped(ad, logging, key, start, tasks[k])
  {
    hide Dropped;
  }

  lemma NothingDone(cfg: Config, items: Items, md5: Hash, ad: Adaptor, logging: bool, key: string, start: nat, tasks: seq<Run>, b0: seq<byte>)
    requires 0 < cfg.PageBodySize
    ensures BufferAfter(ad, key, start, tasks, {}, b0, b0)
    ensures CacheAfter(cfg, items, items, md5, ad, logging, key, start, tasks, {})
    ensures !SomeDropped(ad, logging, key, start, tasks, {})
  {
  }

  /** The counters of the gap loop: something is left to download exactly when something is missing. */
  lemma GapTotal(hits: set<int>, len: nat, pieces: seq<Run>, gaps: seq<Run>)
    requires IsPieces(hits, 0, len, pieces) && IsRuns(Missing(hits, len), 0, len, gaps)
    ensures Separated(0, len, gaps)
    ensures SumLens(pieces) <= len
    ensures SumLens(pieces) == len <==> Missing(hits, len) == {}
    ensures Missing(hits, len) == {} ==> gaps == []
  {
    SumLensBound(0, len, pieces);
    assert pieces[0..] == pieces;
    if SumLens(pieces) == len { RestIsHit(hits, len, pieces, 0, 0); }
    if Missing(hits, len) == {} {
      forall i | 0 <= i < len ensures Covered(pieces, i) {
        assert i !in Missing(hits, len);
        assert MemberAt(hits, 0, i);
      }
      CoveredSum(0, len, pieces);
    }
    assert gaps != [] ==> InRun(gaps[0], gaps[0].0) && Covered(gaps, gaps[0].0);
  }

  /** Everything a read with an adaptor does: hits copied, gaps delivered, the rest of the buffer
      untouched, and the delivered ranges cached. */
  ghost predicate ReadDone(cfg: Config, i0: Items, i1: Items, md5: Hash, ad: Adaptor, logging: bool, key: string, start: nat, len: nat,
                           tasks: seq<Run>, before: seq<byte>, after: seq<byte>)
    requires 0 < cfg.PageBodySize
  {
    && CacheAfter(cfg, i0, i1, md5, ad, logging, key, start, tasks, AllOf(tasks))
    && |after| == |before| && len <= |before|
    && (forall a :: 0 <= a < len && ByteAt(cfg, i0, md5, key, start, a).Some? ==> after[a] == ByteAt(cfg, i0, md5, key, start, a).value)
    && (forall k, a :: 0 <= k < |tasks| && InRun(tasks[k], a) && 0 <= a < len ==> after[a] == TaskByte(ad, key, start, tasks[k], a))
    && (forall a :: len <= a < |before| ==> after[a] == before[a])
  }

  lemma ReadDoneFrom(cfg: Config, i0: Items, i1: Items, md5: Hash, ad: Adaptor, logging: bool, key: string, start: nat, len: nat,
                     tasks: seq<Run>, before: seq<byte>, mid: seq<byte>, after: seq<byte>)
    requires 0 < cfg.PageBodySize && len <= |before|
    requires IsRuns(Missing(FileHits(cfg, i0, md5, ReadSide, key, start, len), len), 0, len, tasks)
    requires FileFilled(cfg, i0, md5, ReadSide, key, start, len, before, mid, 0)
    requires BufferAfter(ad, key, start, tasks, AllOf(tasks), mid, after)
    requires CacheAfter(cfg, i0, i1, md5, ad, logging, key, start, tasks, AllOf(tasks))
    ensures ReadDone(cfg, i0, i1, md5, ad, logging, key, start, len, tasks, before, after)
  {
    hide FileByte, CacheAfter, TaskByte;
    var hits := FileHits(cfg, i0, md5, ReadSide, key, start, len);
    var missing := Missing(hits, len);
    forall a | 0 <= a < len && ByteAt(cfg, i0, md5, key, start, a).Some?
      ensures after[a] == ByteAt(cfg, i0, md5, key, start, a).value
    {
      assert FileHit(cfg, i0, md5, ReadSide, key, start, a);
      assert a in hits && MemberAt(hits, 0, a);
      assert !Covered(tasks, a);
    }
  }

  /** No other file shares the pages of `key`; always so for keys of at most 200 characters. */
  ghost predicate Unshared(md5: Hash, key: string) {
    forall f :: Collide(md5, f, key) ==> f == key
  }

  lemma ShortKeyUnshared(md5: Hash, key: string)
    requires |key| <= 200
    ensures Unshared(md5, key)
  {
  }

  /** A download that fails unnoticed did no harm only if what it left in the buffer is right. */
  ghost predicate HarmlessFailures(ad: Adaptor, logging: bool, key: string, start: nat, tasks: seq<Run>) {
    forall k, a :: 0 <= k < |tasks| && InRun(tasks[k], a) && ad.fails(key, start + tasks[k].0, tasks[k].1) && !logging ==>
      ad.junk(key, start + a) == ad.content(key, start + a)
  }

  /** The agreement with the remote store survives a read exactly when no download failed
      unnoticed and left wrong bytes behind. */
  lemma AgreementKept(cfg: Config, i0: Items, i1: Items, md5: Hash, ad: Adaptor, logging: bool, key: string, start: nat, len: nat,
                      tasks: seq<Run>, before: seq<byte>, after: seq<byte>)
    requires Agrees(cfg, i0, md5, ad.content) && Unshared(md5, key) && Separated(0, len, tasks)
    requires ReadDone(cfg, i0, i1, md5, ad, logging, key, start, len, tasks, before, after)
    ensures Agrees(cfg, i1, md5, ad.content) <==> HarmlessFailures(ad, logging, key, start, tasks)
  {
    hide FileByte, Collide, ReadDone;
    if HarmlessFailures(ad, logging, key, start, tasks) {
      forall f, off | 0 <= off && FileByte(cfg, i1, md5, ReadSide, f, off).Some?
        ensures FileByte(cfg, i1, md5, ReadSide, f, off).value == ad.content(f, off)
      {
        CachedRight(cfg, i0, i1, md5, ad, logging, key, start, len, tasks, before, after, f, off);
      }
    }
    if Agrees(cfg, i1, md5, ad.content) {
      forall k, a | 0 <= k < |tasks| && InRun(tasks[k], a) && ad.fails(key, start + tasks[k].0, tasks[k].1) && !logging
        ensures ad.junk(key, start + a) == ad.content(key, start + a)
      {
        JunkRight(cfg, i0, i1, md5, ad, logging, key, start, len, tasks, before, after, k, a);
      }
    }
  }

  lemma CachedRight(cfg: Config, i0: Items, i1: Items, md5: Hash, ad: Adaptor, logging: bool, key: string, start: nat, len: nat,
                    tasks: seq<Run>, before: seq<byte>, after: seq<byte>, f: string, off: int)
    requires Agrees(cfg, i0, md5, ad.content) && Unshared(md5, key) && Separated(0, len, tasks)
    requires ReadDone(cfg, i0, i1, md5, ad, logging, key, start, len, tasks, before, after)
    requires HarmlessFailures(ad, logging, key, start, tasks) && 0 <= off && FileByte(cfg, i1, md5, ReadSide, f, off).Some?
    ensures FileByte(cfg, i1, md5, ReadSide, f, off).value == ad.content(f, off)
  {
    hide FileByte, Collide;
    var a := off - start;
    assert start + a == off;
    if Covered(tasks, a) {
      var k :| 0 <= k < |tasks| && InRun(tasks[k], a);
      assert ByteAt(cfg, i1, md5, f, start, a) == FileByte(cfg, i1, md5, ReadSide, f, off);
      assert ByteAt(cfg, i0, md5, f, start, a) == FileByte(cfg, i0, md5, ReadSide, f, off);
    }
  }

  lemma JunkRight(cfg: Config, i0: Items, i1: Items, md5: Hash, ad: Adaptor, logging: bool, key: string, start: nat, len: nat,
                  tasks: seq<Run>, before: seq<byte>, after: seq<byte>, k: int, a: int)
    requires Agrees(cfg, i1, md5, ad.content) && Separated(0, len, tasks)
    requires ReadDone(cfg, i0, i1, md5, ad, logging, key, start, len, tasks, before, after)
    requires 0 <= k < |tasks| && InRun(tasks[k], a) && ad.fails(key, start + tasks[k].0, tasks[k].1) && !logging
    ensures ad.junk(key, start + a) == ad.content(key, start + a)
  {
    hide FileByte, Collide;
    SelfCollides(md5, key);
    assert k in AllOf(tasks) by { assert IsIndex(tasks, k); }
    assert ByteAt(cfg, i1, md5, key, start, a) == Some(TaskByte(ad, key, start, tasks[k], a));
  }

  lemma SelfCollides(md5: Hash, key: string)
    ensures Collide(md5, key, key)
  {
  }

  /** A position of the window is either in one task or was cached. */
  lemma HitOrTask(cfg: Config, i0: Items, md5: Hash, key: string, start: nat, len: nat, tasks: seq<Run>, a: int)
    requires 0 < cfg.PageBodySize && 0 <= a < len
    requires IsRuns(Missing(FileHits(cfg, i0, md5, ReadSide, key, start, len), len), 0, len, tasks)
    ensures Covered(tasks, a) || ByteAt(cfg, i0, md5, key, start, a).Some?
  {
    hide FileByte;
    var hits := FileHits(cfg, i0, md5, ReadSide, key, start, len);
    if !Covered(tasks, a) {
      assert a !in Missing(hits, len);
      assert MemberAt(hits, 0, a);
      assert FileHit(cfg, i0, md5, ReadSide, key, start, a);
    }
  }

  /** With agreement before the read and failures either absent or logged, a read that reports
      success returned exactly the remote bytes, and the whole window is cached. */
  lemma ReadReturnsRemote(cfg: Config, i0: Items, i1: Items, md5: Hash, ad: Adaptor, logging: bool, key: string, start: nat, len: nat,
                          tasks: seq<Run>, before: seq<byte>, after: seq<byte>)
    requires Agrees(cfg, i0, md5, ad.content)
    requires IsRuns(Missing(FileHits(cfg, i0, md5, ReadSide, key, start, len), len), 0, len, tasks)
    requires ReadDone(cfg, i0, i1, md5, ad, logging, key, start, len, tasks, before, after)
    requires logging || forall k :: 0 <= k < |tasks| ==> !ad.fails(key, start + tasks[k].0, tasks[k].1)
    requires !SomeDropped(ad, logging, key, start, tasks, AllOf(tasks))
    ensures forall a :: 0 <= a < len ==> after[a] == ad.content(key, start + a)
    ensures forall a :: 0 <= a < len ==> ByteAt(cfg, i1, md5, key, start, a) == Some(ad.content(key, start + a))
    ensures forall a :: len <= a < |after| ==> after[a] == before[a]
  {
    hide FileByte, IsRuns, Collide, Missing, FileHits;
    SelfCollides(md5, key);
    forall a | 0 <= a < len
      ensures after[a] == ad.content(key, start + a) && ByteAt(cfg, i1, md5, key, start, a) == Some(ad.content(key, start + a))
    {
      HitOrTask(cfg, i0, md5, key, start, len, tasks, a);
      if Covered(tasks, a) {
        var k :| 0 <= k < |tasks| && InRun(tasks[k], a);
        assert k in AllOf(tasks) by { assert IsIndex(tasks, k); }
      } else {
        assert start + a - start == a;
      }
    }
  }

  // ---- an unnoticed failure ----

  /** A store that holds ones and fails every download that begins at 0, leaving zeros behind. */
  const FLAKY: Adaptor := Adaptor((key: string, i: int) => 1, (key: string, off: int, n: int) => off == 0, (key: string, i: int) => 0)

  lemma FirstMiss(cfg: Config, md5: Hash, tasks: seq<Run>, i1: Items, before: seq<byte>, after: seq<byte>)
    requires 0 < cfg.PageBodySize && |before| == 2
    requires IsRuns(Missing(FileHits(cfg, map[], md5, ReadSide, "f", 0, 1), 1), 0, 1, tasks)
    requires ReadDone(cfg, map[], i1, md5, FLAKY, false, "f", 0, 1, tasks, before, after)
    ensures after[0] == 0 && FileByte(cfg, i1, md5, ReadSide, "f", 0) == Some(0) && FileByte(cfg, i1, md5, ReadSide, "f", 1) == None
    ensures !Agrees(cfg, i1, md5, FLAKY.content)
  {
    hide FileByte, Collide, FileHits, Missing;
    assert FileByte(cfg, map[], md5, ReadSide, "f", 0) == None by { NothingCached(cfg, md5, "f", 0); }
    assert ByteAt(cfg, map[], md5, "f", 0, 0) == None;
    HitOrTask(cfg, map[], md5, "f", 0, 1, tasks, 0);
    var k :| 0 <= k < |tasks| && InRun(tasks[k], 0);
    assert k in AllOf(tasks) by { assert IsIndex(tasks, k); }
    SelfCollides(md5, "f");
    assert TaskByte(FLAKY, "f", 0, tasks[k], 0) == 0;
    assert ByteAt(cfg, i1, md5, "f", 0, 0) == Some(0);
    NothingCached(cfg, md5, "f", 1);
    assert !Covered(tasks, 1 - 0);
  }

  lemma NothingCached(cfg: Config, md5: Hash, key: string, off: nat)
    requires 0 < cfg.PageBodySize
    ensures FileByte(cfg, map[], md5, ReadSide, key, off) == None
  {
  }

  /** Without logging a read whose only download fails reports success and returns what was in the
      buffer; and a later read, whose own download succeeds, takes the wrong byte from the cache. */
  method UnnoticedFailure(md5: Hash) returns (first: Status, second: Status, got: seq<byte>, ghost cache: ReadCache)
    requires forall s :: 0 < |md5(s)|
    ensures first == second == SUCCESS && got == [0, 1]
    ensures fresh(cache) && cache.dataAdaptor == Some(FLAKY) && !Agrees(cache.pageCache.cfg, cache.pageCache.items, md5, FLAKY.content)
  {
    hide ReadDone, IsRuns, Missing, FileHits, FileByte, Agrees, SomeDropped;
    var c := new ReadCache(Config(8, 4, true, false), md5, false, Some(FLAKY));
    cache := c;
    ghost var cfg := c.pageCache.cfg;
    var buf := new byte[2];
    var tasks;
    ghost var b0 := buf[..];
    first, tasks := c.Get("f", 0, 1, buf);
    NoneDropped(FLAKY, "f", 0, tasks);
    FirstMiss(cfg, md5, tasks, c.pageCache.items, b0, buf[..]);
    ghost var i1, b1 := c.pageCache.items, buf[..];
    second, tasks := c.Get("f", 0, 2, buf);
    NoneDropped(FLAKY, "f", 0, tasks);
    SecondRead(cfg, md5, tasks, i1, c.pageCache.items, b1, buf[..]);
    got := buf[..];
  }

  lemma NoneDropped(ad: Adaptor, key: string, start: int, tasks: seq<Run>)
    ensures !SomeDropped(ad, false, key, start, tasks, AllOf(tasks))
  {
  }

  lemma SecondRead(cfg: Config, md5: Hash, tasks: seq<Run>, i1: Items, i2: Items, before: seq<byte>, after: seq<byte>)
    requires 0 < cfg.PageBodySize && |before| == 2 && FileByte(cfg, i1, md5, ReadSide, "f", 0) == Some(0)
    requires FileByte(cfg, i1, md5, ReadSide, "f", 1) == None
    requires IsRuns(Missing(FileHits(cfg, i1, md5, ReadSide, "f", 0, 2), 2), 0, 2, tasks)
    requires ReadDone(cfg, i1, i2, md5, FLAKY, false, "f", 0, 2, tasks, before, after)
    ensures after == [0, 1] && !Agrees(cfg, i2, md5, FLAKY.content)
  {
    hide FileByte, Collide, FileHits, Missing;
    assert ByteAt(cfg, i1, md5, "f", 0, 0) == Some(0) && ByteAt(cfg, i1, md5, "f", 0, 1) == None;
    HitOrTask(cfg, i1, md5, "f", 0, 2, tasks, 1);
    var k :| 0 <= k < |tasks| && InRun(tasks[k], 1);
    NoHitInTask(cfg, i1, md5, "f", 0, 2, tasks, 0);
    assert !InRun(tasks[k], 0);
    assert TaskByte(FLAKY, "f", 0, tasks[k], 1) == 1;
    assert FileByte(cfg, i2, md5, ReadSide, "f", 0) == FileByte(cfg, i1, md5, ReadSide, "f", 0) by { assert !Covered(tasks, 0 - 0); }
  }

  /** A cached position is in no download. */
  lemma NoHitInTask(cfg: Config, i0: Items, md5: Hash, key: string, start: nat, len: nat, tasks: seq<Run>, a: int)
    requires 0 < cfg.PageBodySize && 0 <= a < len && ByteAt(cfg, i0, md5, key, start, a).Some?
    requires IsRuns(Missing(FileHits(cfg, i0, md5, ReadSide, key, start, len), len), 0, len, tasks)
    ensures !Covered(tasks, a)
  {
    hide FileByte;
    var hits := FileHits(cfg, i0, md5, ReadSide, key, start, len);
    assert FileHit(cfg, i0, md5, ReadSide, key, start, a);
    assert a in hits && MemberAt(hits, 0, a);
    assert a !in Missing(hits, len);
  }
}
