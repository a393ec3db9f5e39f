/** The local write cache: a sparse file spread over pages. */
module WriteCaches {
  import opened PageLayout
  import opened PageCaches
  import opened PageKeys
  import opened FileViews
  import opened Runs

  /** One accepted write. */
  datatype WriteOp = WriteOp(key: string, start: nat, data: seq<byte>)

  /** The byte the last write to an offset left there. Files whose page keys collide are one file. */
  ghost function LastWritten(md5: Hash, log: seq<WriteOp>, key: string, off: int): Option<byte> {
    if log == [] then None
    else
      var op := log[|log| - 1];
      if Collide(md5, key, op.key) && op.start <= off < op.start + |op.data| then Some(op.data[off - op.start])
      else LastWritten(md5, log[..|log| - 1], key, off)
  }

  ghost predicate WrittenHit(md5: Hash, log: seq<WriteOp>, key: string, start: int, j: int) {
    LastWritten(md5, log, key, start + j).Some?
  }

  /** Offsets of the window that some write covered, counted from `start`. */
  ghost function WrittenIn(md5: Hash, log: seq<WriteOp>, key: string, start: nat, len: nat): set<int> {
    set j: int | 0 <= j < len && WrittenHit(md5, log, key, start, j)
  }

  /** For keys of at most 200 characters a file shares its pages with no other file, so its bytes
      are decided by its own writes alone. */
  lemma {:induction false} ShortKeysAreSeparate(md5: Hash, log: seq<WriteOp>, key: string, off: int, own: seq<WriteOp>)
    requires |key| <= 200 && own == OwnWrites(log, key)
    ensures LastWritten(md5, log, key, off) == LastWritten(md5, own, key, off)
    decreases |log|
  {
    if log != [] {
      var n := |log| - 1;
      var rest := OwnWrites(log[..n], key);
      ShortKeysAreSeparate(md5, log[..n], key, off, rest);
      if log[n].key == key {
        assert own[..|own| - 1] == rest;
      }
    }
  }

  ghost function OwnWrites(log: seq<WriteOp>, key: string): seq<WriteOp> {
    if log == [] then []
    else
      var rest := OwnWrites(log[..|log| - 1], key);
      if log[|log| - 1].key == key then rest + [log[|log| - 1]] else rest
  }

  /** The file views of all pages are what the log of writes says. */
  ghost predicate Reflects(cfg: Config, items: Items, md5: Hash, log: seq<WriteOp>) {
    && 0 < cfg.PageBodySize
    && forall k, off :: 0 <= off ==> FileByte(cfg, items, md5, WriteSide, k, off) == LastWritten(md5, log, k, off)
  }

  lemma LogWrite(cfg: Config, before: Items, after: Items, md5: Hash, log: seq<WriteOp>, op: WriteOp)
    requires Reflects(cfg, before, md5, log)
    requires Written(cfg, before, after, md5, WriteSide, op.key, op.start, op.data)
    ensures Reflects(cfg, after, md5, log + [op])
  {
    hide FileByte, Collide;
    var longer := log + [op];
    assert longer[..|longer| - 1] == log;
    forall k, off | 0 <= off
      ensures FileByte(cfg, after, md5, WriteSide, k, off) == LastWritten(md5, longer, k, off)
    {
      assert WrittenAt(cfg, before, after, md5, WriteSide, op.key, op.start, op.data, k, off);
    }
  }

  /** What the pages hold of a window is what the log wrote there. */
  lemma LogReadMeaning(cfg: Config, items: Items, md5: Hash, log: seq<WriteOp>, key: string, start: nat, len: nat)
    requires Reflects(cfg, items, md5, log)
    ensures FileHits(cfg, items, md5, WriteSide, key, start, len) == WrittenIn(md5, log, key, start, len)
    ensures forall j :: 0 <= j ==>
      (FileHit(cfg, items, md5, WriteSide, key, start, j) <==> WrittenHit(md5, log, key, start, j)) &&
      FileByte(cfg, items, md5, WriteSide, key, start + j) == LastWritten(md5, log, key, start + j)
  {
    hide FileByte, LastWritten;
    forall j | 0 <= j
      ensures FileHit(cfg, items, md5, WriteSide, key, start, j) <==> WrittenHit(md5, log, key, start, j)
    {
      assert FileByte(cfg, items, md5, WriteSide, key, start + j) == LastWritten(md5, log, key, start + j);
    }
  }

  class WriteCache {
    const pageCache: PageCache
    const md5: Hash
    /** Keys with unflushed data and when they were first written. */
    var keys: map<string, int>
    ghost var log: seq<WriteOp>

    ghost predicate Valid()
      reads this, pageCache
    {
      && pageCache.Valid() && (forall s :: 0 < |md5(s)|)
      && Reflects(pageCache.cfg, pageCache.items, md5, log)
    }

    constructor (cfg: Config, md5: Hash)
      requires cfg.Valid() && 0 < cfg.PageBodySize && forall s :: 0 < |md5(s)|
      ensures Valid() && log == [] && keys == map[] && fresh(pageCache)
    {
      pageCache := new PageCache(cfg);
      this.md5 := md5;
      keys := map[];
      log := [];
    }

    method Put(key: string, start: nat, data: seq<byte>, now: int) returns (res: Status)
      requires Valid()
      modifies this, pageCache
      ensures Valid() && res == SUCCESS
      ensures log == old(log) + [WriteOp(key, start, data)]
      ensures keys == if |data| > 0 && key !in old(keys) then old(keys)[key := now] else old(keys)
    {
      hide Written, FileByte;
      res := PutPages(pageCache, md5, WriteSide, key, start, data);
      LogWrite(pageCache.cfg, old(pageCache.items), pageCache.items, md5, log, WriteOp(key, start, data));
      log := log + [WriteOp(key, start, data)];
      if 0 < |data| && key !in keys { keys := keys[key := now]; }
    }

    /** Adds the runs of one page, joining the first with the last run so far when they touch. */
    static method JoinStep(dataBoundary: seq<Run>, step: seq<Run>, bufOffset: nat, readLen: nat, ghost s: set<int>, ghost t: set<int>)
      returns (merged: seq<Run>)
      requires IsRuns(s, 0, bufOffset, dataBoundary) && IsRuns(t, 0, readLen, step)
      requires Shifted(s, bufOffset, readLen, t)
      ensures IsRuns(s, 0, bufOffset + readLen, merged)
    {
      merged := dataBoundary;
      var k := 0;
      ghost var upTo := 0;
      while k < |step|
        invariant 0 <= k <= |step| && 0 <= upTo <= readLen
        invariant upTo == if k == 0 then 0 else step[k - 1].0 + step[k - 1].1
        invariant IsRuns(s, 0, bufOffset + upTo, merged)
      {
        var it := step[k];
        var realStart := it.0 + bufOffset;
        forall i | bufOffset + upTo <= i < realStart ensures i !in s {
          NoMemberBetween(t, readLen, step, k, i - bufOffset);
          assert !MemberAt(s, bufOffset, i - bufOffset);
        }
        AppendGap(s, 0, bufOffset + upTo, realStart, merged);
        forall i | realStart <= i < realStart + it.1 ensures i in s {
          assert InRun(step[k], i - bufOffset);
          assert MemberAt(s, bufOffset, i - bufOffset);
        }
        JoinRun(s, realStart, it.1, merged);
        merged := Joined(merged, realStart, it.1);
        upTo := it.0 + it.1;
        k := k + 1;
      }
      forall i | bufOffset + upTo <= i < bufOffset + readLen ensures i !in s {
        NoMemberBetween(t, readLen, step, k, i - bufOffset);
        assert !MemberAt(s, bufOffset, i - bufOffset);
      }
      AppendGap(s, 0, bufOffset + upTo, bufOffset + readLen, merged);
    }

    /** The read loop: page by page, joining runs across page boundaries. */
    method GetPages(key: string, start: nat, len: nat, buf: array<byte>) returns (res: Status, dataBoundary: seq<Run>)
      requires Valid() && len <= buf.Length
      modifies buf
      ensures res == SUCCESS
      ensures IsRuns(FileHits(pageCache.cfg, pageCache.items, md5, WriteSide, key, start, len), 0, len, dataBoundary)
      ensures FileFilled(pageCache.cfg, pageCache.items, md5, WriteSide, key, start, len, old(buf[..]), buf[..], 0)
    {
      hide FileByte, IsRuns, FileHits, Reflects, Shifted;
      ghost var cfg, items := pageCache.cfg, pageCache.items;
      assert 0 < cfg.PageBodySize by { PagesHaveBodies(); }
      ghost var s := FileHits(cfg, items, md5, WriteSide, key, start, len);
      var pageSize := pageCache.cfg.PageBodySize;
      var index, pagePos := Locate(pageSize, start);
      var bufOffset: nat, remainLen: nat := 0, len;
      res, dataBoundary := SUCCESS, [];
      NoRuns(s);
      while remainLen > 0
        invariant res == SUCCESS && bufOffset + remainLen == len
        invariant remainLen > 0 ==> 0 <= index && 0 <= pagePos < pageSize && index * pageSize + pagePos == start + bufOffset
        invariant IsRuns(s, 0, bufOffset, dataBoundary)
        invariant FileFilled(cfg, items, md5, WriteSide, key, start, bufOffset, old(buf[..]), buf[..], 0)
      {
        var readLen: nat := if pagePos + remainLen > pageSize then pageSize - pagePos else remainLen;
        dataBoundary := GetStep(key, start, len, bufOffset, index, pagePos, readLen, buf, dataBoundary, old(buf[..]));
        NextPage(pageSize, index, pagePos);
        remainLen := remainLen - readLen;
        index := index + 1;
        bufOffset := bufOffset + readLen;
        pagePos := (pagePos + readLen) % pageSize;
      }
    }

    /** One round of the read loop. */
    method GetStep(key: string, ghost start: nat, ghost len: nat, bufOffset: nat, index: nat, pagePos: nat, readLen: nat,
                   buf: array<byte>, runs: seq<Run>, ghost before: seq<byte>) returns (dataBoundary: seq<Run>)
      requires Valid() && len <= buf.Length && bufOffset + readLen <= len
      requires 0 < readLen && pagePos + readLen <= pageCache.cfg.PageBodySize
      requires index * pageCache.cfg.PageBodySize + pagePos == start + bufOffset
      requires IsRuns(FileHits(pageCache.cfg, pageCache.items, md5, WriteSide, key, start, len), 0, bufOffset, runs)
      requires FileFilled(pageCache.cfg, pageCache.items, md5, WriteSide, key, start, bufOffset, before, buf[..], 0)
      modifies buf
      ensures IsRuns(FileHits(pageCache.cfg, pageCache.items, md5, WriteSide, key, start, len), 0, bufOffset + readLen, dataBoundary)
      ensures FileFilled(pageCache.cfg, pageCache.items, md5, WriteSide, key, start, bufOffset + readLen, before, buf[..], 0)
    {
      hide FileByte, IsRuns, FileHits, Shifted, FileFilled, Reflects;
      ghost var cfg, items, mid := pageCache.cfg, pageCache.items, buf[..];
      var _, step := GetPiece(pageCache, md5, WriteSide, key, index, pagePos, readLen, start + bufOffset, buf, bufOffset);
      SubWindow(cfg, items, md5, WriteSide, key, start, len, bufOffset, readLen);
      dataBoundary := JoinStep(runs, step, bufOffset, readLen, FileHits(cfg, items, md5, WriteSide, key, start, len),
                               FileHits(cfg, items, md5, WriteSide, key, start + bufOffset, readLen));
      FilledTwice(cfg, items, md5, WriteSide, key, start, bufOffset, readLen, before, mid, buf[..], 0);
    }

    lemma PagesHaveBodies()
      requires Valid()
      ensures 0 < pageCache.cfg.PageBodySize
    {
    }

    static lemma NoRuns(s: set<int>)
      ensures IsRuns(s, 0, 0, [])
    {
    }

    /** Returns the maximal runs of written offsets in the window, with last-writer bytes; the rest
        of the buffer is untouched. */
    method Get(key: string, start: nat, len: nat, buf: array<byte>) returns (res: Status, dataBoundary: seq<Run>)
      requires Valid() && len <= buf.Length
      modifies buf
      ensures res == SUCCESS
      ensures IsRuns(WrittenIn(md5, log, key, start, len), 0, len, dataBoundary)
      ensures forall a :: 0 <= a < buf.Length ==>
        buf[a] == if a < len && WrittenHit(md5, log, key, start, a) then LastWritten(md5, log, key, start + a).value else old(buf[a])
    {
      hide FileByte, IsRuns, LastWritten, WrittenIn, FileHits;
      LogReadMeaning(pageCache.cfg, pageCache.items, md5, log, key, start, len);
      res, dataBoundary := GetPages(key, start, len, buf);
      forall a | 0 <= a < buf.Length
        ensures buf[a] == if a < len && WrittenHit(md5, log, key, start, a) then LastWritten(md5, log, key, start + a).value else old(buf[a])
      {
        assert buf[..][a] == buf[a];
      }
    }
  }
}
