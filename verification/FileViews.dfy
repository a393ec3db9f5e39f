/** A file as the bytes its pages hold, and the loop that spreads a range over pages. */
module FileViews {
  import opened Multiples
  import opened PageLayout
  import opened PageCaches
  import opened PageKeys
  import opened Runs

  datatype Option<T> = None | Some(value: T)

  type Items = map<Key, seq<byte>>
  type Hash = string -> string

  /** The cached byte of file `key` at `off`, if any. */
  ghost function FileByte(cfg: Config, items: Items, md5: Hash, side: Side, key: string, off: int): Option<byte>
    requires 0 < cfg.PageBodySize && 0 <= off
  {
    var c := PageIn(cfg, items, GetPageKey(md5, side, key, off / cfg.PageBodySize));
    if off % cfg.PageBodySize in c then Some(c[off % cfg.PageBodySize]) else None
  }

  /** First page of a range and the position in it. */
  method Locate(pageSize: int, start: nat) returns (index: nat, pagePos: nat)
    requires 0 < pageSize
    ensures pagePos < pageSize && index * pageSize + pagePos == start
  {
    index, pagePos := start / pageSize, start % pageSize;
  }

  /** The next page of a range starts where the current one ends. */
  lemma NextPage(ps: int, index: int, pos: int)
    requires 0 <= pos < ps
    ensures (index + 1) * ps == index * ps + ps && (pos + (ps - pos)) % ps == 0
  {
    DivMod(ps, ps, 1, 0);
  }

  /** The offsets of a window inside one page are one window of the file. */
  lemma PageWindow(ps: int, index: int, pos: int, n: int, off: int)
    requires 0 < ps && 0 <= index && 0 <= pos && 0 <= n && pos + n <= ps && 0 <= off
    ensures index * ps + pos <= off < index * ps + pos + n <==> off / ps == index && pos <= off % ps < pos + n
    ensures off / ps == index ==> off % ps - pos == off - (index * ps + pos)
  {
    DivMod(ps, off, off / ps, off % ps);
    if index * ps + pos <= off < index * ps + pos + n {
      DivMod(ps, off, index, off - index * ps);
    }
  }

  /** `after` is `before` with `data` written at `start` of file `key` and of every file whose
      page keys collide with it. */
  ghost predicate Written(cfg: Config, before: Items, after: Items, md5: Hash, side: Side, key: string, start: int, data: seq<byte>) {
    && 0 < cfg.PageBodySize && 0 <= start
    && forall k, off :: 0 <= off ==> WrittenAt(cfg, before, after, md5, side, key, start, data, k, off)
  }

  ghost predicate WrittenAt(cfg: Config, before: Items, after: Items, md5: Hash, side: Side, key: string, start: int, data: seq<byte>, k: string, off: int)
    requires 0 < cfg.PageBodySize && 0 <= off
  {
    FileByte(cfg, after, md5, side, k, off) ==
      if Collide(md5, k, key) && start <= off < start + |data| then Some(data[off - start])
      else FileByte(cfg, before, md5, side, k, off)
  }

  /** What one page write does to the whole store. */
  ghost predicate PageWritten(cfg: Config, before: Items, after: Items, page: Key, pos: int, data: seq<byte>) {
    && PageIn(cfg, after, page) == PageIn(cfg, before, page) + Placed(pos, data)
    && forall k :: k != page ==> PageIn(cfg, after, k) == PageIn(cfg, before, k)
  }

  lemma PageWriteMeaning(cfg: Config, before: Items, after: Items, md5: Hash, side: Side, key: string, index: nat, pos: int, data: seq<byte>)
    requires 0 < cfg.PageBodySize && 0 <= pos && pos + |data| <= cfg.PageBodySize
    requires forall s :: 0 < |md5(s)|
    requires PageWritten(cfg, before, after, GetPageKey(md5, side, key, index), pos, data)
    ensures Written(cfg, before, after, md5, side, key, index * cfg.PageBodySize + pos, data)
  {
    hide WrittenAt, PageWritten, GetPageKey;
    var start := index * cfg.PageBodySize + pos;
    forall k, off | 0 <= off
      ensures WrittenAt(cfg, before, after, md5, side, key, start, data, k, off)
    {
      ByteWriteMeaning(cfg, before, after, md5, side, key, index, pos, data, start, k, off);
    }
  }

  /** One position of one page after a write to some page. */
  lemma InWrittenPage(cfg: Config, before: Items, after: Items, page: Key, other: Key, pos: int, data: seq<byte>, r: int)
    requires PageWritten(cfg, before, after, page, pos, data)
    ensures var a, b := PageIn(cfg, after, other), PageIn(cfg, before, other);
      if other == page && pos <= r < pos + |data| then r in a && a[r] == data[r - pos]
      else (r in a <==> r in b) && (r in b ==> a[r] == b[r])
  {
    hide PageIn;
  }

  lemma ByteWriteMeaning(cfg: Config, before: Items, after: Items, md5: Hash, side: Side, key: string, index: nat, pos: int, data: seq<byte>, start: int, k: string, off: int)
    requires 0 < cfg.PageBodySize && 0 <= pos && pos + |data| <= cfg.PageBodySize && 0 <= off && start == index * cfg.PageBodySize + pos
    requires forall s :: 0 < |md5(s)|
    requires PageWritten(cfg, before, after, GetPageKey(md5, side, key, index), pos, data)
    ensures WrittenAt(cfg, before, after, md5, side, key, start, data, k, off)
  {
    hide PageIn, GetPageKey, Collide, PageWritten;
    PageWindow(cfg.PageBodySize, index, pos, |data|, off);
    PageKeyInjective(md5, side, k, off / cfg.PageBodySize, key, index);
    InWrittenPage(cfg, before, after, GetPageKey(md5, side, key, index), GetPageKey(md5, side, k, off / cfg.PageBodySize), pos, data, off % cfg.PageBodySize);
  }

  lemma WrittenTwice(cfg: Config, i0: Items, i1: Items, i2: Items, md5: Hash, side: Side, key: string, start: int, a: seq<byte>, b: seq<byte>)
    requires Written(cfg, i0, i1, md5, side, key, start, a)
    requires Written(cfg, i1, i2, md5, side, key, start + |a|, b)
    ensures Written(cfg, i0, i2, md5, side, key, start, a + b)
  {
    hide FileByte, Collide;
    forall k, off | 0 <= off ensures WrittenAt(cfg, i0, i2, md5, side, key, start, a + b, k, off) {
      assert WrittenAt(cfg, i0, i1, md5, side, key, start, a, k, off);
      assert WrittenAt(cfg, i1, i2, md5, side, key, start + |a|, b, k, off);
    }
  }

  lemma OnePageWritten(cfg: Config, before: Items, after: Items, page: Key, pos: int, data: seq<byte>)
    requires PageIn(cfg, after, page) == PageIn(cfg, before, page) + Placed(pos, data)
    requires after.Keys == before.Keys + {page} && forall k :: k in before && k != page ==> after[k] == before[k]
    ensures PageWritten(cfg, before, after, page, pos, data)
  {
  }

  /** Writes one piece to one page. */
  method PutPiece(pageCache: PageCache, md5: Hash, side: Side, key: string, index: nat, pagePos: int, piece: seq<byte>) returns (res: Status)
    requires pageCache.Valid() && 0 <= pagePos && 0 < pageCache.cfg.PageBodySize && pagePos + |piece| <= pageCache.cfg.PageBodySize
    requires forall s :: 0 < |md5(s)|
    modifies pageCache
    ensures pageCache.Valid() && res == SUCCESS
    ensures Written(pageCache.cfg, old(pageCache.items), pageCache.items, md5, side, key, index * pageCache.cfg.PageBodySize + pagePos, piece)
  {
    hide Written, GetPageKey, Placed, PageIn, PageWritten, Quiet;
    var pageKey := GetPageKey(md5, side, key, index);
    res := pageCache.Write(pageKey, pagePos, piece);
    OnePageWritten(pageCache.cfg, old(pageCache.items), pageCache.items, pageKey, pagePos, piece);
    PageWriteMeaning(pageCache.cfg, old(pageCache.items), pageCache.items, md5, side, key, index, pagePos, piece);
  }

  /** Spreads `data` over the pages of the range, one page write after the other. */
  method PutPages(pageCache: PageCache, md5: Hash, side: Side, key: string, start: nat, data: seq<byte>) returns (res: Status)
    requires pageCache.Valid() && 0 < pageCache.cfg.PageBodySize
    requires forall s :: 0 < |md5(s)|
    modifies pageCache
    ensures pageCache.Valid() && res == SUCCESS
    ensures Written(pageCache.cfg, old(pageCache.items), pageCache.items, md5, side, key, start, data)
  {
    var cfg := pageCache.cfg;
    var pageSize := cfg.PageBodySize;
    var index, pagePos := Locate(pageSize, start);
    var writeOffset, remainLen := 0, |data|;
    res := SUCCESS;
    assert Written(cfg, pageCache.items, pageCache.items, md5, side, key, start, data[..0]);
    hide Written;
    while remainLen > 0
      invariant pageCache.Valid() && res == SUCCESS
      invariant 0 <= writeOffset && writeOffset + remainLen == |data| && 0 <= remainLen
      invariant remainLen > 0 ==> 0 <= index && 0 <= pagePos < pageSize && index * pageSize + pagePos == start + writeOffset
      invariant Written(cfg, old(pageCache.items), pageCache.items, md5, side, key, start, data[..writeOffset])
    {
      var writeLen := if pagePos + remainLen > pageSize then pageSize - pagePos else remainLen;
      var piece := data[writeOffset..writeOffset + writeLen];
      ghost var before := pageCache.items;
      res := PutPiece(pageCache, md5, side, key, index, pagePos, piece);
      WrittenTwice(cfg, old(pageCache.items), before, pageCache.items, md5, side, key, start, data[..writeOffset], piece);
      assert data[..writeOffset] + piece == data[..writeOffset + writeLen];
      NextPage(pageSize, index, pagePos);
      remainLen := remainLen - writeLen;
      index := index + 1;
      writeOffset := writeOffset + writeLen;
      pagePos := (pagePos + writeLen) % pageSize;
    }
    assert data[..writeOffset] == data;
  }

  // ---- reading ----

  ghost predicate FileHit(cfg: Config, items: Items, md5: Hash, side: Side, key: string, start: int, j: int)
    requires 0 < cfg.PageBodySize && 0 <= start + j
  {
    FileByte(cfg, items, md5, side, key, start + j).Some?
  }

  /** Offsets of the window [start, start+len) that are cached, counted from `start`. */
  ghost function FileHits(cfg: Config, items: Items, md5: Hash, side: Side, key: string, start: nat, len: int): set<int>
    requires 0 < cfg.PageBodySize
  {
    set j: int | 0 <= j < len && FileHit(cfg, items, md5, side, key, start, j)
  }

  /** The cached bytes of the window are in the buffer, everything else in it is as before. */
  ghost predicate FileFilled(cfg: Config, items: Items, md5: Hash, side: Side, key: string, start: nat, len: int,
                             before: seq<byte>, after: seq<byte>, base: int)
    requires 0 < cfg.PageBodySize
  {
    && |after| == |before|
    && forall a :: 0 <= a < |before| ==>
         after[a] == if base <= a < base + len && FileHit(cfg, items, md5, side, key, start, a - base)
                     then FileByte(cfg, items, md5, side, key, start + (a - base)).value else before[a]
  }

  lemma SubWindow(cfg: Config, items: Items, md5: Hash, side: Side, key: string, start: nat, len: nat, at: nat, n: nat)
    requires 0 < cfg.PageBodySize && at + n <= len
    ensures Shifted(FileHits(cfg, items, md5, side, key, start, len), at, n, FileHits(cfg, items, md5, side, key, start + at, n))
  {
    hide FileByte;
    var s, t := FileHits(cfg, items, md5, side, key, start, len), FileHits(cfg, items, md5, side, key, start + at, n);
    forall j | 0 <= j < n ensures j in t <==> MemberAt(s, at, j) {
      assert start + at + j == start + (at + j);
      assert FileHit(cfg, items, md5, side, key, start + at, j) <==> FileHit(cfg, items, md5, side, key, start, at + j);
    }
  }

  lemma FilledTwice(cfg: Config, items: Items, md5: Hash, side: Side, key: string, start: nat, n1: nat, n2: nat,
                    b0: seq<byte>, b1: seq<byte>, b2: seq<byte>, base: int)
    requires 0 < cfg.PageBodySize
    requires FileFilled(cfg, items, md5, side, key, start, n1, b0, b1, base)
    requires FileFilled(cfg, items, md5, side, key, start + n1, n2, b1, b2, base + n1)
    ensures FileFilled(cfg, items, md5, side, key, start, n1 + n2, b0, b2, base)
  {
    hide FileByte;
    forall a | 0 <= a < |b0|
      ensures b2[a] == if base <= a < base + n1 + n2 && FileHit(cfg, items, md5, side, key, start, a - base)
                       then FileByte(cfg, items, md5, side, key, start + (a - base)).value else b0[a]
    {
      assert start + n1 + (a - (base + n1)) == start + (a - base);
    }
  }

  /** What a page read says about the file window it belongs to. */
  lemma PageReadMeaning(cfg: Config, items: Items, md5: Hash, side: Side, key: string, index: nat, pos: nat, n: nat)
    requires 0 < cfg.PageBodySize && pos + n <= cfg.PageBodySize
    ensures forall j :: 0 <= j < n ==>
      var c, at := PageIn(cfg, items, GetPageKey(md5, side, key, index)), index * cfg.PageBodySize + pos;
      FileByte(cfg, items, md5, side, key, at + j) == if Hit(c, pos, j) then Some(c[pos + j]) else None
  {
    hide PageIn, GetPageKey;
    forall j | 0 <= j < n
      ensures FileByte(cfg, items, md5, side, key, index * cfg.PageBodySize + pos + j) ==
        var c := PageIn(cfg, items, GetPageKey(md5, side, key, index)); if Hit(c, pos, j) then Some(c[pos + j]) else None
    {
      DivMod(cfg.PageBodySize, index * cfg.PageBodySize + pos + j, index, pos + j);
    }
  }

  /** The page's answer is the file's answer. */
  lemma PieceMeaning(cfg: Config, items: Items, md5: Hash, side: Side, key: string, start: nat, n: nat, c: map<int, byte>, pos: nat,
                     before: seq<byte>, after: seq<byte>, base: int)
    requires 0 < cfg.PageBodySize
    requires forall j :: 0 <= j < n ==>
      FileByte(cfg, items, md5, side, key, start + j) == if Hit(c, pos, j) then Some(c[pos + j]) else None
    requires FilledFrom(c, pos, n, before, after, base)
    ensures FileHits(cfg, items, md5, side, key, start, n) == Hits(c, pos, n)
    ensures FileFilled(cfg, items, md5, side, key, start, n, before, after, base)
  {
    hide FileByte;
    assert forall j :: 0 <= j < n ==> (FileHit(cfg, items, md5, side, key, start, j) <==> Hit(c, pos, j));
  }

  /** Reads one piece from one page. */
  method GetPiece(pageCache: PageCache, md5: Hash, side: Side, key: string, index: nat, pagePos: nat, n: nat, ghost start: nat,
                  buf: array<byte>, base: int) returns (res: Status, step: seq<Run>)
    requires pageCache.Valid() && 0 < n && pagePos + n <= pageCache.cfg.PageBodySize
    requires start == index * pageCache.cfg.PageBodySize + pagePos
    requires 0 <= base && base + n <= buf.Length
    modifies buf
    ensures res == SUCCESS || res == PAGE_NOT_FOUND
    ensures IsRuns(FileHits(pageCache.cfg, pageCache.items, md5, side, key, start, n), 0, n, step)
    ensures FileFilled(pageCache.cfg, pageCache.items, md5, side, key, start, n, old(buf[..]), buf[..], base)
  {
    hide FileByte, PageIn, IsRuns, FilledFrom, FileFilled, FileHits, Hits;
    var pageKey := GetPageKey(md5, side, key, index);
    PageReadMeaning(pageCache.cfg, pageCache.items, md5, side, key, index, pagePos, n);
    res, step := pageCache.Read(pageKey, pagePos, n, buf, base);
    PieceMeaning(pageCache.cfg, pageCache.items, md5, side, key, start, n, pageCache.PageOf(pageKey), pagePos, old(buf[..]), buf[..], base);
  }
}
