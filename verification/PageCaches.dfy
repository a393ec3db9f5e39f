/** The page cache: a store of pages by key, each page updated in place. */
module PageCaches {
  import opened PageLayout
  import opened PageOps
  import opened PageScan
  import opened PageUpdates
  import opened Runs

  type Key = string

  datatype Status = SUCCESS | PAGE_NOT_FOUND | PAGE_DEL_FAIL

  /** Bytes `data` placed at offset `pos`. */
  ghost function Placed(pos: int, data: seq<byte>): map<int, byte> {
    map i: int | pos <= i < pos + |data| && InRun((pos, |data|), i) :: data[i - pos]
  }

  ghost function Window(pos: int, len: int): set<int> {
    set i: int | pos <= i < pos + len && InRun((pos, len), i)
  }

  /** A page nobody is updating: unlocked, both version bytes equal, fast flag trustworthy. */
  ghost predicate Quiet(cfg: Config, m: seq<byte>) {
    && IsPage(cfg, m) && FastOk(cfg, m)
    && (cfg.EnableCAS ==> m[LOCK] == 0 && m[LASTVER] == m[NEWVER])
  }

  /** With versions on, the page is unlocked and both its version bytes are `v`. */
  ghost predicate HasVersion(cfg: Config, m: seq<byte>, v: byte) {
    cfg.EnableCAS ==> 3 < |m| && m[LOCK] == 0 && m[NEWVER] == v && m[LASTVER] == v
  }

  lemma NoVersions(cfg: Config, m: seq<byte>)
    ensures !cfg.EnableCAS ==> forall v :: HasVersion(cfg, m, v)
  {
  }

  /** The bytes of a write, before its bitmap update. */
  ghost predicate BodyWritten(cfg: Config, m0: seq<byte>, m1: seq<byte>, pos: int, data: seq<byte>) {
    && IsPage(cfg, m0) && |m1| == |m0| && 0 <= pos && pos + |data| <= cfg.PageBodySize
    && (forall a :: cfg.PageMetaSize <= a < cfg.BodyStart() ==> m1[a] == m0[a])
    && (forall i :: 0 <= i < cfg.PageBodySize ==>
          BodyAt(cfg, m1, i) == if pos <= i < pos + |data| then data[i - pos] else BodyAt(cfg, m0, i))
  }

  /** The body bytes of a write followed by its bitmap update are the write on the page's content. */
  lemma WriteMeaning(cfg: Config, m0: seq<byte>, m1: seq<byte>, m2: seq<byte>, pos: int, data: seq<byte>)
    requires BodyWritten(cfg, m0, m1, pos, data)
    requires BitmapUpdated(cfg, m1, m2, pos, |data|, true)
    ensures Content(cfg, m2) == Content(cfg, m0) + Placed(pos, data)
  {
    forall i | 0 <= i < cfg.PageBodySize
      ensures BitAt(cfg, m2, i) <==> pos <= i < pos + |data| || BitAt(cfg, m0, i)
      ensures BodyAt(cfg, m2, i) == if pos <= i < pos + |data| then data[i - pos] else BodyAt(cfg, m0, i)
    {
      BitsAfterUpdate(cfg, m1, m2, pos, |data|, true, i);
      assert BodyAt(cfg, m2, i) == BodyAt(cfg, m1, i);
    }
    hide BitAt, BodyAt, BodyWritten, BitmapUpdated;
    assert forall i :: i in Placed(pos, data) <==> pos <= i < pos + |data|;
  }

  /** Clearing bits removes offsets from the page's content. */
  lemma DeleteMeaning(cfg: Config, m0: seq<byte>, m1: seq<byte>, m2: seq<byte>, pos: int, len: int)
    requires IsPage(cfg, m0) && |m1| == |m0|
    requires 0 <= pos && 0 <= len && pos + len <= cfg.PageBodySize
    requires forall a :: cfg.PageMetaSize <= a < |m0| ==> m1[a] == m0[a]
    requires BitmapUpdated(cfg, m1, m2, pos, len, false)
    ensures Content(cfg, m2) == Content(cfg, m0) - Window(pos, len)
  {
    forall i | 0 <= i < cfg.PageBodySize
      ensures BitAt(cfg, m2, i) <==> !(pos <= i < pos + len) && BitAt(cfg, m0, i)
    {
      BitsAfterUpdate(cfg, m1, m2, pos, len, false, i);
    }
  }

  /** No bitmap byte is set exactly when nothing is cached. */
  lemma EmptyMeaning(cfg: Config, m: seq<byte>)
    requires IsPage(cfg, m)
    ensures Content(cfg, m) == map[] <==> forall a :: cfg.PageMetaSize <= a < cfg.BodyStart() ==> m[a] == 0
  {
    if Content(cfg, m) == map[] {
      forall a | cfg.PageMetaSize <= a < cfg.BodyStart() ensures m[a] == 0 {
        forall n | 0 <= n < 8 ensures !GetBit(m[a], n) {
          var i := (a - cfg.PageMetaSize) * 8 + n;
          assert i !in Content(cfg, m);
          assert !BitAt(cfg, m, i);
        }
        EmptyByte(m[a]);
      }
    }
    if forall a :: cfg.PageMetaSize <= a < cfg.BodyStart() ==> m[a] == 0 {
      EmptyByte(0);
      assert forall i :: 0 <= i < cfg.PageBodySize ==> !BitAt(cfg, m, i);
    }
  }

  /** The fast flag keeps implying a full page through a set or a clear. */
  lemma FastStaysOk(cfg: Config, m0: seq<byte>, m1: seq<byte>, pos: int, len: int, valid: bool)
    requires IsPage(cfg, m0) && BitmapUpdated(cfg, m0, m1, pos, len, valid) && 0 <= pos && pos + len <= cfg.PageBodySize
    requires !valid ==> m0[FAST_BITMAP] == 0
    requires valid && len != cfg.PageBodySize ==> FastOk(cfg, m0)
    ensures FastOk(cfg, m1)
  {
    forall i | 0 <= i < cfg.PageBodySize
      ensures BitAt(cfg, m1, i) <==> if pos <= i < pos + len then valid else BitAt(cfg, m0, i)
    {
      BitsAfterUpdate(cfg, m0, m1, pos, len, valid, i);
    }
  }

  /** Zeroed meta and bitmap bytes make an empty quiet page, whatever the body holds. */
  lemma FreshPage(cfg: Config, m: seq<byte>)
    requires IsPage(cfg, m) && forall a :: 0 <= a < cfg.BodyStart() ==> m[a] == 0
    ensures Quiet(cfg, m) && Content(cfg, m) == map[] && m[NEWVER] == 0
  {
    EmptyMeaning(cfg, m);
  }

  /** Only the meta and bitmap bytes of a new page are initialised. */
  method AllocatePage(cfg: Config) returns (page: array<byte>)
    requires cfg.Valid()
    ensures fresh(page) && Quiet(cfg, page[..]) && Content(cfg, page[..]) == map[] && page[NEWVER] == 0
  {
    page := new byte[cfg.RealPageSize()];
    ghost var trace := MemSet(cfg, page, 0, 0, cfg.BodyStart());
    FreshPage(cfg, page[..]);
  }

  lemma BitsSame(cfg: Config, m0: seq<byte>, m1: seq<byte>)
    requires IsPage(cfg, m0) && |m1| == |m0| && forall a :: cfg.PageMetaSize <= a < cfg.BodyStart() ==> m1[a] == m0[a]
    ensures forall i :: 0 <= i < cfg.PageBodySize ==> (BitAt(cfg, m1, i) <==> BitAt(cfg, m0, i))
  {
  }

  /** Content and the fast flag's promise live above the lock and version bytes. */
  lemma SameBody(cfg: Config, m0: seq<byte>, m1: seq<byte>)
    requires IsPage(cfg, m0) && |m1| == |m0| && forall a :: 3 <= a < |m0| ==> m1[a] == m0[a]
    ensures Content(cfg, m1) == Content(cfg, m0) && (FastOk(cfg, m1) <==> FastOk(cfg, m0))
  {
    assert forall i :: 0 <= i < cfg.PageBodySize ==> (BitAt(cfg, m1, i) <==> BitAt(cfg, m0, i)) && BodyAt(cfg, m1, i) == BodyAt(cfg, m0, i);
  }

  /** Takes the lock byte. Callers retry until they hold it; here nobody else holds it, so the
      first attempt succeeds (the interleaved protocol is in module Seqlock). */
  method Acquire(cfg: Config, page: array<byte>) returns (ghost trace: seq<Micro>)
    requires Quiet(cfg, page[..])
    modifies page
    ensures page[..] == if cfg.EnableCAS then old(page[..])[LOCK := 1] else old(page[..])
    ensures trace == (if cfg.EnableCAS then [Store(LOCK, 1)] else []) && Traced(cfg, old(page[..]), trace, page[..])
  {
    var locked;
    locked, trace := Lock(cfg, page);
    assert locked;
  }

  /** Takes the lock byte and a new version. */
  method BeginUpdate(cfg: Config, page: array<byte>) returns (newVer: byte, ghost trace: seq<Micro>)
    requires Quiet(cfg, page[..])
    modifies page
    ensures cfg.EnableCAS ==> newVer == old(page[NEWVER]) + 1 && page[..] == old(page[..])[LOCK := 1][NEWVER := newVer]
    ensures !cfg.EnableCAS ==> page[..] == old(page[..])
    ensures trace == (if cfg.EnableCAS then BeginSteps(newVer) else []) && Traced(cfg, old(page[..]), trace, page[..])
  {
    ghost var lock := Acquire(cfg, page);
    ghost var m := page[..];
    ghost var ver;
    newVer, ver := AddNewVer(cfg, page);
    TracedConcat(cfg, old(page[..]), lock, m, ver, page[..]);
    trace := lock + ver;
  }

  /** Body bytes, then bitmap. */
  method PutBytes(cfg: Config, page: array<byte>, pagePos: int, data: seq<byte>) returns (ghost trace: seq<Micro>)
    requires IsPage(cfg, page[..]) && FastOk(cfg, page[..])
    requires 0 <= pagePos && pagePos + |data| <= cfg.PageBodySize
    modifies page
    ensures page[..3] == old(page[..3]) && FastOk(cfg, page[..])
    ensures Content(cfg, page[..]) == Content(cfg, old(page[..])) + Placed(pagePos, data)
    ensures trace == Steps(cfg, Write(pagePos, data)) && Traced(cfg, old(page[..]), trace, page[..])
  {
    hide Traced, CopySteps, FlagSteps, BitmapSteps;
    ghost var m0 := page[..];
    ghost var copy := CopyIn(cfg, page, cfg.BodyStart() + pagePos, data);
    ghost var m1 := page[..];
    assert BodyWritten(cfg, m0, m1, pagePos, data);
    ghost var bits := SetBitMap(cfg, page, pagePos, |data|, true);
    TracedConcat(cfg, m0, copy, m1, bits, page[..]);
    trace := copy + bits;
    ghost var flagged := m1[FAST_BITMAP := page[FAST_BITMAP]];
    hide BitAt, Content;
    BitsSame(cfg, m0, flagged);
    WriteMeaning(cfg, m0, flagged, page[..], pagePos, data);
    FastStaysOk(cfg, flagged, page[..], pagePos, |data|, true);
  }

  /** Ends an update that leaves the page in place: last version, unlock. */
  method Release(cfg: Config, page: array<byte>, newVer: byte) returns (ghost trace: seq<Micro>)
    requires IsPage(cfg, page[..]) && FastOk(cfg, page[..]) && (cfg.EnableCAS ==> newVer == page[NEWVER])
    modifies page
    ensures Quiet(cfg, page[..]) && Content(cfg, page[..]) == Content(cfg, old(page[..])) && HasVersion(cfg, page[..], newVer)
    ensures page[..] == if cfg.EnableCAS then old(page[..])[LASTVER := newVer][LOCK := 0] else old(page[..])
    ensures trace == (if cfg.EnableCAS then EndSteps(newVer) else []) && Traced(cfg, old(page[..]), trace, page[..])
  {
    hide FastOk, Content, Traced;
    ghost var ver := SetLastVer(cfg, page, newVer);
    ghost var m := page[..];
    ghost var lock := UnLock(cfg, page);
    TracedConcat(cfg, old(page[..]), ver, m, lock, page[..]);
    trace := ver + lock;
    SameBody(cfg, old(page[..]), page[..]);
  }

  /** A write on a page: lock, new version, body bytes and bitmap, last version, unlock. */
  method WriteBody(cfg: Config, page: array<byte>, pagePos: int, data: seq<byte>) returns (ghost trace: seq<Micro>)
    requires Quiet(cfg, page[..]) && 0 <= pagePos && pagePos + |data| <= cfg.PageBodySize
    modifies page
    ensures Quiet(cfg, page[..])
    ensures Content(cfg, page[..]) == Content(cfg, old(page[..])) + Placed(pagePos, data)
    ensures HasVersion(cfg, page[..], old(page[NEWVER]) + 1)
    ensures trace == UpdateSteps(cfg, Write(pagePos, data), old(page[NEWVER]) + 1) && Traced(cfg, old(page[..]), trace, page[..])
  {
    hide FastOk, Content, Traced, Steps, BeginSteps, EndSteps;
    ghost var m0 := page[..];
    var newVer;
    ghost var begin, put, end;
    newVer, begin := BeginUpdate(cfg, page);
    ghost var m1 := page[..];
    SameBody(cfg, m0, m1);
    put := PutBytes(cfg, page, pagePos, data);
    ghost var m2 := page[..];
    assert cfg.EnableCAS ==> m2[..3][NEWVER] == m1[..3][NEWVER];
    end := Release(cfg, page, newVer);
    TracedConcat(cfg, m0, begin, m1, put, m2);
    TracedConcat(cfg, m0, begin + put, m2, end, page[..]);
    trace := begin + put + end;
  }

  method NoBitSet(cfg: Config, page: array<byte>) returns (isEmpty: bool)
    requires IsPage(cfg, page[..])
    ensures isEmpty <==> forall a :: cfg.PageMetaSize <= a < cfg.BodyStart() ==> page[a] == 0
  {
    var pos := 0;
    while pos < cfg.BitmapSize()
      invariant 0 <= pos <= cfg.BitmapSize()
      invariant forall a :: cfg.PageMetaSize <= a < cfg.PageMetaSize + pos ==> page[a] == 0
    {
      if page[cfg.PageMetaSize + pos] != 0 { return false; }
      pos := pos + 1;
    }
    isEmpty := true;
  }

  /** A delete on a page: lock, new version, bits cleared, then a look whether any data is left. The
      page stays locked with its versions apart. */
  method ClearBody(cfg: Config, page: array<byte>, pagePos: int, length: int) returns (isEmpty: bool, newVer: byte, ghost trace: seq<Micro>)
    requires Quiet(cfg, page[..]) && 0 <= pagePos && 0 <= length && pagePos + length <= cfg.PageBodySize
    modifies page
    ensures IsPage(cfg, page[..]) && FastOk(cfg, page[..])
    ensures cfg.EnableCAS ==> page[LOCK] == 1 && page[LASTVER] == old(page[LASTVER]) && newVer == page[NEWVER] == old(page[NEWVER]) + 1
    ensures Content(cfg, page[..]) == Content(cfg, old(page[..])) - Window(pagePos, length)
    ensures isEmpty <==> Content(cfg, page[..]) == map[]
    ensures trace == (if cfg.EnableCAS then BeginSteps(newVer) else []) + Steps(cfg, DeletePart(pagePos, length))
    ensures Traced(cfg, old(page[..]), trace, page[..])
  {
    hide Traced, BeginSteps, FlagSteps, BitmapSteps;
    ghost var begin;
    newVer, begin := BeginUpdate(cfg, page);
    ghost var m1 := page[..];
    ghost var bits := SetBitMap(cfg, page, pagePos, length, false);
    TracedConcat(cfg, old(page[..]), begin, m1, bits, page[..]);
    trace := begin + bits;
    ghost var flagged := m1[FAST_BITMAP := page[FAST_BITMAP]];
    hide BitAt, Content;
    DeleteMeaning(cfg, old(page[..]), flagged, page[..], pagePos, length);
    FastStaysOk(cfg, flagged, page[..], pagePos, length, false);
    isEmpty := NoBitSet(cfg, page);
    EmptyMeaning(cfg, page[..]);
  }

  /** Offsets of the window [pos, pos+len) with cached data, counted from `pos`. */
  ghost function Hits(c: map<int, byte>, pos: int, len: int): set<int> {
    set j: int | 0 <= j < len && Hit(c, pos, j)
  }

  ghost predicate Hit(c: map<int, byte>, pos: int, j: int) {
    pos + j in c
  }

  /** A buffer after reading the window: cached bytes filled in, the rest untouched. */
  ghost predicate FilledFrom(c: map<int, byte>, pos: int, len: int, before: seq<byte>, after: seq<byte>, base: int) {
    && |after| == |before|
    && forall a :: 0 <= a < |before| ==>
         after[a] == if base <= a < base + len && Hit(c, pos, a - base) then c[pos + (a - base)] else before[a]
  }

  lemma ReadMeaning(cfg: Config, m: seq<byte>, pos: int, len: int)
    requires IsPage(cfg, m) && 0 <= pos && 0 <= len && pos + len <= cfg.PageBodySize
    ensures ValidIn(cfg, m, pos, len) == Hits(Content(cfg, m), pos, len)
    ensures forall before, after, base: int ::
      Filled(cfg, m, pos, ValidIn(cfg, m, pos, len), before, after, base, len) ==> FilledFrom(Content(cfg, m), pos, len, before, after, base)
  {
    var s, c := ValidIn(cfg, m, pos, len), Content(cfg, m);
    assert forall j :: 0 <= j < len ==> (WindowBit(cfg, m, pos, j) <==> Hit(c, pos, j));
    forall before, after, base: int | Filled(cfg, m, pos, s, before, after, base, len)
      ensures FilledFrom(c, pos, len, before, after, base)
    {
      forall a | 0 <= a < |before|
        ensures after[a] == if base <= a < base + len && Hit(c, pos, a - base) then c[pos + (a - base)] else before[a]
      {
        if base <= a < base + len {
          assert WindowBit(cfg, m, pos, a - base) <==> Hit(c, pos, a - base);
        }
      }
    }
  }

  ghost function PageIn(cfg: Config, items: map<Key, seq<byte>>, key: Key): map<int, byte> {
    if key in items && IsPage(cfg, items[key]) then Content(cfg, items[key]) else map[]
  }

  /** The version a page has; a page that is not there yet will begin with 0. */
  ghost function VersionOf(items: map<Key, seq<byte>>, key: Key): byte {
    if key in items && 3 < |items[key]| then items[key][NEWVER] else 0
  }

  /** The store keeps each page's memory as a value; a write handle is that memory in an array,
      updated in place and put back when the handle is released. */
  class PageCache {
    const cfg: Config
    var items: map<Key, seq<byte>>
    var pageNum: int
    var pagesList: set<Key>
    var lock_: int

    ghost predicate Valid()
      reads this
    {
      && cfg.Valid()
      && items.Keys == pagesList && pageNum == |pagesList| && lock_ == 0
      && forall k :: k in items ==> Quiet(cfg, items[k])
    }

    /** The cached offsets and bytes of one page; none when the page is not resident. */
    ghost function PageOf(key: Key): map<int, byte>
      reads this
    {
      PageIn(cfg, items, key)
    }

    constructor (cfg: Config)
      requires cfg.Valid()
      ensures Valid() && this.cfg == cfg && items == map[]
    {
      this.cfg := cfg;
      items := map[];
      pageNum := 0;
      pagesList := {};
      lock_ := 0;
    }

    static method Load(m: seq<byte>) returns (page: array<byte>)
      ensures fresh(page) && page[..] == m
    {
      page := new byte[|m|](i requires 0 <= i < |m| => m[i]);
    }

    /** A new page starts empty; a resident page is handed out as it is. */
    method FindOrCreateWriteHandle(key: Key) returns (page: array<byte>)
      requires Valid()
      modifies this
      ensures Valid() && fresh(page) && key in items && page[..] == items[key]
      ensures items == old(items)[key := page[..]] && (key in old(items) ==> items == old(items))
      ensures key !in old(items) ==> IsPage(cfg, items[key]) && Content(cfg, items[key]) == map[]
      ensures PageOf(key) == old(PageOf(key))
      ensures page.Length > 3 && page[NEWVER] == old(VersionOf(items, key))
    {
      hide Content, Quiet;
      if key in items {
        Resident(key);
        page := Load(items[key]);
        return;
      }
      if cfg.SafeMode { lock_ := lock_ + 1; }
      page := AllocatePage(cfg);
      if cfg.SafeMode { lock_ := lock_ - 1; }
      Insert(key, page[..]);
    }

    /** Puts a new page into the store and into the page accounting. */
    method Insert(key: Key, m: seq<byte>)
      requires Valid() && key !in items && Quiet(cfg, m)
      modifies this`items, this`pageNum, this`pagesList
      ensures Valid() && items == old(items)[key := m]
    {
      hide Quiet;
      items := items[key := m];
      pageNum := pageNum + 1;
      pagesList := pagesList + {key};
    }

    /** Puts the memory of a released handle back. */
    method PutBack(key: Key, m: seq<byte>)
      requires Valid() && key in items && Quiet(cfg, m)
      modifies this`items
      ensures Valid() && items == old(items)[key := m]
    {
      items := items[key := m];
    }

    /** Takes a page out of the store and out of the page accounting. */
    method Remove(key: Key)
      requires Valid() && key in items
      modifies this
      ensures Valid() && items == old(items) - {key}
    {
      if cfg.SafeMode { lock_ := -1; }
      items := items - {key};
      if cfg.SafeMode { lock_ := 0; }
      pageNum := pageNum - 1;
      pagesList := pagesList - {key};
    }

    method Write(key: Key, pagePos: int, buf: seq<byte>) returns (res: Status)
      requires Valid() && 0 <= pagePos && pagePos + |buf| <= cfg.PageBodySize
      modifies this
      ensures Valid() && res == SUCCESS
      ensures PageOf(key) == old(PageOf(key)) + Placed(pagePos, buf)
      ensures items.Keys == old(items.Keys) + {key}
      ensures forall k :: k in old(items) && k != key ==> items[k] == old(items[k])
      ensures HasVersion(cfg, items[key], old(VersionOf(items, key)) + 1)
    {
      hide FastOk, Content, Quiet, Placed, IsPage, Traced, UpdateSteps, VersionOf, HasVersion, PageIn;
      var page := FindOrCreateWriteHandle(key);
      Resident(key);
      ghost var trace := WriteBody(cfg, page, pagePos, buf);
      PutBack(key, page[..]);
      Resident(key);
      res := SUCCESS;
    }

    /** A resident page is quiet and of the configured size. */
    lemma Resident(key: Key)
      requires Valid() && key in items
      ensures Quiet(cfg, items[key]) && IsPage(cfg, items[key]) && |items[key]| > 3
      ensures VersionOf(items, key) == items[key][NEWVER] && PageOf(key) == Content(cfg, items[key])
    {
    }

    /** Copies the cached bytes of the window and reports their maximal runs. */
    method Read(key: Key, pagePos: int, length: int, buf: array<byte>, base: int) returns (res: Status, dataBoundary: seq<Run>)
      requires Valid() && 0 <= pagePos && 0 <= length && pagePos + length <= cfg.PageBodySize
      requires 0 <= base && base + length <= buf.Length
      modifies buf
      ensures res == if key in items then SUCCESS else PAGE_NOT_FOUND
      ensures length > 0 || key !in items ==> IsRuns(Hits(PageOf(key), pagePos, length), 0, length, dataBoundary)
      ensures FilledFrom(PageOf(key), pagePos, length, old(buf[..]), buf[..], base)
    {
      hide Content, Filled, ValidIn, IsRuns;
      if key !in items {
        NoHits(pagePos, length);
        return PAGE_NOT_FOUND, [];
      }
      ReadMeaning(cfg, items[key], pagePos, length);
      dataBoundary := ScanAndCopy(cfg, items[key], pagePos, length, buf, base);
      res := SUCCESS;
    }

    /** The whole page as memory segments: its maximal runs. */
    method GetAllCache(key: Key) returns (res: Status, dataSegments: seq<Segment>)
      requires Valid() && 0 < cfg.PageBodySize
      ensures res == if key in items then SUCCESS else PAGE_NOT_FOUND
      ensures IsRuns(Hits(PageOf(key), 0, cfg.PageBodySize), 0, cfg.PageBodySize, RunsOf(dataSegments)) && Located(cfg, dataSegments)
    {
      hide Content, ValidIn, IsRuns;
      if key !in items {
        NoHits(0, cfg.PageBodySize);
        assert RunsOf([]) == [];
        return PAGE_NOT_FOUND, [];
      }
      ReadMeaning(cfg, items[key], 0, cfg.PageBodySize);
      dataSegments := ScanAll(cfg, items[key]);
      res := SUCCESS;
    }

    /** Forgets the window; the page goes exactly when nothing is left in it, unless the store refuses to
        remove it. */
    method DeletePart(key: Key, pagePos: int, length: int, removable: bool) returns (res: Status)
      requires Valid() && 0 <= pagePos && 0 <= length && pagePos + length <= cfg.PageBodySize
      modifies this
      ensures Valid()
      ensures res == if key !in old(items) then PAGE_NOT_FOUND else if PageOf(key) == map[] && !removable then PAGE_DEL_FAIL else SUCCESS
      ensures PageOf(key) == old(PageOf(key)) - Window(pagePos, length)
      ensures items.Keys - {key} == old(items.Keys) - {key}
      ensures key in items <==> key in old(items) && (PageOf(key) != map[] || !removable)
      ensures forall k :: k in items && k in old(items) && k != key ==> items[k] == old(items[k])
      ensures key in items ==> HasVersion(cfg, items[key], old(VersionOf(items, key)) + 1)
    {
      hide FastOk, Content, Window, Traced, Steps, BeginSteps, EndSteps, HasVersion, VersionOf, Quiet, PageIn;
      if key !in items {
        Absent(key);
        return PAGE_NOT_FOUND;
      }
      Resident(key);
      var page := Load(items[key]);
      var isEmpty, newVer;
      ghost var clear;
      isEmpty, newVer, clear := ClearBody(cfg, page, pagePos, length);
      res := SUCCESS;
      if isEmpty {
        if removable {
          Remove(key);
          Absent(key);
          return;
        }
        res := PAGE_DEL_FAIL;
      }
      KeepPage(key, page, newVer, old(VersionOf(items, key)) + 1);
    }

    /** Ends the update of a page that stays. */
    method KeepPage(key: Key, page: array<byte>, newVer: byte, ghost v: byte)
      requires Valid() && key in items && IsPage(cfg, page[..]) && FastOk(cfg, page[..]) && (cfg.EnableCAS ==> newVer == page[NEWVER] == v)
      modifies this`items, page
      ensures Valid() && key in items && items == old(items)[key := items[key]]
      ensures PageOf(key) == Content(cfg, old(page[..])) && HasVersion(cfg, items[key], v)
    {
      hide FastOk, Content, Traced, EndSteps, HasVersion, Quiet, PageIn;
      ghost var trace := Release(cfg, page, newVer);
      NoVersions(cfg, page[..]);
      PutBack(key, page[..]);
      Resident(key);
    }

    lemma Absent(key: Key)
      requires key !in items
      ensures PageOf(key) == map[] && forall w: set<int> :: PageOf(key) == PageOf(key) - w
    {
    }

    method Delete(key: Key) returns (res: Status)
      requires Valid()
      modifies this
      ensures Valid() && res == if key in old(items) then SUCCESS else PAGE_NOT_FOUND
      ensures items == old(items) - {key} && PageOf(key) == map[]
    {
      if key !in items { return PAGE_NOT_FOUND; }
      Remove(key);
      res := SUCCESS;
    }
  }

  lemma NoHits(pos: int, len: int)
    requires 0 <= len
    ensures IsRuns(Hits(map[], pos, len), 0, len, [])
  {
  }
}
