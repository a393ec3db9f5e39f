/** The in-place page operations: lock and version bytes, bitmap update, copies. Each tells the memory
    writes it made, in order. */
module PageOps {
  import opened PageLayout
  import opened PageUpdates

  // ---- single writes ----

  method StoreByte(cfg: Config, page: array<byte>, a: int, v: byte, ghost m0: seq<byte>, ghost before: seq<Micro>) returns (ghost trace: seq<Micro>)
    requires 0 <= a < page.Length && Traced(cfg, m0, before, page[..])
    modifies page
    ensures page[..] == old(page[..])[a := v] && trace == before + [Store(a, v)] && Traced(cfg, m0, trace, page[..])
  {
    page[a] := v;
    trace := before + [Store(a, v)];
    NextTraced(cfg, m0, before, old(page[..]), Store(a, v));
  }

  /** Reads a byte of the bitmap and stores it back with one bit set or cleared. */
  method ChangeBit(cfg: Config, page: array<byte>, a: int, n: int, valid: bool, ghost m0: seq<byte>, ghost before: seq<Micro>) returns (ghost trace: seq<Micro>)
    requires 0 <= a < page.Length && 0 <= n < 8 && Traced(cfg, m0, before, page[..])
    modifies page
    ensures trace == before + [Bit(a, n, valid)] && Traced(cfg, m0, trace, page[..])
  {
    page[a] := if valid then SetBit(page[a], n) else ClearBit(page[a], n);
    trace := before + [Bit(a, n, valid)];
    NextTraced(cfg, m0, before, old(page[..]), Bit(a, n, valid));
  }

  // ---- lock and version bytes ----

  method Lock(cfg: Config, page: array<byte>) returns (ok: bool, ghost trace: seq<Micro>)
    requires IsPage(cfg, page[..])
    modifies page
    ensures ok == (!cfg.EnableCAS || old(page[LOCK]) == 0)
    ensures page[..] == if cfg.EnableCAS && ok then old(page[..])[LOCK := 1] else old(page[..])
    ensures trace == (if cfg.EnableCAS && ok then [Store(LOCK, 1)] else []) && Traced(cfg, old(page[..]), trace, page[..])
  {
    trace := [];
    if !cfg.EnableCAS { return true, trace; }
    ok := page[LOCK] == 0;
    if ok { trace := StoreByte(cfg, page, LOCK, 1, page[..], trace); }
  }

  method UnLock(cfg: Config, page: array<byte>) returns (ghost trace: seq<Micro>)
    requires IsPage(cfg, page[..])
    modifies page
    ensures page[..] == if cfg.EnableCAS then old(page[..])[LOCK := 0] else old(page[..])
    ensures trace == (if cfg.EnableCAS then [Store(LOCK, 0)] else []) && Traced(cfg, old(page[..]), trace, page[..])
  {
    trace := [];
    if !cfg.EnableCAS { return; }
    trace := StoreByte(cfg, page, LOCK, 0, page[..], trace);
  }

  method AddNewVer(cfg: Config, page: array<byte>) returns (v: byte, ghost trace: seq<Micro>)
    requires IsPage(cfg, page[..])
    modifies page
    ensures cfg.EnableCAS ==> v == old(page[NEWVER]) + 1 && page[..] == old(page[..])[NEWVER := v]
    ensures !cfg.EnableCAS ==> v == 0 && page[..] == old(page[..])
    ensures trace == (if cfg.EnableCAS then [Store(NEWVER, v)] else []) && Traced(cfg, old(page[..]), trace, page[..])
  {
    trace := [];
    if !cfg.EnableCAS { return 0, trace; }
    trace := StoreByte(cfg, page, NEWVER, page[NEWVER] + 1, page[..], trace);
    v := page[NEWVER];
  }

  method SetLastVer(cfg: Config, page: array<byte>, v: byte) returns (ghost trace: seq<Micro>)
    requires IsPage(cfg, page[..])
    modifies page
    ensures page[..] == if cfg.EnableCAS then old(page[..])[LASTVER := v] else old(page[..])
    ensures trace == (if cfg.EnableCAS then [Store(LASTVER, v)] else []) && Traced(cfg, old(page[..]), trace, page[..])
  {
    trace := [];
    if !cfg.EnableCAS { return; }
    trace := StoreByte(cfg, page, LASTVER, v, page[..], trace);
  }

  // ---- copies ----

  method CopyIn(cfg: Config, page: array<byte>, at: int, data: seq<byte>) returns (ghost trace: seq<Micro>)
    requires page.Length == cfg.RealPageSize() && 0 <= at && at + |data| <= page.Length
    modifies page
    ensures trace == CopySteps(at, data) && Traced(cfg, old(page[..]), trace, page[..])
    ensures forall a :: 0 <= a < page.Length ==> page[a] == if at <= a < at + |data| then data[a - at] else old(page[a])
  {
    trace := [];
    var i := 0;
    while i < |data|
      invariant 0 <= i <= |data| && trace == CopySteps(at, data[..i]) && Traced(cfg, old(page[..]), trace, page[..])
    {
      trace := StoreByte(cfg, page, at + i, data[i], old(page[..]), trace);
      assert trace == CopySteps(at, data[..i + 1]);
      i := i + 1;
    }
    assert data[..i] == data;
    ExecStores(cfg, old(page[..]), at, data);
  }

  method MemSet(cfg: Config, page: array<byte>, at: int, v: byte, n: int) returns (ghost trace: seq<Micro>)
    requires page.Length == cfg.RealPageSize() && 0 <= at && 0 <= n && at + n <= page.Length
    modifies page
    ensures trace == FillSteps(at, n, v) && Traced(cfg, old(page[..]), trace, page[..])
    ensures forall a :: 0 <= a < page.Length ==> page[a] == if at <= a < at + n then v else old(page[a])
  {
    trace := [];
    var i := 0;
    while i < n
      invariant 0 <= i <= n && trace == FillSteps(at, i, v) && Traced(cfg, old(page[..]), trace, page[..])
    {
      trace := StoreByte(cfg, page, at + i, v, old(page[..]), trace);
      assert trace == FillSteps(at, i + 1, v);
      i := i + 1;
    }
    FillIsCopy(at, n, v);
    ExecStores(cfg, old(page[..]), at, seq(n, k => v));
  }

  // ---- bitmap ----

  /** Sets or clears the bits first..first+n of the byte at `at`, highest first. */
  method SetBitsOfByte(cfg: Config, page: array<byte>, at: int, first: int, n: int, valid: bool) returns (ghost trace: seq<Micro>)
    requires IsPage(cfg, page[..]) && cfg.PageMetaSize <= at
    requires 0 <= first && 0 <= n && first + n <= 8 && (n > 0 ==> at < cfg.BodyStart())
    modifies page
    ensures trace == BitSteps(at, first, n, valid) && Traced(cfg, old(page[..]), trace, page[..])
  {
    trace := [];
    var left := n;
    while left > 0
      invariant 0 <= left <= n && trace == BitSteps(at, first + left, n - left, valid) && Traced(cfg, old(page[..]), trace, page[..])
    {
      left := left - 1;
      trace := ChangeBit(cfg, page, at, first + left, valid, old(page[..]), trace);
      assert trace == BitSteps(at, first + left, n - left, valid);
    }
  }

  /** The bits up to the next byte boundary. */
  method SetHead(cfg: Config, page: array<byte>, pos: int, len: int, valid: bool) returns (n: int, ghost trace: seq<Micro>)
    requires IsPage(cfg, page[..]) && 0 <= pos && 0 <= len && pos + len <= cfg.PageBodySize
    modifies page
    ensures 0 <= n <= len && (n < len ==> (pos + n) % 8 == 0)
    ensures BitmapUpdated(cfg, old(page[..]), page[..], pos, n, valid)
    ensures n == HeadLen(pos, len) && trace == HeadSteps(cfg, pos, len, valid) && Traced(cfg, old(page[..]), trace, page[..])
  {
    hide BitmapUpdated, Exec, AllOk, BitSteps, Traced;
    ghost var m0 := page[..];
    NoWrites(cfg, m0, cfg.PageMetaSize + pos / 8, pos % 8, valid);
    n, trace := 0, [];
    if pos % 8 > 0 {
      var headByteSetLen := 8 - pos % 8;
      headByteSetLen := if headByteSetLen > len then len else headByteSetLen;
      n := headByteSetLen;
      trace := SetBitsOfByte(cfg, page, cfg.PageMetaSize + pos / 8, pos % 8, headByteSetLen, valid);
    }
    ExecHead(cfg, m0, pos, len, valid);
    TracedEnd(cfg, m0, trace, page[..]);
  }

  lemma NoWrites(cfg: Config, m: seq<byte>, at: int, first: int, valid: bool)
    requires |m| == cfg.RealPageSize()
    ensures BitSteps(at, first, 0, valid) == [] && Traced(cfg, m, [], m)
  {
  }

  /** The whole bytes, filled at once. */
  method SetMid(cfg: Config, page: array<byte>, pos: int, len: int, valid: bool) returns (n: int, ghost trace: seq<Micro>)
    requires IsPage(cfg, page[..]) && 0 <= pos && 0 <= len && pos + len <= cfg.PageBodySize
    requires len > 0 ==> pos % 8 == 0
    modifies page
    ensures 0 <= n <= len && len - n < 8 && (n < len ==> (pos + n) % 8 == 0)
    ensures BitmapUpdated(cfg, old(page[..]), page[..], pos, n, valid)
    ensures n == len / 8 * 8 && trace == MidSteps(cfg, pos, len, valid) && Traced(cfg, old(page[..]), trace, page[..])
  {
    var midLen := len / 8;
    n, trace := 8 * midLen, [];
    EighthOf(pos, len, midLen);
    if midLen > 0 {
      var startByte := cfg.PageMetaSize + pos / 8;
      trace := MemSet(cfg, page, startByte, if valid then 255 else 0, midLen);
    }
    ExecMid(cfg, old(page[..]), pos, len, valid);
  }

  lemma EighthOf(pos: int, len: int, midLen: int)
    requires 0 <= len && midLen == len / 8
    ensures 0 <= 8 * midLen <= len && len - 8 * midLen < 8 && (pos % 8 == 0 ==> (pos + 8 * midLen) % 8 == 0)
  {
  }

  /** The rest, less than a byte. */
  method SetTail(cfg: Config, page: array<byte>, pos: int, len: int, valid: bool) returns (ghost trace: seq<Micro>)
    requires IsPage(cfg, page[..]) && 0 <= pos && 0 <= len && pos + len <= cfg.PageBodySize
    requires len < 8 && (len > 0 ==> pos % 8 == 0)
    modifies page
    ensures trace == TailSteps(cfg, pos, len, valid) && Traced(cfg, old(page[..]), trace, page[..])
  {
    trace := SetBitsOfByte(cfg, page, cfg.PageMetaSize + pos / 8, 0, len, valid);
  }

  /** Sets exactly the bits [pos, pos+len) to `valid`: head byte, whole middle bytes, tail byte. */
  method SetBits(cfg: Config, page: array<byte>, pos: int, len: int, valid: bool) returns (ghost trace: seq<Micro>)
    requires IsPage(cfg, page[..]) && 0 <= pos && 0 <= len && pos + len <= cfg.PageBodySize
    modifies page
    ensures BitmapUpdated(cfg, old(page[..]), page[..], pos, len, valid)
    ensures trace == BitmapSteps(cfg, pos, len, valid) && Traced(cfg, old(page[..]), trace, page[..])
  {
    hide BitmapUpdated, Traced, Exec, HeadLen, HeadSteps, MidSteps, TailSteps;
    ghost var m0 := page[..];
    var head, trace0 := SetHead(cfg, page, pos, len, valid);
    ghost var m1 := page[..];
    var mid, trace1 := SetMid(cfg, page, pos + head, len - head, valid);
    ghost var m2 := page[..];
    ghost var trace2 := SetTail(cfg, page, pos + head + mid, len - head - mid, valid);
    TracedConcat(cfg, m0, trace0, m1, trace1, m2);
    TracedConcat(cfg, m0, trace0 + trace1, m2, trace2, page[..]);
    trace := trace0 + trace1 + trace2;
    ExecBitmap(cfg, m0, pos, len, valid);
    TracedEnd(cfg, m0, trace, page[..]);
  }

  /** The bits, plus the fast flag: raised by a whole-page set, dropped by any clear. */
  method SetBitMap(cfg: Config, page: array<byte>, pos: int, len: int, valid: bool) returns (ghost trace: seq<Micro>)
    requires IsPage(cfg, page[..]) && 0 <= pos && 0 <= len && pos + len <= cfg.PageBodySize
    modifies page
    ensures page[FAST_BITMAP] == if !valid then 0 else if len == cfg.PageBodySize then 1 else old(page[FAST_BITMAP])
    ensures BitmapUpdated(cfg, old(page[..])[FAST_BITMAP := page[FAST_BITMAP]], page[..], pos, len, valid)
    ensures trace == FlagSteps(cfg, len, valid) + BitmapSteps(cfg, pos, len, valid) && Traced(cfg, old(page[..]), trace, page[..])
  {
    hide BitmapSteps;
    ghost var flags: seq<Micro> := [];
    if len == cfg.PageBodySize && valid { flags := StoreByte(cfg, page, FAST_BITMAP, 1, page[..], flags); }
    if !valid { flags := StoreByte(cfg, page, FAST_BITMAP, 0, page[..], flags); }
    ghost var m0 := page[..];
    assert flags == FlagSteps(cfg, len, valid);
    ghost var bits := SetBits(cfg, page, pos, len, valid);
    assert m0 == old(page[..])[FAST_BITMAP := page[FAST_BITMAP]];
    TracedConcat(cfg, old(page[..]), flags, m0, bits, page[..]);
    trace := flags + bits;
  }
}
