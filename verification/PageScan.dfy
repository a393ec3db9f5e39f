/** Reading a page: the run scan with its 64-bit shortcut, with and without copying. */
module PageScan {
  import opened PageLayout
  import opened PageOps
  import opened Runs

  /** Offsets of the window [pos, pos+len) that hold data, counted from `pos`. */
  ghost function ValidIn(cfg: Config, m: seq<byte>, pos: int, len: int): set<int>
    requires IsPage(cfg, m) && 0 <= pos && pos + len <= cfg.PageBodySize
  {
    set j: int | 0 <= j < len && WindowBit(cfg, m, pos, j)
  }

  ghost predicate WindowBit(cfg: Config, m: seq<byte>, pos: int, j: int)
    requires IsPage(cfg, m) && 0 <= pos + j < cfg.PageBodySize
  {
    BitAt(cfg, m, pos + j)
  }

  /** The eight bitmap bytes at `at`, read as one 64-bit word, are all equal to `v`. */
  predicate WordIs(m: seq<byte>, at: int, v: byte)
    requires 0 <= at && at + 8 <= |m|
  {
    forall k :: at <= k < at + 8 ==> m[k] == v
  }

  /** The bits of one bitmap byte. */
  lemma BitOfByte(cfg: Config, m: seq<byte>, cur: int, k: int, n: int)
    requires IsPage(cfg, m) && 0 <= cur && cur % 8 == 0 && 0 <= k && 0 <= n < 8 && cur + 8 * k + 8 <= cfg.PageBodySize
    ensures BitAt(cfg, m, cur + 8 * k + n) <==> GetBit(m[cfg.PageMetaSize + cur / 8 + k], n)
  {
    assert (cur + 8 * k + n) / 8 == cur / 8 + k && (cur + 8 * k + n) % 8 == n;
  }

  lemma BitInWord(cfg: Config, m: seq<byte>, cur: int, i: int)
    requires IsPage(cfg, m) && 0 <= cur && cur + 64 <= cfg.PageBodySize && cur % 64 == 0 && cur <= i < cur + 64
    ensures 0 <= (i - cur) / 8 < 8 && (BitAt(cfg, m, i) <==> GetBit(m[cfg.PageMetaSize + cur / 8 + (i - cur) / 8], (i - cur) % 8))
  {
    BitOfByte(cfg, m, cur, (i - cur) / 8, (i - cur) % 8);
  }

  /** One word test decides 64 validity bits: the word is all ones, or all zeros, exactly when all of
      them are set, or clear. */
  lemma WordDecidesBatch(cfg: Config, m: seq<byte>, cur: int)
    requires IsPage(cfg, m) && 0 <= cur && cur + 64 <= cfg.PageBodySize && cur % 64 == 0
    ensures WordIs(m, cfg.PageMetaSize + cur / 8, 255) <==> forall i :: cur <= i < cur + 64 ==> BitAt(cfg, m, i)
    ensures WordIs(m, cfg.PageMetaSize + cur / 8, 0) <==> forall i :: cur <= i < cur + 64 ==> !BitAt(cfg, m, i)
  {
    hide BitAt, GetBit;
    var at := cfg.PageMetaSize + cur / 8;
    FullByte(255);
    EmptyByte(0);
    forall i | cur <= i < cur + 64
      ensures WordIs(m, at, 255) ==> BitAt(cfg, m, i)
      ensures WordIs(m, at, 0) ==> !BitAt(cfg, m, i)
    {
      BitInWord(cfg, m, cur, i);
    }
    forall a | at <= a < at + 8
      ensures (forall i :: cur <= i < cur + 64 ==> BitAt(cfg, m, i)) ==> m[a] == 255
      ensures (forall i :: cur <= i < cur + 64 ==> !BitAt(cfg, m, i)) ==> m[a] == 0
    {
      ByteInWord(cfg, m, cur, a - at);
    }
  }

  lemma ByteInWord(cfg: Config, m: seq<byte>, cur: int, k: int)
    requires IsPage(cfg, m) && 0 <= cur && cur + 64 <= cfg.PageBodySize && cur % 64 == 0 && 0 <= k < 8
    ensures (forall i :: cur <= i < cur + 64 ==> BitAt(cfg, m, i)) ==> m[cfg.PageMetaSize + cur / 8 + k] == 255
    ensures (forall i :: cur <= i < cur + 64 ==> !BitAt(cfg, m, i)) ==> m[cfg.PageMetaSize + cur / 8 + k] == 0
  {
    hide BitAt, GetBit;
    var x := m[cfg.PageMetaSize + cur / 8 + k];
    FullByte(x);
    EmptyByte(x);
    forall n | 0 <= n < 8 ensures BitAt(cfg, m, cur + 8 * k + n) <==> GetBit(x, n) {
      BitOfByte(cfg, m, cur, k, n);
    }
  }

  /** The pending run of a scan: the last `n` positions before `c` all have validity `v`,
      and everything before them is described by `runs`. */
  ghost predicate Pending(s: set<int>, c: int, n: int, v: bool, runs: seq<Run>) {
    && 0 <= n <= c && (n == 0 ==> c == 0 && !v)
    && IsRuns(s, 0, c - n, runs)
    && (forall j :: c - n <= j < c ==> (j in s <==> v))
    && (c - n > 0 && v ==> c - n - 1 !in s)
  }

  lemma PendingRun(s: set<int>, c: int, n: int, v: bool, runs: seq<Run>)
    requires Pending(s, c, n, v, runs)
    ensures 0 <= n <= c && forall j :: c - n <= j < c ==> (j in s <==> v)
  {
  }

  lemma PendingGrows(s: set<int>, c: int, n: int, v: bool, runs: seq<Run>, k: int, w: bool)
    requires Pending(s, c, n, v, runs) && 0 < k && (n == 0 || v == w)
    requires forall j :: c <= j < c + k ==> (j in s <==> w)
    ensures Pending(s, c + k, n + k, w, runs)
  {
  }

  /** After a flush the position whose validity differs starts the next pending run. */
  lemma PendingRestarts(s: set<int>, c: int, n: int, v: bool, runs: seq<Run>)
    requires Pending(s, c, n, v, runs) && 0 < n && (c in s <==> !v)
    ensures Pending(s, c + 1, 1, !v, Flush(c, n, v, runs))
  {
    FlushIsRuns(s, c, n, v, runs);
  }

  lemma PendingStarts(s: set<int>)
    ensures Pending(s, 0, 0, false, [])
  {
  }

  function Flush(c: int, n: int, v: bool, runs: seq<Run>): seq<Run> {
    if v then runs + [(c - n, n)] else runs
  }

  lemma FlushIsRuns(s: set<int>, c: int, n: int, v: bool, runs: seq<Run>)
    requires Pending(s, c, n, v, runs)
    ensures IsRuns(s, 0, c, Flush(c, n, v, runs))
  {
    if v {
      AppendRun(s, 0, c - n, c, runs);
    } else {
      AppendGap(s, 0, c - n, c, runs);
    }
  }

  method CopyOut(m: seq<byte>, from: int, buf: array<byte>, to: int, n: int)
    requires 0 <= from && 0 <= to && 0 <= n && from + n <= |m| && to + n <= buf.Length
    modifies buf
    ensures forall a :: 0 <= a < buf.Length ==>
      buf[a] == if to <= a < to + n then m[from + (a - to)] else old(buf[a])
  {
    var i := 0;
    while i < n
      invariant 0 <= i <= n
      invariant forall a :: 0 <= a < buf.Length ==>
        buf[a] == if to <= a < to + i then m[from + (a - to)] else old(buf[a])
    {
      buf[to + i] := m[from + i];
      i := i + 1;
    }
  }

  /** The buffer after a read of the window: valid bytes copied, all others untouched, up to `done`. */
  ghost predicate Filled(cfg: Config, m: seq<byte>, pos: int, s: set<int>, before: seq<byte>, after: seq<byte>, base: int, done: int) {
    && IsPage(cfg, m) && |after| == |before|
    && (forall j :: j in s ==> 0 <= pos + j < cfg.PageBodySize)
    && forall a :: 0 <= a < |before| ==>
         after[a] == if base <= a < base + done && a - base in s then m[cfg.BodyStart() + pos + (a - base)] else before[a]
  }

  /** Copies one finished run and reports it. */
  method EmitRun(cfg: Config, m: seq<byte>, pos: int, len: int, c: int, n: int, v: bool,
                 buf: array<byte>, base: int, runs: seq<Run>, ghost s: set<int>, ghost before: seq<byte>)
    returns (out: seq<Run>)
    requires IsPage(cfg, m)
    requires 0 <= pos && 0 <= c <= len && pos + len <= cfg.PageBodySize && 0 <= base && base + len <= buf.Length
    requires s == ValidIn(cfg, m, pos, len) && Pending(s, c, n, v, runs)
    requires Filled(cfg, m, pos, s, before, buf[..], base, c - n)
    modifies buf
    ensures out == Flush(c, n, v, runs) && IsRuns(s, 0, c, out)
    ensures Filled(cfg, m, pos, s, before, buf[..], base, c)
  {
    hide IsRuns, Pending, ValidIn;
    PendingRun(s, c, n, v, runs);
    FlushIsRuns(s, c, n, v, runs);
    out := runs;
    if v {
      CopyOut(m, cfg.BodyStart() + pos + c - n, buf, base + c - n, n);
      out := runs + [(c - n, n)];
    }
  }

  /** The 64 bits from `cur` on as members of the window. */
  lemma WindowIs(cfg: Config, m: seq<byte>, pos: int, cur: int, end: int)
    requires IsPage(cfg, m) && 0 <= pos <= cur && cur + 64 <= end <= cfg.PageBodySize
    ensures var s := ValidIn(cfg, m, pos, end - pos);
      && ((forall j :: cur - pos <= j < cur - pos + 64 ==> j in s) <==> forall i :: cur <= i < cur + 64 ==> BitAt(cfg, m, i))
      && ((forall j :: cur - pos <= j < cur - pos + 64 ==> j !in s) <==> forall i :: cur <= i < cur + 64 ==> !BitAt(cfg, m, i))
  {
    hide BitAt;
    var s := ValidIn(cfg, m, pos, end - pos);
    forall i | cur <= i < cur + 64 ensures i - pos in s <==> BitAt(cfg, m, i) {
      assert WindowBit(cfg, m, pos, i - pos) <==> BitAt(cfg, m, i);
    }
    forall j | cur - pos <= j < cur - pos + 64 ensures j in s <==> BitAt(cfg, m, pos + j) {
    }
  }

  /** The 64-bit shortcut: whether the 64 positions from `cur` on are known to agree, and on what. */
  method TryBatch(cfg: Config, m: seq<byte>, pos: int, cur: int, end: int, ghost s: set<int>)
    returns (isBatFuncValid: bool, batByteValid: bool)
    requires IsPage(cfg, m) && 0 <= pos <= cur < end <= cfg.PageBodySize
    requires s == ValidIn(cfg, m, pos, end - pos)
    ensures isBatFuncValid ==> cur + 64 <= end
    ensures isBatFuncValid ==> forall j :: cur - pos <= j < cur - pos + 64 ==> (j in s <==> batByteValid)
    ensures isBatFuncValid <==>
      && cur % 64 == 0 && cur + 64 <= end
      && ((forall j :: cur - pos <= j < cur - pos + 64 ==> j in s) || (forall j :: cur - pos <= j < cur - pos + 64 ==> j !in s))
  {
    isBatFuncValid, batByteValid := false, false;
    if cur % 64 == 0 && end - cur >= 64 {
      WordDecidesBatch(cfg, m, cur);
      WindowIs(cfg, m, pos, cur, end);
      if WordIs(m, cfg.PageMetaSize + cur / 8, 255) {
        isBatFuncValid, batByteValid := true, true;
      } else if WordIs(m, cfg.PageMetaSize + cur / 8, 0) {
        isBatFuncValid := true;
      }
      forall j | isBatFuncValid && cur - pos <= j < cur - pos + 64 ensures j in s <==> batByteValid {
        assert WindowBit(cfg, m, pos, j) <==> batByteValid;
      }
    }
  }

  /** The single-bit test. */
  method TestBit(cfg: Config, m: seq<byte>, pos: int, cur: int, end: int, ghost s: set<int>) returns (curByteValid: bool)
    requires IsPage(cfg, m) && 0 <= pos <= cur < end <= cfg.PageBodySize
    requires s == ValidIn(cfg, m, pos, end - pos)
    ensures curByteValid <==> cur - pos in s
  {
    curByteValid := GetBit(m[cfg.PageMetaSize + cur / 8], cur % 8);
    assert curByteValid <==> WindowBit(cfg, m, pos, cur - pos);
  }

  /** The state of a scan that has looked at `c` positions of the window. */
  ghost predicate Scanning(cfg: Config, m: seq<byte>, pos: int, len: int, s: set<int>, c: int, n: int, v: bool,
                           runs: seq<Run>, before: seq<byte>, after: seq<byte>, base: int)
  {
    && IsPage(cfg, m) && 0 <= pos && 0 <= c <= len && pos + len <= cfg.PageBodySize
    && 0 <= base && base + len <= |before| && |after| == |before|
    && s == ValidIn(cfg, m, pos, len)
    && Pending(s, c, n, v, runs)
    && Filled(cfg, m, pos, s, before, after, base, c - n)
  }

  /** One round of the scan loop. */
  method ScanStep(cfg: Config, m: seq<byte>, pagePos: int, length: int, cur0: int, continuousLen0: int,
                  continuousDataValid0: bool, runs: seq<Run>, buf: array<byte>, base: int,
                  ghost s: set<int>, ghost before: seq<byte>)
    returns (cur: int, continuousLen: int, continuousDataValid: bool, dataBoundary: seq<Run>)
    requires cur0 < pagePos + length
    requires Scanning(cfg, m, pagePos, length, s, cur0 - pagePos, continuousLen0, continuousDataValid0, runs, before, buf[..], base)
    modifies buf
    ensures cur0 < cur <= pagePos + length
    ensures Scanning(cfg, m, pagePos, length, s, cur - pagePos, continuousLen, continuousDataValid, dataBoundary, before, buf[..], base)
  {
    hide ValidIn, IsRuns, Filled;
    cur, continuousLen, continuousDataValid, dataBoundary := cur0, continuousLen0, continuousDataValid0, runs;
    ghost var c := cur - pagePos;
    var isBatFuncValid, batByteValid := TryBatch(cfg, m, pagePos, cur, pagePos + length, s);
    if isBatFuncValid && (continuousLen == 0 || continuousDataValid == batByteValid) {
      PendingGrows(s, c, continuousLen, continuousDataValid, dataBoundary, 64, batByteValid);
      continuousDataValid := batByteValid;
      continuousLen := continuousLen + 64;
      cur := cur + 64;
      return;
    }
    var curByteValid := TestBit(cfg, m, pagePos, cur, pagePos + length, s);
    if continuousLen == 0 || continuousDataValid == curByteValid {
      PendingGrows(s, c, continuousLen, continuousDataValid, dataBoundary, 1, curByteValid);
      continuousDataValid := curByteValid;
      continuousLen := continuousLen + 1;
      cur := cur + 1;
      return;
    }
    PendingRestarts(s, c, continuousLen, continuousDataValid, dataBoundary);
    dataBoundary := EmitRun(cfg, m, pagePos, length, cur - pagePos, continuousLen, continuousDataValid,
                            buf, base, dataBoundary, s, before);
    continuousDataValid := curByteValid;
    continuousLen := 1;
    cur := cur + 1;
  }

  /** The slow path of a read: position by position, with the 64-bit shortcut. */
  method ScanRuns(cfg: Config, m: seq<byte>, pagePos: int, length: int, buf: array<byte>, base: int, ghost s: set<int>)
    returns (dataBoundary: seq<Run>)
    requires IsPage(cfg, m)
    requires 0 <= pagePos && 0 <= length && pagePos + length <= cfg.PageBodySize
    requires 0 <= base && base + length <= buf.Length
    requires s == ValidIn(cfg, m, pagePos, length)
    modifies buf
    ensures IsRuns(s, 0, length, dataBoundary)
    ensures Filled(cfg, m, pagePos, s, old(buf[..]), buf[..], base, length)
  {
    ghost var before := buf[..];
    dataBoundary := [];
    var cur := pagePos;
    var continuousDataValid := false;
    var continuousLen := 0;
    while cur < pagePos + length
      invariant pagePos <= cur <= pagePos + length
      invariant Scanning(cfg, m, pagePos, length, s, cur - pagePos, continuousLen, continuousDataValid, dataBoundary, before, buf[..], base)
    {
      cur, continuousLen, continuousDataValid, dataBoundary := ScanStep(cfg, m, pagePos, length, cur, continuousLen,
        continuousDataValid, dataBoundary, buf, base, s, before);
    }
    dataBoundary := EmitRun(cfg, m, pagePos, length, cur - pagePos, continuousLen, continuousDataValid,
                            buf, base, dataBoundary, s, before);
  }

  ghost function WholeSet(len: int): set<int> {
    set j: int | 0 <= j < len && InWindow(len, j)
  }

  predicate InWindow(len: int, j: int) {
    0 <= j < len
  }

  /** What a read makes of the bytes it looks at, whether they belong together or not: with the fast flag
      up the whole window in one piece, otherwise what the bitmap says. */
  ghost predicate RawRead(cfg: Config, m: seq<byte>, pos: int, len: int, runs: seq<Run>, before: seq<byte>, after: seq<byte>, base: int)
    requires IsPage(cfg, m) && 0 <= pos && 0 <= len && pos + len <= cfg.PageBodySize
  {
    if m[FAST_BITMAP] == 1 then runs == [(0, len)] && Filled(cfg, m, pos, WholeSet(len), before, after, base, len)
    else IsRuns(ValidIn(cfg, m, pos, len), 0, len, runs) && Filled(cfg, m, pos, ValidIn(cfg, m, pos, len), before, after, base, len)
  }

  /** What a read of a page has to deliver: its maximal runs and its valid bytes. An empty window on a
      page whose fast flag is up is reported as one run of length 0. */
  ghost predicate PageRead(cfg: Config, m: seq<byte>, pos: int, len: int, runs: seq<Run>, before: seq<byte>, after: seq<byte>, base: int)
    requires IsPage(cfg, m) && 0 <= pos && 0 <= len && pos + len <= cfg.PageBodySize
  {
    && (if len == 0 && m[FAST_BITMAP] == 1 then runs == [(0, 0)] else IsRuns(ValidIn(cfg, m, pos, len), 0, len, runs))
    && Filled(cfg, m, pos, ValidIn(cfg, m, pos, len), before, after, base, len)
  }

  method ScanBytes(cfg: Config, m: seq<byte>, pagePos: int, length: int, buf: array<byte>, base: int)
    returns (dataBoundary: seq<Run>)
    requires IsPage(cfg, m)
    requires 0 <= pagePos && 0 <= length && pagePos + length <= cfg.PageBodySize
    requires 0 <= base && base + length <= buf.Length
    modifies buf
    ensures RawRead(cfg, m, pagePos, length, dataBoundary, old(buf[..]), buf[..], base)
  {
    if m[FAST_BITMAP] == 1 {
      CopyOut(m, cfg.BodyStart() + pagePos, buf, base, length);
      dataBoundary := [(0, length)];
    } else {
      dataBoundary := ScanRuns(cfg, m, pagePos, length, buf, base, ValidIn(cfg, m, pagePos, length));
    }
  }

  /** On a page whose fast flag tells the truth, a read delivers the valid bytes and their maximal runs. */
  lemma RawIsPageRead(cfg: Config, m: seq<byte>, pos: int, len: int, runs: seq<Run>, before: seq<byte>, after: seq<byte>, base: int)
    requires IsPage(cfg, m) && FastOk(cfg, m) && 0 <= pos && 0 <= len && pos + len <= cfg.PageBodySize
    requires RawRead(cfg, m, pos, len, runs, before, after, base)
    ensures PageRead(cfg, m, pos, len, runs, before, after, base)
  {
    hide FastOk;
    if m[FAST_BITMAP] == 1 {
      WholeWindow(cfg, m, pos, len);
      assert ValidIn(cfg, m, pos, len) == WholeSet(len);
    }
  }

  /** The body of a read: copies every valid byte of the window and reports the maximal runs,
      whether the fast flag decides at once or the bitmap is scanned. */
  method ScanAndCopy(cfg: Config, m: seq<byte>, pagePos: int, length: int, buf: array<byte>, base: int)
    returns (dataBoundary: seq<Run>)
    requires IsPage(cfg, m) && FastOk(cfg, m)
    requires 0 <= pagePos && 0 <= length && pagePos + length <= cfg.PageBodySize
    requires 0 <= base && base + length <= buf.Length
    modifies buf
    ensures PageRead(cfg, m, pagePos, length, dataBoundary, old(buf[..]), buf[..], base)
  {
    hide RawRead, PageRead, FastOk;
    dataBoundary := ScanBytes(cfg, m, pagePos, length, buf, base);
    RawIsPageRead(cfg, m, pagePos, length, dataBoundary, old(buf[..]), buf[..], base);
  }

  lemma WholeWindow(cfg: Config, m: seq<byte>, pos: int, len: int)
    requires IsPage(cfg, m) && FastOk(cfg, m) && m[FAST_BITMAP] == 1
    requires 0 <= pos && 0 <= len && pos + len <= cfg.PageBodySize
    ensures forall j :: 0 <= j < len <==> j in ValidIn(cfg, m, pos, len)
    ensures len > 0 ==> IsRuns(ValidIn(cfg, m, pos, len), 0, len, [(0, len)])
  {
    var s := ValidIn(cfg, m, pos, len);
    assert forall j :: 0 <= j < len ==> WindowBit(cfg, m, pos, j);
    if len > 0 {
      AppendRun(s, 0, 0, len, []);
      assert [] + [(0, len)] == [(0, len)];
    }
  }

  // ---- the scan of a whole page, reporting memory segments instead of copying ----

  /** A stretch of page memory and the body offset it starts at. */
  datatype Segment = Segment(address: int, len: int, pageOff: int)

  /** The stretches of the page body that segments cover. */
  function RunsOf(segs: seq<Segment>): (runs: seq<Run>)
    ensures |runs| == |segs| && forall k :: 0 <= k < |segs| ==> runs[k] == (segs[k].pageOff, segs[k].len)
  {
    seq(|segs|, k requires 0 <= k < |segs| => (segs[k].pageOff, segs[k].len))
  }

  /** Every segment lies where its stretch of the body is in memory. */
  predicate Located(cfg: Config, segs: seq<Segment>) {
    forall k :: 0 <= k < |segs| ==> segs[k].address == cfg.BodyStart() + segs[k].pageOff
  }

  lemma SegmentsAreRuns(cfg: Config, segs: seq<Segment>, runs: seq<Run>)
    requires SegmentsOf(cfg, segs, runs)
    ensures RunsOf(segs) == runs && Located(cfg, segs)
  {
  }

  ghost predicate SegmentsOf(cfg: Config, segs: seq<Segment>, runs: seq<Run>) {
    && |segs| == |runs|
    && forall k :: 0 <= k < |segs| ==> segs[k] == Segment(cfg.BodyStart() + runs[k].0, runs[k].1, runs[k].0)
  }

  /** The scan of a whole page: its maximal runs of valid bytes, as memory segments. */
  method ScanAll(cfg: Config, m: seq<byte>) returns (dataSegments: seq<Segment>)
    requires IsPage(cfg, m) && FastOk(cfg, m) && 0 < cfg.PageBodySize
    ensures Located(cfg, dataSegments)
    ensures IsRuns(ValidIn(cfg, m, 0, cfg.PageBodySize), 0, cfg.PageBodySize, RunsOf(dataSegments))
  {
    hide ValidIn, IsRuns;
    var pageSize := cfg.PageBodySize;
    ghost var s := ValidIn(cfg, m, 0, pageSize);
    dataSegments := [];
    ghost var runs: seq<Run> := [];
    if m[FAST_BITMAP] == 1 {
      WholeWindow(cfg, m, 0, pageSize);
      dataSegments := [Segment(cfg.BodyStart(), pageSize, 0)];
      SegmentsAreRuns(cfg, dataSegments, [(0, pageSize)]);
      return;
    }
    var cur, continuousLen, continuousDataValid := 0, 0, false;
    PendingStarts(s);
    while cur < pageSize
      invariant 0 <= cur <= pageSize
      invariant Pending(s, cur, continuousLen, continuousDataValid, runs)
      invariant SegmentsOf(cfg, dataSegments, runs)
    {
      var isBatFuncValid, batByteValid := TryBatch(cfg, m, 0, cur, pageSize, s);
      if isBatFuncValid && (continuousLen == 0 || continuousDataValid == batByteValid) {
        PendingGrows(s, cur, continuousLen, continuousDataValid, runs, 64, batByteValid);
        continuousDataValid := batByteValid;
        continuousLen := continuousLen + 64;
        cur := cur + 64;
        continue;
      }
      var curByteValid := TestBit(cfg, m, 0, cur, pageSize, s);
      if continuousLen == 0 || continuousDataValid == curByteValid {
        PendingGrows(s, cur, continuousLen, continuousDataValid, runs, 1, curByteValid);
        continuousDataValid := curByteValid;
        continuousLen := continuousLen + 1;
        cur := cur + 1;
        continue;
      }
      PendingRestarts(s, cur, continuousLen, continuousDataValid, runs);
      runs := Flush(cur, continuousLen, continuousDataValid, runs);
      if continuousDataValid {
        dataSegments := dataSegments + [Segment(cfg.BodyStart() + cur - continuousLen, continuousLen, cur - continuousLen)];
      }
      continuousDataValid := curByteValid;
      continuousLen := 1;
      cur := cur + 1;
    }
    FlushIsRuns(s, cur, continuousLen, continuousDataValid, runs);
    runs := Flush(cur, continuousLen, continuousDataValid, runs);
    if continuousDataValid {
      dataSegments := dataSegments + [Segment(cfg.BodyStart() + cur - continuousLen, continuousLen, cur - continuousLen)];
    }
    SegmentsAreRuns(cfg, dataSegments, runs);
  }
}
