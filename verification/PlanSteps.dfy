/** What adding one cell does to a plan in the making. */
module PlanSteps {
  import opened Untreated
  import opened PlanTypes

  /** The input of the planner. */
  datatype Job = Job(untreated: seq<Part>, uploaded: seq<FilePart>, max: int, fileSize: int, useCopy: bool)

  /** The lists built so far. `looked` uploaded parts have been looked at. */
  datatype Lists = Lists(toUpload: seq<MpPart>, toCopy: seq<MpPart>, download: seq<MpPart>, kept: seq<FilePart>,
                         cancel: seq<FilePart>, looked: int)

  /** The size limits of the store: every part but the last is big enough, no copy is too big. */
  ghost predicate SizesSoFar(job: Job, plan: seq<Cell>) {
    MIN_MULTIPART_SIZE <= job.max <= FIVE_GB ==>
      (forall k :: 0 <= k < |plan| ==> plan[k].End() < job.fileSize ==> MIN_MULTIPART_SIZE <= plan[k].size) &&
      (forall k :: 0 <= k < |plan| ==> plan[k].kind == Copied ==> plan[k].size <= FIVE_GB)
  }

  ghost predicate PlanState(job: Job, cur: int, plan: seq<Cell>, l: Lists) {
    && 0 < job.max && 0 <= l.looked <= |job.uploaded|
    && Tiles(plan, cur)
    && l.toUpload == Select(plan, Sent) && l.toCopy == Select(plan, Copied)
    && l.kept == KeptOf(job.untreated, job.uploaded[..l.looked])
    && l.cancel == CancelOf(job.untreated, job.uploaded[..l.looked])
    && CellsOk(job.untreated, job.uploaded, l.download, plan)
    && (forall i :: InMp(l.download, i) ==> 0 <= i < cur)
    && KeptOk(l.kept, plan)
    && (forall k :: 0 <= k < |plan| ==> KindAllowed(job, plan[k]))
    && SizesSoFar(job, plan)
  }

  /** Copying needs permission; with it a cell is sent only if it has a written or uploaded byte. */
  ghost predicate KindAllowed(job: Job, c: Cell) {
    match c.kind
    case Kept => true
    case Copied => job.useCopy
    case Sent => job.useCopy ==> exists i :: CellHas(c, i) && Dirty(job.untreated, job.uploaded, i)
  }

  // ---- where the cells begin ----

  /** Nothing of [at, end) is uploaded, and f, not the first byte of it, is the first one written. */
  ghost predicate FirstWritten(job: Job, at: int, end: int, f: int) {
    && at < f < end && Has(job.untreated, f) && (forall i :: at <= i < f ==> !Has(job.untreated, i))
    && forall i :: at <= i < end ==> !InUp(job.uploaded, i)
  }

  /** With the bytes [at, f) the copy would get too big, or [f, end) would be too small without them. */
  ghost predicate TooTight(prev: Cell, at: int, end: int, f: int) {
    FIVE_GB < prev.size + (f - at) || end - f < MIN_MULTIPART_SIZE
  }

  /** A cell begins at a multiple of the part size, unless it is sent and the clean bytes in front of its
      first written byte go to the copy before it. They do so exactly when the copy does not get too
      big and what is left not too small. */
  ghost predicate EdgeOk(job: Job, prev: Cell, next: Cell, at: int) {
    if next.start == at then
      prev.kind == Copied && next.kind == Sent ==>
        forall f :: FirstWritten(job, at, next.End(), f) ==> TooTight(prev, at, next.End(), f)
    else
      && prev.kind == Copied && next.kind == Sent && FirstWritten(job, at, next.End(), next.start)
      && prev.size <= FIVE_GB && MIN_MULTIPART_SIZE <= next.size
  }

  ghost predicate Edges(job: Job, plan: seq<Cell>) {
    forall k :: 1 <= k < |plan| ==> EdgeOk(job, plan[k - 1], plan[k], k * job.max)
  }

  lemma EdgesAppend(job: Job, plan: seq<Cell>, c: Cell)
    requires Edges(job, plan) && (plan != [] ==> EdgeOk(job, plan[|plan| - 1], c, |plan| * job.max))
    ensures Edges(job, plan + [c])
  {
    hide EdgeOk;
    var longer := plan + [c];
    forall k | 1 <= k < |longer| ensures EdgeOk(job, longer[k - 1], longer[k], k * job.max) {
      if k < |plan| { assert EdgeOk(job, plan[k - 1], plan[k], k * job.max); }
    }
  }

  lemma EdgesGrown(job: Job, plan: seq<Cell>, grown: Cell, c: Cell)
    requires Edges(job, plan) && plan != [] && plan[|plan| - 1].kind == grown.kind == Copied && plan[|plan| - 1].start == grown.start
    requires EdgeOk(job, grown, c, |plan| * job.max)
    ensures Edges(job, plan[|plan| - 1 := grown] + [c])
  {
    hide FirstWritten;
    var n := |plan| - 1;
    var changed := plan[n := grown];
    forall k | 1 <= k < |changed| ensures EdgeOk(job, changed[k - 1], changed[k], k * job.max) {
      assert EdgeOk(job, plan[k - 1], plan[k], k * job.max);
    }
    EdgesAppend(job, changed, c);
  }

  lemma SelectAppend(plan: seq<Cell>, c: Cell, kind: Kind)
    ensures Select(plan + [c], kind) == Select(plan, kind) + if c.kind == kind then [MpPart(c.start, c.size, |plan| + 1)] else []
  {
    assert (plan + [c])[..|plan + [c]| - 1] == plan;
  }

  lemma TilesAppend(plan: seq<Cell>, cur: int, c: Cell)
    requires Tiles(plan, cur) && c.start == cur && 0 < c.size
    ensures Tiles(plan + [c], c.End())
  {
  }

  lemma {:induction false} TilesBelow(plan: seq<Cell>, cur: int, k: int)
    requires Tiles(plan, cur) && 0 <= k < |plan|
    ensures 0 <= plan[k].start && plan[k].End() <= cur && (k < |plan| - 1 ==> plan[k].End() < cur)
    decreases |plan| - k
  {
    if k < |plan| - 1 { TilesBelow(plan, cur, k + 1); }
    TilesAbove(plan, cur, k);
  }

  lemma {:induction false} TilesAbove(plan: seq<Cell>, cur: int, k: int)
    requires Tiles(plan, cur) && 0 <= k < |plan|
    ensures 0 <= plan[k].start
    decreases k
  {
    if k > 0 { TilesAbove(plan, cur, k - 1); }
  }

  /** The bytes of a new cell and the downloads that come with it. */
  ghost predicate NewBytesOk(job: Job, c: Cell, more: seq<MpPart>) {
    && (forall i :: InMp(more, i) ==> c.start <= i < c.End())
    && (forall i :: CellHas(c, i) ==> ByteOk(job.untreated, job.uploaded, more, c.kind, i))
  }

  lemma CellsOkAppend(job: Job, cur: int, plan: seq<Cell>, download: seq<MpPart>, c: Cell, more: seq<MpPart>)
    requires Tiles(plan, cur) && 0 <= cur && c.start == cur && 0 < c.size && CellsOk(job.untreated, job.uploaded, download, plan)
    requires forall i :: InMp(download, i) ==> 0 <= i < cur
    requires NewBytesOk(job, c, more)
    ensures CellsOk(job.untreated, job.uploaded, download + more, plan + [c])
    ensures forall i :: InMp(download + more, i) ==> 0 <= i < c.End()
  {
    forall i ensures InMp(download + more, i) <==> InMp(download, i) || InMp(more, i) {
      InMpConcat(download, more, i);
    }
    var longer := plan + [c];
    forall k, i | 0 <= k < |longer| && CellHas(longer[k], i)
      ensures ByteOk(job.untreated, job.uploaded, download + more, longer[k].kind, i)
    {
      if k < |plan| {
        TilesBelow(plan, cur, k);
        assert CellHas(plan[k], i);
      }
    }
  }

  lemma SizesAppend(job: Job, plan: seq<Cell>, c: Cell)
    requires SizesSoFar(job, plan)
    requires MIN_MULTIPART_SIZE <= job.max <= FIVE_GB ==>
      (c.End() < job.fileSize ==> MIN_MULTIPART_SIZE <= c.size) && (c.kind == Copied ==> c.size <= FIVE_GB)
    ensures SizesSoFar(job, plan + [c])
  {
  }

  /** A cell that is not one of the uploaded parts. */
  lemma AddCell(job: Job, cur: int, plan: seq<Cell>, l: Lists, c: Cell, more: seq<MpPart>)
    requires PlanState(job, cur, plan, l)
    requires c.start == cur && 0 < c.size && c.kind != Kept && KindAllowed(job, c)
    requires NewBytesOk(job, c, more)
    requires MIN_MULTIPART_SIZE <= job.max <= FIVE_GB ==>
      (c.End() < job.fileSize ==> MIN_MULTIPART_SIZE <= c.size) && (c.kind == Copied ==> c.size <= FIVE_GB)
    ensures PlanState(job, c.End(), plan + [c], l.(
      toUpload := l.toUpload + (if c.kind == Sent then [MpPart(c.start, c.size, |plan| + 1)] else []),
      toCopy := l.toCopy + (if c.kind == Copied then [MpPart(c.start, c.size, |plan| + 1)] else []),
      download := l.download + more))
  {
    hide CellsOk, InMp, NewBytesOk, SizesSoFar, KeptOf, CancelOf, KeptOk, Tiles, KindAllowed;
    SelectAppend(plan, c, Sent);
    SelectAppend(plan, c, Copied);
    TilesAppend(plan, cur, c);
    TilesNonNegative(plan, cur);
    CellsOkAppend(job, cur, plan, l.download, c, more);
    SizesAppend(job, plan, c);
    KeptOkAppend(l.kept, plan, c);
  }

  lemma TilesNonNegative(plan: seq<Cell>, cur: int)
    requires Tiles(plan, cur)
    ensures 0 <= cur
  {
    if plan != [] { TilesBelow(plan, cur, |plan| - 1); }
  }

  lemma KeptOkAppend(kept: seq<FilePart>, plan: seq<Cell>, c: Cell)
    requires KeptOk(kept, plan) && c.kind != Kept
    ensures KeptOk(kept, plan + [c])
  {
    hide IsKept;
    var longer := plan + [c];
    assert forall k :: 0 <= k < |plan| ==> longer[k] == plan[k];
  }

  lemma KeptMore(kept: seq<FilePart>, p: FilePart, c: Cell, num: int)
    ensures IsKept(kept, c, num) ==> IsKept(kept + [p], c, num)
    ensures p.partNum == num && p.startpos == c.start && p.size == c.size ==> IsKept(kept + [p], c, num)
  {
    var more := kept + [p];
    if IsKept(kept, c, num) {
      var j :| 0 <= j < |kept| && kept[j].partNum == num && kept[j].startpos == c.start && kept[j].size == c.size;
      assert more[j] == kept[j];
    }
    assert more[|kept|] == p;
  }

  lemma KeptOkKeep(kept: seq<FilePart>, plan: seq<Cell>, p: FilePart)
    requires KeptOk(kept, plan) && p.partNum == |plan| + 1
    ensures KeptOk(kept + [p], plan + [Cell(p.startpos, p.size, Kept)])
  {
    hide IsKept;
    var longer, more := plan + [Cell(p.startpos, p.size, Kept)], kept + [p];
    forall k | 0 <= k < |longer| && longer[k].kind == Kept ensures IsKept(more, longer[k], k + 1) {
      KeptMore(kept, p, longer[k], k + 1);
    }
    forall j | 0 <= j < |more| ensures 1 <= more[j].partNum <= |longer| && longer[more[j].partNum - 1].kind == Kept {
      assert j < |kept| ==> more[j] == kept[j];
    }
  }

  lemma LookedNext(job: Job, o: int)
    requires 0 <= o < |job.uploaded|
    ensures KeptOf(job.untreated, job.uploaded[..o + 1]) ==
      KeptOf(job.untreated, job.uploaded[..o]) + if Meets(job.untreated, job.uploaded[o]) then [] else [job.uploaded[o]]
    ensures CancelOf(job.untreated, job.uploaded[..o + 1]) ==
      CancelOf(job.untreated, job.uploaded[..o]) + if Meets(job.untreated, job.uploaded[o]) then [job.uploaded[o]] else []
  {
    assert job.uploaded[..o + 1][..o] == job.uploaded[..o];
  }

  /** The next uploaded part stays. */
  lemma KeepCell(job: Job, cur: int, plan: seq<Cell>, l: Lists, p: FilePart)
    requires PlanState(job, cur, plan, l) && l.looked < |job.uploaded| && p == job.uploaded[l.looked]
    requires p.startpos == cur && p.size == job.max && p.partNum == |plan| + 1
    requires !Meets(job.untreated, p)
    ensures PlanState(job, p.End(), plan + [Cell(p.startpos, p.size, Kept)], l.(kept := l.kept + [p], looked := l.looked + 1))
  {
    hide CellsOk, InMp, SizesSoFar, KeptOf, CancelOf, Has, KeptOk, NewBytesOk, Meets, Tiles;
    var c := Cell(p.startpos, p.size, Kept);
    LookedNext(job, l.looked);
    SelectAppend(plan, c, Sent);
    SelectAppend(plan, c, Copied);
    TilesAppend(plan, cur, c);
    TilesNonNegative(plan, cur);
    KeptBytes(job, p, c);
    CellsOkAppend(job, cur, plan, l.download, c, []);
    assert l.download + [] == l.download;
    SizesAppend(job, plan, c);
    KeptOkKeep(l.kept, plan, p);
  }

  lemma KeptBytes(job: Job, p: FilePart, c: Cell)
    requires c == Cell(p.startpos, p.size, Kept) && !Meets(job.untreated, p)
    ensures NewBytesOk(job, c, [])
  {
    assert forall i :: CellHas(c, i) ==> UpHas(p, i);
  }

  /** The next uploaded part has untreated bytes: it is cancelled and its area sent again. */
  lemma CancelCell(job: Job, cur: int, plan: seq<Cell>, l: Lists, p: FilePart)
    requires PlanState(job, cur, plan, l) && l.looked < |job.uploaded| && p == job.uploaded[l.looked]
    requires p.startpos == cur && p.size == job.max && 0 < p.size
    requires Meets(job.untreated, p)
    ensures PlanState(job, p.End(), plan + [Cell(p.startpos, p.size, Sent)],
      l.(cancel := l.cancel + [p], looked := l.looked + 1, toUpload := l.toUpload + [MpPart(cur, p.size, |plan| + 1)]))
  {
    hide CellsOk, InMp, SizesSoFar, KeptOf, CancelOf, Has, KindAllowed, Tiles, KeptOk, NewBytesOk, Select, Meets;
    var c := Cell(p.startpos, p.size, Sent);
    LookedNext(job, l.looked);
    CancelBytes(job, p, l.looked, c);
    var l1 := l.(cancel := l.cancel + [p], looked := l.looked + 1);
    assert PlanState(job, cur, plan, l1);
    AddCell(job, cur, plan, l1, c, []);
    assert l.download + [] == l.download && l.toCopy + [] == l.toCopy;
  }

  lemma CancelBytes(job: Job, p: FilePart, o: int, c: Cell)
    requires 0 <= o < |job.uploaded| && p == job.uploaded[o] && c == Cell(p.startpos, p.size, Sent) && 0 < p.size
    ensures NewBytesOk(job, c, []) && KindAllowed(job, c)
  {
    assert CellHas(c, p.startpos) && UpHas(job.uploaded[o], p.startpos);
    assert forall i :: CellHas(c, i) ==> UpHas(job.uploaded[o], i);
  }

  /** The last cell is a copy and takes over a clean gap behind it. */
  lemma GrowCopy(job: Job, cur: int, plan: seq<Cell>, l: Lists, gap: int)
    requires PlanState(job, cur, plan, l) && plan != [] && plan[|plan| - 1].kind == Copied && 0 < gap
    requires plan[|plan| - 1].size + gap <= FIVE_GB
    requires forall i :: cur <= i < cur + gap ==> !Dirty(job.untreated, job.uploaded, i)
    ensures l.toCopy != []
    ensures var n := |plan| - 1;
      PlanState(job, cur + gap, plan[n := Cell(plan[n].start, plan[n].size + gap, Copied)],
        l.(toCopy := l.toCopy[|l.toCopy| - 1 := l.toCopy[|l.toCopy| - 1].(size := l.toCopy[|l.toCopy| - 1].size + gap)]))
  {
    hide InMp, KeptOf, CancelOf, Dirty, CellsOk, KeptOk, SizesSoFar, Select, Tiles;
    GrownEnd(plan, cur);
    GrownSelect(plan, gap);
    GrownTiles(plan, cur, gap);
    GrownBytes(job, cur, plan, l.download, gap);
    GrownKept(l.kept, plan, gap);
    GrownSizes(job, plan, gap);
  }

  lemma GrownEnd(plan: seq<Cell>, cur: int)
    requires Tiles(plan, cur) && plan != []
    ensures plan[|plan| - 1].End() == cur
  {
  }

  lemma GrownSelect(plan: seq<Cell>, gap: int)
    requires plan != [] && plan[|plan| - 1].kind == Copied
    ensures var n, copies := |plan| - 1, Select(plan, Copied);
      var grown := plan[n := Cell(plan[n].start, plan[n].size + gap, Copied)];
      && Select(grown, Sent) == Select(plan, Sent) && copies != []
      && Select(grown, Copied) == copies[|copies| - 1 := copies[|copies| - 1].(size := copies[|copies| - 1].size + gap)]
  {
    var n := |plan| - 1;
    var c := Cell(plan[n].start, plan[n].size + gap, Copied);
    assert plan[n := c] == plan[..n] + [c] && plan == plan[..n] + [plan[n]];
    SelectAppend(plan[..n], c, Sent);
    SelectAppend(plan[..n], c, Copied);
    SelectAppend(plan[..n], plan[n], Sent);
    SelectAppend(plan[..n], plan[n], Copied);
  }

  lemma GrownTiles(plan: seq<Cell>, cur: int, gap: int)
    requires Tiles(plan, cur) && plan != [] && 0 < gap
    ensures var n := |plan| - 1; Tiles(plan[n := Cell(plan[n].start, plan[n].size + gap, Copied)], cur + gap)
  {
  }

  lemma GrownSizes(job: Job, plan: seq<Cell>, gap: int)
    requires SizesSoFar(job, plan) && plan != [] && plan[|plan| - 1].kind == Copied && 0 < gap
    requires plan[|plan| - 1].size + gap <= FIVE_GB
    ensures var n := |plan| - 1; SizesSoFar(job, plan[n := Cell(plan[n].start, plan[n].size + gap, Copied)])
  {
  }

  lemma GrownKept(kept: seq<FilePart>, plan: seq<Cell>, gap: int)
    requires KeptOk(kept, plan) && plan != [] && plan[|plan| - 1].kind == Copied
    ensures var n := |plan| - 1; KeptOk(kept, plan[n := Cell(plan[n].start, plan[n].size + gap, Copied)])
  {
    hide IsKept;
  }

  lemma GrownBytes(job: Job, cur: int, plan: seq<Cell>, download: seq<MpPart>, gap: int)
    requires CellsOk(job.untreated, job.uploaded, download, plan) && plan != [] && plan[|plan| - 1].kind == Copied && 0 < gap
    requires plan[|plan| - 1].End() == cur && forall i :: InMp(download, i) ==> 0 <= i < cur
    requires forall i :: cur <= i < cur + gap ==> !Dirty(job.untreated, job.uploaded, i)
    ensures var n := |plan| - 1; CellsOk(job.untreated, job.uploaded, download, plan[n := Cell(plan[n].start, plan[n].size + gap, Copied)])
  {
    hide InMp, Dirty;
    var n := |plan| - 1;
    var grown := plan[n := Cell(plan[n].start, plan[n].size + gap, Copied)];
    forall k, i | 0 <= k < |grown| && CellHas(grown[k], i)
      ensures ByteOk(job.untreated, job.uploaded, download, grown[k].kind, i)
    {
      if k < n || i < cur { assert CellHas(plan[k], i); }
    }
  }

  /** A copy part ending where the plan ends is the plan's last cell. */
  lemma LastCopy(plan: seq<Cell>, cur: int)
    requires Tiles(plan, cur) && Select(plan, Copied) != []
    requires Select(plan, Copied)[|Select(plan, Copied)| - 1].End() == cur
    ensures plan != [] && plan[|plan| - 1].kind == Copied
    ensures Select(plan, Copied)[|Select(plan, Copied)| - 1] == MpPart(plan[|plan| - 1].start, plan[|plan| - 1].size, |plan|)
  {
    var k := LastOf(plan);
    TilesBelow(plan, cur, k);
  }

  lemma {:induction false} LastOf(plan: seq<Cell>) returns (k: int)
    requires Select(plan, Copied) != []
    ensures 0 <= k < |plan| && plan[k].kind == Copied
    ensures Select(plan, Copied)[|Select(plan, Copied)| - 1] == MpPart(plan[k].start, plan[k].size, k + 1)
    decreases |plan|
  {
    if plan[|plan| - 1].kind == Copied {
      k := |plan| - 1;
    } else {
      k := LastOf(plan[..|plan| - 1]);
    }
  }
}
