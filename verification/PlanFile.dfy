/** The planner for a whole file. */
module PlanFile {
  import opened Multiples
  import opened Untreated
  import opened PlanTypes
  import opened Planning
  import opened PlanSteps

  /** The current cell: number `c`, cut off at the end of the file. */
  predicate IsCell(job: Job, c: int, cur: int, size: int) {
    0 < job.max && 0 <= c && cur == c * job.max && cur < job.fileSize
    && size == if cur + job.max <= job.fileSize then job.max else job.fileSize - cur
  }

  /** An aligned uploaded part that begins in the cell is the cell. */
  lemma FoundIsCell(job: Job, c: int, cur: int, size: int, o: int)
    requires IsCell(job, c, cur, size) && Aligned(job.uploaded, job.max, job.fileSize) && 0 <= o < |job.uploaded|
    requires cur <= job.uploaded[o].startpos < cur + size
    ensures job.uploaded[o].startpos == cur && job.uploaded[o].size == size == job.max && job.uploaded[o].partNum == c + 1
  {
    var n := job.uploaded[o].partNum - 1;
    MulMono(n, c, job.max);
    MulMono(c, n, job.max);
    assert (c + 1) * job.max == cur + job.max;
  }

  /** Aligned parts beginning before the cell end before it. */
  lemma NoneInCell(job: Job, c: int, cur: int, size: int, o: int, i: int)
    requires IsCell(job, c, cur, size) && Aligned(job.uploaded, job.max, job.fileSize) && 0 <= o <= |job.uploaded|
    requires forall k :: 0 <= k < o ==> job.uploaded[k].startpos < cur
    requires forall k :: o <= k < |job.uploaded| ==> cur + size <= job.uploaded[k].startpos
    requires cur <= i < cur + size
    ensures !InUp(job.uploaded, i)
  {
    forall k | 0 <= k < |job.uploaded| ensures !UpHas(job.uploaded[k], i) {
      if k < o {
        var n := job.uploaded[k].partNum - 1;
        MulMono(n, c, job.max);
        assert (n + 1) * job.max == job.uploaded[k].startpos + job.max;
      }
    }
  }

  // ---- one cell ----

  /** What is known about the cell when its lists are extended: its untreated areas `areas`, and
      whether the next uploaded part is in it. */
  ghost predicate CellKnown(job: Job, c: int, cur: int, size: int, o: int, areas: seq<Part>, found: bool) {
    && IsCell(job, c, cur, size) && Aligned(job.uploaded, job.max, job.fileSize)
    && 0 <= o <= |job.uploaded|
    && Within(areas, cur, cur + size)
    && (forall i :: cur <= i < cur + size ==> (Has(job.untreated, i) <==> Has(areas, i)))
    && (forall k :: 0 <= k < o ==> job.uploaded[k].startpos < cur)
    && (if found then o < |job.uploaded| && cur <= job.uploaded[o].startpos < cur + size
        else forall k :: o <= k < |job.uploaded| ==> cur + size <= job.uploaded[k].startpos)
  }

  lemma Keep(job: Job, c: int, cur: int, size: int, plan: seq<Cell>, l: Lists)
    requires CellKnown(job, c, cur, size, l.looked, [], true) && PlanState(job, cur, plan, l) && |plan| == c
    ensures PlanState(job, cur + size, plan + [Cell(cur, size, Kept)], l.(kept := l.kept + [job.uploaded[l.looked]], looked := l.looked + 1))
  {
    hide PlanState;
    FoundIsCell(job, c, cur, size, l.looked);
    var p := job.uploaded[l.looked];
    assert forall i :: UpHas(p, i) ==> !Has(job.untreated, i);
    KeepCell(job, cur, plan, l, p);
  }

  lemma Cancel(job: Job, c: int, cur: int, size: int, plan: seq<Cell>, l: Lists, areas: seq<Part>)
    requires CellKnown(job, c, cur, size, l.looked, areas, true) && areas != [] && PlanState(job, cur, plan, l) && |plan| == c
    ensures PlanState(job, cur + size, plan + [Cell(cur, size, Sent)],
      l.(cancel := l.cancel + [job.uploaded[l.looked]], looked := l.looked + 1, toUpload := l.toUpload + [MpPart(cur, size, c + 1)]))
  {
    hide PlanState;
    FoundIsCell(job, c, cur, size, l.looked);
    var p := job.uploaded[l.looked];
    assert PartHas(areas[0], areas[0].start);
    assert UpHas(p, areas[0].start) && Has(job.untreated, areas[0].start);
    CancelCell(job, cur, plan, l, p);
  }

  lemma CleanCell(job: Job, c: int, cur: int, size: int, o: int, areas: seq<Part>)
    requires CellKnown(job, c, cur, size, o, areas, false)
    ensures forall i :: cur <= i < cur + size ==> (Dirty(job.untreated, job.uploaded, i) <==> Has(areas, i))
  {
    forall i | cur <= i < cur + size ensures !InUp(job.uploaded, i) {
      NoneInCell(job, c, cur, size, o, i);
    }
  }

  lemma CopyWhole(job: Job, c: int, cur: int, size: int, plan: seq<Cell>, l: Lists)
    requires CellKnown(job, c, cur, size, l.looked, [], false) && PlanState(job, cur, plan, l) && |plan| == c && job.useCopy
    ensures PlanState(job, cur + size, plan + [Cell(cur, size, Copied)], l.(toCopy := l.toCopy + [MpPart(cur, size, c + 1)]))
  {
    hide PlanState, Dirty;
    CleanCell(job, c, cur, size, l.looked, []);
    AddCell(job, cur, plan, l, Cell(cur, size, Copied), []);
    assert l.download + [] == l.download && l.toUpload + [] == l.toUpload;
  }

  lemma DownloadWhole(job: Job, c: int, cur: int, size: int, plan: seq<Cell>, l: Lists)
    requires CellKnown(job, c, cur, size, l.looked, [], false) && PlanState(job, cur, plan, l) && |plan| == c && !job.useCopy
    ensures PlanState(job, cur + size, plan + [Cell(cur, size, Sent)],
      l.(toUpload := l.toUpload + [MpPart(cur, size, c + 1)], download := l.download + [MpPart(cur, size, 0)]))
  {
    hide PlanState, Dirty;
    CleanCell(job, c, cur, size, l.looked, []);
    forall i ensures InMp([MpPart(cur, size, 0)], i) <==> cur <= i < cur + size { InMpOne(MpPart(cur, size, 0), i); }
    AddCell(job, cur, plan, l, Cell(cur, size, Sent), [MpPart(cur, size, 0)]);
    assert l.toCopy + [] == l.toCopy;
  }

  /** Without a leading gap given away, the whole cell is sent. */
  lemma SendWhole(job: Job, c: int, cur: int, size: int, plan: seq<Cell>, l: Lists, areas: seq<Part>, more: seq<MpPart>)
    requires CellKnown(job, c, cur, size, l.looked, areas, false) && PlanState(job, cur, plan, l) && |plan| == c
    requires Complement(more, areas, cur, cur + size) && areas != []
    ensures PlanState(job, cur + size, plan + [Cell(cur, size, Sent)],
      l.(toUpload := l.toUpload + [MpPart(cur, size, c + 1)], download := l.download + more))
  {
    hide PlanState, Dirty, InMp, Has, KindAllowed;
    CleanCell(job, c, cur, size, l.looked, areas);
    FirstDirty(job, c, cur, size, l.looked, areas, Cell(cur, size, Sent));
    AddCell(job, cur, plan, l, Cell(cur, size, Sent), more);
    assert l.toCopy + [] == l.toCopy;
  }

  /** A cell that holds the first area has a written byte. */
  lemma FirstDirty(job: Job, c: int, cur: int, size: int, o: int, areas: seq<Part>, cell: Cell)
    requires CellKnown(job, c, cur, size, o, areas, false) && areas != [] && cell.kind == Sent
    requires cell.start <= areas[0].start && cell.End() == cur + size
    ensures KindAllowed(job, cell)
  {
    hide InUp;
    assert PartHas(areas[0], areas[0].start);
    assert CellHas(cell, areas[0].start) && Dirty(job.untreated, job.uploaded, areas[0].start);
  }

  /** With a leading gap given to the copy part before it, the rest of the cell is sent. */
  lemma SendRest(job: Job, c: int, cur: int, size: int, plan: seq<Cell>, l: Lists, areas: seq<Part>, more: seq<MpPart>) returns (plan': seq<Cell>)
    requires CellKnown(job, c, cur, size, l.looked, areas, false) && PlanState(job, cur, plan, l) && |plan| == c
    requires areas != [] && cur < areas[0].start && Unifies(l.toCopy, job.useCopy, cur, size, areas[0].start)
    requires Complement(more, areas, areas[0].start, cur + size)
    ensures plan != []
    ensures var m, first := |plan| - 1, areas[0].start;
      plan' == plan[m := Cell(plan[m].start, plan[m].size + (first - cur), Copied)] + [Cell(first, cur + size - first, Sent)]
    ensures var n, first := |l.toCopy| - 1, areas[0].start;
      PlanState(job, cur + size, plan',
        l.(toCopy := l.toCopy[n := l.toCopy[n].(size := l.toCopy[n].size + (first - cur))],
           toUpload := l.toUpload + [MpPart(first, cur + size - first, c + 1)], download := l.download + more))
  {
    hide Dirty, InMp, CellsOk, KeptOk, SizesSoFar, Select, KeptOf, CancelOf, Has, KindAllowed;
    var first, gap := areas[0].start, areas[0].start - cur;
    RestKnown(job, c, cur, size, plan, l, areas);
    GrowCopy(job, cur, plan, l, gap);
    var m, n := |plan| - 1, |l.toCopy| - 1;
    var grown := plan[m := Cell(plan[m].start, plan[m].size + gap, Copied)];
    var l1 := l.(toCopy := l.toCopy[n := l.toCopy[n].(size := l.toCopy[n].size + gap)]);
    var cell := Cell(first, cur + size - first, Sent);
    RestBytes(job, c, cur, size, l, areas, more);
    FirstDirty(job, c, cur, size, l.looked, areas, cell);
    hide PlanState, CellKnown, NewBytesOk;
    AddCell(job, first, grown, l1, cell, more);
    assert l1.toCopy + [] == l1.toCopy;
    plan' := grown + [cell];
  }

  /** The gap in front of the first area is clean and lies behind a copy. */
  lemma RestKnown(job: Job, c: int, cur: int, size: int, plan: seq<Cell>, l: Lists, areas: seq<Part>)
    requires CellKnown(job, c, cur, size, l.looked, areas, false) && PlanState(job, cur, plan, l)
    requires areas != [] && cur < areas[0].start && Unifies(l.toCopy, job.useCopy, cur, size, areas[0].start)
    ensures plan != [] && plan[|plan| - 1].kind == Copied && plan[|plan| - 1].size + (areas[0].start - cur) <= FIVE_GB
    ensures forall i :: cur <= i < areas[0].start ==> !Dirty(job.untreated, job.uploaded, i)
  {
    hide Dirty, InMp, CellsOk, KeptOk, SizesSoFar, KeptOf, CancelOf;
    CleanCell(job, c, cur, size, l.looked, areas);
    LastCopy(plan, cur);
    forall i | cur <= i < areas[0].start ensures !Dirty(job.untreated, job.uploaded, i) {
      BeforeFirst(areas, i);
    }
  }

  lemma RestBytes(job: Job, c: int, cur: int, size: int, l: Lists, areas: seq<Part>, more: seq<MpPart>)
    requires CellKnown(job, c, cur, size, l.looked, areas, false)
    requires areas != [] && cur < areas[0].start && Complement(more, areas, areas[0].start, cur + size)
    ensures var cell := Cell(areas[0].start, cur + size - areas[0].start, Sent); 0 < cell.size && NewBytesOk(job, cell, more)
  {
    hide Dirty, InMp;
    CleanCell(job, c, cur, size, l.looked, areas);
    assert areas[0].End() <= cur + size;
  }

  lemma BeforeFirst(areas: seq<Part>, i: int)
    requires Ordered(areas) && areas != [] && i < areas[0].start
    ensures !Has(areas, i)
  {
    assert forall k :: 0 <= k < |areas| ==> areas[0].start <= areas[k].start;
  }

  // ---- where the cells begin ----

  /** A cell that begins where the one before it ends, unless clean bytes could be given away. */
  lemma EdgeKept(job: Job, c: int, cur: int, size: int, plan: seq<Cell>, l: Lists, areas: seq<Part>, found: bool, kind: Kind)
    requires CellKnown(job, c, cur, size, l.looked, areas, found) && PlanState(job, cur, plan, l) && |plan| == c && Edges(job, plan)
    requires kind != Sent || found || !job.useCopy
      || (areas != [] && !(areas[0].start > cur && Unifies(l.toCopy, job.useCopy, cur, size, areas[0].start)))
    ensures Edges(job, plan + [Cell(cur, size, kind)])
  {
    hide CellsOk, KeptOk, KeptOf, CancelOf, SizesSoFar, CellKnown, FirstWritten;
    var next := Cell(cur, size, kind);
    assert IsCell(job, c, cur, size) by { CellIs(job, c, cur, size, l.looked, areas, found); }
    if plan != [] && plan[|plan| - 1].kind == Copied && kind == Sent {
      var prev := plan[|plan| - 1];
      assert KindAllowed(job, prev);
      LastIsCopy(plan, cur);
      var end := next.End();
      forall f | FirstWritten(job, cur, end, f) ensures TooTight(prev, cur, end, f) {
        FirstIs(job, c, cur, size, l.looked, areas, found, f);
      }
    }
    EdgesAppend(job, plan, next);
  }

  lemma CellIs(job: Job, c: int, cur: int, size: int, o: int, areas: seq<Part>, found: bool)
    requires CellKnown(job, c, cur, size, o, areas, found)
    ensures IsCell(job, c, cur, size)
  {
  }

  lemma LastIsCopy(plan: seq<Cell>, cur: int)
    requires Tiles(plan, cur) && plan != [] && plan[|plan| - 1].kind == Copied
    ensures var copies := Select(plan, Copied);
      copies != [] && copies[|copies| - 1] == MpPart(plan[|plan| - 1].start, plan[|plan| - 1].size, |plan|) && copies[|copies| - 1].End() == cur
  {
  }

  /** The first written byte of a cell without an uploaded part is where its first area begins. */
  lemma FirstIs(job: Job, c: int, cur: int, size: int, o: int, areas: seq<Part>, found: bool, f: int)
    requires CellKnown(job, c, cur, size, o, areas, found) && FirstWritten(job, cur, cur + size, f)
    ensures !found && areas != [] && areas[0].start == f && cur < f
  {
    if found {
      FoundIsCell(job, c, cur, size, o);
      assert UpHas(job.uploaded[o], cur) && InUp(job.uploaded, cur);
    }
    assert Has(areas, f);
    assert PartHas(areas[0], areas[0].start) && Has(areas, areas[0].start);
    FirstLeast(areas, f);
  }

  lemma FirstLeast(areas: seq<Part>, i: int)
    requires Ordered(areas) && Has(areas, i)
    ensures areas != [] && areas[0].start <= i
  {
  }

  /** The bytes in front of the first written one go to the copy before the cell. */
  lemma EdgeMoved(job: Job, c: int, cur: int, size: int, plan: seq<Cell>, l: Lists, areas: seq<Part>)
    requires CellKnown(job, c, cur, size, l.looked, areas, false) && PlanState(job, cur, plan, l) && |plan| == c && Edges(job, plan)
    requires areas != [] && cur < areas[0].start && Unifies(l.toCopy, job.useCopy, cur, size, areas[0].start)
    ensures plan != []
    ensures var n, first := |plan| - 1, areas[0].start;
      Edges(job, plan[n := Cell(plan[n].start, plan[n].size + (first - cur), Copied)] + [Cell(first, cur + size - first, Sent)])
  {
    hide CellsOk, KeptOk, KeptOf, CancelOf, SizesSoFar, CellKnown, Edges, FirstWritten;
    var first := areas[0].start;
    RestKnown(job, c, cur, size, plan, l, areas);
    CellIs(job, c, cur, size, l.looked, areas, false);
    var n := |plan| - 1;
    LastCopy(plan, cur);
    FirstAt(job, c, cur, size, l.looked, areas);
    var grown, next := Cell(plan[n].start, plan[n].size + (first - cur), Copied), Cell(first, cur + size - first, Sent);
    assert EdgeOk(job, grown, next, |plan| * job.max);
    EdgesGrown(job, plan, grown, next);
  }

  lemma FirstAt(job: Job, c: int, cur: int, size: int, o: int, areas: seq<Part>)
    requires CellKnown(job, c, cur, size, o, areas, false) && areas != [] && cur < areas[0].start
    ensures FirstWritten(job, cur, cur + size, areas[0].start)
  {
    var f := areas[0].start;
    assert PartHas(areas[0], f) && Has(areas, f);
    forall i | cur <= i < f ensures !Has(job.untreated, i) { BeforeFirst(areas, i); }
    forall i | cur <= i < cur + size ensures !InUp(job.uploaded, i) { NoneInCell(job, c, cur, size, o, i); }
  }

  // ---- the loop over the file ----

  /** How far the uploaded list has been looked at, whatever its alignment: `o` parts of the original
      are behind us and the rest is still in the list, at `iter`. */
  ghost predicate Progress(job: Job, cur: int, upload_list: seq<FilePart>, iter: int, o: int) {
    && 0 < job.max && 0 <= o <= |job.uploaded| && 0 <= iter <= |upload_list|
    && upload_list[iter..] == job.uploaded[o..]
    && (forall k :: 0 <= k < o ==> job.uploaded[k].startpos < cur)
    && (forall k :: o <= k < |job.uploaded| ==> cur <= job.uploaded[k].startpos)
    && (forall j, k :: 0 <= j < k < o ==> job.uploaded[j].startpos / job.max != job.uploaded[k].startpos / job.max)
  }

  /** The untreated areas not yet handed out. */
  ghost predicate Left(job: Job, cur: int, dup: seq<Part>, iter: int) {
    && 0 <= iter <= |dup| && From(dup[iter..], cur)
    && forall i :: cur <= i ==> (Has(job.untreated, i) <==> Has(dup[iter..], i))
  }

  lemma ProgressRest(job: Job, cur: int, upload_list: seq<FilePart>, iter: int, o: int)
    requires Progress(job, cur, upload_list, iter, o) && OrderedUp(job.uploaded)
    ensures forall k :: iter <= k < |upload_list| ==> upload_list[k] == job.uploaded[k - iter + o]
    ensures |upload_list| - iter == |job.uploaded| - o
  {
    assert forall k :: iter <= k < |upload_list| ==> upload_list[k] == upload_list[iter..][k - iter];
  }

  /** Passing at most one part that begins in the cell. */
  lemma ProgressNext(job: Job, c: int, cur: int, size: int, upload_list: seq<FilePart>, iter: int, o: int, found: bool)
    requires Progress(job, cur, upload_list, iter, o) && OrderedUp(job.uploaded) && IsCell(job, c, cur, size)
    requires if found then iter < |upload_list| && upload_list[iter].startpos < cur + size else true
    requires forall k :: iter + (if found then 1 else 0) <= k < |upload_list| ==> cur + size <= upload_list[k].startpos
    ensures var step := if found then 1 else 0;
      && Progress(job, cur + size, upload_list, iter + step, o + step)
      && (found ==> Progress(job, cur + size, upload_list[..iter] + upload_list[iter + 1..], iter, o + 1))
  {
    ProgressRest(job, cur, upload_list, iter, o);
    assert forall k :: o <= k < |job.uploaded| ==> job.uploaded[k] == upload_list[k - o + iter];
    if found {
      MulMono(c, c + 1, job.max);
      CellIndex(job.uploaded[o].startpos, c, job.max);
      forall j | 0 <= j < o ensures job.uploaded[j].startpos / job.max < c {
        CellIndex(job.uploaded[j].startpos, c, job.max);
      }
      assert upload_list[iter + 1..] == job.uploaded[o + 1..];
      assert (upload_list[..iter] + upload_list[iter + 1..])[iter..] == upload_list[iter + 1..];
    }
  }

  lemma TwoInCell(job: Job, c: int, cur: int, size: int, upload_list: seq<FilePart>, iter: int, o: int)
    requires Progress(job, cur, upload_list, iter, o) && OrderedUp(job.uploaded) && IsCell(job, c, cur, size)
    requires iter + 1 < |upload_list| && upload_list[iter + 1].startpos < cur + size
    ensures !OnePerCell(job.uploaded, job.max, job.fileSize)
  {
    ProgressRest(job, cur, upload_list, iter, o);
    MulMono(c, c + 1, job.max);
    CellIndex(job.uploaded[o].startpos, c, job.max);
    CellIndex(job.uploaded[o + 1].startpos, c, job.max);
    assert job.uploaded[o].startpos / job.max == job.uploaded[o + 1].startpos / job.max;
  }

  lemma AlignedOnePerCell(uploaded: seq<FilePart>, max: int, fileSize: int)
    requires 0 < max && Aligned(uploaded, max, fileSize)
    ensures OnePerCell(uploaded, max, fileSize)
  {
    forall j, k | 0 <= j < k < |uploaded| && uploaded[k].startpos < fileSize
      ensures uploaded[j].startpos / max != uploaded[k].startpos / max
    {
      var a, b := uploaded[j].partNum - 1, uploaded[k].partNum - 1;
      MulMono(a, b, max);
      CellIndex(uploaded[j].startpos, a, max);
      CellIndex(uploaded[k].startpos, b, max);
    }
  }

  ghost predicate SomeUploading(cancel: seq<FilePart>) {
    exists k :: 0 <= k < |cancel| && !cancel[k].uploaded
  }

  lemma UploadingAppend(cancel: seq<FilePart>, p: FilePart)
    ensures SomeUploading(cancel + [p]) <==> SomeUploading(cancel) || !p.uploaded
  {
    var more := cancel + [p];
    assert more[|cancel|] == p;
    assert forall k :: 0 <= k < |cancel| ==> more[k] == cancel[k];
  }

  /** Decides one cell and extends the lists. `iter0` is where the search for its uploaded part
      began, `iter` where it ended. */
  method DecideCell(job: Job, ghost c: int, cur_start: int, cur_size: int, areas: seq<Part>, iter0: int, iter: int, overlap: int,
                    upload_list0: seq<FilePart>, l0: Lists, wait0: bool, ghost plan0: seq<Cell>)
    returns (upload_list: seq<FilePart>, uploaded_iter: int, l: Lists, wait: bool, ghost plan: seq<Cell>)
    requires IsCell(job, c, cur_start, cur_size) && Within(areas, cur_start, cur_start + cur_size)
    requires 0 <= iter0 <= iter <= |upload_list0|
    requires if overlap == -1 then iter == iter0 else overlap == iter0 && iter == iter0 + 1
    requires wait0 == SomeUploading(l0.cancel)
    ensures if overlap != -1 && areas != [] then upload_list == upload_list0[..iter0] + upload_list0[iter0 + 1..] && uploaded_iter == iter0
            else upload_list == upload_list0 && uploaded_iter == iter
    ensures wait == SomeUploading(l.cancel)
    ensures l.looked == l0.looked + (if overlap == -1 then 0 else 1)
    ensures CellKnown(job, c, cur_start, cur_size, l0.looked, areas, overlap != -1) && PlanState(job, cur_start, plan0, l0) && |plan0| == c
      && l0.kept == upload_list0[..iter0] && (overlap != -1 ==> 0 <= l0.looked < |job.uploaded| && upload_list0[iter0] == job.uploaded[l0.looked])
      ==> PlanState(job, cur_start + cur_size, plan, l) && |plan| == c + 1 && l.kept == upload_list[..uploaded_iter] && (Edges(job, plan0) ==> Edges(job, plan))
  {
    hide CellKnown, PlanState, Within, Edges, Unifies;
    upload_list, uploaded_iter, l, wait, plan := upload_list0, iter, l0, wait0, plan0;
    CellIndex(cur_start, c, job.max);
    MulMono(c, c + 1, job.max);
    var part_num := cur_start / job.max + 1;
    ghost var known := CellKnown(job, c, cur_start, cur_size, l0.looked, areas, overlap != -1) && PlanState(job, cur_start, plan0, l0) && |plan0| == c
      && l0.kept == upload_list0[..iter0] && (overlap != -1 ==> 0 <= l0.looked < |job.uploaded| && upload_list0[iter0] == job.uploaded[l0.looked]);
    if areas == [] {
      if overlap != -1 {
        // already uploaded
        if known {
          Keep(job, c, cur_start, cur_size, plan0, l0);
          if Edges(job, plan0) { EdgeKept(job, c, cur_start, cur_size, plan0, l0, areas, true, Kept); }
        }
        l := l.(looked := l.looked + 1, kept := l.kept + [upload_list0[iter0]]);
        plan := plan + [Cell(cur_start, cur_size, Kept)];
        assert upload_list0[..iter] == upload_list0[..iter0] + [upload_list0[iter0]];
      } else if job.useCopy {
        if known {
          CopyWhole(job, c, cur_start, cur_size, plan0, l0);
          if Edges(job, plan0) { EdgeKept(job, c, cur_start, cur_size, plan0, l0, areas, false, Copied); }
        }
        l := l.(toCopy := l.toCopy + [MpPart(cur_start, cur_size, part_num)]);
        plan := plan + [Cell(cur_start, cur_size, Copied)];
      } else {
        if known {
          DownloadWhole(job, c, cur_start, cur_size, plan0, l0);
          if Edges(job, plan0) { EdgeKept(job, c, cur_start, cur_size, plan0, l0, areas, false, Sent); }
        }
        l := l.(download := l.download + [MpPart(cur_start, cur_size, 0)], toUpload := l.toUpload + [MpPart(cur_start, cur_size, part_num)]);
        plan := plan + [Cell(cur_start, cur_size, Sent)];
      }
    } else if overlap != -1 {
      // uploaded before, but written since: upload again
      if known {
        Cancel(job, c, cur_start, cur_size, plan0, l0, areas);
        if Edges(job, plan0) { EdgeKept(job, c, cur_start, cur_size, plan0, l0, areas, true, Sent); }
      }
      UploadingAppend(l.cancel, upload_list0[overlap]);
      if !upload_list0[overlap].uploaded { wait := true; }
      l := l.(cancel := l.cancel + [upload_list0[overlap]], looked := l.looked + 1, toUpload := l.toUpload + [MpPart(cur_start, cur_size, part_num)]);
      upload_list := upload_list0[..overlap] + upload_list0[overlap + 1..];
      uploaded_iter := overlap;
      plan := plan + [Cell(cur_start, cur_size, Sent)];
    } else {
      assert Within(areas, cur_start, cur_start + cur_size);
      var to_copy, more, changed_start, changed_size := SplitCell(areas, cur_start, cur_size, job.useCopy, l.toCopy);
      if areas[0].start > cur_start && Unifies(l.toCopy, job.useCopy, cur_start, cur_size, areas[0].start) {
        if known {
          plan := SendRest(job, c, cur_start, cur_size, plan0, l0, areas, more);
          if Edges(job, plan0) { EdgeMoved(job, c, cur_start, cur_size, plan0, l0, areas); }
        }
      } else {
        if known {
          SendWhole(job, c, cur_start, cur_size, plan0, l0, areas, more);
          if Edges(job, plan0) { EdgeKept(job, c, cur_start, cur_size, plan0, l0, areas, false, Sent); }
        }
        plan := plan + [Cell(cur_start, cur_size, Sent)];
      }
      l := l.(toCopy := to_copy, download := l.download + more, toUpload := l.toUpload + [MpPart(changed_start, changed_size, part_num)]);
    }
  }

  /** The untreated areas of one cell. */
  method TakeAreas(ghost job: Job, cur_start: int, cur_size: int, dup0: seq<Part>, iter0: int) returns (dup: seq<Part>, iter: int, areas: seq<Part>)
    requires Left(job, cur_start, dup0, iter0) && 0 <= cur_start && 0 < cur_size
    ensures Left(job, cur_start + cur_size, dup, iter) && Within(areas, cur_start, cur_start + cur_size)
    ensures forall i :: cur_start <= i < cur_start + cur_size ==> (Has(job.untreated, i) <==> Has(areas, i))
  {
    hide Left, From, Within, Has;
    LeftTake(job, cur_start, dup0, iter0);
    dup, iter, areas := TakeUntreated(dup0, iter0, cur_start, cur_size);
    LeftNext(job, cur_start, cur_size, dup0, iter0, dup, iter, areas);
  }

  /** The uploaded part that begins in one cell, if any; more than one is an error. */
  method FindInCell(ghost job: Job, ghost c: int, cur_start: int, cur_size: int, upload_list: seq<FilePart>, iter0: int, ghost o: int)
    returns (ok: bool, iter: int, overlap: int)
    requires Progress(job, cur_start, upload_list, iter0, o) && OrderedUp(job.uploaded) && IsCell(job, c, cur_start, cur_size)
    ensures !ok ==> !OnePerCell(job.uploaded, job.max, job.fileSize)
    ensures ok ==> (if overlap == -1 then iter == iter0 else overlap == iter0 && iter == iter0 + 1) && 0 <= iter0 <= iter <= |upload_list|
    ensures ok && overlap != -1 ==> iter0 < |upload_list| && upload_list[iter0].startpos < cur_start + cur_size
    ensures ok && overlap != -1 ==> 0 <= o < |job.uploaded| && upload_list[iter0] == job.uploaded[o]
    ensures ok && overlap == -1 ==> forall k :: iter0 <= k < |upload_list| ==> cur_start + cur_size <= upload_list[k].startpos
    ensures ok ==> var step := if overlap != -1 then 1 else 0;
      && Progress(job, cur_start + cur_size, upload_list, iter0 + step, o + step)
      && (overlap != -1 ==> Progress(job, cur_start + cur_size, upload_list[..iter0] + upload_list[iter0 + 1..], iter0, o + 1))
  {
    hide Progress, OrderedUp, OnePerCell;
    FindReady(job, cur_start, upload_list, iter0, o);
    ok, iter, overlap := FindUploaded(upload_list, iter0, cur_start, cur_size);
    if ok {
      ProgressNext(job, c, cur_start, cur_size, upload_list, iter0, o, overlap != -1);
    } else {
      TwoInCell(job, c, cur_start, cur_size, upload_list, iter0, o);
    }
  }

  /** Plans the flush of a whole file. It fails exactly when two uploaded parts begin in one cell.
      With aligned uploaded parts, the lists come from a plan that tiles the file: see PlanState.
      The uploaded parts meeting untreated bytes leave the upload list. */
  method ExtractUploadPartsFromAllArea(job: Job)
    returns (ok: bool, upload_list: seq<FilePart>, l: Lists, wait_upload_complete: bool, ghost plan: seq<Cell>)
    requires 0 < job.max && 0 <= job.fileSize && Ordered(job.untreated) && OrderedUp(job.uploaded)
    ensures ok <==> OnePerCell(job.uploaded, job.max, job.fileSize)
    ensures ok ==> wait_upload_complete == SomeUploading(l.cancel)
    ensures ok && Aligned(job.uploaded, job.max, job.fileSize) ==>
      PlanState(job, job.fileSize, plan, l) && l.looked == |job.uploaded| && upload_list == KeptOf(job.untreated, job.uploaded)
      && l.kept == upload_list
      && Edges(job, plan) && job.fileSize <= |plan| * job.max && (plan != [] ==> (|plan| - 1) * job.max < job.fileSize)
  {
    hide PlanState, Progress, Left, Aligned, CellKnown, OnePerCell, SomeUploading, KeptOf, From, Within, Has, OrderedUp, Ordered, Edges;
    upload_list, plan, wait_upload_complete := job.uploaded, [], false;
    l := Lists([], [], [], [], [], 0);
    var dup, dup_iter, uploaded_iter := job.untreated, 0, 0;
    var cur_start := 0;
    ghost var c := 0;
    ghost var aligned := Aligned(job.uploaded, job.max, job.fileSize);
    PlanStart(job);
    while cur_start < job.fileSize
      invariant 0 <= cur_start <= job.fileSize && 0 <= c && (cur_start < job.fileSize ==> cur_start == c * job.max)
      invariant Left(job, cur_start, dup, dup_iter)
      invariant Progress(job, cur_start, upload_list, uploaded_iter, l.looked)
      invariant wait_upload_complete == SomeUploading(l.cancel)
      invariant 0 <= uploaded_iter <= |upload_list|
      invariant aligned ==> |plan| == c && PlanState(job, cur_start, plan, l) && l.kept == upload_list[..uploaded_iter] && Edges(job, plan)
      invariant cur_start <= c * job.max && (0 < c ==> (c - 1) * job.max < job.fileSize)
    {
      var cur_size := if cur_start + job.max <= job.fileSize then job.max else job.fileSize - cur_start;
      MulMono(c, c + 1, job.max);
      var areas, overlap, iter;
      dup, dup_iter, areas := TakeAreas(job, cur_start, cur_size, dup, dup_iter);
      ok, iter, overlap := FindInCell(job, c, cur_start, cur_size, upload_list, uploaded_iter, l.looked);
      if !ok { return; }
      if aligned { Known(job, c, cur_start, cur_size, upload_list, uploaded_iter, l.looked, areas, overlap != -1); }
      upload_list, uploaded_iter, l, wait_upload_complete, plan :=
        DecideCell(job, c, cur_start, cur_size, areas, uploaded_iter, iter, overlap, upload_list, l, wait_upload_complete, plan);
      cur_start := cur_start + cur_size;
      c := c + 1;
    }
    ok := true;
    AllLookedAt(job, upload_list, uploaded_iter, l.looked, l.kept, plan, l);
  }

  lemma PlanStart(job: Job)
    requires 0 < job.max && Ordered(job.untreated) && OrderedUp(job.uploaded)
    ensures PlanState(job, 0, [], Lists([], [], [], [], [], 0)) && Edges(job, [])
    ensures Left(job, 0, job.untreated, 0) && Progress(job, 0, job.uploaded, 0, 0) && !SomeUploading([])
  {
    assert job.untreated[0..] == job.untreated && job.uploaded[0..] == job.uploaded && job.uploaded[..0] == [];
  }

  lemma LeftTake(job: Job, cur: int, dup: seq<Part>, iter: int)
    requires Left(job, cur, dup, iter)
    ensures 0 <= iter <= |dup| && From(dup[iter..], cur)
  {
  }

  lemma LeftNext(job: Job, cur: int, size: int, dup0: seq<Part>, iter0: int, dup: seq<Part>, iter: int, areas: seq<Part>)
    requires Left(job, cur, dup0, iter0) && 0 < size
    requires 0 <= iter <= |dup| && From(dup[iter..], cur + size) && Within(areas, cur, cur + size)
    requires forall i :: Has(dup0[iter0..], i) <==> Has(areas, i) || Has(dup[iter..], i)
    ensures Left(job, cur + size, dup, iter)
    ensures forall i :: cur <= i < cur + size ==> (Has(job.untreated, i) <==> Has(areas, i))
  {
    assert forall i :: Has(areas, i) ==> cur <= i < cur + size;
    assert forall i :: Has(dup[iter..], i) ==> cur + size <= i;
  }

  lemma FindReady(job: Job, cur: int, upload_list: seq<FilePart>, iter: int, o: int)
    requires Progress(job, cur, upload_list, iter, o) && OrderedUp(job.uploaded)
    ensures 0 <= iter <= |upload_list|
    ensures forall k :: iter <= k < |upload_list| ==> cur <= upload_list[k].startpos && 0 < upload_list[k].size
    ensures forall j, k :: iter <= j < k < |upload_list| ==> upload_list[j].End() <= upload_list[k].startpos
    ensures iter < |upload_list| ==> 0 <= o < |job.uploaded| && upload_list[iter] == job.uploaded[o]
  {
    ProgressRest(job, cur, upload_list, iter, o);
  }

  lemma Known(job: Job, c: int, cur: int, size: int, upload_list: seq<FilePart>, iter: int, o: int, areas: seq<Part>, found: bool)
    requires IsCell(job, c, cur, size) && Aligned(job.uploaded, job.max, job.fileSize)
    requires Progress(job, cur, upload_list, iter, o) && Within(areas, cur, cur + size)
    requires forall i :: cur <= i < cur + size ==> (Has(job.untreated, i) <==> Has(areas, i))
    requires found ==> iter < |upload_list| && upload_list[iter].startpos < cur + size
    requires !found ==> forall k :: iter <= k < |upload_list| ==> cur + size <= upload_list[k].startpos
    ensures CellKnown(job, c, cur, size, o, areas, found)
  {
    ProgressRest(job, cur, upload_list, iter, o);
    assert forall k :: o <= k < |job.uploaded| ==> job.uploaded[k] == upload_list[k - o + iter];
  }

  /** At the end of the file every aligned part has been looked at, and in every case no two parts
      began in one cell. */
  lemma AllLookedAt(job: Job, upload_list: seq<FilePart>, iter: int, o: int, kept: seq<FilePart>, plan: seq<Cell>, l: Lists)
    requires Progress(job, job.fileSize, upload_list, iter, o)
    ensures OnePerCell(job.uploaded, job.max, job.fileSize)
    ensures Aligned(job.uploaded, job.max, job.fileSize) ==> o == |job.uploaded| && iter == |upload_list|
    ensures Aligned(job.uploaded, job.max, job.fileSize) && l.looked == o && PlanState(job, job.fileSize, plan, l) && l.kept == upload_list[..iter]
      ==> upload_list == KeptOf(job.untreated, job.uploaded) && l.kept == upload_list
  {
    assert |upload_list[iter..]| == |job.uploaded[o..]|;
    if Aligned(job.uploaded, job.max, job.fileSize) {
      forall k | 0 <= k < |job.uploaded| ensures job.uploaded[k].startpos < job.fileSize && k < o {
        var p := job.uploaded[k];
        assert p.End() <= job.fileSize && 0 < p.size;
      }
      assert job.uploaded != [] ==> job.uploaded[|job.uploaded| - 1].startpos < job.fileSize;
      assert upload_list[..|upload_list|] == upload_list && job.uploaded[..|job.uploaded|] == job.uploaded;
    }
  }
}
