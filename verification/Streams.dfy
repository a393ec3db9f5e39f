/** An open file in stream-upload mode: writes, uploads of whole cells, and the flush. */
module Streams {
  import opened Assembly
  import opened Multiples
  import opened PlanFile
  import opened PlanSteps
  import opened PlanTypes
  import opened StreamParts
  import opened StreamRequests
  import opened StreamSync
  import opened Untreated

  // ---- reading bytes ----

  /** What a reader of byte i gets, from the cache file or else from the object. */
  ghost predicate ReadsByte(d: Disk, content: seq<byte>, i: int)
    requires Sized(d, content) && 0 <= i < |content|
  {
    content[i] == if d.loaded[i] || d.modified[i] || d.sizeOrg <= i then d.file[i] else d.remote[i]
  }

  ghost predicate Reads(d: Disk, content: seq<byte>) {
    Sized(d, content) && forall i :: 0 <= i < |content| ==> ReadsByte(d, content, i)
  }

  function LoadOne(d: Disk, i: int): Disk
    requires 0 <= i < |d.file| == |d.loaded| && d.sizeOrg <= |d.remote|
  {
    d.(file := if i < d.sizeOrg then d.file[i := d.remote[i]] else d.file, loaded := d.loaded[i := true])
  }

  lemma LoadReads(d: Disk, content: seq<byte>, i: int)
    requires Reads(d, content) && 0 <= i < |content|
    ensures d.loaded[i] || d.modified[i] ==> d.file[i] == content[i]
    ensures !d.loaded[i] && !d.modified[i] ==> Reads(LoadOne(d, i), content) && LoadOne(d, i).file[i] == content[i]
  {
    assert ReadsByte(d, content, i);
    var d1 := LoadOne(d, i);
    if !d.loaded[i] && !d.modified[i] {
      forall j | 0 <= j < |content| ensures ReadsByte(d1, content, j) {
        assert ReadsByte(d, content, j);
      }
    }
  }

  lemma LoadKeeps(d: Disk, content: seq<byte>, up: seq<byte>, list: seq<Part>, uploaded: seq<FilePart>, max: int, i: int)
    requires StreamInv(d, content, up, list, uploaded, max) && 0 <= i < |content| && !d.loaded[i] && !d.modified[i]
    ensures StreamInv(LoadOne(d, i), content, up, list, uploaded, max)
  {
    hide PartsOk, Agrees, InFile;
    var d1 := LoadOne(d, i);
    assert ByteSynced(d, content, Dirty(list, uploaded, i), i);
    forall j | 0 <= j < |content| ensures ByteSynced(d1, content, Dirty(list, uploaded, j), j) {
      assert ByteSynced(d, content, Dirty(list, uploaded, j), j);
    }
  }

  lemma InvReads(d: Disk, content: seq<byte>, up: seq<byte>, list: seq<Part>, uploaded: seq<FilePart>, max: int)
    requires StreamInv(d, content, up, list, uploaded, max)
    ensures Reads(d, content) && 0 < max
  {
    forall i | 0 <= i < |content| ensures ReadsByte(d, content, i) {
      assert ByteSynced(d, content, Dirty(list, uploaded, i), i);
    }
  }

  /** Without bookkeeping a file is only kept if the object is the content. */
  lemma CleanOk(d: Disk, content: seq<byte>, max: int)
    requires 0 < max && Sized(d, content)
    requires forall i :: 0 <= i < |content| && (d.loaded[i] || d.modified[i] || d.sizeOrg <= i) ==> d.file[i] == content[i]
    ensures StreamInv(d, content, content, [], [], max) <==> d.remote == content
  {
    if d.remote == content {
      forall i | 0 <= i < |content| ensures ByteSynced(d, content, Dirty([], [], i), i) {
      }
    }
    if StreamInv(d, content, content, [], [], max) {
      forall i | 0 <= i < |content| ensures i < |d.remote| && d.remote[i] == content[i] {
        assert ByteSynced(d, content, Dirty([], [], i), i);
      }
      if content != [] { assert ByteSynced(d, content, Dirty([], [], |content| - 1), |content| - 1); }
    }
  }

  /** A file just opened. */
  lemma OpenOk(d: Disk, content: seq<byte>, list: seq<Part>, max: int, object0: seq<byte>)
    requires 0 < max && |object0| <= |content| && content == object0 + Fill(|content| - |object0|, 0)
    requires d == Disk(Fill(|content|, 0), Fill(|content|, false), Fill(|content|, false), object0, |object0|)
    requires forall i :: Has(list, i) <==> |object0| <= i < |content|
    ensures StreamInv(d, content, content, list, [], max)
  {
    forall i | 0 <= i < |content| ensures ByteSynced(d, content, Dirty(list, [], i), i) {
    }
  }

  lemma LocalBytes(d: Disk, content: seq<byte>)
    requires Reads(d, content)
    ensures forall i :: 0 <= i < |content| && (d.loaded[i] || d.modified[i] || d.sizeOrg <= i) ==> d.file[i] == content[i]
  {
    forall i | 0 <= i < |content| && (d.loaded[i] || d.modified[i] || d.sizeOrg <= i) ensures d.file[i] == content[i] {
      assert ReadsByte(d, content, i);
    }
  }

  // ---- uploaded parts ----

  /** Uploaded parts hold the content, written bytes included. */
  ghost predicate AllCurrent(uploaded: seq<FilePart>, content: seq<byte>) {
    forall k :: 0 <= k < |uploaded| ==> PartOk(uploaded[k], [], content)
  }

  ghost predicate SomeMeets(untreated: seq<Part>, uploaded: seq<FilePart>) {
    exists k :: 0 <= k < |uploaded| && Meets(untreated, uploaded[k])
  }

  /** The content with the uploaded parts laid over it. */
  ghost predicate Patched(up: seq<byte>, content: seq<byte>, uploaded: seq<FilePart>) {
    && |up| == |content| && (forall k :: 0 <= k < |uploaded| ==> PartOk(uploaded[k], [], up))
    && forall i :: 0 <= i < |content| && !InUp(uploaded, i) ==> up[i] == content[i]
  }

  ghost function PatchByte(content: seq<byte>, uploaded: seq<FilePart>, i: int): byte
    requires 0 <= i < |content| && forall k :: 0 <= k < |uploaded| ==> |uploaded[k].data| == uploaded[k].size
  {
    if InUp(uploaded, i) then
      var k :| 0 <= k < |uploaded| && UpHas(uploaded[k], i);
      uploaded[k].data[i - uploaded[k].startpos]
    else content[i]
  }

  ghost function Patch(content: seq<byte>, uploaded: seq<FilePart>): seq<byte>
    requires forall k :: 0 <= k < |uploaded| ==> |uploaded[k].data| == uploaded[k].size
  {
    seq(|content|, i requires 0 <= i < |content| => PatchByte(content, uploaded, i))
  }

  lemma OneUpPart(uploaded: seq<FilePart>, j: int, k: int, i: int)
    requires OrderedUp(uploaded) && 0 <= j < |uploaded| && 0 <= k < |uploaded| && UpHas(uploaded[j], i) && UpHas(uploaded[k], i)
    ensures j == k
  {
  }

  lemma PatchIsPatched(content: seq<byte>, uploaded: seq<FilePart>)
    requires OrderedUp(uploaded) && forall k :: 0 <= k < |uploaded| ==> |uploaded[k].data| == uploaded[k].size && uploaded[k].End() <= |content|
    ensures Patched(Patch(content, uploaded), content, uploaded)
  {
    var up := Patch(content, uploaded);
    forall k | 0 <= k < |uploaded| ensures PartOk(uploaded[k], [], up) {
      forall i | UpHas(uploaded[k], i) ensures uploaded[k].data[i - uploaded[k].startpos] == up[i] {
        assert InUp(uploaded, i);
        forall j | 0 <= j < |uploaded| && UpHas(uploaded[j], i) ensures j == k { OneUpPart(uploaded, j, k, i); }
      }
    }
  }

  lemma PatchedCurrent(up: seq<byte>, content: seq<byte>, uploaded: seq<FilePart>)
    requires Patched(up, content, uploaded)
    ensures up == content <==> AllCurrent(uploaded, content)
  {
    if AllCurrent(uploaded, content) {
      forall i | 0 <= i < |content| ensures up[i] == content[i] {
        if InUp(uploaded, i) {
          var k :| 0 <= k < |uploaded| && UpHas(uploaded[k], i);
          assert PartOk(uploaded[k], [], content) && PartOk(uploaded[k], [], up);
          assert !Has([], i);
        }
      }
    }
  }

  predicate Overlap(p: FilePart, q: Part) {
    p.startpos < q.End() && q.start < p.End()
  }

  lemma OverlapMeets(p: FilePart, list: seq<Part>)
    requires 0 < p.size && forall j :: 0 <= j < |list| ==> 0 < list[j].size
    ensures Meets(list, p) <==> exists j :: 0 <= j < |list| && Overlap(p, list[j])
  {
    if exists j :: 0 <= j < |list| && Overlap(p, list[j]) {
      var j :| 0 <= j < |list| && Overlap(p, list[j]);
      var i := if p.startpos < list[j].start then list[j].start else p.startpos;
      assert UpHas(p, i) && PartHas(list[j], i) && Has(list, i);
    }
  }

  /** Parts that meet no written byte are up to date. */
  lemma UnmetCurrent(uploaded: seq<FilePart>, untreated: seq<Part>, content: seq<byte>, max: int)
    requires PartsOk(uploaded, untreated, content, max) && !SomeMeets(untreated, uploaded)
    ensures AllCurrent(uploaded, content)
  {
    hide Has;
    forall k | 0 <= k < |uploaded| ensures PartOk(uploaded[k], [], content) {
      assert PartOk(uploaded[k], untreated, content) && !Meets(untreated, uploaded[k]);
    }
  }

  /** The last written part reaches over n whole cells from cell c on, and not over one more. */
  ghost predicate LastCells(p: Part, c: int, n: int, max: int) {
    && (c - 1) * max < p.start <= c * max && 0 <= n
    && if n == 0 then p.End() < (c + 1) * max else (c + n) * max <= p.End() < (c + n + 1) * max
  }

  /** Cutting the cells out of the last part. */
  lemma CutCells(list: seq<Part>, k: int, a: int, b: int, i: int)
    requires Apart(list) && 0 <= k < |list| && list[k].start <= a <= b <= list[k].End()
    ensures (Has(list, i) && !PartHas(list[k], i)) || list[k].start <= i < a || b <= i < list[k].End()
      <==> Has(list, i) && !(a <= i < b)
  {
    if PartHas(list[k], i) { assert Has(list, i); }
  }

  /** Cell c is the first that begins at or after `start`; `size` reaches over n more. */
  lemma AlignUp(start: int, max: int, c: int)
    requires 0 < max && 0 <= start && c == start / max + (if 0 < start % max then 1 else 0)
    ensures (c - 1) * max < start <= c * max && 0 <= c
  {
    var q := start / max;
    assert start == q * max + start % max;
    MulMono(q, q + 1, max);
    MulMono(c - 1, c, max);
  }

  lemma WholeCells(rest: int, max: int, c: int, n: int)
    requires 0 < max && n == rest / max
    ensures n * max <= rest < n * max + max && (c + n) * max == c * max + n * max && (c + n + 1) * max == (c + n) * max + max
    ensures (c * max) / max == c && (c + 1) * max == c * max + max
    ensures 0 <= rest ==> 0 <= n && (n == 0 <==> n * max == 0)
  {
    assert rest == n * max + rest % max;
    MulMono(c, c + 1, max);
    CellIndex(c * max, c, max);
    MulMono(c + n, c + n + 1, max);
    MulMono(0, n, max);
    assert (c + n) * max == c * max + n * max;
  }

  /** The first cell boundary in an area, and the size of the whole cells behind it; none if the boundary
      or the first cell reaches beyond the area. */
  method AlignArea(start: int, size: int, max: int, ghost tag: int) returns (aligned_start: int, aligned_size: int, ghost c: int, ghost m: int)
    requires 0 < max && 0 <= start && 0 < size
    ensures 0 <= c && 0 <= m && aligned_start == c * max && aligned_size == m * max && (c + m) * max == aligned_start + aligned_size
    ensures (aligned_size == 0 <==> m == 0) && start <= aligned_start && (0 < m ==> aligned_start + aligned_size <= start + size)
    ensures LastCells(Part(start, size, tag), c, m, max)
  {
    aligned_start := (start / max + if 0 < start % max then 1 else 0) * max;
    c := start / max + if 0 < start % max then 1 else 0;
    AlignUp(start, max, c);
    if start + size <= aligned_start {
      m := 0;
      WholeCells(0, max, c, 0);
      return aligned_start, 0, c, m;
    }
    m := (start + size - aligned_start) / max;
    aligned_size := ((start + size - aligned_start) / max) * max;
    WholeCells(start + size - aligned_start, max, c, m);
  }

  /** A cell inside the last written part is among its whole cells. */
  lemma InLastCells(p: Part, c: int, n: int, max: int, start: int, size: int, q: int)
    requires 0 < max && LastCells(p, c, n, max) && p.start <= start && start + size <= p.End()
    requires start <= q * max && (q + 1) * max <= start + size
    ensures c * max <= q * max && (q + 1) * max <= (c + n) * max
  {
    MulMono(c - 1, q, max);
    MulMono(q + 1, c + 1, max);
    MulMono(q + 1, c + n + 1, max);
    MulMono(q, c, max);
    MulMono(q + 1, c + n, max);
    MulMono(c + n, q + 1, max);
  }

  /** Uploads and copies the planned parts; with the kept ones they are the image. */
  method SendParts(kept: seq<FilePart>, l: Lists, file: seq<byte>, remote: seq<byte>, ghost job: Job, ghost d: Disk, ghost image: seq<byte>, ghost plan: seq<Cell>)
    returns (list: seq<FilePart>, ghost sent: seq<FilePart>)
    requires Ready(job, d, image, plan, l) && kept == l.kept && d.file == file && d.remote == remote
    ensures Concat(list) == image && forall p :: p in list ==> p in kept || p in sent
    ensures |sent| == |l.toUpload| + |l.toCopy|
  {
    hide Ready, StrictNum, Launchable, NewNums, LaunchedIn;
    PlanLaunchable(job, d, image, plan, l);
    var done, partial;
    ghost var uploads, copies;
    done, partial, uploads := ParallelMultipartUpload(kept, true, l.toUpload, false, file);
    PlanCopies(job, d, image, plan, l, partial);
    done, list, copies := ParallelMultipartUpload(partial, true, l.toCopy, true, remote);
    Assembled(job, d, image, plan, l, list);
    sent := uploads + copies;
    AllSent(l.toUpload, false, file, uploads);
    AllSent(l.toCopy, true, remote, copies);
  }

  lemma AllSent(mplist: seq<MpPart>, is_copy: bool, source: seq<byte>, sent: seq<FilePart>)
    requires Launchable(mplist, source) && |sent| == |mplist| && forall k :: 0 <= k < |sent| ==> sent[k] == Launched(mplist[k], is_copy, source)
    ensures forall p :: LaunchedIn(p, mplist, is_copy, source) ==> p in sent
  {
    forall p | LaunchedIn(p, mplist, is_copy, source) ensures p in sent {
      var k :| 0 <= k < |mplist| && p == Launched(mplist[k], is_copy, source);
      assert sent[k] == p;
    }
  }

  /** Takes the parts inside n whole cells off the list and launches new ones for these cells. */
  method LaunchCells(uploaded: seq<FilePart>, uploading: bool, file: seq<byte>, max: int, aligned_start: int, aligned_size: int,
                     ghost c: int, ghost n: int, ghost fileSize: int)
    returns (after: seq<FilePart>, ghost lo: int, ghost hi: int, to_upload: seq<MpPart>, ghost sent: seq<FilePart>)
    requires 0 < max && Aligned(uploaded, max, fileSize) && StrictNum(uploaded) && (uploaded != [] ==> uploading)
    requires 0 <= c && 0 < n && aligned_start == c * max && aligned_size == n * max && aligned_start + aligned_size <= |file|
    ensures |to_upload| == n && CellParts(to_upload, c, n, max)
    ensures Overlapped(uploaded, lo, hi, c * max, (c + n) * max)
    ensures Resent(uploaded, after, uploaded[..lo] + uploaded[hi..], to_upload, file) && StrictNum(after)
    ensures |sent| == n && forall p :: p in after ==> p in uploaded || p in sent
  {
    hide Aligned, Overlapped, CellParts, Launchable, StrictNum, LaunchedIn, NewNums;
    var ok, rest;
    rest, to_upload, lo, hi := TakeCells(uploaded, max, aligned_start, aligned_size, c, n, fileSize);
    CellsFit(to_upload, c, n, max, file, uploaded, lo, hi, fileSize, aligned_start, aligned_size);
    if !uploading { rest := []; }
    ok, after, sent := ParallelMultipartUpload(rest, true, to_upload, false, file);
    AllSent(to_upload, false, file, sent);
  }

  /** The planned parts are exactly the n cells. */
  method TakeCells(uploaded: seq<FilePart>, max: int, aligned_start: int, aligned_size: int, ghost c: int, ghost n: int, ghost fileSize: int)
    returns (rest: seq<FilePart>, to_upload: seq<MpPart>, ghost lo: int, ghost hi: int)
    requires 0 < max && Aligned(uploaded, max, fileSize)
    requires 0 <= c && 0 < n && aligned_start == c * max && aligned_size == n * max
    ensures |to_upload| == n && CellParts(to_upload, c, n, max)
    ensures Overlapped(uploaded, lo, hi, c * max, (c + n) * max) && rest == uploaded[..lo] + uploaded[hi..]
  {
    hide Aligned, Overlapped, CellParts;
    StartOfCells(c, n, max);
    var ok, cancel;
    ok, rest, to_upload, cancel, lo, hi := ExtractUploadPartsFromUntreatedArea(aligned_start, aligned_size, uploaded, max, fileSize);
    CountCells(uploaded, lo, hi, c, n, |to_upload|, max, fileSize);
  }

  lemma CellsFit(to_upload: seq<MpPart>, c: int, n: int, max: int, file: seq<byte>, uploaded: seq<FilePart>, lo: int, hi: int, fileSize: int,
                 aligned_start: int, aligned_size: int)
    requires 0 < max && 0 <= c && |to_upload| == n && CellParts(to_upload, c, n, max) && Aligned(uploaded, max, fileSize) && StrictNum(uploaded)
    requires Overlapped(uploaded, lo, hi, c * max, (c + n) * max) && aligned_start == c * max && aligned_size == n * max
    requires aligned_start + aligned_size <= |file|
    ensures 0 <= lo <= hi <= |uploaded| && Launchable(to_upload, file)
    ensures StrictNum(uploaded[..lo] + uploaded[hi..]) && NewNums(to_upload, uploaded[..lo] + uploaded[hi..])
  {
    hide CellParts, Aligned, StrictNum, Launchable, NewNums;
    SumOfCells(c, n, max);
    CellsLaunchable(to_upload, c, max, file, uploaded, lo, hi, fileSize);
  }

  lemma SumOfCells(c: int, n: int, max: int)
    ensures (c + n) * max == c * max + n * max
  {
  }

  lemma StartOfCells(c: int, n: int, max: int)
    requires 0 < max && 0 <= c && 0 < n
    ensures 0 <= c * max && 0 < n * max && c * max / max == c && (c + 1) * max <= c * max + n * max == (c + n) * max
  {
    WholeCells(n * max, max, c, n * max / max);
    CellIndex(n * max, n, max);
    MulMono(n, n + 1, max);
    MulMono(0, n, max);
    MulMono(-1, c, max);
    MulMono(c, c + n, max);
  }

  /** The area ends on a cell boundary, so no uploaded part extends it. */
  lemma CountCells(uploaded: seq<FilePart>, lo: int, hi: int, c: int, n: int, m: nat, max: int, fileSize: int)
    requires 0 < max && Aligned(uploaded, max, fileSize) && 0 < n
    requires Overlapped(uploaded, lo, hi, c * max, (c + m) * max)
    requires if lo < hi && (c + n) * max < uploaded[hi - 1].End()
      then (c + m) * max == uploaded[hi - 1].End() && uploaded[hi - 1].startpos < (c + n) * max
      else (c + m) * max <= (c + n) * max < (c + m + 1) * max
    ensures m == n
  {
    if lo < hi { StartsAfter(uploaded[hi - 1], c + n, max); }
    MulMono(c + m, c + n, max);
    MulMono(c + n, c + m + 1, max);
    MulMono(c + n, c + m, max);
  }

  /** A write, with the store's answer to the begin of a multipart upload, or a flush. */
  datatype FileOp = WriteAt(start: nat, bytes: seq<byte>, startOk: bool) | Flush

  /** The content the operations leave. */
  ghost function Replay(content: seq<byte>, ops: seq<FileOp>): seq<byte> {
    if ops == [] then content
    else
      var before := Replay(content, ops[..|ops| - 1]);
      match ops[|ops| - 1]
      case WriteAt(start, bytes, _) => Overlaid(before, start, bytes)
      case Flush => before
  }

  /** A byte that a write at `start` to a file of n bytes writes, zeros of a gap included. */
  predicate Writes(n: int, start: int, size: int, i: int) {
    start <= i < start + size || n <= i < start
  }

  /** Every byte of cell c is written after a write at `start` to a file of n bytes. */
  ghost predicate CellWritten(untreated: seq<Part>, n: int, start: int, size: int, c: int, max: int) {
    forall i :: c * max <= i < (c + 1) * max ==> Has(untreated, i) || Writes(n, start, size, i)
  }

  /** The requests so far, with the begin of an upload if none is open. */
  ghost function Begun(requests: seq<Request>, uploading: bool): seq<Request> {
    if uploading then requests else requests + [BeginUpload]
  }

  lemma BegunOrderly(requests: seq<Request>, uploading: bool, list: seq<FilePart>)
    requires Orderly(requests, uploading, list)
    ensures Orderly(Begun(requests, uploading), true, list)
  {
    hide Orderly;
    if !uploading {
      NoneOpen(requests, list);
      BeginOrderly(requests);
    }
  }

  /** n parts were sent, after a begin that the store accepted if no upload was open; none, and the store
      was asked nothing. */
  ghost predicate Asked(before: seq<Request>, after: seq<Request>, uploading: bool, startOk: bool, n: int) {
    if n == 0 then after == before
    else (uploading || startOk) && exists sent :: |sent| == n && after == Begun(before, uploading) + Sends(sent)
  }

  lemma NothingAsked(requests: seq<Request>, uploading: bool, startOk: bool)
    ensures Asked(requests, requests, uploading, startOk, 0)
  {
  }

  lemma AskedAllowed(before: seq<Request>, after: seq<Request>, uploading: bool, startOk: bool, n: int)
    requires Asked(before, after, uploading, startOk, n) && n != 0
    ensures uploading || startOk
  {
  }

  /** Parts were sent, and the upload ended. */
  ghost predicate Ended(before: seq<Request>, after: seq<Request>, sent: seq<FilePart>, parts: seq<FilePart>) {
    after == before + Sends(sent) + [EndUpload(parts)]
  }

  /** Parts were sent and the upload ended; if it was completed, the object is what its parts make. */
  ghost predicate EndedWith(before: seq<Request>, after: seq<Request>, done: bool, remote: seq<byte>) {
    exists sent, parts :: Ended(before, after, sent, parts) && (done ==> remote == Concat(parts))
  }

  lemma EndsWith(before: seq<Request>, after: seq<Request>, sent: seq<FilePart>, parts: seq<FilePart>, done: bool, remote: seq<byte>)
    requires after == before + Sends(sent) + [EndUpload(parts)] && (done ==> remote == Concat(parts))
    ensures EndedWith(before, after, done, remote)
  {
    assert Ended(before, after, sent, parts);
  }

  lemma BegunIs(requests: seq<Request>, uploading: bool)
    ensures Begun(requests, uploading) == if uploading then requests else requests + [BeginUpload]
  {
  }

  lemma KeptMembers(list: seq<Part>, uploaded: seq<FilePart>)
    ensures forall p :: p in KeptOf(list, uploaded) ==> p in uploaded
  {
    hide KeptOf;
    var kept := KeptOf(list, uploaded);
    forall p | p in kept ensures p in uploaded {
      var j :| 0 <= j < |kept| && kept[j] == p;
      KeptIn(list, uploaded, j);
    }
  }

  /** How the store and the disk answer during a flush: which download fails, if any, and whether the
      begin of a multipart upload, the wait for cancelled parts and the upload itself succeed. */
  datatype Answers = Answers(badLoad: int, startOk: bool, waitOk: bool, sendOk: bool)

  const ALL_WELL := Answers(-1, true, true, true)

  datatype Outcome = Done | LoadFailed | StartRefused | WaitFailed | SendRefused

  /** The store copies only from inside the object. */
  predicate CopiesInside(toCopy: seq<MpPart>, size: int) {
    forall k :: 0 <= k < |toCopy| ==> toCopy[k].End() <= size
  }

  /** A plan that is ready copies only what the object has. */
  lemma CopiesReach(job: Job, d: Disk, image: seq<byte>, plan: seq<Cell>, l: Lists)
    requires Ready(job, d, image, plan, l)
    ensures CopiesInside(l.toCopy, |d.remote|)
  {
    hide Ready;
    SelectedLists(job, d, image, plan, l);
    forall k | 0 <= k < |l.toCopy| ensures l.toCopy[k].End() <= |d.remote| {
      CopiedFits(job, d, image, plan, l, l.toCopy[k]);
    }
  }

  /** With nothing written or uploaded the end of the file would be copied. */
  lemma CopiesTooFar(job: Job, size: int, plan: seq<Cell>, l: Lists)
    requires job.untreated == [] && job.uploaded == [] && job.useCopy && size < job.fileSize && 0 < job.fileSize
    requires PlanState(job, job.fileSize, plan, l) && l.looked == |job.uploaded|
    ensures !CopiesInside(l.toCopy, size)
  {
    hide KeptOk, SizesSoFar, Select, InMp, CancelOf, CellsOk;
    assert job.uploaded[..l.looked] == [] && l.kept == [];
    var k := |plan| - 1;
    NoKept(l.kept, plan, k);
    assert KindAllowed(job, plan[k]);
    var m := SelectHas(plan, Copied, k);
  }

  /** Uploaded parts without written bytes keep the bookkeeping exactly if the object has the unwritten
      bytes of the others. */
  lemma KeptInv(d: Disk, content: seq<byte>, up: seq<byte>, list: seq<Part>, uploaded: seq<FilePart>, max: int)
    requires StreamInv(d, content, up, list, uploaded, max) && |up| == |content|
    ensures var kept := KeptOf(list, uploaded);
      StreamInv(d, content, Mix(content, up, kept), list, kept, max) <==>
      forall i :: InUp(uploaded, i) && !InUp(kept, i) && !Has(list, i) ==> 0 <= i < |content| && i < |d.remote| && d.remote[i] == content[i]
  {
    hide Has, KeptOf;
    var kept := KeptOf(list, uploaded);
    KeptParts(content, up, list, uploaded, max);
    forall i | InUp(kept, i) ensures InUp(uploaded, i) { KeptInUp(list, uploaded, i); }
    forall i | InUp(uploaded, i) ensures 0 <= i < |content| { InUpInside(uploaded, max, |content|, i); }
    if forall i :: InUp(uploaded, i) && !InUp(kept, i) && !Has(list, i) ==> 0 <= i < |content| && i < |d.remote| && d.remote[i] == content[i] {
      forall i | 0 <= i < |content| ensures ByteSynced(d, content, Dirty(list, kept, i), i) {
        assert ByteSynced(d, content, Dirty(list, uploaded, i), i);
      }
    }
    if StreamInv(d, content, Mix(content, up, kept), list, kept, max) {
      forall i | InUp(uploaded, i) && !InUp(kept, i) && !Has(list, i) ensures i < |d.remote| && d.remote[i] == content[i] {
        assert ByteSynced(d, content, Dirty(list, kept, i), i);
      }
    }
  }

  lemma InUpInside(uploaded: seq<FilePart>, max: int, fileSize: int, i: int)
    requires Aligned(uploaded, max, fileSize) && InUp(uploaded, i)
    ensures 0 <= i < fileSize
  {
  }

  lemma KeptNone(list: seq<Part>, uploaded: seq<FilePart>)
    ensures uploaded == [] ==> KeptOf(list, uploaded) == []
  {
  }

  lemma KeptInUp(list: seq<Part>, uploaded: seq<FilePart>, i: int)
    requires InUp(KeptOf(list, uploaded), i)
    ensures InUp(uploaded, i) && !Has(list, i)
  {
    var kept := KeptOf(list, uploaded);
    var j :| 0 <= j < |kept| && UpHas(kept[j], i);
    KeptIn(list, uploaded, j);
    InUpMember(uploaded, kept[j], i);
  }

  lemma KeptParts(content: seq<byte>, up: seq<byte>, list: seq<Part>, uploaded: seq<FilePart>, max: int)
    requires 0 < max && PartsOk(uploaded, list, up, max) && |up| == |content|
    ensures var kept := KeptOf(list, uploaded); PartsOk(kept, list, Mix(content, up, kept), max)
  {
    hide Has, KeptOf;
    var kept := KeptOf(list, uploaded);
    var mix := Mix(content, up, kept);
    KeptStrict(list, uploaded);
    forall j | 0 <= j < |kept| ensures InCell(kept[j], max, |content|) && PartOk(kept[j], list, mix) {
      KeptIn(list, uploaded, j);
      var m :| 0 <= m < |uploaded| && uploaded[m] == kept[j];
      assert PartOk(uploaded[m], list, up);
      assert forall i :: UpHas(kept[j], i) ==> InUp(kept, i);
    }
    AlignedByNum(kept, max, |content|);
  }

  class FdEntity {
    const max: int
    const useCopy: bool
    const untreated: UntreatedParts
    var file: seq<byte>
    var loaded: seq<bool>
    var modified: seq<bool>
    var remote: seq<byte>
    var size_orgmeta: int
    var upload_list: seq<FilePart>
    var uploading: bool
    /** The file as its reader sees it, and as the uploaded parts have it. */
    ghost var content: seq<byte>
    ghost var up: seq<byte>
    /** What the file has asked of the store for its multipart uploads so far. */
    ghost var requests: seq<Request>

    ghost function D(): Disk
      reads this
    {
      Disk(file, loaded, modified, remote, size_orgmeta)
    }

    ghost predicate Valid()
      reads this, untreated
    {
      && untreated.Valid() && StreamInv(D(), content, up, untreated.untreated_list, upload_list, max)
      && (upload_list != [] ==> uploading) && InOrder()
    }

    /** Parts were only ever sent under an upload that had begun and not ended, and the file knows whether
        one is open. */
    ghost predicate InOrder()
      reads this
    {
      Orderly(requests, uploading, upload_list)
    }

    /** Every byte can be read, whatever is known about the store. */
    ghost predicate Readable()
      reads this
    {
      0 < max && Reads(D(), content) && InOrder()
    }

    /** Nothing counts as written or uploaded. */
    ghost predicate Forgotten()
      reads this, untreated
    {
      Readable() && untreated.Valid() && untreated.untreated_list == [] && upload_list == []
    }

    ghost predicate IsDirty(i: int)
      reads this, untreated
    {
      Dirty(untreated.untreated_list, upload_list, i)
    }

    /** Opens a file for an existing object: nothing is loaded yet, and what the file has more than the
        object reads as zeros and is still to be uploaded. */
    constructor (object0: seq<byte>, size: nat, partSize: int, copy: bool)
      requires 0 < partSize && |object0| <= size
      ensures Valid() && fresh(untreated) && content == up == object0 + Fill(size - |object0|, 0) && remote == object0
      ensures max == partSize && useCopy == copy && upload_list == [] && !uploading && requests == []
      ensures forall i :: Has(untreated.untreated_list, i) <==> |object0| <= i < size
    {
      max, useCopy := partSize, copy;
      untreated := new UntreatedParts();
      file, loaded, modified := Fill(size, 0), Fill(size, false), Fill(size, false);
      remote, size_orgmeta := object0, |object0|;
      upload_list, uploading, requests := [], false, [];
      content, up := object0 + Fill(size - |object0|, 0), object0 + Fill(size - |object0|, 0);
      new;
      var ok := untreated.AddPart(|object0|, size - |object0|);
      if !ok { NothingLeft(); }
      OpenOk(D(), content, untreated.untreated_list, max, object0);
    }

    /** Downloads the bytes of a range that are neither loaded nor modified, as far as the object
        had them when it was opened; a size of 0 means up to the end. */
    method Load(start: int, size: int)
      requires Readable()
      modifies this`file, this`loaded
      ensures Readable() && (old(Valid()) ==> Valid())
      ensures forall i :: 0 <= i < |file| && start <= i && (size == 0 || i < start + size) ==> file[i] == content[i]
      ensures |file| == |old(file)| && forall i :: 0 <= i < |file| && old(file)[i] == content[i] ==> file[i] == content[i]
      ensures |loaded| == |old(loaded)| == |modified| == |file|
      ensures forall i :: 0 <= i < |file| && (old(loaded)[i] || old(modified)[i]) ==> file[i] == old(file)[i]
    {
      hide StreamInv, Reads;
      ReadSizes();
      var next := if size == 0 then |file| else start + size;
      var i := if start < 0 then 0 else start;
      while i < next && i < |file|
        invariant 0 <= i && start <= i && Readable() && (old(Valid()) ==> Valid())
        invariant |file| == |loaded| == |modified| == |old(file)| == |content| == |old(loaded)|
        invariant forall k :: 0 <= k < i && start <= k && k < |file| ==> file[k] == content[k]
        invariant forall k :: i <= k < |file| ==> file[k] == old(file)[k] && loaded[k] == old(loaded)[k]
        invariant forall k :: 0 <= k < |file| && old(file)[k] == content[k] ==> file[k] == content[k]
        invariant forall k :: 0 <= k < |file| && (old(loaded)[k] || old(modified)[k]) ==> file[k] == old(file)[k]
      {
        LoadByte(i);
        i := i + 1;
      }
    }

    /** Downloads one byte if it is neither loaded nor modified. */
    method LoadByte(i: int)
      requires Readable() && 0 <= i < |file| == |loaded| == |modified| == |content|
      modifies this`file, this`loaded
      ensures Readable() && (old(Valid()) ==> Valid())
      ensures |file| == |loaded| == |content| && file[i] == content[i]
      ensures forall k :: 0 <= k < |file| && k != i ==> file[k] == old(file)[k] && loaded[k] == old(loaded)[k]
      ensures old(loaded)[i] || old(modified)[i] ==> file[i] == old(file)[i]
    {
      hide StreamInv, Reads;
      LoadReads(D(), content, i);
      ReadSizes();
      ghost var d := D();
      if !loaded[i] && !modified[i] {
        if Valid() { LoadKeeps(D(), content, up, untreated.untreated_list, upload_list, max, i); }
        if i < size_orgmeta { file := file[i := remote[i]]; }
        loaded := loaded[i := true];
        assert D() == LoadOne(d, i);
      }
    }

    lemma ReadSizes()
      requires Readable()
      ensures |file| == |loaded| == |modified| == |content| && 0 <= size_orgmeta <= |remote| <= |content| && 0 < max
    {
    }

    lemma ValidReadable()
      requires Valid()
      ensures Readable() && |up| == |content|
    {
      InvReads(D(), content, up, untreated.untreated_list, upload_list, max);
    }

    /** Extends the file with zeros up to `start`. */
    method Grow(start: nat)
      requires Valid() && |file| < start
      modifies this`file, this`loaded, this`modified, this`content, this`up, untreated
      ensures Valid() && content == old(content) + Fill(start - |old(content)|, 0) && up == old(up) + Fill(start - |old(content)|, 0)
      ensures Grows(old(untreated.untreated_list), untreated.untreated_list, |old(content)|, start - |old(content)|)
    {
      ghost var d, list := D(), untreated.untreated_list;
      var n := start - |file|;
      var ok := untreated.AddPart(|file|, n);
      file, loaded, modified := file + Fill(n, 0), loaded + Fill(n, false), modified + Fill(n, true);
      GrowOk(d, content, up, list, upload_list, max, untreated.untreated_list, n);
      content, up := content + Fill(n, 0), up + Fill(n, 0);
    }

    /** Drops the uploaded middle of the last written part. */
    method ReplaceLastUpdateUntreatedPart(front_start: int, front_size: int, behind_start: int, behind_size: int) returns (ok: bool, ghost k: int)
      requires untreated.Valid() && 0 <= behind_start
      requires forall j :: 0 <= j < |untreated.untreated_list| && untreated.untreated_list[j].tag == untreated.last_tag ==>
        untreated.untreated_list[j].start <= front_start && front_start + front_size <= untreated.untreated_list[j].End()
      modifies untreated
      ensures untreated.Valid()
      ensures ok <==> exists j :: 0 <= j < |old(untreated.untreated_list)| && old(untreated.untreated_list)[j].tag == old(untreated.last_tag)
      ensures !ok ==> untreated.untreated_list == old(untreated.untreated_list)
      ensures ok ==> 0 <= k < |old(untreated.untreated_list)| && old(untreated.untreated_list)[k].tag == old(untreated.last_tag)
      ensures ok ==> forall i :: Has(untreated.untreated_list, i) <==>
        (Has(old(untreated.untreated_list), i) && !PartHas(old(untreated.untreated_list)[k], i))
        || front_start <= i < front_start + front_size || behind_start <= i < behind_start + behind_size
    {
      if 0 < front_size {
        ok, k := untreated.ReplaceLastUpdatePart(front_start, front_size);
      } else {
        ok, k := untreated.RemoveLastUpdatePart();
      }
      if !ok { return; }
      if 0 < behind_size {
        ok := untreated.AddPart(behind_start, behind_size);
      }
    }

    /** Uploads the whole cells of the part written last and takes them out of the untreated list;
        uploaded parts they replace leave the upload list. A refused begin of the multipart upload
        leaves everything as it is. */
    method UploadBoundaryLastUntreatedArea(startOk: bool) returns (ok: bool, ghost c: int, ghost n: int)
      requires Valid()
      modifies this`upload_list, this`uploading, this`requests, untreated
      ensures Valid() && 0 <= n
      ensures Asked(old(requests), requests, old(uploading), startOk, n)
      ensures uploading <==> old(uploading) || 0 < n
      ensures forall i :: c * max <= i < (c + n) * max ==> Has(old(untreated.untreated_list), i)
      ensures forall i :: Has(untreated.untreated_list, i) <==> Has(old(untreated.untreated_list), i) && !(c * max <= i < (c + n) * max)
      ensures forall i :: InUp(upload_list, i) <==> InUp(old(upload_list), i) || c * max <= i < (c + n) * max
      ensures ok ==> forall p :: p in old(untreated.untreated_list) && p.tag == old(untreated.last_tag) ==> LastCells(p, c, n, max)
      ensures !ok ==> !startOk && !old(uploading) && n == 0 && untreated.untreated_list == old(untreated.untreated_list)
      ensures n == 0 ==> upload_list == old(upload_list)
    {
      hide StreamInv, LastCells, Has, InUp, Apart, Orderly;
      ok, c, n := true, 0, 0;
      NothingAsked(requests, uploading, startOk);
      var found, last_start, last_size := untreated.GetLastUpdatePart();
      if !found { return; }
      ghost var list := untreated.untreated_list;
      ghost var k :| 0 <= k < |list| && list[k] == Part(last_start, last_size, untreated.last_tag);
      Positive(k);
      var aligned_start, aligned_size;
      ghost var m;
      aligned_start, aligned_size, c, m := AlignArea(last_start, last_size, max, untreated.last_tag);
      if aligned_size == 0 { return; }
      if !uploading && !startOk { return false, c, n; }
      n := SendCells(k, c, m, last_start, last_size, aligned_start, aligned_size);
    }

    lemma Positive(k: int)
      requires Valid() && 0 <= k < |untreated.untreated_list|
      ensures 0 < max && 0 <= untreated.untreated_list[k].start && 0 < untreated.untreated_list[k].size
    {
    }

    /** Uploads the cells c..c+m. */
    method SendCells(ghost k: int, ghost c: int, ghost m: int, last_start: int, last_size: int, aligned_start: int, aligned_size: int) returns (ghost n: int)
      requires Valid() && 0 <= k < |untreated.untreated_list| && untreated.untreated_list[k] == Part(last_start, last_size, untreated.last_tag)
      requires 0 <= c && 0 < m && aligned_start == c * max && aligned_size == m * max && (c + m) * max == aligned_start + aligned_size
      requires last_start <= aligned_start && aligned_start + aligned_size <= last_start + last_size
      modifies this`upload_list, this`uploading, this`requests, untreated
      ensures Valid() && n == m && 0 < n && uploading
      ensures Asked(old(requests), requests, old(uploading), true, n)
      ensures forall i :: c * max <= i < (c + n) * max ==> Has(old(untreated.untreated_list), i)
      ensures forall i :: Has(untreated.untreated_list, i) <==> Has(old(untreated.untreated_list), i) && !(c * max <= i < (c + n) * max)
      ensures forall i :: InUp(upload_list, i) <==> InUp(old(upload_list), i) || c * max <= i < (c + n) * max
    {
      hide Synced, PartsOk, Has, Resent, Apart, Agrees, Orderly, Begun;
      n := m;
      ghost var list, uploaded, tag := untreated.untreated_list, upload_list, untreated.last_tag;
      CellsInFile(k, c, m);
      InvParts();
      var after;
      ghost var lo, hi, to_upload, sent;
      ghost var requests0 := Begun(requests, uploading);
      BegunOrderly(requests, uploading, upload_list);
      after, lo, hi, to_upload, sent := LaunchCells(upload_list, uploading, file, max, aligned_start, aligned_size, c, m, |content|);
      SendsOrderly(requests0, upload_list, sent);
      requests := requests0 + Sends(sent);
      FewerOrderly(requests, true, upload_list + sent, after);
      uploading, upload_list := true, after;
      var behind_start := aligned_start + aligned_size;
      OneLast(list, tag, k);
      var ok;
      ghost var at;
      ok, at := ReplaceLastUpdateUntreatedPart(last_start, aligned_start - last_start, behind_start, last_start + last_size - behind_start);
      assert list[k].tag == tag;
      forall i ensures Has(untreated.untreated_list, i) <==> Has(list, i) && !(c * max <= i < (c + n) * max) {
        CutCells(list, k, aligned_start, behind_start, i);
      }
      forall i | c * max <= i < (c + n) * max ensures Has(list, i) {
        HasPart(list, k, i);
      }
      BoundaryOk(D(), content, up, list, uploaded, max, untreated.untreated_list, after, lo, hi, to_upload, c);
    }

    lemma InvParts()
      requires Valid()
      ensures Aligned(upload_list, max, |content|) && StrictNum(upload_list) && |content| == |file| == |up|
    {
    }

    lemma CellsInFile(k: int, c: int, m: int)
      requires Valid() && 0 <= k < |untreated.untreated_list| && 0 <= c && 0 < m
      requires (c + m) * max <= untreated.untreated_list[k].End()
      ensures (c + m) * max <= |file|
    {
      assert PartHas(untreated.untreated_list[k], untreated.untreated_list[k].End() - 1);
      assert Has(untreated.untreated_list, untreated.untreated_list[k].End() - 1);
    }

    /** The part of a write that follows the gap: store the bytes, then upload what is complete. */
    method WriteStreamUpload(bytes: seq<byte>, start: nat, startOk: bool) returns (ok: bool)
      requires Valid() && start <= |content|
      modifies this`file, this`loaded, this`modified, this`content, this`up, this`upload_list, this`uploading, this`requests, untreated
      ensures Valid() && content == Over(old(content), start, bytes) && up == Over(old(up), start, bytes)
      ensures forall i :: IsDirty(i) <==> old(IsDirty(i)) || start <= i < start + |bytes|
      ensures forall i :: old(InUp(upload_list, i)) ==> InUp(upload_list, i)
      ensures forall i :: Has(untreated.untreated_list, i) ==> Has(old(untreated.untreated_list), i) || start <= i < start + |bytes|
      ensures startOk ==> ok
      ensures exists n :: Asked(old(requests), requests, old(uploading), startOk, n)
      ensures upload_list != old(upload_list) ==> uploading && (old(uploading) || startOk)
      ensures ok ==> forall q :: start <= q * max && (q + 1) * max <= start + |bytes| ==> CellUploaded(q)
      ensures upload_list == old(upload_list)
        || exists c :: CellWritten(old(untreated.untreated_list), |old(content)|, start, |bytes|, c, max)
    {
      hide StreamInv, LastCells, Has, InUp, Orderly, Asked, Grows, Reads;
      ValidReadable();
      ReadSizes();
      WriteBytes(bytes, start);
      GrownHas(old(untreated.untreated_list), untreated.untreated_list, start, |bytes|);
      ghost var list, tag := untreated.untreated_list, untreated.last_tag;
      ghost var c, n;
      ok, c, n := UploadBoundaryLastUntreatedArea(startOk);
      if 0 < n {
        AskedAllowed(old(requests), requests, old(uploading), startOk, n);
        MulMono(c + 1, c + n, max);
        assert CellWritten(old(untreated.untreated_list), |old(content)|, start, |bytes|, c, max);
      }
      forall q | ok && start <= q * max && (q + 1) * max <= start + |bytes| ensures CellUploaded(q) {
        MulMono(q, q + 1, max);
        WrittenCell(list, tag, c, n, start, |bytes|, q);
      }
    }

    /** A cell none of whose bytes is left to upload. */
    ghost predicate CellUploaded(q: int)
      reads this, untreated
    {
      forall i :: q * max <= i < (q + 1) * max ==> InUp(upload_list, i) && !Has(untreated.untreated_list, i)
    }

    lemma WrittenCell(list: seq<Part>, tag: int, c: int, n: int, start: int, size: int, q: int)
      requires 0 < max && LastHolds(list, tag, start, size) && start <= q * max && (q + 1) * max <= start + size
      requires forall p :: p in list && p.tag == tag ==> LastCells(p, c, n, max)
      requires forall i :: Has(untreated.untreated_list, i) <==> Has(list, i) && !(c * max <= i < (c + n) * max)
      requires forall i :: c * max <= i < (c + n) * max ==> InUp(upload_list, i)
      ensures CellUploaded(q)
    {
      hide Has, InUp, LastCells;
      var k :| 0 <= k < |list| && list[k].tag == tag && list[k].start <= start && start + size <= list[k].End();
      assert list[k] in list;
      InLastCells(list[k], c, n, max, start, size, q);
    }

    /** Puts the bytes into the cache file and into the list of written areas. */
    method StoreBytes(bytes: seq<byte>, start: nat)
      requires untreated.Valid() && start <= |file| == |loaded| == |modified|
      modifies this`file, this`loaded, this`modified, untreated
      ensures untreated.Valid() && file == Over(old(file), start, bytes)
      ensures loaded == Over(old(loaded), start, Fill(|bytes|, true)) && modified == Over(old(modified), start, Fill(|bytes|, true))
      ensures Grows(old(untreated.untreated_list), untreated.untreated_list, start, |bytes|)
      ensures 0 < |bytes| ==> LastHolds(untreated.untreated_list, untreated.last_tag, start, |bytes|)
    {
      hide LastHolds, Has;
      file := Over(file, start, bytes);
      if 0 < |bytes| {
        loaded, modified := Over(loaded, start, Fill(|bytes|, true)), Over(modified, start, Fill(|bytes|, true));
        var ok := untreated.AddPart(start, |bytes|);
      } else {
        assert Over(loaded, start, []) == loaded && Over(modified, start, []) == modified;
      }
    }

    method WriteBytes(bytes: seq<byte>, start: nat)
      requires Valid() && start <= |content|
      modifies this`file, this`loaded, this`modified, this`content, this`up, untreated
      ensures Valid() && content == Over(old(content), start, bytes) && up == Over(old(up), start, bytes)
      ensures Grows(old(untreated.untreated_list), untreated.untreated_list, start, |bytes|)
      ensures 0 < |bytes| ==> LastHolds(untreated.untreated_list, untreated.last_tag, start, |bytes|)
    {
      hide StreamInv, LastHolds, Has, Orderly, Reads, Grows, Over, Fill;
      ValidReadable();
      ReadSizes();
      ghost var d, list := D(), untreated.untreated_list;
      StoreBytes(bytes, start);
      WriteOk(d, content, up, list, upload_list, max, untreated.untreated_list, start, bytes);
      content, up := Over(content, start, bytes), Over(up, start, bytes);
    }

    /** Writes bytes at a position, at once uploading the cells that are complete. The object in the
        store is not touched, and uploaded bytes stay uploaded until they are written again. Whole
        cells written at once are uploaded; nothing is uploaded unless a cell is completely written. */
    method Write(bytes: seq<byte>, start: nat, startOk: bool) returns (ok: bool)
      requires Valid()
      modifies this`file, this`loaded, this`modified, this`content, this`up, this`upload_list, this`uploading, this`requests, untreated
      ensures Valid() && content == Overlaid(old(content), start, bytes) && up == Overlaid(old(up), start, bytes)
      ensures forall i :: IsDirty(i) <==> old(IsDirty(i)) || Writes(|old(content)|, start, |bytes|, i)
      ensures forall i :: old(InUp(upload_list, i)) ==> InUp(upload_list, i)
      ensures forall i :: Has(untreated.untreated_list, i) ==> Has(old(untreated.untreated_list), i) || Writes(|old(content)|, start, |bytes|, i)
      ensures startOk ==> ok
      ensures exists n :: Asked(old(requests), requests, old(uploading), startOk, n)
      ensures upload_list != old(upload_list) ==> uploading && (old(uploading) || startOk)
      ensures ok ==> forall q :: start <= q * max && (q + 1) * max <= start + |bytes| ==> CellUploaded(q)
      ensures upload_list == old(upload_list)
        || exists c :: CellWritten(old(untreated.untreated_list), |old(content)|, start, |bytes|, c, max)
    {
      hide StreamInv, Has, InUp, CellUploaded, Orderly, Asked;
      ValidReadable();
      ReadSizes();
      ghost var list, n := untreated.untreated_list, |content|;
      if |file| < start { Grow(start); }
      ghost var grown := untreated.untreated_list;
      ok := WriteStreamUpload(bytes, start, startOk);
      if upload_list != old(upload_list) {
        ghost var m := if n < start then start else n;
        ghost var c :| CellWritten(grown, m, start, |bytes|, c, max);
        assert CellWritten(list, n, start, |bytes|, c, max);
      }
    }

    // ---- the flush ----

    /** Small files are put in one request. The untreated list is cleared but the upload list is not:
        what the uploaded parts hold is what the next flush keeps. */
    method FlushSmall(a: Answers) returns (r: Outcome)
      requires Valid()
      modifies this`file, this`loaded, this`modified, this`remote, this`size_orgmeta, this`up, untreated
      ensures r == if a.badLoad == 0 then LoadFailed else if a.sendOk then Done else SendRefused
      ensures r == LoadFailed ==> Valid() && untreated.untreated_list == old(untreated.untreated_list) && up == old(up)
      ensures r != LoadFailed ==> untreated.untreated_list == []
      ensures r == Done ==> Valid() && remote == content && Patched(up, content, upload_list)
      ensures r == Done ==> (up == content <==> AllCurrent(upload_list, content))
      ensures r == Done && old(up) == content && !SomeMeets(old(untreated.untreated_list), upload_list) ==> up == content
      ensures r != Done ==> remote == old(remote)
      ensures r == SendRefused && upload_list == [] ==> up == content && (Valid() <==> remote == content)
      ensures if r == LoadFailed then modified == old(modified) && size_orgmeta == old(size_orgmeta) else size_orgmeta == |content|
      ensures r == Done ==> forall i :: 0 <= i < |modified| ==> !modified[i]
    {
      hide StreamInv, Reads, Patched, AllCurrent, SomeMeets, PartsOk, Aligned, OrderedUp, StrictNum, Orderly;
      ValidReadable();
      if a.badLoad == 0 { return LoadFailed; }
      Load(0, 0);
      ReadSizes();
      assert file == content;
      PartsInOrder();
      if up == content && !SomeMeets(untreated.untreated_list, upload_list) { UnmetCurrent(upload_list, untreated.untreated_list, content, max); }
      r := PutWhole(a.sendOk);
    }

    /** Sends the cache file in one request. */
    method PutWhole(sendOk: bool) returns (r: Outcome)
      requires untreated.Valid() && 0 < max && file == content && |file| == |loaded| == |modified| == |up|
      requires OrderedUp(upload_list) && Aligned(upload_list, max, |content|) && StrictNum(upload_list) && (upload_list != [] ==> uploading) && InOrder()
      requires forall k :: 0 <= k < |upload_list| ==> |upload_list[k].data| == upload_list[k].size && upload_list[k].End() <= |content|
      modifies this`modified, this`remote, this`size_orgmeta, this`up, untreated
      ensures r == (if sendOk then Done else SendRefused) && untreated.untreated_list == []
      ensures r == Done ==> Valid() && remote == content && Patched(up, content, upload_list) && (up == content <==> AllCurrent(upload_list, content))
      ensures r != Done ==> remote == old(remote)
      ensures r == SendRefused && upload_list == [] ==> up == content && (Valid() <==> remote == content)
      ensures size_orgmeta == |content| && (r == Done ==> forall i :: 0 <= i < |modified| ==> !modified[i])
    {
      hide StreamInv, Reads, Patched, AllCurrent, Aligned, OrderedUp, StrictNum, Orderly;
      if sendOk { remote := file; }
      size_orgmeta := |file|;
      untreated.ClearAll();
      if sendOk {
        modified := Fill(|file|, false);
        PatchIsPatched(content, upload_list);
        up := Patch(content, upload_list);
        PatchedCurrent(up, content, upload_list);
        SmallOk();
        r := Done;
      } else {
        if upload_list == [] {
          up := content;
          if Sized(D(), content) { CleanOk(D(), content, max); } else { NotSized(); }
        }
        r := SendRefused;
      }
    }

    lemma NotSized()
      requires !Sized(D(), content) && |file| == |loaded| == |modified| == |content| == size_orgmeta
      ensures !Valid() && remote != content
    {
    }

    lemma PartsInOrder()
      requires Valid()
      ensures OrderedUp(upload_list) && Aligned(upload_list, max, |content|) && StrictNum(upload_list) && (upload_list != [] ==> uploading)
      ensures PartsOk(upload_list, untreated.untreated_list, up, max)
      ensures forall k :: 0 <= k < |upload_list| ==> |upload_list[k].data| == upload_list[k].size && upload_list[k].End() <= |content|
    {
    }

    lemma SmallOk()
      requires untreated.Valid() && untreated.untreated_list == [] && (upload_list != [] ==> uploading) && InOrder()
      requires 0 < max && Sized(D(), content) && remote == content && file == content
      requires Aligned(upload_list, max, |content|) && StrictNum(upload_list) && Patched(up, content, upload_list)
      ensures Valid()
    {
      forall i | 0 <= i < |content| ensures ByteSynced(D(), content, Dirty([], upload_list, i), i) {
      }
    }

    /** Plans the flush and downloads what the plan needs. The uploaded parts that meet written bytes
        leave the list before the downloads. */
    method PlanFlush(badLoad: int) returns (loadOk: bool, wait: bool, kept: seq<FilePart>, l: Lists, ghost job: Job, ghost plan: seq<Cell>)
      requires Valid() || Forgotten()
      modifies this`file, this`loaded
      ensures Readable() && (old(Valid()) ==> Valid())
      ensures job == Job(untreated.untreated_list, upload_list, max, |content|, useCopy)
      ensures PlanState(job, |content|, plan, l) && l.looked == |upload_list| && kept == l.kept == KeptOf(untreated.untreated_list, upload_list)
      ensures wait == SomeUploading(l.cancel) && (wait ==> upload_list != []) && l.cancel == CancelOf(untreated.untreated_list, upload_list)
      ensures loadOk ==> Downloaded(D(), content, l)
      ensures loadOk <==> !(0 <= badLoad < |l.download|)
    {
      hide StreamInv, Reads, PlanState, OnePerCell, Aligned, KeptOf, CancelOf, SomeUploading, Orderly, Edges;
      var ok;
      PlanInput();
      ReadSizes();
      var work := Job(untreated.untreated_list, upload_list, max, |file|, useCopy);
      job := work;
      AlignedOnePerCell(upload_list, max, |file|);
      ok, kept, l, wait, plan := ExtractUploadPartsFromAllArea(work);
      WaitsForSome(job, plan, l);
      DownloadsInside(job, plan, l);
      loadOk := true;
      var i := 0;
      while i < |l.download|
        invariant 0 <= i <= |l.download| && !(0 <= badLoad < i) && Readable() && (old(Valid()) ==> Valid()) && |file| == |content|
        invariant forall j :: 0 <= j < |file| && InMp(l.download[..i], j) ==> file[j] == content[j]
      {
        if i == badLoad { loadOk := false; return; }
        var part := l.download[i];
        Load(part.start, part.size);
        ReadSizes();
        forall j ensures InMp(l.download[..i + 1], j) <==> InMp(l.download[..i], j) || MpHas(part, j) {
          assert l.download[..i + 1] == l.download[..i] + [part];
          InMpConcat(l.download[..i], [part], j);
          InMpOne(part, j);
        }
        i := i + 1;
      }
      assert l.download[..i] == l.download;
    }

    lemma PlanInput()
      requires Valid() || Forgotten()
      ensures Readable() && Ordered(untreated.untreated_list)
      ensures OrderedUp(upload_list) && Aligned(upload_list, max, |file|)
    {
      if Valid() { ValidReadable(); }
    }

    lemma WaitsForSome(job: Job, plan: seq<Cell>, l: Lists)
      requires PlanState(job, job.fileSize, plan, l) && l.looked == |job.uploaded|
      ensures l.cancel == CancelOf(job.untreated, job.uploaded) && (SomeUploading(l.cancel) ==> job.uploaded != [])
    {
      assert job.uploaded[..l.looked] == job.uploaded;
    }

    lemma DownloadsInside(job: Job, plan: seq<Cell>, l: Lists)
      requires PlanState(job, job.fileSize, plan, l)
      ensures forall i :: InMp(l.download, i) ==> 0 <= i < job.fileSize
    {
    }

    /** What a flush assembles from parts: the content, except for uploaded parts that hold other bytes;
        with nothing written or uploaded a copy of the object, or the content if copying is off. */
    ghost function FlushImage(): seq<byte>
      reads this, untreated
    {
      if Valid() && |up| == |content| then Mix(content, up, KeptOf(untreated.untreated_list, upload_list))
      else if useCopy then remote
      else content
    }

    /** A cancelled part's byte that was not written since is in the object. */
    ghost predicate InObject(i: int)
      reads this
    {
      0 <= i < |content| && i < |remote| && remote[i] == content[i]
    }

    /** Larger files are completed from parts. A failed download or wait comes after the cancelled parts
        have left the list, which is harmless exactly if the object has their unwritten bytes. A refused
        upload forgets which bytes are not in the store. A flush that gets as far as the upload ends it:
        the parts are sent under the upload that is open, or else under a new one. */
    method FlushLarge(a: Answers) returns (r: Outcome, ghost l: Lists, ghost plan: seq<Cell>)
      requires (Valid() || Forgotten()) && max < |content|
      modifies this`file, this`loaded, this`modified, this`remote, this`upload_list, this`uploading, this`requests, this`up, untreated
      ensures a.badLoad < 0 && a.startOk && a.waitOk && a.sendOk && (old(Valid()) || !useCopy || |old(remote)| == |content|) ==> r == Done
      ensures r == Done ==> a.sendOk && remote == old(FlushImage())
      ensures r != Done ==> remote == old(remote)
      ensures r == Done || r == SendRefused ==> untreated.untreated_list == [] && upload_list == [] && up == content && (Valid() <==> remote == content)
      ensures r == SendRefused ==> Forgotten() && (a.sendOk ==> useCopy && !old(Valid()))
      ensures r == Done || r == SendRefused ==> !uploading && EndedWith(old(Begun(requests, uploading)), requests, r == Done, remote)
      ensures r == Done ==> forall i :: 0 <= i < |modified| ==> !modified[i]
      ensures PlanState(old(Job(untreated.untreated_list, upload_list, max, |content|, useCopy)), |content|, plan, l)
      ensures l.cancel == CancelOf(old(untreated.untreated_list), old(upload_list))
      ensures r == LoadFailed <==> 0 <= a.badLoad < |l.download|
      ensures r == StartRefused <==> r != LoadFailed && !old(uploading) && !a.startOk
      ensures r == WaitFailed <==> r != LoadFailed && old(uploading) && SomeUploading(l.cancel) && !a.waitOk
      ensures r == StartRefused || r == LoadFailed || r == WaitFailed ==>
        untreated.untreated_list == old(untreated.untreated_list) && requests == old(requests) && uploading == old(uploading) && InOrder()
      ensures r == StartRefused ==> upload_list == old(upload_list) && (old(Valid()) ==> Valid() && up == old(up))
      ensures r == LoadFailed || r == WaitFailed ==> upload_list == KeptOf(untreated.untreated_list, old(upload_list))
      ensures (r == LoadFailed || r == WaitFailed) && old(Valid()) ==>
        (Valid() <==>
         forall i :: InUp(old(upload_list), i) && !InUp(upload_list, i) && !Has(untreated.untreated_list, i) ==> InObject(i))
    {
      hide StreamInv, Reads, Ready, PlanState, KeptOf, CancelOf, Downloaded, Has, InUp, PartsOk, Aligned, OrderedUp, StrictNum, CopiesInside,
        Orderly, Begun, SomeUploading, EndedWith;
      var loadOk, wait, kept, lists;
      ghost var job, valid, image := Job([], [], 1, 0, false), Valid(), FlushImage();
      if Valid() { PartsInOrder(); ValidReadable(); }
      loadOk, wait, kept, lists, job, plan := PlanFlush(a.badLoad);
      l := lists;
      ReadSizes();
      KeptNone(untreated.untreated_list, upload_list);
      if !loadOk || (uploading && wait && !a.waitOk) {
        DropCancelled(kept, valid);
        return if loadOk then WaitFailed else LoadFailed, l, plan;
      }
      BegunOrderly(requests, uploading, upload_list);
      KeptMembers(untreated.untreated_list, upload_list);
      if !uploading {
        if !a.startOk { return StartRefused, l, plan; }
        NoneOpen(requests, upload_list);
        kept, uploading, requests := [], true, requests + [BeginUpload];
      }
      assert requests == old(Begun(requests, uploading)) by { BegunIs(old(requests), old(uploading)); }
      PlanReady(job, plan, l, image, valid);
      r := CompleteUpload(a.sendOk, kept, lists, job, plan, image);
    }

    /** The cancelled parts leave the list. */
    method DropCancelled(kept: seq<FilePart>, ghost valid: bool)
      requires Readable() && untreated.Valid() && kept == KeptOf(untreated.untreated_list, upload_list)
      requires if valid then Valid() && |up| == |content| else Forgotten()
      modifies this`upload_list, this`up
      ensures upload_list == kept && InOrder()
      ensures valid ==>
        (Valid() <==>
         forall i :: InUp(old(upload_list), i) && !InUp(upload_list, i) && !Has(untreated.untreated_list, i) ==> InObject(i))
    {
      hide StreamInv, Reads, KeptOf, Has, InUp, Orderly;
      KeptMembers(untreated.untreated_list, upload_list);
      KeptNone(untreated.untreated_list, upload_list);
      FewerOrderly(requests, uploading, upload_list, kept);
      ghost var uploaded := upload_list;
      upload_list := kept;
      if valid {
        KeptInv(D(), content, up, untreated.untreated_list, uploaded, max);
        up := Mix(content, up, kept);
      }
    }

    /** Uploads the parts and completes the upload; in every case the bookkeeping is forgotten. */
    method CompleteUpload(sendOk: bool, kept: seq<FilePart>, l: Lists, ghost job: Job, ghost plan: seq<Cell>, ghost image: seq<byte>) returns (r: Outcome)
      requires Readable() && untreated.Valid() && kept == l.kept && uploading && forall p :: p in kept ==> p in upload_list
      requires CopiesInside(l.toCopy, |remote|) ==> Ready(job, D(), image, plan, l) && |image| == |content|
      modifies this`remote, this`modified, this`upload_list, this`uploading, this`requests, this`up, untreated
      ensures r == if sendOk && CopiesInside(l.toCopy, |old(remote)|) then Done else SendRefused
      ensures remote == if r == Done then image else old(remote)
      ensures untreated.Valid() && untreated.untreated_list == [] && upload_list == [] && up == content && (Valid() <==> remote == content)
      ensures r == SendRefused ==> Forgotten()
      ensures !uploading && EndedWith(old(requests), requests, r == Done, remote)
      ensures r == Done ==> forall i :: 0 <= i < |modified| ==> !modified[i]
    {
      hide StreamInv, Ready, Orderly, Ended, EndedWith;
      LocalBytes(D(), content);
      ghost var sent, parts;
      r, sent, parts := SendAll(sendOk, kept, l, job, plan, image);
      requests := requests + Sends(sent) + [EndUpload(parts)];
      EndsWith(old(requests), requests, sent, parts, r == Done, remote);
      untreated.ClearAll();
      upload_list, uploading, up := [], false, content;
      CleanOk(D(), content, max);
    }

    /** Sends the parts and completes the object from them, unless the store refuses. */
    method SendAll(sendOk: bool, kept: seq<FilePart>, l: Lists, ghost job: Job, ghost plan: seq<Cell>, ghost image: seq<byte>)
      returns (r: Outcome, ghost sent: seq<FilePart>, ghost parts: seq<FilePart>)
      requires Readable() && kept == l.kept && uploading && forall p :: p in kept ==> p in upload_list
      requires CopiesInside(l.toCopy, |remote|) ==> Ready(job, D(), image, plan, l) && |image| == |content|
      modifies this`remote, this`modified
      ensures r == if sendOk && CopiesInside(l.toCopy, |old(remote)|) then Done else SendRefused
      ensures remote == (if r == Done then image else old(remote)) && (r == Done ==> remote == Concat(parts))
      ensures modified == if r == Done then Fill(|old(modified)|, false) else old(modified)
      ensures Orderly(requests + Sends(sent) + [EndUpload(parts)], false, [])
    {
      hide StreamInv, Ready, Orderly, Reads;
      sent, parts := [], [];
      if sendOk && CopiesInside(l.toCopy, |remote|) {
        var list;
        list, sent := SendParts(kept, l, file, remote, job, D(), image, plan);
        remote := Concat(list);
        modified := Fill(|modified|, false);
        parts := list;
        r := Done;
      } else {
        r := SendRefused;
      }
      SendsOrderly(requests, upload_list, sent);
      EndOrderly(requests + Sends(sent), upload_list + sent, parts);
    }

    /** The plan makes the image, if the store can copy what it says. */
    lemma PlanReady(job: Job, plan: seq<Cell>, l: Lists, image: seq<byte>, valid: bool)
      requires job == Job(untreated.untreated_list, upload_list, max, |content|, useCopy) && Downloaded(D(), content, l) && 0 < |content|
      requires PlanState(job, |content|, plan, l) && l.looked == |upload_list|
      requires if valid then Valid() && |up| == |content| && image == Mix(content, up, KeptOf(untreated.untreated_list, upload_list))
        else Forgotten() && image == if useCopy then remote else content
      ensures CopiesInside(l.toCopy, |remote|) ==> Ready(job, D(), image, plan, l) && |image| == |content|
      ensures valid || !useCopy || |remote| == |content| ==> CopiesInside(l.toCopy, |remote|)
    {
      hide StreamInv, PlanState, KeptOf, Ready, Downloaded;
      if valid {
        KeptIs(job, |content|, plan, l);
        InvShows(job, D(), content, up, plan, l);
        CopiesReach(job, D(), image, plan, l);
      } else if !useCopy || |remote| == |content| {
        CleanShows(job, D(), content, plan, l);
        CopiesReach(job, D(), image, plan, l);
      } else {
        ReadSizes();
        CopiesTooFar(job, |remote|, plan, l);
      }
    }

    /** Brings the object up to date. */
    method RowFlushStreamMultipart(a: Answers) returns (r: Outcome)
      requires Valid()
      modifies this`file, this`loaded, this`modified, this`remote, this`size_orgmeta, this`upload_list, this`uploading, this`requests, this`up, untreated
      ensures a.badLoad < 0 && a.startOk && a.waitOk && a.sendOk ==> r == Done
      ensures r == Done ==> untreated.untreated_list == [] && remote == if |content| <= max then content else old(FlushImage())
      ensures r == Done && old(up) == content ==> remote == content
      ensures r == Done && |content| <= max ==> Valid() && upload_list == old(upload_list) && Patched(up, content, upload_list)
      ensures r == Done && |content| <= max && old(up) == content && !SomeMeets(old(untreated.untreated_list), upload_list) ==> up == content
      ensures r == Done && max < |content| && remote == content ==> Valid() && up == content && upload_list == []
      ensures max < |content| && (r == Done || r == SendRefused) ==> !uploading && upload_list == []
      ensures r != Done ==> remote == old(remote)
    {
      hide StreamInv, KeptOf;
      ValidReadable();
      ReadSizes();
      MixSame();
      if |file| <= max {
        r := FlushSmall(a);
      } else {
        ghost var l, plan;
        r, l, plan := FlushLarge(a);
      }
    }

    /** While the uploaded parts hold the content, so does what a flush assembles. */
    lemma MixSame()
      requires Valid() && |up| == |content|
      ensures up == content ==> FlushImage() == content
    {
    }

    /** Below the part size nothing has been uploaded. */
    lemma UploadedNeedsOnePart()
      requires Valid()
      ensures upload_list != [] ==> max <= |content|
    {
      if upload_list != [] { assert upload_list[0].End() <= |content| && 0 <= upload_list[0].startpos; }
    }

    /** Whether an uploaded part meets a written area. */
    method AnyMeets() returns (some: bool)
      requires Valid()
      ensures some <==> SomeMeets(untreated.untreated_list, upload_list)
    {
      hide StreamInv, Meets;
      PartsInOrder();
      var list, k := untreated.untreated_list, 0;
      while k < |upload_list|
        invariant 0 <= k <= |upload_list|
        invariant forall m :: 0 <= m < k ==> !Meets(list, upload_list[m])
      {
        var p, j := upload_list[k], 0;
        while j < |list|
          invariant 0 <= j <= |list|
          invariant forall m :: 0 <= m < j ==> !Overlap(p, list[m])
        {
          if Overlap(p, list[j]) {
            OverlapMeets(p, list);
            return true;
          }
          j := j + 1;
        }
        OverlapMeets(p, list);
        k := k + 1;
      }
      some := false;
    }

    /** A whole session of writes and flushes that the store accepts keeps the file's content, and the
        object is the content after every flush; parts are sent only between the begin of an upload and
        its end. The session stops only before a flush at exactly one part size that would find an
        uploaded part written over. */
    method Session(ops: seq<FileOp>) returns (n: nat)
      requires Valid() && up == content
      modifies this, untreated
      ensures n <= |ops| && Valid() && up == content == Replay(old(content), ops[..n])
      ensures Orderly(requests, uploading, upload_list)
      ensures 0 < n && ops[n - 1].Flush? ==> remote == content
      ensures n < |ops| ==> ops[n].Flush? && |content| == max && SomeMeets(untreated.untreated_list, upload_list)
    {
      hide StreamInv, SomeMeets, Patched;
      n := 0;
      while n < |ops|
        invariant 0 <= n <= |ops| && Valid() && up == content == Replay(old(content), ops[..n])
        invariant 0 < n && ops[n - 1].Flush? ==> remote == content
      {
        assert ops[..n + 1][..n] == ops[..n];
        ValidReadable();
        ReadSizes();
        if ops[n].WriteAt? {
          var ok := Write(ops[n].bytes, ops[n].start, ops[n].startOk);
        } else {
          UploadedNeedsOnePart();
          var met := AnyMeets();
          NoneMeets();
          if |file| <= max && met { return; }
          var r := RowFlushStreamMultipart(ALL_WELL);
        }
        n := n + 1;
      }
    }

    lemma NoneMeets()
      ensures upload_list == [] ==> !SomeMeets(untreated.untreated_list, upload_list)
    {
    }

    // ---- what goes wrong at exactly one part size ----

    /** A flush of a file of one part size, a write at its end and another flush: where an uploaded part
        was written over, the object gets the part's old bytes; so it is the content exactly if every
        uploaded part held the content at the first flush, overwritten bytes included. */
    method FlushGrowFlush(bytes: seq<byte>, start: nat) returns (ghost patched: seq<byte>)
      requires Valid() && |content| == max <= start && bytes != []
      modifies this, untreated
      ensures content == Overlaid(old(content), start, bytes)
      ensures Patched(patched, old(content), old(upload_list)) && remote == Overlaid(patched, start, bytes)
      ensures remote == content <==> AllCurrent(old(upload_list), old(content))
    {
      hide StreamInv, AllCurrent, KeptOf, InUp, Patched;
      var r := FlushSmall(ALL_WELL);
      patched := up;
      ghost var content0, uploaded := content, upload_list;
      ValidReadable();
      UpOutside();
      NothingLeft();
      var ok := Write(bytes, start, true);
      ValidReadable();
      StillKept(content0, patched, start, bytes);
      r := RowFlushStreamMultipart(ALL_WELL);
      OverlaidSame(content0, patched, start, bytes);
    }

    lemma NothingLeft()
      requires untreated.untreated_list == []
      ensures forall i :: !Has(untreated.untreated_list, i)
    {
    }

    lemma UpOutside()
      requires Valid() && |up| == |content|
      ensures forall i :: 0 <= i < |content| && !InUp(upload_list, i) ==> up[i] == content[i]
    {
    }

    lemma StillKept(content0: seq<byte>, up0: seq<byte>, start: nat, bytes: seq<byte>)
      requires Valid() && |up| == |content| && |content0| == |up0| == max <= start
      requires content == Overlaid(content0, start, bytes) && up == Overlaid(up0, start, bytes)
      requires forall i :: 0 <= i < max && up0[i] != content0[i] ==> InUp(upload_list, i)
      requires forall i :: Has(untreated.untreated_list, i) ==> max <= i
      ensures FlushImage() == up
    {
      hide StreamInv, KeptOf, Has, InUp;
      PartsInOrder();
      var kept := KeptOf(untreated.untreated_list, upload_list);
      forall i | 0 <= i < |content| ensures Mix(content, up, kept)[i] == up[i] {
        if up[i] != content[i] {
          assert i < max && up0[i] != content0[i];
          UnmetInKept(upload_list, untreated.untreated_list, max, |content|, i);
        }
      }
    }

    /** The next flush after a refused upload: without copying it repairs the object, with copying it
        leaves the old one. */
    method RetryAfterRefusal() returns (r: Outcome)
      requires Forgotten() && max < |content|
      modifies this, untreated
      ensures content == old(content)
      ensures !useCopy ==> r == Done && remote == content && Valid()
      ensures useCopy ==> remote == old(remote) && (|remote| == |content| ==> r == Done)
    {
      hide StreamInv, KeptOf;
      ForgottenImage();
      ghost var l, plan;
      r, l, plan := FlushLarge(ALL_WELL);
    }

    lemma ForgottenImage()
      requires Forgotten()
      ensures FlushImage() == if useCopy then remote else content
    {
      if Valid() && |up| == |content| {
        assert KeptOf([], []) == [] && Mix(content, up, []) == content;
        forall i | 0 <= i < |content| ensures i < |remote| && remote[i] == content[i] {
          assert ByteSynced(D(), content, Dirty([], [], i), i);
        }
        if content != [] { assert ByteSynced(D(), content, Dirty([], [], |content| - 1), |content| - 1); }
        assert remote == content;
      }
    }
  }

  lemma OverlaidSame(a: seq<byte>, b: seq<byte>, start: nat, bytes: seq<byte>)
    requires |a| == |b| <= start
    ensures Overlaid(a, start, bytes) == Overlaid(b, start, bytes) <==> a == b
  {
    var x, y := Overlaid(a, start, bytes), Overlaid(b, start, bytes);
    assert x[..|a|] == a && y[..|b|] == b;
  }

  /** An uploaded byte before all written ones, in the first cell, belongs to a kept part. */
  lemma UnmetInKept(uploaded: seq<FilePart>, untreated: seq<Part>, max: int, fileSize: int, i: int)
    requires 0 < max && Aligned(uploaded, max, fileSize) && InUp(uploaded, i) && 0 <= i < max
    requires forall j :: Has(untreated, j) ==> max <= j
    ensures InUp(KeptOf(untreated, uploaded), i)
  {
    hide Has, KeptOf;
    var k :| 0 <= k < |uploaded| && UpHas(uploaded[k], i);
    MulMono(1, uploaded[k].partNum - 1, max);
    MulMono(0, uploaded[k].partNum - 1, max);
    assert uploaded[k].startpos == 0;
    assert !Meets(untreated, uploaded[k]);
    KeptHas(untreated, uploaded, k);
    InUpMember(KeptOf(untreated, uploaded), uploaded[k], i);
  }

  lemma {:induction false} KeptHas(untreated: seq<Part>, uploaded: seq<FilePart>, k: int)
    requires 0 <= k < |uploaded| && !Meets(untreated, uploaded[k])
    ensures uploaded[k] in KeptOf(untreated, uploaded)
  {
    hide Meets;
    if k < |uploaded| - 1 {
      KeptHas(untreated, uploaded[..|uploaded| - 1], k);
    }
  }

  // ---- two runs in which a flush stores something else ----

  /** With part size 2, [1, 1] is written and uploaded; a byte written over it is flushed with a plain
      put, which forgets the write but not the part; when the file has grown by one byte, the next flush
      assembles the object from the old part. */
  method StalePartSurvives() returns (stored: seq<byte>, ghost content: seq<byte>)
    ensures content == [2, 1, 3] && stored == [1, 1, 3]
  {
    hide StreamInv, KeptOf, Has, InUp, CellWritten, Patched, AllCurrent;
    var f := new FdEntity([], 0, 2, false);
    var ok := f.Write([1, 1], 0, true);
    assert f.content == [1, 1] && f.up == [1, 1];
    ghost var uploaded, list := f.upload_list, f.untreated.untreated_list;
    assert 0 <= 0 * f.max && (0 + 1) * f.max <= 0 + 2;
    assert f.CellUploaded(0);
    FirstCell(f);
    NoCell(list);
    ok := f.Write([2], 0, true);
    assert f.content == [2, 1];
    ghost var patched := f.FlushGrowFlush([3], 2);
    PatchedTwo(patched, uploaded);
    assert f.content == [2, 1, 3] && f.remote == [1, 1, 3];
    stored, content := f.remote, f.content;
  }

  ghost predicate HoldsOnes(uploaded: seq<FilePart>) {
    exists k :: 0 <= k < |uploaded| && uploaded[k].startpos == 0 && uploaded[k].size == 2 && uploaded[k].data == [1, 1]
  }

  lemma FirstCell(f: FdEntity)
    requires f.Valid() && f.content == f.up == [1, 1] && f.max == 2 && f.CellUploaded(0)
    requires forall i :: Has(f.untreated.untreated_list, i) ==> 0 <= i < 2
    ensures HoldsOnes(f.upload_list) && forall i :: !Has(f.untreated.untreated_list, i)
  {
    hide Has;
    assert 0 * f.max <= 0 < (0 + 1) * f.max && 0 * f.max <= 1 < (0 + 1) * f.max;
    assert InUp(f.upload_list, 0) && !Has(f.untreated.untreated_list, 0) && !Has(f.untreated.untreated_list, 1);
    var k :| 0 <= k < |f.upload_list| && UpHas(f.upload_list[k], 0);
    var p := f.upload_list[k];
    assert PartOk(p, f.untreated.untreated_list, f.up);
    assert p.startpos == 0 && p.size == 2;
    assert UpHas(p, 0) && UpHas(p, 1) && p.data[0 - p.startpos] == 1 && p.data[1 - p.startpos] == 1;
    assert p.data == [1, 1];
  }

  lemma NoCell(list: seq<Part>)
    requires forall i :: !Has(list, i)
    ensures forall c :: !CellWritten(list, 2, 0, 1, c, 2)
  {
    forall c ensures !CellWritten(list, 2, 0, 1, c, 2) {
      assert !Writes(2, 0, 1, c * 2 + 1) && c * 2 <= c * 2 + 1 < (c + 1) * 2;
    }
  }

  lemma PatchedTwo(patched: seq<byte>, uploaded: seq<FilePart>)
    requires Patched(patched, [2, 1], uploaded) && HoldsOnes(uploaded)
    ensures patched == [1, 1]
  {
    var k :| 0 <= k < |uploaded| && uploaded[k].startpos == 0 && uploaded[k].size == 2 && uploaded[k].data == [1, 1];
    var p := uploaded[k];
    assert PartOk(p, [], patched);
    assert UpHas(p, 0) && UpHas(p, 1) && !Has([], 0) && !Has([], 1);
    assert p.data[0 - p.startpos] == patched[0] && p.data[1 - p.startpos] == patched[1];
  }

  /** With copying allowed, [7, 8] is written over an object [1, 2]; the upload is refused, and the next
      flush, which succeeds, copies the old object. */
  method RefusedUploadLost() returns (refused: Outcome, retried: Outcome, stored: seq<byte>, ghost content: seq<byte>)
    ensures refused == SendRefused && retried == Done && content == [7, 8] && stored == [1, 2]
  {
    hide StreamInv, KeptOf, Has, InUp, CellWritten;
    var f := new FdEntity([1, 2], 2, 1, true);
    var ok := f.Write([7, 8], 0, true);
    assert f.content == [7, 8];
    ghost var l, plan;
    refused, l, plan := f.FlushLarge(Answers(-1, true, true, false));
    retried := f.RetryAfterRefusal();
    stored, content := f.remote, f.content;
  }

  lemma HasPart(list: seq<Part>, k: int, i: int)
    requires 0 <= k < |list| && PartHas(list[k], i)
    ensures Has(list, i)
  {
  }

  /** Only one part carries the last tag. */
  lemma OneLast(list: seq<Part>, tag: int, k: int)
    requires TagsOk(list, tag) && 0 <= k < |list| && list[k].tag == tag
    ensures forall j :: 0 <= j < |list| && list[j].tag == tag ==> j == k
  {
  }
}
