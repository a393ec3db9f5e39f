/** The list of parts handed to upload workers: insertion, launching, and the parts that replace
    older ones when a run of whole cells has been written. */
module StreamParts {
  import opened Multiples
  import opened PlanTypes

  ghost predicate InOrder(list: seq<FilePart>) {
    forall j, k :: 0 <= j < k < |list| ==> list[j].partNum <= list[k].partNum
  }

  /** Ascending part numbers, each used once. */
  ghost predicate StrictNum(list: seq<FilePart>) {
    forall j, k :: 0 <= j < k < |list| ==> list[j].partNum < list[k].partNum
  }

  /** `list` with `p` put in at `k`. */
  function With(list: seq<FilePart>, k: nat, p: FilePart): seq<FilePart>
    requires k <= |list|
  {
    list[..k] + [p] + list[k..]
  }

  lemma ShiftBack(list: seq<FilePart>, k: nat, p: FilePart)
    requires 0 < k <= |list|
    ensures var out := With(list, k, p);
      && out[k] == p && out[k - 1] == list[k - 1]
      && out[k - 1 := p][k := list[k - 1]] == With(list, k - 1, p)
  {
    var out, moved := With(list, k, p)[k - 1 := p][k := list[k - 1]], With(list, k - 1, p);
    assert |out| == |moved| && forall i :: 0 <= i < |out| ==> out[i] == moved[i];
  }

  lemma InsertedInOrder(list: seq<FilePart>, k: nat, p: FilePart)
    requires InOrder(list) && k <= |list|
    requires k > 0 ==> list[k - 1].partNum <= p.partNum
    requires k < |list| ==> p.partNum <= list[k].partNum
    ensures InOrder(With(list, k, p))
  {
  }

  /** Appends a part and sorts the list by part number again. */
  method InsertUploadPart(list: seq<FilePart>, uploading: bool, start: int, size: int, part_num: int, is_copy: bool, data: seq<byte>)
    returns (ok: bool, out: seq<FilePart>, ghost pos: int)
    requires InOrder(list)
    ensures ok <==> uploading && 0 <= start && 0 < size && 0 <= part_num
    ensures !ok ==> out == list
    ensures ok ==> InOrder(out) && 0 <= pos <= |list|
    ensures ok ==> out == With(list, pos, FilePart(start, size, part_num, is_copy, false, data))
  {
    pos := 0;
    if !uploading { return false, list, pos; }
    if start < 0 || size <= 0 || part_num < 0 { return false, list, pos; }
    var p := FilePart(start, size, part_num, is_copy, false, data);
    out := list + [p];
    var k := |list|;
    assert out == With(list, k, p);
    hide InOrder, With;
    while k > 0 && out[k - 1].partNum > out[k].partNum
      invariant 0 <= k <= |list| && |out| == |list| + 1 && out == With(list, k, p)
      invariant k < |list| ==> p.partNum < list[k].partNum
    {
      ShiftBack(list, k, p);
      out := out[k - 1 := out[k]][k := out[k - 1]];
      k := k - 1;
    }
    if k > 0 { ShiftBack(list, k, p); }
    InsertedInOrder(list, k, p);
    ok, pos := true, k;
  }

  /** The upload part made from a planned one; `source` is the local file, or the remote object for
      a server-side copy. */
  function Launched(m: MpPart, is_copy: bool, source: seq<byte>): FilePart
    requires 0 <= m.start <= m.End() <= |source|
  {
    FilePart(m.start, m.size, m.partNum, is_copy, false, source[m.start..m.End()])
  }

  ghost predicate Launchable(mplist: seq<MpPart>, source: seq<byte>) {
    forall k :: 0 <= k < |mplist| ==> 0 <= mplist[k].start && 0 < mplist[k].size && mplist[k].End() <= |source| && 0 <= mplist[k].partNum
  }

  ghost predicate LaunchedIn(p: FilePart, mplist: seq<MpPart>, is_copy: bool, source: seq<byte>)
    requires Launchable(mplist, source)
  {
    exists k :: 0 <= k < |mplist| && p == Launched(mplist[k], is_copy, source)
  }

  /** Planned parts with ascending numbers that are not in use yet. */
  ghost predicate NewNums(mplist: seq<MpPart>, list: seq<FilePart>) {
    && (forall j, k :: 0 <= j < k < |mplist| ==> mplist[j].partNum < mplist[k].partNum)
    && (forall j, k :: 0 <= j < |mplist| && 0 <= k < |list| ==> mplist[j].partNum != list[k].partNum)
  }

  lemma InsertedIn(list: seq<FilePart>, pos: int, p: FilePart, out: seq<FilePart>)
    requires 0 <= pos <= |list| && out == With(list, pos, p)
    ensures forall q :: q in out <==> q in list || q == p
  {
    assert list == list[..pos] + list[pos..];
    assert out[pos] == p;
  }

  lemma StaysStrict(list: seq<FilePart>, pos: int, p: FilePart, out: seq<FilePart>)
    requires StrictNum(list) && 0 <= pos <= |list| && out == With(list, pos, p) && InOrder(out)
    requires forall k :: 0 <= k < |list| ==> list[k].partNum != p.partNum
    ensures StrictNum(out)
  {
    forall j, k | 0 <= j < k < |out| ensures out[j].partNum < out[k].partNum {
      assert out[pos] == p;
      assert j != pos ==> out[j] == list[if j < pos then j else j - 1];
      assert k != pos ==> out[k] == list[if k < pos then k else k - 1];
    }
  }

  /** Inserts and launches every planned part, keeping the list in part-number order. */
  method ParallelMultipartUpload(list0: seq<FilePart>, uploading: bool, mplist: seq<MpPart>, is_copy: bool, source: seq<byte>)
    returns (ok: bool, list: seq<FilePart>, ghost sent: seq<FilePart>)
    requires StrictNum(list0) && Launchable(mplist, source) && NewNums(mplist, list0)
    ensures ok <==> mplist == [] || uploading
    ensures |sent| == (if ok then |mplist| else 0) && forall k :: 0 <= k < |sent| ==> sent[k] == Launched(mplist[k], is_copy, source)
    ensures ok ==> StrictNum(list)
    ensures ok ==> forall p :: p in list <==> p in list0 || LaunchedIn(p, mplist, is_copy, source)
  {
    list, sent := list0, [];
    if mplist == [] { return true, list, sent; }
    var i := 0;
    while i < |mplist|
      invariant 0 <= i <= |mplist| && StrictNum(list) && (0 < i ==> uploading)
      invariant |sent| == i && forall k :: 0 <= k < i ==> sent[k] == Launched(mplist[k], is_copy, source)
      invariant Launchable(mplist[..i], source)
      invariant forall p :: p in list <==> p in list0 || LaunchedIn(p, mplist[..i], is_copy, source)
    {
      var m := mplist[i];
      ghost var before := list;
      ghost var pos;
      NotInUse(list0, list, mplist, i, is_copy, source);
      ok, list, pos := InsertUploadPart(list, uploading, m.start, m.size, m.partNum, is_copy, source[m.start..m.End()]);
      if !ok { return; }
      sent := sent + [Launched(m, is_copy, source)];
      StaysStrict(before, pos, Launched(m, is_copy, source), list);
      InsertedIn(before, pos, Launched(m, is_copy, source), list);
      forall p ensures LaunchedIn(p, mplist[..i + 1], is_copy, source) <==>
        LaunchedIn(p, mplist[..i], is_copy, source) || p == Launched(m, is_copy, source)
      {
        LaunchedNext(p, mplist, i, is_copy, source);
      }
      i := i + 1;
    }
    assert mplist[..i] == mplist;
    ok := true;
  }

  lemma NotInUse(list0: seq<FilePart>, list: seq<FilePart>, mplist: seq<MpPart>, i: int, is_copy: bool, source: seq<byte>)
    requires Launchable(mplist, source) && NewNums(mplist, list0) && 0 <= i < |mplist| && Launchable(mplist[..i], source)
    requires forall p :: p in list <==> p in list0 || LaunchedIn(p, mplist[..i], is_copy, source)
    ensures forall k :: 0 <= k < |list| ==> list[k].partNum != mplist[i].partNum
  {
    forall k | 0 <= k < |list| ensures list[k].partNum != mplist[i].partNum {
      assert list[k] in list;
    }
  }

  lemma LaunchedNext(p: FilePart, mplist: seq<MpPart>, i: int, is_copy: bool, source: seq<byte>)
    requires Launchable(mplist, source) && 0 <= i < |mplist|
    ensures Launchable(mplist[..i], source) && Launchable(mplist[..i + 1], source)
    ensures LaunchedIn(p, mplist[..i + 1], is_copy, source) <==>
      LaunchedIn(p, mplist[..i], is_copy, source) || p == Launched(mplist[i], is_copy, source)
  {
    var a, b := mplist[..i], mplist[..i + 1];
    assert b[i] == mplist[i] && forall k :: 0 <= k < i ==> a[k] == b[k];
  }

  // ---- whole cells of the last written area ----

  /** n whole parts from cell c on. */
  ghost predicate CellParts(mplist: seq<MpPart>, c: int, n: int, max: int) {
    && |mplist| == n
    && forall k :: 0 <= k < n ==> mplist[k] == MpPart((c + k) * max, max, c + k + 1)
  }

  /** The uploaded parts lo..hi are those inside [from, to), the others lie outside. */
  ghost predicate Overlapped(list: seq<FilePart>, lo: int, hi: int, from: int, to: int) {
    && 0 <= lo <= hi <= |list|
    && (forall k :: 0 <= k < lo ==> list[k].End() <= from)
    && (forall k :: lo <= k < hi ==> from <= list[k].startpos && list[k].End() <= to)
    && (forall k :: hi <= k < |list| ==> to <= list[k].startpos)
  }

  lemma StartsAfter(p: FilePart, c: int, max: int)
    requires 0 < max && p.startpos == (p.partNum - 1) * max && p.size == max
    ensures c * max < p.End() ==> c * max <= p.startpos
    ensures p.startpos < c * max ==> p.End() <= c * max
  {
    MulMono(p.partNum - 1, c, max);
    MulMono(c, p.partNum - 1, max);
    MulMono(c, p.partNum, max);
  }

  /** The parts to upload for an untreated area: the whole cells from the one it begins in. Uploaded
      parts it meets are taken out of the list; the last of them may extend the area to its end. An
      area that does not fill a cell changes nothing. */
  method ExtractUploadPartsFromUntreatedArea(untreated_start: int, untreated_size: int, upload_list0: seq<FilePart>, max: int, ghost fileSize: int)
    returns (ok: bool, upload_list: seq<FilePart>, to_upload: seq<MpPart>, cancel: seq<FilePart>, ghost lo: int, ghost hi: int)
    requires 0 < max && Aligned(upload_list0, max, fileSize)
    ensures ok <==> 0 <= untreated_start && 0 < untreated_size
    ensures 0 <= lo <= hi <= |upload_list0| && cancel == upload_list0[lo..hi]
    ensures upload_list == upload_list0[..lo] + upload_list0[hi..]
    ensures ok ==> CellParts(to_upload, untreated_start / max, |to_upload|, max)
    ensures var c, end := untreated_start / max, untreated_start + untreated_size;
      ok && end < (c + 1) * max ==> to_upload == [] && lo == hi
    ensures var c, end := untreated_start / max, untreated_start + untreated_size;
      ok && (c + 1) * max <= end ==> Overlapped(upload_list0, lo, hi, c * max, (c + |to_upload|) * max)
    ensures var c, end := untreated_start / max, untreated_start + untreated_size;
      ok && (c + 1) * max <= end ==>
        if lo < hi && end < upload_list0[hi - 1].End() then (c + |to_upload|) * max == upload_list0[hi - 1].End() && upload_list0[hi - 1].startpos < end
        else (c + |to_upload|) * max <= end < (c + |to_upload| + 1) * max
  {
    upload_list, to_upload, cancel, lo, hi := upload_list0, [], [], 0, 0;
    if untreated_start < 0 || untreated_size <= 0 { return false, upload_list, to_upload, cancel, lo, hi; }
    ok := true;
    var aligned_start := (untreated_start / max) * max;
    ghost var c, end := untreated_start / max, untreated_start + untreated_size;
    var aligned_size := untreated_size + (untreated_start - aligned_start);
    MulMono(c, c + 1, max);
    if aligned_size < max { return; }
    forall k | 0 <= k < |upload_list0| ensures upload_list0[k].End() <= aligned_start || aligned_start <= upload_list0[k].startpos {
      StartsAfter(upload_list0[k], c, max);
    }
    upload_list, cancel, aligned_size, lo, hi := TakeOverlapped(upload_list0, aligned_start, aligned_size);
    ghost var fin := aligned_start + aligned_size;
    ghost var n := 0;
    while max <= aligned_size
      invariant 0 <= n && aligned_start == (c + n) * max && 0 <= aligned_size && aligned_start + aligned_size == fin
      invariant CellParts(to_upload, c, n, max)
      decreases aligned_size
    {
      MulMono(c + n, c + n + 1, max);
      CellIndex(aligned_start, c + n, max);
      var part_num := aligned_start / max + 1;
      to_upload := to_upload + [MpPart(aligned_start, max, part_num)];
      aligned_start, aligned_size := aligned_start + max, aligned_size - max;
      n := n + 1;
    }
    MulMono(c + n, c + n + 1, max);
    forall k | 0 <= k < hi ensures k >= lo ==> upload_list0[k].End() <= (c + n) * max {
      MulMono(c + n, upload_list0[k].partNum, max);
      MulMono(upload_list0[k].partNum - 1, upload_list0[k].partNum, max);
      MulMono(c + n + 1, upload_list0[k].partNum, max);
    }
  }

  /** How far the search has come: the parts lo..hi were taken out, `o` is the next to look at, and
      the area reaches to `to` instead of `end`. */
  ghost predicate Taking(list: seq<FilePart>, lo: int, hi: int, o: int, from: int, end: int, to: int) {
    && 0 <= lo <= hi <= o <= |list|
    && (forall k :: 0 <= k < lo ==> list[k].End() <= from)
    && (forall k :: lo <= k < hi ==> from <= list[k].startpos && list[k].End() <= to)
    && (hi < o ==> to <= list[hi].startpos)
    && (if lo < hi && end < list[hi - 1].End() then to == list[hi - 1].End() && list[hi - 1].startpos < end else to == end)
  }

  /** The list without the parts lo..hi, and those parts. */
  ghost predicate Parted(list: seq<FilePart>, lo: int, hi: int, rest: seq<FilePart>, cancel: seq<FilePart>) {
    0 <= lo <= hi <= |list| && rest == list[..lo] + list[hi..] && cancel == list[lo..hi]
  }

  lemma PartedSkip(list: seq<FilePart>, k: int, o: int, rest: seq<FilePart>, cancel: seq<FilePart>)
    requires 0 <= k <= |list| && 0 <= o <= |list|
    ensures Parted(list, k, k, rest, cancel) ==> Parted(list, o, o, rest, cancel)
  {
  }

  lemma PartedNext(list: seq<FilePart>, lo: int, hi: int, o: int, rest: seq<FilePart>, cancel: seq<FilePart>)
    requires Parted(list, lo, hi, rest, cancel)
    ensures 0 <= lo <= hi <= |list| && |rest| == |list| - hi + lo
    ensures hi <= o < |list| ==> rest[o - hi + lo] == list[o]
    ensures hi < |list| ==> Parted(list, lo, hi + 1, rest[..lo] + rest[lo + 1..], cancel + [list[hi]])
  {
  }

  /** No part straddles the boundary. */
  ghost predicate Boundary(list: seq<FilePart>, from: int) {
    forall k :: 0 <= k < |list| ==> list[k].End() <= from || from <= list[k].startpos
  }

  lemma TakingNext(list: seq<FilePart>, lo: int, hi: int, o: int, from: int, end: int, to: int)
    requires OrderedUp(list) && Boundary(list, from) && Taking(list, lo, hi, o, from, end, to) && o < |list| && from < end
    ensures hi <= o
    ensures list[o].End() <= from ==> lo == hi == o && Taking(list, o + 1, o + 1, o + 1, from, end, to)
    ensures from < list[o].End() && to <= list[o].startpos ==> Taking(list, lo, hi, o + 1, from, end, to)
    ensures from < list[o].End() && list[o].startpos < to ==>
      hi == o && Taking(list, lo, hi + 1, o + 1, from, end, if to < list[o].End() then list[o].End() else to)
  {
    if lo < hi { assert list[hi - 1].End() <= list[o].startpos; }
    if hi < o { assert list[hi].End() <= list[o].startpos; }
  }

  /** State of the search through the uploaded parts `u`, `upload_list` being what is left of them. */
  ghost predicate Searched(u: seq<FilePart>, lo: int, hi: int, o: int, from: int, end: int, upload_list: seq<FilePart>, cancel: seq<FilePart>, cur: int, to: int) {
    && Taking(u, lo, hi, o, from, end, to) && Parted(u, lo, hi, upload_list, cancel) && cur == o - hi + lo
  }

  lemma SearchStart(u: seq<FilePart>, from: int, end: int)
    ensures Searched(u, 0, 0, 0, from, end, u, [], 0, end)
  {
  }

  lemma SearchDone(u: seq<FilePart>, lo: int, hi: int, o: int, from: int, end: int, upload_list: seq<FilePart>, cancel: seq<FilePart>, cur: int, to: int)
    requires Searched(u, lo, hi, o, from, end, upload_list, cancel, cur, to) && OrderedUp(u) && cur >= |upload_list|
    ensures Overlapped(u, lo, hi, from, to) && Parted(u, lo, hi, upload_list, cancel)
    ensures if lo < hi && end < u[hi - 1].End() then to == u[hi - 1].End() && u[hi - 1].startpos < end else to == end
  {
    forall k | hi <= k < |u| ensures to <= u[k].startpos {
      if hi < k { assert u[hi].End() <= u[k].startpos; }
    }
  }

  /** One step of the loop over the uploaded parts: an overlapping one is erased. */
  method TakeNext(ghost u: seq<FilePart>, ghost lo0: int, ghost hi0: int, ghost o: int, ghost end: int,
                  upload_list0: seq<FilePart>, cancel0: seq<FilePart>, cur0: int, aligned_start: int, size0: int)
    returns (upload_list: seq<FilePart>, cancel: seq<FilePart>, cur: int, aligned_size: int, ghost lo: int, ghost hi: int)
    requires OrderedUp(u) && Boundary(u, aligned_start) && aligned_start < end && 0 <= cur0 < |upload_list0|
    requires Searched(u, lo0, hi0, o, aligned_start, end, upload_list0, cancel0, cur0, aligned_start + size0)
    ensures 0 <= cur && o < |u| && Searched(u, lo, hi, o + 1, aligned_start, end, upload_list, cancel, cur, aligned_start + aligned_size)
  {
    hide Taking, Parted, OrderedUp, Boundary;
    upload_list, cancel, cur, aligned_size, lo, hi := upload_list0, cancel0, cur0, size0, lo0, hi0;
    PartedNext(u, lo0, hi0, o, upload_list0, cancel0);
    TakingNext(u, lo0, hi0, o, aligned_start, end, aligned_start + size0);
    var p := upload_list[cur];
    assert p == u[o];
    if p.startpos + p.size - 1 < aligned_start || aligned_start + aligned_size - 1 < p.startpos {
      if p.End() <= aligned_start {
        PartedSkip(u, lo0, o + 1, upload_list, cancel);
        lo, hi := o + 1, o + 1;
      }
      cur := cur + 1;
    } else {
      if aligned_start + aligned_size - 1 < p.startpos + p.size - 1 {
        aligned_size := aligned_size + (p.startpos + p.size - (aligned_start + aligned_size));
      }
      assert cur == lo && o == hi;
      cancel := cancel + [p];
      upload_list := upload_list[..cur] + upload_list[cur + 1..];
      hi := hi + 1;
    }
  }

  /** The loop over the uploaded parts. */
  method TakeOverlapped(upload_list0: seq<FilePart>, aligned_start: int, size0: int)
    returns (upload_list: seq<FilePart>, cancel: seq<FilePart>, aligned_size: int, ghost lo: int, ghost hi: int)
    requires 0 < size0 && OrderedUp(upload_list0) && Boundary(upload_list0, aligned_start)
    ensures Overlapped(upload_list0, lo, hi, aligned_start, aligned_start + aligned_size)
    ensures Parted(upload_list0, lo, hi, upload_list, cancel)
    ensures if lo < hi && aligned_start + size0 < upload_list0[hi - 1].End()
      then aligned_start + aligned_size == upload_list0[hi - 1].End() && upload_list0[hi - 1].startpos < aligned_start + size0
      else aligned_size == size0
  {
    hide Searched, OrderedUp, Boundary;
    upload_list, cancel, aligned_size, lo, hi := upload_list0, [], size0, 0, 0;
    var cur := 0;
    ghost var o := 0;
    SearchStart(upload_list0, aligned_start, aligned_start + size0);
    while cur < |upload_list|
      invariant 0 <= cur && Searched(upload_list0, lo, hi, o, aligned_start, aligned_start + size0, upload_list, cancel, cur, aligned_start + aligned_size)
      decreases |upload_list0| - o
    {
      upload_list, cancel, cur, aligned_size, lo, hi :=
        TakeNext(upload_list0, lo, hi, o, aligned_start + size0, upload_list, cancel, cur, aligned_start, aligned_size);
      o := o + 1;
    }
    SearchDone(upload_list0, lo, hi, o, aligned_start, aligned_start + size0, upload_list, cancel, cur, aligned_start + aligned_size);
  }
}
