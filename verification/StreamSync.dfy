/** How the cache file, the remote object and the uploaded parts together hold a file's content. */
module StreamSync {
  import opened Multiples
  import opened PlanTypes
  import opened StreamParts
  import opened Untreated

  /** The cache file, which of its bytes are loaded or modified, the object in the store, and how
      much of that object may still have to be downloaded. */
  datatype Disk = Disk(file: seq<byte>, loaded: seq<bool>, modified: seq<bool>, remote: seq<byte>, sizeOrg: int)

  ghost predicate Sized(d: Disk, content: seq<byte>) {
    |d.file| == |d.loaded| == |d.modified| == |content| && 0 <= d.sizeOrg <= |d.remote| <= |content|
  }

  /** Where byte `i` of the content can be found. */
  ghost predicate ByteSynced(d: Disk, content: seq<byte>, dirty: bool, i: int)
    requires Sized(d, content) && 0 <= i < |content|
  {
    && (dirty || d.loaded[i] || d.modified[i] || d.sizeOrg <= i ==> d.file[i] == content[i])
    && (!dirty ==> i < |d.remote| && d.remote[i] == content[i])
    && (!d.loaded[i] && i < d.sizeOrg ==> d.remote[i] == content[i])
  }

  ghost predicate Synced(d: Disk, content: seq<byte>, untreated: seq<Part>, uploaded: seq<FilePart>) {
    && Sized(d, content)
    && forall i :: 0 <= i < |content| ==> ByteSynced(d, content, Dirty(untreated, uploaded, i), i)
  }

  /** An uploaded part holds the bytes of `up` wherever it has not been written since. */
  ghost predicate PartOk(p: FilePart, untreated: seq<Part>, up: seq<byte>) {
    && |p.data| == p.size && 0 <= p.startpos && p.End() <= |up|
    && forall i :: UpHas(p, i) && !Has(untreated, i) ==> p.data[i - p.startpos] == up[i]
  }

  ghost predicate PartsOk(uploaded: seq<FilePart>, untreated: seq<Part>, up: seq<byte>, max: int) {
    && Aligned(uploaded, max, |up|) && StrictNum(uploaded)
    && forall k :: 0 <= k < |uploaded| ==> PartOk(uploaded[k], untreated, up)
  }

  /** The file as the uploaded parts have it differs from the content at most in uploaded bytes that
      do not count as written. */
  ghost predicate Agrees(content: seq<byte>, up: seq<byte>, untreated: seq<Part>, uploaded: seq<FilePart>) {
    |up| == |content| && forall i :: 0 <= i < |content| && (Has(untreated, i) || !InUp(uploaded, i)) ==> up[i] == content[i]
  }

  ghost predicate InFile(untreated: seq<Part>, n: int) {
    forall i :: Has(untreated, i) ==> 0 <= i < n
  }

  /** `content` is the file as its reader sees it, `up` the file as the uploaded parts have it. */
  ghost predicate StreamInv(d: Disk, content: seq<byte>, up: seq<byte>, untreated: seq<Part>, uploaded: seq<FilePart>, max: int) {
    && 0 < max && Synced(d, content, untreated, uploaded) && Agrees(content, up, untreated, uploaded)
    && PartsOk(uploaded, untreated, up, max) && InFile(untreated, |content|)
  }

  function Fill<T>(n: nat, v: T): (s: seq<T>)
    ensures |s| == n && forall i :: 0 <= i < n ==> s[i] == v
  {
    seq(n, _ => v)
  }

  /** `s` with `w` written over it from `start` on, growing when `w` reaches past its end. */
  function Over<T>(s: seq<T>, start: nat, w: seq<T>): (r: seq<T>)
    requires start <= |s|
    ensures |r| == if start + |w| < |s| then |s| else start + |w|
    ensures forall i :: 0 <= i < |r| ==> r[i] == if start <= i < start + |w| then w[i - start] else s[i]
  {
    s[..start] + w + if start + |w| < |s| then s[start + |w|..] else []
  }

  /** A file's content after a write: a gap before the written bytes reads as zeros. */
  function Overlaid(content: seq<byte>, start: nat, bytes: seq<byte>): seq<byte> {
    if |content| < start then content + Fill(start - |content|, 0) + bytes else Over(content, start, bytes)
  }

  ghost predicate Grows(before: seq<Part>, after: seq<Part>, start: int, size: int) {
    forall i :: Has(after, i) <==> Has(before, i) || start <= i < start + size
  }

  lemma GrownHas(before: seq<Part>, after: seq<Part>, start: int, size: int)
    requires Grows(before, after, start, size)
    ensures forall i :: Has(after, i) <==> Has(before, i) || start <= i < start + size
  {
  }

  lemma GrowOk(d: Disk, content: seq<byte>, up: seq<byte>, list: seq<Part>, uploaded: seq<FilePart>, max: int, list1: seq<Part>, n: nat)
    requires StreamInv(d, content, up, list, uploaded, max) && Grows(list, list1, |content|, n)
    ensures StreamInv(d.(file := d.file + Fill(n, 0), loaded := d.loaded + Fill(n, false), modified := d.modified + Fill(n, true)),
      content + Fill(n, 0), up + Fill(n, 0), list1, uploaded, max)
  {
    var d1 := d.(file := d.file + Fill(n, 0), loaded := d.loaded + Fill(n, false), modified := d.modified + Fill(n, true));
    var content1 := content + Fill(n, 0);
    forall i | 0 <= i < |content1| ensures ByteSynced(d1, content1, Dirty(list1, uploaded, i), i) {
      if i < |content| {
        assert ByteSynced(d, content, Dirty(list, uploaded, i), i);
        assert Dirty(list1, uploaded, i) <==> Dirty(list, uploaded, i);
      } else {
        assert Has(list1, i);
      }
    }
    var up1 := up + Fill(n, 0);
    forall k | 0 <= k < |uploaded| ensures PartOk(uploaded[k], list1, up1) {
      assert PartOk(uploaded[k], list, up);
    }
  }

  lemma WriteOk(d: Disk, content: seq<byte>, up: seq<byte>, list: seq<Part>, uploaded: seq<FilePart>, max: int, list1: seq<Part>, start: nat, bytes: seq<byte>)
    requires StreamInv(d, content, up, list, uploaded, max) && start <= |content| && Grows(list, list1, start, |bytes|)
    ensures StreamInv(d.(file := Over(d.file, start, bytes), loaded := Over(d.loaded, start, Fill(|bytes|, true)),
      modified := Over(d.modified, start, Fill(|bytes|, true))), Over(content, start, bytes), Over(up, start, bytes), list1, uploaded, max)
  {
    var d1 := d.(file := Over(d.file, start, bytes), loaded := Over(d.loaded, start, Fill(|bytes|, true)),
      modified := Over(d.modified, start, Fill(|bytes|, true)));
    var content1 := Over(content, start, bytes);
    forall i | 0 <= i < |content1| ensures ByteSynced(d1, content1, Dirty(list1, uploaded, i), i) {
      if start <= i < start + |bytes| {
        assert Has(list1, i);
      } else {
        assert ByteSynced(d, content, Dirty(list, uploaded, i), i);
        assert Dirty(list1, uploaded, i) <==> Dirty(list, uploaded, i);
      }
    }
    var up1 := Over(up, start, bytes);
    forall k | 0 <= k < |uploaded| ensures PartOk(uploaded[k], list1, up1) {
      assert PartOk(uploaded[k], list, up);
    }
  }

  // ---- uploading the whole cells of the last written area ----

  /** The upload list after the parts inside [a, b) were replaced by new ones from the file. */
  ghost predicate Resent(uploaded: seq<FilePart>, after: seq<FilePart>, rest: seq<FilePart>, to_upload: seq<MpPart>, file: seq<byte>) {
    && Launchable(to_upload, file)
    && forall p :: p in after <==> p in rest || LaunchedIn(p, to_upload, false, file)
  }

  /** A part that begins at the cell its number names. */
  ghost predicate InCell(p: FilePart, max: int, fileSize: int) {
    1 <= p.partNum && p.startpos == (p.partNum - 1) * max && p.size == max && p.End() <= fileSize
  }

  lemma AlignedByNum(list: seq<FilePart>, max: int, fileSize: int)
    requires 0 < max && StrictNum(list) && forall k :: 0 <= k < |list| ==> InCell(list[k], max, fileSize)
    ensures Aligned(list, max, fileSize)
  {
    forall k | 0 <= k < |list| ensures 0 <= list[k].startpos && 0 < list[k].size {
      assert InCell(list[k], max, fileSize);
    }
    forall j, k | 0 <= j < k < |list| ensures list[j].End() <= list[k].startpos {
      assert InCell(list[j], max, fileSize) && InCell(list[k], max, fileSize);
      MulMono(list[j].partNum - 1, list[k].partNum - 1, max);
      MulMono(list[j].partNum - 1, list[j].partNum, max);
    }
  }

  /** Whole cells can be launched, under numbers no part outside of them has. */
  lemma CellsLaunchable(to_upload: seq<MpPart>, c: int, max: int, source: seq<byte>, list: seq<FilePart>, lo: int, hi: int, fileSize: int)
    requires 0 < max && 0 <= c && CellParts(to_upload, c, |to_upload|, max) && (c + |to_upload|) * max <= |source|
    requires Aligned(list, max, fileSize) && Overlapped(list, lo, hi, c * max, (c + |to_upload|) * max)
    ensures Launchable(to_upload, source)
    ensures StrictNum(list) ==> StrictNum(list[..lo] + list[hi..])
    ensures NewNums(to_upload, list[..lo] + list[hi..])
  {
    hide Launchable, Aligned, OrderedUp;
    CellsInSource(to_upload, c, max, source);
    CellNums(to_upload, c, max);
    hide CellParts;
    var rest := list[..lo] + list[hi..];
    forall k | 0 <= k < |rest| ensures rest[k].partNum <= c || c + |to_upload| < rest[k].partNum {
      OutsideNum(rest[k], c, |to_upload|, list, lo, hi, if k < lo then k else k - lo + hi, max, fileSize);
    }
  }

  lemma CellNums(to_upload: seq<MpPart>, c: int, max: int)
    requires CellParts(to_upload, c, |to_upload|, max)
    ensures forall k :: 0 <= k < |to_upload| ==> to_upload[k].partNum == c + k + 1
  {
  }

  lemma CellsInSource(to_upload: seq<MpPart>, c: int, max: int, source: seq<byte>)
    requires 0 < max && 0 <= c && CellParts(to_upload, c, |to_upload|, max) && (c + |to_upload|) * max <= |source|
    ensures Launchable(to_upload, source)
  {
    forall k | 0 <= k < |to_upload| ensures 0 <= to_upload[k].start && to_upload[k].End() <= |source| {
      CellWithin(to_upload, c, k, max);
      MulMono(-1, c, max);
    }
  }

  /** A part outside of the cells has a number outside of theirs. */
  lemma OutsideNum(p: FilePart, c: int, n: int, list: seq<FilePart>, lo: int, hi: int, m: int, max: int, fileSize: int)
    requires 0 < max && Aligned(list, max, fileSize) && Overlapped(list, lo, hi, c * max, (c + n) * max)
    requires (0 <= m < lo || hi <= m < |list|) && p == list[m]
    ensures p.partNum <= c || c + n < p.partNum
  {
    MulMono(p.partNum - 1, p.partNum, max);
    MulMono(c, p.partNum, max);
    MulMono(p.partNum - 1, c + n, max);
  }

  /** The uploaded bytes grow by exactly the area [a, b). */
  lemma CoverageGrows(uploaded: seq<FilePart>, lo: int, hi: int, after: seq<FilePart>, to_upload: seq<MpPart>, c: int, max: int, file: seq<byte>, i: int)
    requires 0 < max && CellParts(to_upload, c, |to_upload|, max) && Overlapped(uploaded, lo, hi, c * max, (c + |to_upload|) * max)
    requires Resent(uploaded, after, uploaded[..lo] + uploaded[hi..], to_upload, file)
    ensures InUp(after, i) <==> InUp(uploaded, i) || c * max <= i < (c + |to_upload|) * max
  {
    if InUp(uploaded, i) && !(c * max <= i < (c + |to_upload|) * max) { StaysUploaded(uploaded, lo, hi, after, to_upload, c, max, file, i); }
    if c * max <= i < (c + |to_upload|) * max { NewlyUploaded(uploaded, lo, hi, after, to_upload, c, max, file, i); }
    if InUp(after, i) { WasUploaded(uploaded, lo, hi, after, to_upload, c, max, file, i); }
  }

  lemma StaysUploaded(uploaded: seq<FilePart>, lo: int, hi: int, after: seq<FilePart>, to_upload: seq<MpPart>, c: int, max: int, file: seq<byte>, i: int)
    requires Overlapped(uploaded, lo, hi, c * max, (c + |to_upload|) * max)
    requires Resent(uploaded, after, uploaded[..lo] + uploaded[hi..], to_upload, file)
    requires InUp(uploaded, i) && !(c * max <= i < (c + |to_upload|) * max)
    ensures InUp(after, i)
  {
    hide LaunchedIn, Launchable;
    var rest := uploaded[..lo] + uploaded[hi..];
    var k :| 0 <= k < |uploaded| && UpHas(uploaded[k], i);
    assert rest[if k < lo then k else k - hi + lo] == uploaded[k];
    InUpMember(after, uploaded[k], i);
  }

  lemma NewlyUploaded(uploaded: seq<FilePart>, lo: int, hi: int, after: seq<FilePart>, to_upload: seq<MpPart>, c: int, max: int, file: seq<byte>, i: int)
    requires 0 < max && CellParts(to_upload, c, |to_upload|, max) && 0 <= lo <= hi <= |uploaded|
    requires Resent(uploaded, after, uploaded[..lo] + uploaded[hi..], to_upload, file)
    requires c * max <= i < (c + |to_upload|) * max
    ensures InUp(after, i)
  {
    var q := i / max;
    CellOf(i, q, c, |to_upload|, max);
    var p := Launched(to_upload[q - c], false, file);
    assert LaunchedIn(p, to_upload, false, file);
    InUpMember(after, p, i);
  }

  lemma WasUploaded(uploaded: seq<FilePart>, lo: int, hi: int, after: seq<FilePart>, to_upload: seq<MpPart>, c: int, max: int, file: seq<byte>, i: int)
    requires 0 < max && CellParts(to_upload, c, |to_upload|, max) && 0 <= lo <= hi <= |uploaded|
    requires Resent(uploaded, after, uploaded[..lo] + uploaded[hi..], to_upload, file) && InUp(after, i)
    ensures InUp(uploaded, i) || c * max <= i < (c + |to_upload|) * max
  {
    hide CellParts;
    var rest := uploaded[..lo] + uploaded[hi..];
    var k :| 0 <= k < |after| && UpHas(after[k], i);
    assert after[k] in after;
    if after[k] in rest {
      var j :| 0 <= j < |rest| && rest[j] == after[k];
      assert rest[j] == uploaded[if j < lo then j else j - lo + hi];
    } else {
      var j :| 0 <= j < |to_upload| && after[k] == Launched(to_upload[j], false, file);
      CellWithin(to_upload, c, j, max);
    }
  }

  lemma CellWithin(to_upload: seq<MpPart>, c: int, j: int, max: int)
    requires 0 < max && 0 <= j < |to_upload| && CellParts(to_upload, c, |to_upload|, max)
    ensures c * max <= to_upload[j].start && to_upload[j].End() <= (c + |to_upload|) * max
  {
    MulMono(c + j, c + |to_upload|, max);
    MulMono(c + j, c + j + 1, max);
    MulMono(c, c + j, max);
  }

  lemma InUpMember(list: seq<FilePart>, p: FilePart, i: int)
    requires p in list && UpHas(p, i)
    ensures InUp(list, i)
  {
    var k :| 0 <= k < |list| && list[k] == p;
    assert UpHas(list[k], i);
  }

  lemma CellOf(i: int, q: int, c: int, n: nat, max: int)
    requires 0 < max && c * max <= i < (c + n) * max && q == i / max
    ensures c <= q < c + n && q * max <= i < q * max + max
  {
    MulMono(q, c, max);
    MulMono(c + n, q, max);
    MulMono(q, q + 1, max);
  }

  /** Uploading written cells keeps everything in place. */
  lemma BoundaryOk(d: Disk, content: seq<byte>, up: seq<byte>, list: seq<Part>, uploaded: seq<FilePart>, max: int, list1: seq<Part>,
                   after: seq<FilePart>, lo: int, hi: int, to_upload: seq<MpPart>, c: int)
    requires StreamInv(d, content, up, list, uploaded, max) && 0 <= c
    requires CellParts(to_upload, c, |to_upload|, max) && Overlapped(uploaded, lo, hi, c * max, (c + |to_upload|) * max)
    requires Resent(uploaded, after, uploaded[..lo] + uploaded[hi..], to_upload, d.file) && StrictNum(after)
    requires forall i :: c * max <= i < (c + |to_upload|) * max ==> Has(list, i)
    requires forall i :: Has(list1, i) <==> Has(list, i) && !(c * max <= i < (c + |to_upload|) * max)
    ensures StreamInv(d, content, up, list1, after, max)
    ensures forall i :: InUp(after, i) <==> InUp(uploaded, i) || c * max <= i < (c + |to_upload|) * max
  {
    forall i ensures InUp(after, i) <==> InUp(uploaded, i) || c * max <= i < (c + |to_upload|) * max {
      CoverageGrows(uploaded, lo, hi, after, to_upload, c, max, d.file, i);
    }
    forall i | 0 <= i < |content| ensures ByteSynced(d, content, Dirty(list1, after, i), i) {
      assert ByteSynced(d, content, Dirty(list, uploaded, i), i);
      assert Dirty(list1, after, i) <==> Dirty(list, uploaded, i);
    }
    forall k | 0 <= k < |after| ensures InCell(after[k], max, |content|) && PartOk(after[k], list1, up) {
      NewPartOk(d, content, up, list, uploaded, max, list1, after, lo, hi, to_upload, c, k);
    }
    AlignedByNum(after, max, |content|);
  }

  lemma NewPartOk(d: Disk, content: seq<byte>, up: seq<byte>, list: seq<Part>, uploaded: seq<FilePart>, max: int, list1: seq<Part>,
                  after: seq<FilePart>, lo: int, hi: int, to_upload: seq<MpPart>, c: int, k: int)
    requires StreamInv(d, content, up, list, uploaded, max) && 0 <= c && 0 <= k < |after|
    requires CellParts(to_upload, c, |to_upload|, max) && Overlapped(uploaded, lo, hi, c * max, (c + |to_upload|) * max)
    requires Resent(uploaded, after, uploaded[..lo] + uploaded[hi..], to_upload, d.file)
    requires forall i :: c * max <= i < (c + |to_upload|) * max ==> Has(list, i)
    requires forall i :: Has(list1, i) <==> Has(list, i) && !(c * max <= i < (c + |to_upload|) * max)
    ensures InCell(after[k], max, |content|) && PartOk(after[k], list1, up)
  {
    hide Synced, InFile, Has, PartsOk, PartOk, CellParts, Agrees;
    SameSize(content, up, list, uploaded);
    var p, rest, a, b := after[k], uploaded[..lo] + uploaded[hi..], c * max, (c + |to_upload|) * max;
    assert p in after;
    if p in rest {
      var j :| 0 <= j < |rest| && rest[j] == p;
      KeptPartOk(up, list, uploaded, max, list1, if j < lo then j else j - lo + hi, lo, hi, a, b);
    } else {
      var j :| 0 <= j < |to_upload| && p == Launched(to_upload[j], false, d.file);
      CellInside(to_upload, c, j, max, a, b);
      Reaches(d, content, list, uploaded, b);
      SentPartOk(d, content, up, list, uploaded, list1, p);
    }
  }

  lemma SameSize(content: seq<byte>, up: seq<byte>, list: seq<Part>, uploaded: seq<FilePart>)
    requires Agrees(content, up, list, uploaded)
    ensures |up| == |content|
  {
  }

  /** Untreated bytes lie in the file. */
  lemma Reaches(d: Disk, content: seq<byte>, list: seq<Part>, uploaded: seq<FilePart>, b: int)
    requires Synced(d, content, list, uploaded) && InFile(list, |content|) && Has(list, b - 1)
    ensures b <= |content| == |d.file|
  {
  }

  lemma KeptPartOk(up: seq<byte>, list: seq<Part>, uploaded: seq<FilePart>, max: int, list1: seq<Part>, m: int, lo: int, hi: int, a: int, b: int)
    requires PartsOk(uploaded, list, up, max) && Overlapped(uploaded, lo, hi, a, b) && (0 <= m < lo || hi <= m < |uploaded|)
    requires forall i :: Has(list1, i) <==> Has(list, i) && !(a <= i < b)
    ensures InCell(uploaded[m], max, |up|) && PartOk(uploaded[m], list1, up)
  {
    assert PartOk(uploaded[m], list, up);
  }

  lemma CellInside(to_upload: seq<MpPart>, c: int, j: int, max: int, a: int, b: int)
    requires 0 < max && 0 <= c && 0 <= j < |to_upload| && CellParts(to_upload, c, |to_upload|, max)
    requires a == c * max && b == (c + |to_upload|) * max
    ensures var m := to_upload[j];
      0 <= a <= m.start && m.size == max && m.End() <= b && 1 <= m.partNum && m.start == (m.partNum - 1) * max
  {
    MulMono(c + j, c + |to_upload|, max);
    MulMono(c + j, c + j + 1, max);
    MulMono(-1, c, max);
    if j > 0 { MulMono(c, c + j, max); }
  }

  /** A part made from bytes that are all untreated holds the content. */
  lemma SentPartOk(d: Disk, content: seq<byte>, up: seq<byte>, list: seq<Part>, uploaded: seq<FilePart>, list1: seq<Part>, p: FilePart)
    requires Synced(d, content, list, uploaded) && Agrees(content, up, list, uploaded) && InFile(list, |content|)
    requires 0 <= p.startpos && 0 < p.size && p.End() <= |d.file| && p.data == d.file[p.startpos..p.End()]
    requires forall i :: UpHas(p, i) ==> Has(list, i)
    ensures PartOk(p, list1, up)
  {
    forall i | UpHas(p, i) ensures p.data[i - p.startpos] == up[i] {
      assert ByteSynced(d, content, Dirty(list, uploaded, i), i);
    }
  }
}
