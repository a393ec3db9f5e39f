/** The lists a multipart flush works with, and what a plan for a whole file has to be. */
module PlanTypes {
  import opened Untreated

  type byte = bv8

  const FIVE_GB := 5 * 1024 * 1024 * 1024
  const MIN_MULTIPART_SIZE := 5 * 1024 * 1024

  /** An area to upload, copy or download; the part number matters only for the first two. */
  datatype MpPart = MpPart(start: int, size: int, partNum: int) {
    function End(): int {
      start + size
    }
  }

  /** An area handed to an upload worker, with the bytes the store receives for it. */
  datatype FilePart = FilePart(startpos: int, size: int, partNum: int, isCopy: bool, uploaded: bool, data: seq<byte>) {
    function End(): int {
      startpos + size
    }
  }

  predicate MpHas(p: MpPart, i: int) {
    p.start <= i < p.End()
  }

  ghost predicate InMp(list: seq<MpPart>, i: int) {
    exists k :: 0 <= k < |list| && MpHas(list[k], i)
  }

  lemma InMpConcat(a: seq<MpPart>, b: seq<MpPart>, i: int)
    ensures InMp(a + b, i) <==> InMp(a, i) || InMp(b, i)
  {
    var c := a + b;
    if InMp(a, i) {
      var k :| 0 <= k < |a| && MpHas(a[k], i);
      assert MpHas(c[k], i);
    }
    if InMp(b, i) {
      var k :| 0 <= k < |b| && MpHas(b[k], i);
      assert MpHas(c[|a| + k], i);
    }
  }

  lemma InMpOne(p: MpPart, i: int)
    ensures InMp([p], i) <==> MpHas(p, i)
  {
    assert [p][0] == p;
  }

  predicate UpHas(p: FilePart, i: int) {
    p.startpos <= i < p.End()
  }

  ghost predicate InUp(list: seq<FilePart>, i: int) {
    exists k :: 0 <= k < |list| && UpHas(list[k], i)
  }

  ghost predicate OrderedUp(list: seq<FilePart>) {
    && (forall k :: 0 <= k < |list| ==> 0 <= list[k].startpos && 0 < list[k].size)
    && (forall j, k :: 0 <= j < k < |list| ==> list[j].End() <= list[k].startpos)
  }

  /** Uploaded parts fill whole part-size cells of the file and carry the number of their cell. */
  ghost predicate Aligned(list: seq<FilePart>, max: int, fileSize: int) {
    && OrderedUp(list)
    && forall k :: 0 <= k < |list| ==>
         1 <= list[k].partNum && list[k].startpos == (list[k].partNum - 1) * max && list[k].size == max && list[k].End() <= fileSize
  }

  /** No two uploaded parts begin in the same cell. */
  ghost predicate OnePerCell(list: seq<FilePart>, max: int, fileSize: int)
    requires 0 < max
  {
    forall j, k :: 0 <= j < k < |list| && list[k].startpos < fileSize ==> list[j].startpos / max != list[k].startpos / max
  }

  // ---- the plan of a whole file ----

  datatype Kind = Kept | Copied | Sent

  /** The area that becomes the part with the cell's position plus one as its number. */
  datatype Cell = Cell(start: int, size: int, kind: Kind) {
    function End(): int {
      start + size
    }
  }

  predicate CellHas(c: Cell, i: int) {
    c.start <= i < c.End()
  }

  /** The cells tile [0, end). */
  ghost predicate Tiles(plan: seq<Cell>, end: int) {
    && (forall k :: 0 <= k < |plan| ==> 0 < plan[k].size)
    && (forall k :: 0 < k < |plan| ==> plan[k].start == plan[k - 1].End())
    && (if plan == [] then end == 0 else plan[0].start == 0 && plan[|plan| - 1].End() == end)
  }

  /** The parts of one kind, in order, with their part numbers. */
  function Select(plan: seq<Cell>, kind: Kind): seq<MpPart> {
    if plan == [] then []
    else
      var c := plan[|plan| - 1];
      Select(plan[..|plan| - 1], kind) + if c.kind == kind then [MpPart(c.start, c.size, |plan|)] else []
  }

  /** Written or already uploaded: the remote object's byte is out of date. */
  ghost predicate Dirty(untreated: seq<Part>, uploaded: seq<FilePart>, i: int) {
    Has(untreated, i) || InUp(uploaded, i)
  }

  ghost predicate Meets(untreated: seq<Part>, p: FilePart) {
    exists i :: UpHas(p, i) && Has(untreated, i)
  }

  /** The uploaded parts without, and those with, untreated bytes. */
  ghost function KeptOf(untreated: seq<Part>, uploaded: seq<FilePart>): seq<FilePart> {
    if uploaded == [] then []
    else
      var p := uploaded[|uploaded| - 1];
      KeptOf(untreated, uploaded[..|uploaded| - 1]) + if Meets(untreated, p) then [] else [p]
  }

  ghost function CancelOf(untreated: seq<Part>, uploaded: seq<FilePart>): seq<FilePart> {
    if uploaded == [] then []
    else
      var p := uploaded[|uploaded| - 1];
      CancelOf(untreated, uploaded[..|uploaded| - 1]) + if Meets(untreated, p) then [p] else []
  }

  /** What the kind of a cell promises about one of its bytes. */
  ghost predicate ByteOk(untreated: seq<Part>, uploaded: seq<FilePart>, download: seq<MpPart>, kind: Kind, i: int) {
    match kind
    case Kept => !Has(untreated, i) && !InMp(download, i)
    case Copied => !Dirty(untreated, uploaded, i) && !InMp(download, i)
    case Sent => InMp(download, i) <==> !Dirty(untreated, uploaded, i)
  }

  ghost predicate CellsOk(untreated: seq<Part>, uploaded: seq<FilePart>, download: seq<MpPart>, plan: seq<Cell>) {
    forall k, i :: 0 <= k < |plan| && CellHas(plan[k], i) ==> ByteOk(untreated, uploaded, download, plan[k].kind, i)
  }

  ghost predicate IsKept(kept: seq<FilePart>, c: Cell, num: int) {
    exists j :: 0 <= j < |kept| && kept[j].partNum == num && kept[j].startpos == c.start && kept[j].size == c.size
  }

  /** A cell is kept exactly when it is one of the uploaded parts that stay. */
  ghost predicate KeptOk(kept: seq<FilePart>, plan: seq<Cell>) {
    && (forall k :: 0 <= k < |plan| && plan[k].kind == Kept ==> IsKept(kept, plan[k], k + 1))
    && (forall j :: 0 <= j < |kept| ==> 1 <= kept[j].partNum <= |plan| && plan[kept[j].partNum - 1].kind == Kept)
  }
}
