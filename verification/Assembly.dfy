/** The parts of a planned flush, in part-number order, are the file. */
module Assembly {
  import opened PlanSteps
  import opened PlanTypes
  import opened StreamParts
  import opened StreamSync
  import opened Untreated

  /** What the store makes of the parts when the upload is completed. */
  function Concat(list: seq<FilePart>): seq<byte> {
    if list == [] then [] else Concat(list[..|list| - 1]) + list[|list| - 1].data
  }

  // ---- the selected parts of a plan ----

  lemma {:induction false} SelectHas(plan: seq<Cell>, kind: Kind, k: int) returns (m: int)
    requires 0 <= k < |plan| && plan[k].kind == kind
    ensures 0 <= m < |Select(plan, kind)| && Select(plan, kind)[m] == MpPart(plan[k].start, plan[k].size, k + 1)
  {
    if k == |plan| - 1 {
      m := |Select(plan, kind)| - 1;
    } else {
      m := SelectHas(plan[..|plan| - 1], kind, k);
    }
  }

  lemma {:induction false} SelectFrom(plan: seq<Cell>, kind: Kind)
    ensures forall m :: 0 <= m < |Select(plan, kind)| ==> Selected(plan, kind, Select(plan, kind)[m])
    ensures forall j, m :: 0 <= j < m < |Select(plan, kind)| ==> Select(plan, kind)[j].partNum < Select(plan, kind)[m].partNum
  {
    if plan != [] {
      var shorter := plan[..|plan| - 1];
      SelectFrom(shorter, kind);
      forall m | 0 <= m < |Select(plan, kind)| ensures Selected(plan, kind, Select(plan, kind)[m]) {
        if m < |Select(shorter, kind)| { assert Selected(shorter, kind, Select(shorter, kind)[m]); }
      }
      forall j, m | 0 <= j < m < |Select(plan, kind)| ensures Select(plan, kind)[j].partNum < Select(plan, kind)[m].partNum {
        assert Selected(shorter, kind, Select(shorter, kind)[j]);
      }
    }
  }

  predicate Selected(plan: seq<Cell>, kind: Kind, p: MpPart) {
    && 1 <= p.partNum <= |plan|
    && plan[p.partNum - 1].kind == kind && plan[p.partNum - 1].start == p.start && plan[p.partNum - 1].size == p.size
  }

  // ---- what each part holds ----

  /** The part is the cell its number names, and holds the content of that cell. */
  ghost predicate FitsCell(plan: seq<Cell>, content: seq<byte>, p: FilePart) {
    && 1 <= p.partNum <= |plan| && p.startpos == plan[p.partNum - 1].start && p.size == plan[p.partNum - 1].size
    && 0 <= p.startpos <= p.End() <= |content| && p.data == content[p.startpos..p.End()]
  }

  lemma SameBytes(data: seq<byte>, content: seq<byte>, start: int)
    requires 0 <= start && start + |data| <= |content|
    requires forall i :: start <= i < start + |data| ==> data[i - start] == content[i]
    ensures data == content[start..start + |data|]
  {
    forall k | 0 <= k < |data| ensures data[k] == content[start..start + |data|][k] {
      assert data[start + k - start] == content[start + k];
    }
  }

  /** Where the bytes of a cell of each kind come from. */
  ghost predicate CellShows(d: Disk, image: seq<byte>, kind: Kind, i: int) {
    match kind
    case Kept => true
    case Copied => 0 <= i < |d.remote| && i < |image| && d.remote[i] == image[i]
    case Sent => 0 <= i < |d.file| && i < |image| && d.file[i] == image[i]
  }

  ghost predicate PartShows(p: FilePart, image: seq<byte>) {
    |p.data| == p.size && 0 <= p.startpos && p.End() <= |image| && p.data == image[p.startpos..p.End()]
  }

  /** The cells of the plan, put together, are the image. */
  ghost predicate Shows(d: Disk, image: seq<byte>, plan: seq<Cell>, kept: seq<FilePart>) {
    && (forall k, i :: 0 <= k < |plan| && CellHas(plan[k], i) ==> CellShows(d, image, plan[k].kind, i))
    && forall j :: 0 <= j < |kept| ==> PartShows(kept[j], image)
  }

  /** A finished plan with the bytes it needs in place. */
  ghost predicate Ready(job: Job, d: Disk, image: seq<byte>, plan: seq<Cell>, l: Lists) {
    && job.fileSize == |image| && PlanState(job, |image|, plan, l) && l.looked == |job.uploaded| && StrictNum(job.uploaded)
    && Shows(d, image, plan, l.kept)
  }

  /** A kept part holds its cell. */
  lemma KeptFits(job: Job, d: Disk, image: seq<byte>, plan: seq<Cell>, l: Lists, j: int)
    requires Ready(job, d, image, plan, l) && 0 <= j < |l.kept|
    ensures FitsCell(plan, image, l.kept[j]) && plan[l.kept[j].partNum - 1].kind == Kept
  {
    hide CellShows;
    var p := l.kept[j];
    assert PartShows(p, image);
    KeptIsCell(job, |image|, plan, l, j);
  }

  /** A kept part is the cell its number names. */
  lemma KeptIsCell(job: Job, cur: int, plan: seq<Cell>, l: Lists, j: int)
    requires PlanState(job, cur, plan, l) && l.looked == |job.uploaded| && StrictNum(job.uploaded) && 0 <= j < |l.kept|
    ensures var p := l.kept[j];
      1 <= p.partNum <= |plan| && plan[p.partNum - 1] == Cell(p.startpos, p.size, Kept)
  {
    hide KeptOk, KeptOf, CancelOf, CellsOk, SizesSoFar, KindAllowed, InMp, Select, Tiles, StrictNum;
    assert job.uploaded[..l.looked] == job.uploaded;
    KeptStrict(job.untreated, job.uploaded);
    KeptCell(l.kept, plan, j);
  }

  lemma KeptCell(kept: seq<FilePart>, plan: seq<Cell>, j: int)
    requires KeptOk(kept, plan) && StrictNum(kept) && 0 <= j < |kept|
    ensures 1 <= kept[j].partNum <= |plan| && plan[kept[j].partNum - 1] == Cell(kept[j].startpos, kept[j].size, Kept)
  {
    var k := kept[j].partNum - 1;
    assert IsKept(kept, plan[k], k + 1);
    var m :| 0 <= m < |kept| && kept[m].partNum == k + 1 && kept[m].startpos == plan[k].start && kept[m].size == plan[k].size;
    assert j == m;
  }

  lemma {:induction false} KeptIn(untreated: seq<Part>, uploaded: seq<FilePart>, j: int)
    requires 0 <= j < |KeptOf(untreated, uploaded)|
    ensures KeptOf(untreated, uploaded)[j] in uploaded && !Meets(untreated, KeptOf(untreated, uploaded)[j])
  {
    var shorter := uploaded[..|uploaded| - 1];
    if j < |KeptOf(untreated, shorter)| { KeptIn(untreated, shorter, j); }
  }

  lemma {:induction false} KeptStrict(untreated: seq<Part>, uploaded: seq<FilePart>)
    requires StrictNum(uploaded)
    ensures StrictNum(KeptOf(untreated, uploaded))
  {
    if uploaded != [] {
      var shorter := uploaded[..|uploaded| - 1];
      KeptStrict(untreated, shorter);
      forall j | 0 <= j < |KeptOf(untreated, shorter)| ensures KeptOf(untreated, shorter)[j].partNum < uploaded[|uploaded| - 1].partNum {
        KeptIn(untreated, shorter, j);
      }
    }
  }

  /** A part sent from the cache file holds its cell. */
  lemma SentFits(job: Job, d: Disk, image: seq<byte>, plan: seq<Cell>, l: Lists, m: MpPart)
    requires Ready(job, d, image, plan, l) && Selected(plan, Sent, m)
    ensures 0 <= m.start && 0 < m.size && m.End() <= |image| && m.End() <= |d.file|
    ensures FitsCell(plan, image, Launched(m, false, d.file))
  {
    hide InMp, KeptOk, KeptOf, CancelOf, CellsOk, KindAllowed, SizesSoFar, Select, PartShows;
    var k := m.partNum - 1;
    TilesBelow(plan, |image|, k);
    assert CellShows(d, image, plan[k].kind, m.End() - 1) by { assert CellHas(plan[k], m.End() - 1); }
    forall i | m.start <= i < m.End() ensures d.file[i] == image[i] {
      assert CellHas(plan[k], i);
      assert CellShows(d, image, plan[k].kind, i);
    }
    SameBytes(d.file[m.start..m.End()], image, m.start);
  }

  /** A part copied by the store holds its cell. */
  lemma CopiedFits(job: Job, d: Disk, image: seq<byte>, plan: seq<Cell>, l: Lists, m: MpPart)
    requires Ready(job, d, image, plan, l) && Selected(plan, Copied, m)
    ensures 0 <= m.start && 0 < m.size && m.End() <= |image| && m.End() <= |d.remote|
    ensures FitsCell(plan, image, Launched(m, true, d.remote))
  {
    hide InMp, KeptOk, KeptOf, CancelOf, CellsOk, KindAllowed, SizesSoFar, Select, PartShows;
    var k := m.partNum - 1;
    TilesBelow(plan, |image|, k);
    assert CellShows(d, image, plan[k].kind, m.End() - 1) by { assert CellHas(plan[k], m.End() - 1); }
    forall i | m.start <= i < m.End() ensures d.remote[i] == image[i] {
      assert CellHas(plan[k], i);
      assert CellShows(d, image, plan[k].kind, i);
    }
    SameBytes(d.remote[m.start..m.End()], image, m.start);
  }

  // ---- the whole list ----

  ghost predicate NumIn(list: seq<FilePart>, num: int) {
    exists k :: 0 <= k < |list| && list[k].partNum == num
  }

  lemma {:induction false} StrictGap(list: seq<FilePart>, k: nat)
    requires StrictNum(list) && k < |list| && 1 <= list[0].partNum
    ensures k + 1 <= list[k].partNum
  {
    if k > 0 { StrictGap(list, k - 1); }
  }

  /** Ascending numbers that fill 1..n are 1, 2, ..., n. */
  lemma {:induction false} StrictFull(list: seq<FilePart>, n: nat, k: int)
    requires StrictNum(list) && (forall j :: 0 <= j < |list| ==> 1 <= list[j].partNum <= n)
    requires forall num :: 1 <= num <= n ==> NumIn(list, num)
    requires 0 <= k <= n
    ensures k <= |list| && forall j :: 0 <= j < k ==> list[j].partNum == j + 1
    ensures k == n ==> |list| == n
    decreases k
  {
    if k > 0 {
      StrictFull(list, n, k - 1);
      assert NumIn(list, k);
      var m :| 0 <= m < |list| && list[m].partNum == k;
      StrictGap(list, m);
      assert m == k - 1;
    }
    if list != [] { StrictGap(list, |list| - 1); }
  }

  lemma {:induction false} ConcatTiles(plan: seq<Cell>, image: seq<byte>, list: seq<FilePart>, n: nat)
    requires Tiles(plan, |image|) && |list| == |plan| && n <= |plan|
    requires forall k :: 0 <= k < |plan| ==> list[k].partNum == k + 1 && FitsCell(plan, image, list[k])
    ensures (n == 0 ==> Concat(list[..n]) == [])
    ensures n > 0 ==> 0 <= plan[n - 1].End() <= |image| && Concat(list[..n]) == image[..plan[n - 1].End()]
    decreases n
  {
    if n > 0 {
      ConcatTiles(plan, image, list, n - 1);
      assert FitsCell(plan, image, list[n - 1]);
      assert list[..n][..n - 1] == list[..n - 1];
      if n > 1 { assert plan[n - 1].start == plan[n - 2].End(); }
      var p := list[n - 1];
      assert image[..p.startpos] + image[p.startpos..p.End()] == image[..p.End()];
    }
  }

  /** The upload list of a planned flush. */
  ghost predicate Gathered(list: seq<FilePart>, l: Lists, d: Disk) {
    && StrictNum(list) && Launchable(l.toUpload, d.file) && Launchable(l.toCopy, d.remote)
    && forall p :: p in list <==> p in l.kept || LaunchedIn(p, l.toUpload, false, d.file) || LaunchedIn(p, l.toCopy, true, d.remote)
  }

  lemma ReadyKept(job: Job, d: Disk, image: seq<byte>, plan: seq<Cell>, l: Lists)
    requires Ready(job, d, image, plan, l)
    ensures StrictNum(l.kept)
  {
    hide KeptOk, KeptOf, CancelOf, CellsOk, SizesSoFar, KindAllowed, InMp, Select, Tiles, StrictNum, Shows;
    assert job.uploaded[..l.looked] == job.uploaded;
    KeptStrict(job.untreated, job.uploaded);
  }

  /** The lists of a plan can be launched one after the other. */
  lemma PlanLaunchable(job: Job, d: Disk, image: seq<byte>, plan: seq<Cell>, l: Lists)
    requires Ready(job, d, image, plan, l)
    ensures StrictNum(l.kept) && Launchable(l.toUpload, d.file) && Launchable(l.toCopy, d.remote)
    ensures NewNums(l.toUpload, l.kept)
  {
    hide Ready, StrictNum, FitsCell;
    ReadyKept(job, d, image, plan, l);
    SelectedLists(job, d, image, plan, l);
    forall k | 0 <= k < |l.toUpload| ensures 0 <= l.toUpload[k].start && 0 < l.toUpload[k].size && l.toUpload[k].End() <= |d.file| && 0 <= l.toUpload[k].partNum {
      assert Selected(plan, Sent, l.toUpload[k]);
      SentFits(job, d, image, plan, l, l.toUpload[k]);
    }
    forall k | 0 <= k < |l.toCopy| ensures 0 <= l.toCopy[k].start && 0 < l.toCopy[k].size && l.toCopy[k].End() <= |d.remote| && 0 <= l.toCopy[k].partNum {
      assert Selected(plan, Copied, l.toCopy[k]);
      CopiedFits(job, d, image, plan, l, l.toCopy[k]);
    }
    forall j, k | 0 <= j < |l.toUpload| && 0 <= k < |l.kept| ensures l.toUpload[j].partNum != l.kept[k].partNum {
      SendNumNew(job, d, image, plan, l, j, k);
    }
  }

  lemma SendNumNew(job: Job, d: Disk, image: seq<byte>, plan: seq<Cell>, l: Lists, j: int, k: int)
    requires Ready(job, d, image, plan, l) && 0 <= j < |l.toUpload| && 0 <= k < |l.kept|
    ensures l.toUpload[j].partNum != l.kept[k].partNum
  {
    hide Ready, FitsCell;
    SelectedLists(job, d, image, plan, l);
    assert Selected(plan, Sent, l.toUpload[j]);
    KeptFits(job, d, image, plan, l, k);
  }

  /** The copies come after the parts that are kept and sent, under numbers of their own. */
  lemma PlanCopies(job: Job, d: Disk, image: seq<byte>, plan: seq<Cell>, l: Lists, list: seq<FilePart>)
    requires Ready(job, d, image, plan, l) && Launchable(l.toUpload, d.file)
    requires forall p :: p in list <==> p in l.kept || LaunchedIn(p, l.toUpload, false, d.file)
    ensures NewNums(l.toCopy, list)
  {
    hide Ready, Launchable, LaunchedIn;
    SelectedLists(job, d, image, plan, l);
    forall j, k | 0 <= j < |l.toCopy| && 0 <= k < |list| ensures l.toCopy[j].partNum != list[k].partNum {
      CopyNumNew(job, d, image, plan, l, j, list, k);
    }
  }

  lemma CopyNumNew(job: Job, d: Disk, image: seq<byte>, plan: seq<Cell>, l: Lists, j: int, list: seq<FilePart>, k: int)
    requires Ready(job, d, image, plan, l) && Launchable(l.toUpload, d.file)
    requires 0 <= j < |l.toCopy| && 0 <= k < |list|
    requires forall p :: p in list <==> p in l.kept || LaunchedIn(p, l.toUpload, false, d.file)
    ensures l.toCopy[j].partNum != list[k].partNum
  {
    hide Ready, Launchable, LaunchedIn, FitsCell;
    SelectedLists(job, d, image, plan, l);
    assert Selected(plan, Copied, l.toCopy[j]);
    assert list[k] in list;
    if list[k] in l.kept {
      var m :| 0 <= m < |l.kept| && l.kept[m] == list[k];
      KeptFits(job, d, image, plan, l, m);
    } else {
      var m := WhichLaunched(list[k], l.toUpload, false, d.file);
      assert Selected(plan, Sent, l.toUpload[m]);
    }
  }

  /** Every planned part is one of the plan's cells. */
  lemma SelectedLists(job: Job, d: Disk, image: seq<byte>, plan: seq<Cell>, l: Lists)
    requires Ready(job, d, image, plan, l)
    ensures forall m :: 0 <= m < |l.toUpload| ==> Selected(plan, Sent, l.toUpload[m])
    ensures forall m :: 0 <= m < |l.toCopy| ==> Selected(plan, Copied, l.toCopy[m])
    ensures forall j, m :: 0 <= j < m < |l.toUpload| ==> l.toUpload[j].partNum < l.toUpload[m].partNum
    ensures forall j, m :: 0 <= j < m < |l.toCopy| ==> l.toCopy[j].partNum < l.toCopy[m].partNum
  {
    hide Tiles, CellsOk, KeptOk, Selected;
    SelectFrom(plan, Sent);
    SelectFrom(plan, Copied);
  }

  lemma WhichLaunched(p: FilePart, mplist: seq<MpPart>, is_copy: bool, source: seq<byte>) returns (m: int)
    requires Launchable(mplist, source) && LaunchedIn(p, mplist, is_copy, source)
    ensures 0 <= m < |mplist| && p == Launched(mplist[m], is_copy, source) && p.partNum == mplist[m].partNum
  {
    m :| 0 <= m < |mplist| && p == Launched(mplist[m], is_copy, source);
  }

  lemma GatheredFits(job: Job, d: Disk, image: seq<byte>, plan: seq<Cell>, l: Lists, list: seq<FilePart>, k: int)
    requires Ready(job, d, image, plan, l) && Gathered(list, l, d) && 0 <= k < |list|
    ensures FitsCell(plan, image, list[k])
  {
    hide Ready, Launchable, LaunchedIn, FitsCell, Selected;
    SelectedLists(job, d, image, plan, l);
    assert list[k] in list;
    if list[k] in l.kept {
      var m :| 0 <= m < |l.kept| && l.kept[m] == list[k];
      KeptFits(job, d, image, plan, l, m);
    } else if LaunchedIn(list[k], l.toUpload, false, d.file) {
      var m := WhichLaunched(list[k], l.toUpload, false, d.file);
      SentFits(job, d, image, plan, l, l.toUpload[m]);
    } else {
      var m := WhichLaunched(list[k], l.toCopy, true, d.remote);
      CopiedFits(job, d, image, plan, l, l.toCopy[m]);
    }
  }

  lemma GatheredKept(kept: seq<FilePart>, plan: seq<Cell>, list: seq<FilePart>, num: int)
    requires KeptOk(kept, plan) && 1 <= num <= |plan| && plan[num - 1].kind == Kept && forall p :: p in kept ==> p in list
    ensures NumIn(list, num)
  {
    assert IsKept(kept, plan[num - 1], num);
    var j :| 0 <= j < |kept| && kept[j].partNum == num;
    assert kept[j] in list;
  }

  lemma GatheredLaunched(plan: seq<Cell>, kind: Kind, mplist: seq<MpPart>, isCopy: bool, source: seq<byte>, list: seq<FilePart>, num: int)
    requires mplist == Select(plan, kind) && 1 <= num <= |plan| && plan[num - 1].kind == kind && Launchable(mplist, source)
    requires forall p :: LaunchedIn(p, mplist, isCopy, source) ==> p in list
    ensures NumIn(list, num)
  {
    hide Select;
    var m := SelectHas(plan, kind, num - 1);
    var p := Launched(mplist[m], isCopy, source);
    assert LaunchedIn(p, mplist, isCopy, source);
    assert p in list;
  }

  lemma GatheredAll(job: Job, d: Disk, image: seq<byte>, plan: seq<Cell>, l: Lists, list: seq<FilePart>, num: int)
    requires Ready(job, d, image, plan, l) && Gathered(list, l, d) && 1 <= num <= |plan|
    ensures NumIn(list, num)
  {
    hide NumIn, Shows, KeptOk, KeptOf, CancelOf, CellsOk, SizesSoFar, KindAllowed, InMp, Select, Tiles, Launchable, LaunchedIn, StrictNum;
    match plan[num - 1].kind
    case Kept => GatheredKept(l.kept, plan, list, num);
    case Sent => GatheredLaunched(plan, Sent, l.toUpload, false, d.file, list, num);
    case Copied => GatheredLaunched(plan, Copied, l.toCopy, true, d.remote, list, num);
  }

  /** The parts of a flush carry the numbers 1..n in order, and together they are the image. */
  lemma Assembled(job: Job, d: Disk, image: seq<byte>, plan: seq<Cell>, l: Lists, list: seq<FilePart>)
    requires Ready(job, d, image, plan, l) && Gathered(list, l, d)
    ensures |list| == |plan| && forall k :: 0 <= k < |plan| ==> list[k].partNum == k + 1 && FitsCell(plan, image, list[k])
    ensures Concat(list) == image
  {
    hide Ready, FitsCell, Gathered;
    forall k | 0 <= k < |list| ensures FitsCell(plan, image, list[k]) && 1 <= list[k].partNum <= |plan| {
      GatheredFits(job, d, image, plan, l, list, k);
      FitsNum(plan, image, list[k]);
    }
    forall num | 1 <= num <= |plan| ensures NumIn(list, num) {
      GatheredAll(job, d, image, plan, l, list, num);
    }
    GatheredTiles(job, d, image, plan, l, list);
    StrictFull(list, |plan|, |plan|);
    ConcatTiles(plan, image, list, |plan|);
    assert list[..|plan|] == list;
    if plan != [] { assert image[..plan[|plan| - 1].End()] == image; }
  }

  lemma FitsNum(plan: seq<Cell>, image: seq<byte>, p: FilePart)
    requires FitsCell(plan, image, p)
    ensures 1 <= p.partNum <= |plan|
  {
  }

  lemma GatheredTiles(job: Job, d: Disk, image: seq<byte>, plan: seq<Cell>, l: Lists, list: seq<FilePart>)
    requires Ready(job, d, image, plan, l) && Gathered(list, l, d)
    ensures Tiles(plan, |image|) && StrictNum(list)
  {
  }

  // ---- which image a flush makes ----

  /** The content, except that kept parts show what they were uploaded with. */
  ghost function Mix(content: seq<byte>, up: seq<byte>, kept: seq<FilePart>): (image: seq<byte>)
    requires |up| == |content|
    ensures |image| == |content| && forall i :: 0 <= i < |content| ==> image[i] == if InUp(kept, i) then up[i] else content[i]
  {
    seq(|content|, i requires 0 <= i < |content| => if InUp(kept, i) then up[i] else content[i])
  }

  /** The planned downloads have been done. */
  ghost predicate Downloaded(d: Disk, content: seq<byte>, l: Lists) {
    |d.file| == |content| && forall i :: InMp(l.download, i) ==> 0 <= i < |content| && d.file[i] == content[i]
  }

  lemma {:induction false} TilesApart(plan: seq<Cell>, end: int, j: int, k: int)
    requires Tiles(plan, end) && 0 <= j < k < |plan|
    ensures plan[j].End() <= plan[k].start
    decreases k
  {
    if j < k - 1 { TilesApart(plan, end, j, k - 1); }
  }

  /** A byte of a cell that is not kept is in no kept part. */
  lemma NotInKept(job: Job, end: int, plan: seq<Cell>, l: Lists, k: int, i: int)
    requires PlanState(job, end, plan, l) && l.looked == |job.uploaded| && StrictNum(job.uploaded)
    requires 0 <= k < |plan| && plan[k].kind != Kept && CellHas(plan[k], i)
    ensures !InUp(l.kept, i)
  {
    hide KeptOf, CancelOf, CellsOk, SizesSoFar, KindAllowed, InMp, Select, KeptOk;
    forall j | 0 <= j < |l.kept| ensures !UpHas(l.kept[j], i) {
      KeptIsCell(job, end, plan, l, j);
      var n := l.kept[j].partNum - 1;
      if n < k { TilesApart(plan, end, n, k); }
      if k < n { TilesApart(plan, end, k, n); }
    }
  }

  lemma KeptShows(job: Job, d: Disk, content: seq<byte>, up: seq<byte>, l: Lists, j: int)
    requires StreamInv(d, content, up, job.untreated, job.uploaded, job.max)
    requires l.kept == KeptOf(job.untreated, job.uploaded) && 0 <= j < |l.kept| && |up| == |content|
    ensures PartShows(l.kept[j], Mix(content, up, l.kept))
  {
    hide KeptOf, Has, Synced, Agrees;
    KeptIn(job.untreated, job.uploaded, j);
    var p, image := l.kept[j], Mix(content, up, l.kept);
    var m :| 0 <= m < |job.uploaded| && job.uploaded[m] == p;
    assert PartOk(job.uploaded[m], job.untreated, up);
    forall i | p.startpos <= i < p.End() ensures p.data[i - p.startpos] == image[i] {
      assert UpHas(p, i) && InUp(l.kept, i) && !Has(job.untreated, i);
    }
    SameBytes(p.data, image, p.startpos);
  }

  lemma ByteShows(job: Job, d: Disk, content: seq<byte>, up: seq<byte>, plan: seq<Cell>, l: Lists, k: int, i: int)
    requires StreamInv(d, content, up, job.untreated, job.uploaded, job.max) && job.fileSize == |content| == |up|
    requires PlanState(job, |content|, plan, l) && l.looked == |job.uploaded| && Downloaded(d, content, l)
    requires 0 <= k < |plan| && CellHas(plan[k], i)
    ensures CellShows(d, Mix(content, up, l.kept), plan[k].kind, i)
  {
    hide KeptOf, CancelOf, KeptOk, SizesSoFar, KindAllowed, Select, Tiles, InMp, Dirty, Agrees;
    if plan[k].kind != Kept {
      TilesBelow(plan, |content|, k);
      NotInKept(job, |content|, plan, l, k, i);
      assert ByteOk(job.untreated, job.uploaded, l.download, plan[k].kind, i);
      assert ByteSynced(d, content, Dirty(job.untreated, job.uploaded, i), i);
    }
  }

  /** With the bookkeeping in order, a planned flush makes the content, except for kept parts that
      hold other bytes. */
  lemma InvShows(job: Job, d: Disk, content: seq<byte>, up: seq<byte>, plan: seq<Cell>, l: Lists)
    requires StreamInv(d, content, up, job.untreated, job.uploaded, job.max) && job.fileSize == |content| == |up|
    requires PlanState(job, |content|, plan, l) && l.looked == |job.uploaded| && Downloaded(d, content, l)
    ensures Ready(job, d, Mix(content, up, l.kept), plan, l)
  {
    var image := Mix(content, up, l.kept);
    forall k, i | 0 <= k < |plan| && CellHas(plan[k], i) ensures CellShows(d, image, plan[k].kind, i) {
      ByteShows(job, d, content, up, plan, l, k, i);
    }
    assert job.uploaded[..l.looked] == job.uploaded;
    hide PlanState, StreamInv, CellShows, PartShows, KeptOf;
    KeptIs(job, |content|, plan, l);
    forall j | 0 <= j < |l.kept| ensures PartShows(l.kept[j], image) {
      KeptShows(job, d, content, up, l, j);
    }
    InvStrict(d, content, up, job.untreated, job.uploaded, job.max);
  }

  lemma KeptIs(job: Job, end: int, plan: seq<Cell>, l: Lists)
    requires PlanState(job, end, plan, l) && l.looked == |job.uploaded|
    ensures l.kept == KeptOf(job.untreated, job.uploaded)
  {
    assert job.uploaded[..l.looked] == job.uploaded;
  }

  lemma InvStrict(d: Disk, content: seq<byte>, up: seq<byte>, untreated: seq<Part>, uploaded: seq<FilePart>, max: int)
    requires StreamInv(d, content, up, untreated, uploaded, max)
    ensures StrictNum(uploaded) && |up| == |content|
  {
  }

  /** With nothing written and nothing uploaded, a flush copies the whole object if copying is allowed,
      and sends the whole file otherwise. */
  lemma CleanShows(job: Job, d: Disk, content: seq<byte>, plan: seq<Cell>, l: Lists)
    requires job.untreated == [] && job.uploaded == [] && job.fileSize == |content|
    requires PlanState(job, |content|, plan, l) && l.looked == |job.uploaded| && Downloaded(d, content, l)
    requires job.useCopy ==> |d.remote| == |content|
    ensures Ready(job, d, if job.useCopy then d.remote else content, plan, l)
  {
    hide KeptOk, SizesSoFar, Select, Tiles, InMp, CancelOf;
    var image := if job.useCopy then d.remote else content;
    assert job.uploaded[..l.looked] == [] && l.kept == [];
    forall k, i | 0 <= k < |plan| && CellHas(plan[k], i) ensures CellShows(d, image, plan[k].kind, i) {
      TilesBelow(plan, |content|, k);
      assert KindAllowed(job, plan[k]);
      assert ByteOk(job.untreated, job.uploaded, l.download, plan[k].kind, i);
      assert !Dirty(job.untreated, job.uploaded, i);
      NoKept(l.kept, plan, k) by { assert KeptOk(l.kept, plan); }
    }
  }

  lemma NoKept(kept: seq<FilePart>, plan: seq<Cell>, k: int)
    requires KeptOk(kept, plan) && kept == [] && 0 <= k < |plan|
    ensures plan[k].kind != Kept
  {
  }
}
