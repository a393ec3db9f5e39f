/** Readers and writers of one page, interleaved byte by byte. */
module Seqlock {
  import opened PageLayout
  import opened PageScan
  import opened PageCaches
  import opened PageSteps
  import opened PageUpdates
  import opened Runs

  /** A writer between taking the lock byte and giving it back. One that has removed the page never
      does. */
  datatype Phase = Locked(op: Op) | Writing(op: Op, ver: int, k: nat) | Released(op: Op) | Gone(op: Op)

  /** A read attempt. `version` and `begun` record how many updates were complete and how many had
      begun when it read the last-version byte; `seen` is what it copied; `ended` is how many
      updates had begun at its final check. */
  datatype Reader =
    | GotLast(last: int, version: nat, begun: nat)
    | Copying(last: int, version: nat, begun: nat, seen: seq<(int, byte)>)
    | Finished(version: nat, begun: nat, ended: nat, seen: seq<(int, byte)>)

  /** The page with its three protocol bytes apart, and everyone working on it. `started` counts the
      updates that took a new version, `ops` lists the completed ones. */
  datatype State = State(lock: int, lastVer: int, newVer: int, mem: seq<byte>,
                         writers: map<int, Phase>, readers: map<int, Reader>,
                         started: nat, ops: seq<Op>)

  datatype Step =
    | Acquire(w: int, op: Op)
    | AddNewVer(w: int)
    | MemoryWrite(w: int)
    | RemovePage(w: int)
    | SetLastVer(w: int)
    | UnLock(w: int)
    | ReadLastVer(r: int)
    | CheckNewVer(r: int)
    | Copy(r: int, a: int)
    | FinalCheck(r: int)

  predicate Enabled(cfg: Config, s: State, step: Step) {
    match step
    case Acquire(w, op) => w !in s.writers && s.lock == 0 && ValidOp(cfg, op)
    case AddNewVer(w) => w in s.writers && s.writers[w].Locked?
    case MemoryWrite(w) => w in s.writers && s.writers[w].Writing? && ValidOp(cfg, s.writers[w].op)
      && |s.mem| == cfg.RealPageSize() && s.writers[w].k < |Steps(cfg, s.writers[w].op)|
      && MicroOk(cfg, Steps(cfg, s.writers[w].op)[s.writers[w].k])
    case RemovePage(w) => w in s.writers && s.writers[w].Writing? && s.writers[w].op.DeletePart? && ValidOp(cfg, s.writers[w].op)
      && s.writers[w].k == |Steps(cfg, s.writers[w].op)|
      && |s.mem| == cfg.RealPageSize() && forall a :: cfg.PageMetaSize <= a < cfg.BodyStart() ==> s.mem[a] == 0
    case SetLastVer(w) => w in s.writers && s.writers[w].Writing? && ValidOp(cfg, s.writers[w].op)
      && s.writers[w].k == |Steps(cfg, s.writers[w].op)|
    case UnLock(w) => w in s.writers && s.writers[w].Released?
    case ReadLastVer(r) => r !in s.readers
    case CheckNewVer(r) => r in s.readers && s.readers[r].GotLast?
    case Copy(r, a) => r in s.readers && s.readers[r].Copying? && 3 <= a < |s.mem|
    case FinalCheck(r) => r in s.readers && s.readers[r].Copying?
  }

  function Apply(cfg: Config, s: State, step: Step): State
    requires Enabled(cfg, s, step)
  {
    match step
    case Acquire(w, op) => s.(lock := 1, writers := s.writers[w := Locked(op)])
    case AddNewVer(w) =>
      var v := (s.newVer + 1) % 256;
      s.(newVer := v, writers := s.writers[w := Writing(s.writers[w].op, v, 0)], started := s.started + 1)
    case MemoryWrite(w) =>
      var p := s.writers[w];
      s.(mem := Exec1(cfg, s.mem, Steps(cfg, p.op)[p.k]), writers := s.writers[w := p.(k := p.k + 1)])
    case RemovePage(w) => s.(writers := s.writers[w := Gone(s.writers[w].op)])
    case SetLastVer(w) =>
      var p := s.writers[w];
      s.(lastVer := p.ver, writers := s.writers[w := Released(p.op)], ops := s.ops + [p.op])
    case UnLock(w) => s.(lock := 0, writers := s.writers - {w})
    case ReadLastVer(r) => s.(readers := s.readers[r := GotLast(s.lastVer, |s.ops|, s.started)])
    case CheckNewVer(r) =>
      var q := s.readers[r];
      if s.newVer == q.last then s.(readers := s.readers[r := Copying(q.last, q.version, q.begun, [])])
      else s.(readers := s.readers - {r})
    case Copy(r, a) =>
      var q := s.readers[r];
      s.(readers := s.readers[r := Copying(q.last, q.version, q.begun, q.seen + [(a, s.mem[a])])])
    case FinalCheck(r) =>
      var q := s.readers[r];
      if s.newVer == q.last then s.(readers := s.readers[r := Finished(q.version, q.begun, s.started, q.seen)])
      else s.(readers := s.readers - {r})
  }

  function Init(m0: seq<byte>): State {
    State(0, 0, 0, m0, map[], map[], 0, [])
  }

  predicate Legal(cfg: Config, s: State, steps: seq<Step>)
    decreases |steps|, 0
  {
    steps == [] || (Legal(cfg, s, steps[..|steps| - 1]) && Enabled(cfg, Run(cfg, s, steps[..|steps| - 1]), steps[|steps| - 1]))
  }

  function Run(cfg: Config, s: State, steps: seq<Step>): State
    requires Legal(cfg, s, steps)
    decreases |steps|, 1
  {
    if steps == [] then s else Apply(cfg, Run(cfg, s, steps[..|steps| - 1]), steps[|steps| - 1])
  }

  // ---- the sequential history ----

  ghost predicate ValidOps(cfg: Config, ops: seq<Op>) {
    forall i :: 0 <= i < |ops| ==> ValidOp(cfg, ops[i])
  }

  /** The page after the operations one after the other, each run to its end. */
  ghost function Version(cfg: Config, m0: seq<byte>, ops: seq<Op>): (m: seq<byte>)
    requires IsPage(cfg, m0) && FastOk(cfg, m0) && ValidOps(cfg, ops)
    ensures IsPage(cfg, m) && FastOk(cfg, m)
  {
    if ops == [] then m0
    else
      var before := Version(cfg, m0, ops[..|ops| - 1]);
      UpdateMeaning(cfg, before, ops[|ops| - 1]);
      Exec(cfg, before, Steps(cfg, ops[|ops| - 1]))
  }

  ghost function MeaningOf(c: map<int, byte>, ops: seq<Op>): map<int, byte> {
    if ops == [] then c else Meaning(ops[|ops| - 1], MeaningOf(c, ops[..|ops| - 1]))
  }

  lemma {:induction false} VersionMeaning(cfg: Config, m0: seq<byte>, ops: seq<Op>)
    requires IsPage(cfg, m0) && FastOk(cfg, m0) && ValidOps(cfg, ops)
    ensures Content(cfg, Version(cfg, m0, ops)) == MeaningOf(Content(cfg, m0), ops)
    decreases |ops|
  {
    hide Content, FastOk, Meaning;
    if ops != [] {
      VersionMeaning(cfg, m0, ops[..|ops| - 1]);
      UpdateMeaning(cfg, Version(cfg, m0, ops[..|ops| - 1]), ops[|ops| - 1]);
    }
  }

  // ---- the invariant ----

  ghost predicate SeenIn(m: seq<byte>, seen: seq<(int, byte)>) {
    forall i :: 0 <= i < |seen| ==> 0 <= seen[i].0 < |m| && seen[i].1 == m[seen[i].0]
  }

  ghost predicate PhaseOk(cfg: Config, m0: seq<byte>, mem: seq<byte>, started: nat, ops: seq<Op>, p: Phase)
    requires IsPage(cfg, m0) && FastOk(cfg, m0) && ValidOps(cfg, ops)
  {
    && ValidOp(cfg, p.op)
    && match p
       case Writing(op, ver, k) =>
         && started == |ops| + 1 && ver == started % 256
         && k <= |Steps(cfg, op)| && AllOk(cfg, Steps(cfg, op))
         && mem == Exec(cfg, Version(cfg, m0, ops), Steps(cfg, op)[..k])
       case Gone(op) => started == |ops| + 1
       case _ => started == |ops| && mem == Version(cfg, m0, ops)
  }

  ghost predicate ReaderOk(cfg: Config, m0: seq<byte>, started: nat, ops: seq<Op>, q: Reader)
    requires IsPage(cfg, m0) && FastOk(cfg, m0) && ValidOps(cfg, ops)
  {
    && q.version <= |ops| && q.version <= q.begun <= q.version + 1 && q.begun <= started
    && match q
       case GotLast(last, version, begun) => last == version % 256
       case Copying(last, version, begun, seen) =>
         last == version % 256 && (started == version ==> SeenIn(Version(cfg, m0, ops[..version]), seen))
       case Finished(version, begun, ended, seen) =>
         version % 256 == ended % 256 && begun <= ended <= started
         && (ended == version ==> SeenIn(Version(cfg, m0, ops[..version]), seen))
  }

  ghost predicate Inv(cfg: Config, m0: seq<byte>, s: State) {
    && IsPage(cfg, m0) && FastOk(cfg, m0) && ValidOps(cfg, s.ops)
    && |s.mem| == |m0|
    && s.newVer == s.started % 256 && s.lastVer == |s.ops| % 256
    && |s.ops| <= s.started <= |s.ops| + 1
    && (s.lock == 0 || s.lock == 1) && (s.lock == 1 <==> s.writers != map[])
    && (forall v, w :: v in s.writers && w in s.writers ==> v == w)
    && (s.writers == map[] ==> s.started == |s.ops| && s.mem == Version(cfg, m0, s.ops))
    && (forall w :: w in s.writers ==> PhaseOk(cfg, m0, s.mem, s.started, s.ops, s.writers[w]))
    && (forall r :: r in s.readers ==> ReaderOk(cfg, m0, s.started, s.ops, s.readers[r]))
  }

  lemma InvInit(cfg: Config, m0: seq<byte>)
    requires IsPage(cfg, m0) && FastOk(cfg, m0)
    ensures Inv(cfg, m0, Init(m0))
  {
  }

  /** Steps that leave the readers alone, only add operations and only begin updates, keep what is
      known about every reader. */
  lemma ReadersKept(cfg: Config, m0: seq<byte>, s: State, t: State)
    requires Inv(cfg, m0, s) && t.readers == s.readers && ValidOps(cfg, t.ops)
    requires s.ops <= t.ops && s.started <= t.started
    ensures forall r :: r in t.readers ==> ReaderOk(cfg, m0, t.started, t.ops, t.readers[r])
  {
    hide FastOk, Version, SeenIn;
    forall r | r in t.readers ensures ReaderOk(cfg, m0, t.started, t.ops, t.readers[r]) {
      assert ReaderOk(cfg, m0, s.started, s.ops, s.readers[r]);
      assert t.ops[..t.readers[r].version] == s.ops[..t.readers[r].version];
    }
  }

  lemma MemoryWriteKeeps(cfg: Config, m0: seq<byte>, s: State, w: int)
    requires Inv(cfg, m0, s) && Enabled(cfg, s, MemoryWrite(w))
    ensures Inv(cfg, m0, Apply(cfg, s, MemoryWrite(w)))
  {
    hide FastOk, Version, Steps, SeenIn;
    var t := Apply(cfg, s, MemoryWrite(w));
    ReadersKept(cfg, m0, s, t);
    var p := s.writers[w];
    assert PhaseOk(cfg, m0, s.mem, s.started, s.ops, p);
    var all := Steps(cfg, p.op);
    assert all[..p.k + 1][..p.k] == all[..p.k];
    assert PhaseOk(cfg, m0, t.mem, t.started, t.ops, t.writers[w]);
  }

  lemma RemovePageKeeps(cfg: Config, m0: seq<byte>, s: State, w: int)
    requires Inv(cfg, m0, s) && Enabled(cfg, s, RemovePage(w))
    ensures Inv(cfg, m0, Apply(cfg, s, RemovePage(w)))
  {
    hide FastOk, Version, Steps, SeenIn, Exec;
    var t := Apply(cfg, s, RemovePage(w));
    ReadersKept(cfg, m0, s, t);
    assert PhaseOk(cfg, m0, s.mem, s.started, s.ops, s.writers[w]);
    assert PhaseOk(cfg, m0, t.mem, t.started, t.ops, t.writers[w]);
  }

  lemma SetLastVerKeeps(cfg: Config, m0: seq<byte>, s: State, w: int)
    requires Inv(cfg, m0, s) && Enabled(cfg, s, SetLastVer(w))
    ensures Inv(cfg, m0, Apply(cfg, s, SetLastVer(w)))
  {
    hide FastOk, Steps, SeenIn, Exec;
    var t := Apply(cfg, s, SetLastVer(w));
    var p := s.writers[w];
    assert PhaseOk(cfg, m0, s.mem, s.started, s.ops, p);
    ReadersKept(cfg, m0, s, t);
    assert t.ops[..|t.ops| - 1] == s.ops;
    assert Steps(cfg, p.op)[..p.k] == Steps(cfg, p.op);
    assert PhaseOk(cfg, m0, t.mem, t.started, t.ops, t.writers[w]);
  }

  lemma AcquireKeeps(cfg: Config, m0: seq<byte>, s: State, w: int, op: Op)
    requires Inv(cfg, m0, s) && Enabled(cfg, s, Acquire(w, op))
    ensures Inv(cfg, m0, Apply(cfg, s, Acquire(w, op)))
  {
    hide FastOk, Version, Steps, SeenIn;
    var t := Apply(cfg, s, Acquire(w, op));
    assert s.writers == map[];
    assert PhaseOk(cfg, m0, t.mem, t.started, t.ops, t.writers[w]);
  }

  lemma AddNewVerKeeps(cfg: Config, m0: seq<byte>, s: State, w: int)
    requires Inv(cfg, m0, s) && Enabled(cfg, s, AddNewVer(w))
    ensures Inv(cfg, m0, Apply(cfg, s, AddNewVer(w)))
  {
    hide FastOk, Version, Steps, SeenIn;
    var t := Apply(cfg, s, AddNewVer(w));
    ReadersKept(cfg, m0, s, t);
    var op := s.writers[w].op;
    assert PhaseOk(cfg, m0, s.mem, s.started, s.ops, s.writers[w]);
    UpdateMeaning(cfg, Version(cfg, m0, s.ops), op);
    assert Steps(cfg, op)[..0] == [];
    assert PhaseOk(cfg, m0, t.mem, t.started, t.ops, t.writers[w]);
  }

  lemma UnLockKeeps(cfg: Config, m0: seq<byte>, s: State, w: int)
    requires Inv(cfg, m0, s) && Enabled(cfg, s, UnLock(w))
    ensures Inv(cfg, m0, Apply(cfg, s, UnLock(w)))
  {
    hide FastOk, Version, Steps, SeenIn;
    assert PhaseOk(cfg, m0, s.mem, s.started, s.ops, s.writers[w]);
    var rest := s.writers - {w};
    assert forall v :: v in rest ==> v == w;
    assert rest == map[];
  }

  lemma ReadStepsKeep(cfg: Config, m0: seq<byte>, s: State, step: Step)
    requires Inv(cfg, m0, s) && Enabled(cfg, s, step)
    requires step.ReadLastVer? || step.CheckNewVer? || step.Copy? || step.FinalCheck?
    ensures Inv(cfg, m0, Apply(cfg, s, step))
  {
    hide FastOk, Version, Steps, Exec, PhaseOk;
    var t := Apply(cfg, s, step);
    if step.Copy? {
      assert s.ops[..|s.ops|] == s.ops;
      CopyKeeps(cfg, m0, s, step.r, step.a, s.readers[step.r]);
    }
  }

  /** A copied byte belongs to the version as long as no update has begun since. */
  lemma CopyKeeps(cfg: Config, m0: seq<byte>, s: State, r: int, a: int, q: Reader)
    requires Inv(cfg, m0, s) && r in s.readers && q == s.readers[r] && q.Copying? && 3 <= a < |s.mem|
    ensures ReaderOk(cfg, m0, s.started, s.ops, Copying(q.last, q.version, q.begun, q.seen + [(a, s.mem[a])]))
  {
    hide FastOk, Version, Steps, Exec;
    assert ReaderOk(cfg, m0, s.started, s.ops, s.readers[r]);
    assert s.ops[..|s.ops|] == s.ops;
    assert forall w :: w in s.writers ==> PhaseOk(cfg, m0, s.mem, s.started, s.ops, s.writers[w]);
  }

  lemma InvStep(cfg: Config, m0: seq<byte>, s: State, step: Step)
    requires Inv(cfg, m0, s) && Enabled(cfg, s, step)
    ensures Inv(cfg, m0, Apply(cfg, s, step))
  {
    hide Inv, Apply, Enabled;
    match step
    case MemoryWrite(w) => MemoryWriteKeeps(cfg, m0, s, w);
    case RemovePage(w) => RemovePageKeeps(cfg, m0, s, w);
    case SetLastVer(w) => SetLastVerKeeps(cfg, m0, s, w);
    case Acquire(w, op) => AcquireKeeps(cfg, m0, s, w, op);
    case AddNewVer(w) => AddNewVerKeeps(cfg, m0, s, w);
    case UnLock(w) => UnLockKeeps(cfg, m0, s, w);
    case _ => ReadStepsKeep(cfg, m0, s, step);
  }

  lemma {:induction false} InvRun(cfg: Config, m0: seq<byte>, steps: seq<Step>)
    requires IsPage(cfg, m0) && FastOk(cfg, m0) && Legal(cfg, Init(m0), steps)
    ensures Inv(cfg, m0, Run(cfg, Init(m0), steps))
    decreases |steps|
  {
    hide Inv, Apply, Enabled;
    if steps == [] {
      InvInit(cfg, m0);
    } else {
      InvRun(cfg, m0, steps[..|steps| - 1]);
      InvStep(cfg, m0, Run(cfg, Init(m0), steps[..|steps| - 1]), steps[|steps| - 1]);
    }
  }

  /** Updates of a page never overlap, and the lock byte says whether one holds the page. */
  lemma OneWriterAtATime(cfg: Config, m0: seq<byte>, steps: seq<Step>)
    requires IsPage(cfg, m0) && FastOk(cfg, m0) && Legal(cfg, Init(m0), steps)
    ensures var s := Run(cfg, Init(m0), steps);
      (s.lock == 1 <==> s.writers != map[]) && (forall v, w :: v in s.writers && w in s.writers ==> v == w)
  {
    InvRun(cfg, m0, steps);
  }

  /** What a read copied is one version of the page: the one left by exactly the updates complete
      when it began, with no update in progress from then until its end. */
  ghost predicate IsSnapshot(cfg: Config, m0: seq<byte>, ops: seq<Op>, q: Reader)
    requires IsPage(cfg, m0) && FastOk(cfg, m0) && q.Finished?
  {
    && ValidOps(cfg, ops) && q.version == q.begun == q.ended && q.version <= |ops|
    && SeenIn(Version(cfg, m0, ops[..q.version]), q.seen)
    && Content(cfg, Version(cfg, m0, ops[..q.version])) == MeaningOf(Content(cfg, m0), ops[..q.version])
  }

  /** Versions that agree modulo 256 and are less than 256 apart are equal. */
  lemma SameVersion(version: nat, begun: nat, ended: nat)
    requires version <= begun <= version + 1 && version % 256 == ended % 256 && begun <= ended && ended - begun <= 254
    ensures version == begun == ended
  {
  }

  lemma FinishedIsSnapshot(cfg: Config, m0: seq<byte>, started: nat, ops: seq<Op>, q: Reader)
    requires IsPage(cfg, m0) && FastOk(cfg, m0) && ValidOps(cfg, ops) && ReaderOk(cfg, m0, started, ops, q)
    requires q.Finished? && q.ended - q.begun <= 254
    ensures IsSnapshot(cfg, m0, ops, q)
  {
    hide Content, FastOk, Version, SeenIn, MeaningOf;
    SameVersion(q.version, q.begun, q.ended);
    VersionMeaning(cfg, m0, ops[..q.version]);
  }

  /** In every interleaving, a read that passes its final check and during which at most 254
      updates began is a snapshot. */
  lemma ReadIsSnapshot(cfg: Config, m0: seq<byte>, steps: seq<Step>, s: State, r: int)
    requires IsPage(cfg, m0) && FastOk(cfg, m0) && Legal(cfg, Init(m0), steps) && s == Run(cfg, Init(m0), steps)
    requires r in s.readers && s.readers[r].Finished?
    requires s.readers[r].ended - s.readers[r].begun <= 254
    ensures IsSnapshot(cfg, m0, s.ops, s.readers[r])
  {
    hide Content, FastOk, PhaseOk, Legal, Run, ReaderOk, IsSnapshot, Version, Init;
    InvRun(cfg, m0, steps);
    assert ReaderOk(cfg, m0, s.started, s.ops, s.readers[r]);
    FinishedIsSnapshot(cfg, m0, s.started, s.ops, s.readers[r]);
  }

  // ---- the result of a read ----

  /** The addresses that decide what a read of the window returns: the fast flag; the bitmap bytes of the
      window, unless the flag is up; and the body bytes it copies. */
  ghost predicate Looks(cfg: Config, m: seq<byte>, pos: int, len: int, a: int)
    requires IsPage(cfg, m) && 0 <= pos && 0 <= len && pos + len <= cfg.PageBodySize
  {
    || a == FAST_BITMAP
    || (m[FAST_BITMAP] != 1 && 0 < len && BitmapAddress(cfg, pos) <= a <= BitmapAddress(cfg, pos + len - 1))
    || (cfg.BodyStart() + pos <= a < cfg.BodyStart() + pos + len
        && (m[FAST_BITMAP] == 1 || WindowBit(cfg, m, pos, a - (cfg.BodyStart() + pos))))
  }

  function BitmapAddress(cfg: Config, i: int): int {
    cfg.PageMetaSize + i / 8
  }

  ghost predicate Saw(seen: seq<(int, byte)>, a: int) {
    exists i :: 0 <= i < |seen| && seen[i].0 == a
  }

  lemma SawSame(m: seq<byte>, v: seq<byte>, seen: seq<(int, byte)>, a: int)
    requires |m| == |v| && SeenIn(m, seen) && SeenIn(v, seen) && Saw(seen, a)
    ensures 0 <= a < |m| && m[a] == v[a]
  {
  }

  /** Two memories that agree on all addresses a read looks at give the same read. */
  lemma SameRead(cfg: Config, m: seq<byte>, v: seq<byte>, pos: int, len: int, seen: seq<(int, byte)>,
                 runs: seq<Run>, before: seq<byte>, after: seq<byte>, base: int)
    requires IsPage(cfg, m) && IsPage(cfg, v) && 0 <= pos && 0 <= len && pos + len <= cfg.PageBodySize
    requires SeenIn(m, seen) && SeenIn(v, seen) && forall a :: Looks(cfg, m, pos, len, a) ==> Saw(seen, a)
    requires RawRead(cfg, m, pos, len, runs, before, after, base)
    ensures RawRead(cfg, v, pos, len, runs, before, after, base)
  {
    hide SeenIn, Saw, IsRuns, FastOk;
    assert Looks(cfg, m, pos, len, FAST_BITMAP);
    SawSame(m, v, seen, FAST_BITMAP);
    forall a | Looks(cfg, m, pos, len, a) ensures 0 <= a < |m| && m[a] == v[a] { SawSame(m, v, seen, a); }
    if m[FAST_BITMAP] != 1 {
      forall j | 0 <= j < len ensures WindowBit(cfg, v, pos, j) <==> WindowBit(cfg, m, pos, j) {
        assert Looks(cfg, m, pos, len, BitmapAddress(cfg, pos + j));
      }
      assert ValidIn(cfg, m, pos, len) == ValidIn(cfg, v, pos, len);
    }
    var s := if m[FAST_BITMAP] == 1 then WholeSet(len) else ValidIn(cfg, m, pos, len);
    forall j | j in s && 0 <= j < len ensures m[cfg.BodyStart() + pos + j] == v[cfg.BodyStart() + pos + j] {
      assert Looks(cfg, m, pos, len, cfg.BodyStart() + pos + j);
    }
  }

  /** In every interleaving, what a read that passes its final check makes of the bytes it saw, `m` being
      any memory with those bytes, is what it would return from the page as it stood when it began: the
      maximal runs of valid bytes and these bytes themselves. */
  lemma ReadReturnsVersion(cfg: Config, m0: seq<byte>, steps: seq<Step>, s: State, r: int, m: seq<byte>, pos: int, len: int,
                           runs: seq<Run>, before: seq<byte>, after: seq<byte>, base: int)
    requires IsPage(cfg, m0) && FastOk(cfg, m0) && Legal(cfg, Init(m0), steps) && s == Run(cfg, Init(m0), steps)
    requires r in s.readers && s.readers[r].Finished? && s.readers[r].ended - s.readers[r].begun <= 254
    requires IsPage(cfg, m) && 0 <= pos && 0 <= len && pos + len <= cfg.PageBodySize
    requires SeenIn(m, s.readers[r].seen) && forall a :: Looks(cfg, m, pos, len, a) ==> Saw(s.readers[r].seen, a)
    requires RawRead(cfg, m, pos, len, runs, before, after, base)
    ensures ValidOps(cfg, s.ops) && s.readers[r].version <= |s.ops|
    ensures PageRead(cfg, Version(cfg, m0, s.ops[..s.readers[r].version]), pos, len, runs, before, after, base)
  {
    hide Content, FastOk, PhaseOk, Legal, Run, ReaderOk, Version, Init, SeenIn, Saw, RawRead, PageRead, Looks, MeaningOf;
    ReadIsSnapshot(cfg, m0, steps, s, r);
    var v := Version(cfg, m0, s.ops[..s.readers[r].version]);
    SameRead(cfg, m, v, pos, len, s.readers[r].seen, runs, before, after, base);
    RawIsPageRead(cfg, v, pos, len, runs, before, after, base);
  }

  /** Once a deletion has removed the page, its memory stays as it is: the lock is never free again, no
      update begins, and no read that begins then passes even its first check. */
  lemma GoneStays(cfg: Config, m0: seq<byte>, steps: seq<Step>, w: int, step: Step)
    requires IsPage(cfg, m0) && FastOk(cfg, m0) && Legal(cfg, Init(m0), steps)
    requires var s := Run(cfg, Init(m0), steps); w in s.writers && s.writers[w].Gone? && Enabled(cfg, s, step)
    ensures var s := Run(cfg, Init(m0), steps);
      var t := Apply(cfg, s, step);
      && t.(readers := s.readers) == s && s.lock == 1 && s.newVer != s.lastVer
  {
    hide FastOk, Version, SeenIn, Legal, Run, Init;
    InvRun(cfg, m0, steps);
    var s := Run(cfg, Init(m0), steps);
    assert PhaseOk(cfg, m0, s.mem, s.started, s.ops, s.writers[w]);
    assert forall v :: v in s.writers ==> v == w;
  }

  // ---- the bound is tight ----

  lemma Extend(cfg: Config, s0: State, steps: seq<Step>, step: Step)
    requires Legal(cfg, s0, steps) && Enabled(cfg, Run(cfg, s0, steps), step)
    ensures Legal(cfg, s0, steps + [step]) && Run(cfg, s0, steps + [step]) == Apply(cfg, Run(cfg, s0, steps), step)
  {
    hide Apply, Enabled;
    assert (steps + [step])[..|steps + [step]| - 1] == steps;
  }

  const SMALL: Config := Config(8, 4, true, false)

  /** A two-byte write of one value at the start of a page, and its four memory writes. */
  function Pair(v: byte): Op {
    Write(0, [v, v])
  }

  lemma PairSteps(v: byte)
    ensures Steps(SMALL, Pair(v)) == [Store(5, v), Store(6, v), Bit(4, 1, true), Bit(4, 0, true)]
  {
    assert CopySteps(5, [v, v]) == [Store(5, v), Store(6, v)];
    assert BitSteps(4, 0, 2, true) == [Bit(4, 1, true), Bit(4, 0, true)];
    assert HeadSteps(SMALL, 0, 2, true) == [] && MidSteps(SMALL, 0, 2, true) == [];
    assert TailSteps(SMALL, 0, 2, true) == [Bit(4, 1, true), Bit(4, 0, true)];
    assert BitmapSteps(SMALL, 0, 2, true) == [Bit(4, 1, true), Bit(4, 0, true)];
    assert Steps(SMALL, Pair(v)) == CopySteps(5, [v, v]) + ([] + BitmapSteps(SMALL, 0, 2, true));
  }

  /** Writer 0 takes the page and a new version. */
  lemma BeginPair(s0: State, steps0: seq<Step>, s: State, v: byte) returns (steps: seq<Step>, t: State)
    requires Legal(SMALL, s0, steps0) && s == Run(SMALL, s0, steps0)
    requires s.lock == 0 && s.writers == map[]
    ensures Legal(SMALL, s0, steps) && t == Run(SMALL, s0, steps)
    ensures t == s.(lock := 1, newVer := (s.newVer + 1) % 256, started := s.started + 1,
                    writers := map[0 := Writing(Pair(v), (s.newVer + 1) % 256, 0)])
  {
    hide Legal, Run;
    Extend(SMALL, s0, steps0, Acquire(0, Pair(v)));
    steps := steps0 + [Acquire(0, Pair(v))];
    Extend(SMALL, s0, steps, AddNewVer(0));
    steps := steps + [AddNewVer(0)];
    t := s.(lock := 1, newVer := (s.newVer + 1) % 256, started := s.started + 1,
            writers := map[0 := Writing(Pair(v), (s.newVer + 1) % 256, 0)]);
  }

  /** One memory write of writer 0. */
  lemma StorePair(s0: State, steps0: seq<Step>, s: State, v: byte, k: nat) returns (steps: seq<Step>, t: State)
    requires Legal(SMALL, s0, steps0) && s == Run(SMALL, s0, steps0) && k < 4
    requires 0 in s.writers && s.writers[0].Writing? && s.writers[0].op == Pair(v) && s.writers[0].k == k && |s.mem| == 13
    ensures Legal(SMALL, s0, steps) && t == Run(SMALL, s0, steps)
    ensures |t.mem| == 13 && t == s.(mem := t.mem, writers := s.writers[0 := Writing(Pair(v), s.writers[0].ver, k + 1)])
    ensures t.mem[5] == (if k == 0 then v else s.mem[5]) && t.mem[6] == if k == 1 then v else s.mem[6]
  {
    hide Legal, Run;
    PairSteps(v);
    Extend(SMALL, s0, steps0, MemoryWrite(0));
    steps := steps0 + [MemoryWrite(0)];
    t := Apply(SMALL, s, MemoryWrite(0));
  }

  /** Writer 0 carries its update through. */
  lemma EndPair(s0: State, steps0: seq<Step>, s: State, v: byte) returns (steps: seq<Step>, t: State)
    requires Legal(SMALL, s0, steps0) && s == Run(SMALL, s0, steps0)
    requires s.writers.Keys == {0} && s.writers[0].Writing? && s.writers[0].op == Pair(v) && s.writers[0].k == 0 && |s.mem| == 13
    ensures Legal(SMALL, s0, steps) && t == Run(SMALL, s0, steps)
    ensures |t.mem| == 13 && t.mem[5] == v && t.mem[6] == v
    ensures t == s.(lock := 0, lastVer := s.writers[0].ver, mem := t.mem, writers := map[], ops := s.ops + [Pair(v)])
  {
    hide Legal, Run, Steps;
    steps, t := StorePair(s0, steps0, s, v, 0);
    steps, t := StorePair(s0, steps, t, v, 1);
    steps, t := StorePair(s0, steps, t, v, 2);
    steps, t := StorePair(s0, steps, t, v, 3);
    PairSteps(v);
    Extend(SMALL, s0, steps, SetLastVer(0));
    steps := steps + [SetLastVer(0)];
    t := Apply(SMALL, t, SetLastVer(0));
    Extend(SMALL, s0, steps, UnLock(0));
    steps := steps + [UnLock(0)];
    t := Apply(SMALL, t, UnLock(0));
    assert t.writers == map[];
  }

  /** `n` updates are complete, all of them writes of 1; reader 0 began during the first. */
  ghost predicate AfterPairs(s: State, n: nat) {
    && s.lock == 0 && s.writers == map[] && s.started == n && s.ops == seq(n, _ => Pair(1))
    && s.newVer == n % 256 && s.lastVer == n % 256
    && |s.mem| == 13 && s.mem[5] == 1 && s.mem[6] == 1
    && s.readers == map[0 := GotLast(0, 0, 1)]
  }

  lemma ManyPairs(m0: seq<byte>, n: nat) returns (steps: seq<Step>, t: State)
    requires |m0| == 13 && 1 <= n
    ensures Legal(SMALL, Init(m0), steps) && t == Run(SMALL, Init(m0), steps) && AfterPairs(t, n)
    decreases n
  {
    hide Legal, Run;
    if n == 1 {
      NoSteps(Init(m0));
      steps, t := BeginPair(Init(m0), [], Init(m0), 1);
      Extend(SMALL, Init(m0), steps, ReadLastVer(0));
      steps := steps + [ReadLastVer(0)];
      t := Apply(SMALL, t, ReadLastVer(0));
      steps, t := EndPair(Init(m0), steps, t, 1);
      assert t.ops == [Pair(1)] == seq(1, _ => Pair(1));
    } else {
      steps, t := ManyPairs(m0, n - 1);
      var ops := t.ops;
      steps, t := BeginPair(Init(m0), steps, t, 1);
      steps, t := EndPair(Init(m0), steps, t, 1);
      assert t.ops == ops + [Pair(1)] == seq(n, _ => Pair(1));
    }
  }

  lemma NoSteps(s: State)
    ensures Legal(SMALL, s, []) && Run(SMALL, s, []) == s
  {
  }

  lemma ExecPair(m: seq<byte>, v: byte)
    requires |m| == 13 && AllOk(SMALL, Steps(SMALL, Pair(v)))
    ensures Exec(SMALL, m, Steps(SMALL, Pair(v)))[5] == v && Exec(SMALL, m, Steps(SMALL, Pair(v)))[6] == v
  {
    hide Steps;
    PairSteps(v);
    var a, b, c, d := Store(5, v), Store(6, v), Bit(4, 1, true), Bit(4, 0, true);
    var m1 := Exec1(SMALL, m, a);
    var m2 := Exec1(SMALL, m1, b);
    assert [a][..0] == [] && [a, b][..1] == [a] && [a, b, c][..2] == [a, b] && [a, b, c, d][..3] == [a, b, c];
    assert Exec(SMALL, m, [a]) == m1;
    assert Exec(SMALL, m, [a, b]) == m2;
    assert Exec(SMALL, m, [a, b, c]) == Exec1(SMALL, m2, c);
    assert Exec(SMALL, m, [a, b, c, d]) == Exec1(SMALL, Exec1(SMALL, m2, c), d);
  }

  lemma {:induction false} PairVersions(m0: seq<byte>, n: nat)
    requires IsPage(SMALL, m0) && FastOk(SMALL, m0) && m0[5] == m0[6]
    ensures ValidOps(SMALL, seq(n, _ => Pair(1)))
    ensures var m := Version(SMALL, m0, seq(n, _ => Pair(1))); m[5] == m[6]
  {
    hide FastOk, Steps, Exec;
    var ops := seq(n, _ => Pair(1));
    if n > 0 {
      PairVersions(m0, n - 1);
      assert ops[..n - 1] == seq(n - 1, _ => Pair(1));
      var before := Version(SMALL, m0, ops[..n - 1]);
      UpdateMeaning(SMALL, before, Pair(1));
      ExecPair(before, 1);
    }
  }

  function WithReader(s: State, q: Reader): State {
    s.(readers := map[0 := q])
  }

  const TORN: seq<(int, byte)> := [(5, 2), (6, 1)]

  /** What the reader does between two memory writes of the last update. */
  lemma TornSteps(s: State)
    requires s == WithReader(s, GotLast(0, 0, 1)) && s.newVer == 0 && |s.mem| == 13 && s.mem[5] == 2 && s.mem[6] == 1
    ensures Enabled(SMALL, s, CheckNewVer(0)) && Apply(SMALL, s, CheckNewVer(0)) == WithReader(s, Copying(0, 0, 1, []))
    ensures var a := WithReader(s, Copying(0, 0, 1, []));
      Enabled(SMALL, a, Copy(0, 5)) && Apply(SMALL, a, Copy(0, 5)) == WithReader(s, Copying(0, 0, 1, [(5, 2)]))
    ensures var b := WithReader(s, Copying(0, 0, 1, [(5, 2)]));
      Enabled(SMALL, b, Copy(0, 6)) && Apply(SMALL, b, Copy(0, 6)) == WithReader(s, Copying(0, 0, 1, TORN))
    ensures var c := WithReader(s, Copying(0, 0, 1, TORN));
      Enabled(SMALL, c, FinalCheck(0)) && Apply(SMALL, c, FinalCheck(0)) == WithReader(s, Finished(0, 1, s.started, TORN))
  {
    var none: seq<(int, byte)>, one: seq<(int, byte)> := [], [(5, 2)];
    assert none + [(5, s.mem[5])] == one && one + [(6, s.mem[6])] == TORN;
  }

  lemma TornRead(s0: State, steps0: seq<Step>, s: State) returns (steps: seq<Step>, t: State)
    requires Legal(SMALL, s0, steps0) && s == Run(SMALL, s0, steps0)
    requires s == WithReader(s, GotLast(0, 0, 1)) && s.newVer == 0 && |s.mem| == 13 && s.mem[5] == 2 && s.mem[6] == 1
    ensures Legal(SMALL, s0, steps) && t == Run(SMALL, s0, steps)
    ensures t == WithReader(s, Finished(0, 1, s.started, TORN))
  {
    hide Legal, Run, Apply, Enabled, WithReader;
    TornSteps(s);
    Extend(SMALL, s0, steps0, CheckNewVer(0));
    steps := steps0 + [CheckNewVer(0)];
    Extend(SMALL, s0, steps, Copy(0, 5));
    steps := steps + [Copy(0, 5)];
    Extend(SMALL, s0, steps, Copy(0, 6));
    steps := steps + [Copy(0, 6)];
    Extend(SMALL, s0, steps, FinalCheck(0));
    steps := steps + [FinalCheck(0)];
    t := WithReader(s, Finished(0, 1, s.started, TORN));
  }

  /** The version bytes wrap at 256: with 255 updates beginning during a read, its final check can
      pass although what it copied is no version of the page. */
  lemma WrapAroundTears(m0: seq<byte>) returns (steps: seq<Step>, s: State)
    requires IsPage(SMALL, m0) && FastOk(SMALL, m0) && m0[5] == m0[6]
    ensures Legal(SMALL, Init(m0), steps) && s == Run(SMALL, Init(m0), steps)
    ensures 0 in s.readers && s.readers[0].Finished? && s.readers[0].ended - s.readers[0].begun == 255
    ensures ValidOps(SMALL, s.ops)
    ensures forall i :: 0 <= i <= |s.ops| ==> !SeenIn(Version(SMALL, m0, s.ops[..i]), s.readers[0].seen)
  {
    hide Legal, Run, FastOk, Version, Steps, Init;
    assert |m0| == 13;
    steps, s := ManyPairs(m0, 255);
    steps, s := BeginPair(Init(m0), steps, s, 2);
    steps, s := StorePair(Init(m0), steps, s, 2, 0);
    steps, s := TornRead(Init(m0), steps, s);
    PairVersions(m0, 255);
    forall i | 0 <= i <= |s.ops| ensures !SeenIn(Version(SMALL, m0, s.ops[..i]), TORN) {
      NoTornVersion(m0, s.ops, i);
    }
  }

  lemma NoTornVersion(m0: seq<byte>, ops: seq<Op>, i: nat)
    requires IsPage(SMALL, m0) && FastOk(SMALL, m0) && m0[5] == m0[6] && i <= |ops| == 255 && ops == seq(255, _ => Pair(1))
    ensures ValidOps(SMALL, ops[..i]) && !SeenIn(Version(SMALL, m0, ops[..i]), TORN)
  {
    hide FastOk, Version, Steps;
    PairVersions(m0, i);
    assert ops[..i] == seq(i, _ => Pair(1));
    assert TORN[0] == (5, 2) && TORN[1] == (6, 1);
  }
}
