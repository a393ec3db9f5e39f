/** The writes that the in-place methods report are, one by one, the steps of a writer in the
    interleaved protocol; and a reader that nobody disturbs gets through. */
module UpdateRuns {
  import opened PageCaches
  import opened PageLayout
  import opened PageUpdates
  import Seqlock

  type State = Seqlock.State

  ghost predicate InRange(cfg: Config, s: State) {
    |s.mem| == cfg.RealPageSize() && cfg.Valid() && 0 <= s.lock < 256 && 0 <= s.lastVer < 256 && 0 <= s.newVer < 256
  }

  /** The byte that is x steps from 0. */
  function Stepped(x: nat): byte {
    if x == 0 then 0 else Stepped(x - 1) + 1
  }

  function ToByte(x: int): byte
    requires 0 <= x < 256
  {
    Stepped(x)
  }

  /** The memory of the page: the three protocol bytes and the rest. */
  ghost function Memory(cfg: Config, s: State): seq<byte>
    requires InRange(cfg, s)
  {
    s.mem[LOCK := ToByte(s.lock)][LASTVER := ToByte(s.lastVer)][NEWVER := ToByte(s.newVer)]
  }

  /** What one writer does, from taking the lock byte to giving it back. */
  function WriterSteps(cfg: Config, w: int, op: Op): (steps: seq<Seqlock.Step>)
    requires ValidOp(cfg, op)
    ensures |steps| == |Steps(cfg, op)| + 4
  {
    [Seqlock.Acquire(w, op), Seqlock.AddNewVer(w)] + seq(|Steps(cfg, op)|, _ => Seqlock.MemoryWrite(w)) + [Seqlock.SetLastVer(w), Seqlock.UnLock(w)]
  }

  lemma {:induction false} StepsAdd(a: nat, b: nat)
    ensures Stepped(a + b) == Stepped(a) + Stepped(b)
  {
    if b > 0 { StepsAdd(a, b - 1); }
  }

  /** A byte comes back to 0 after 256 steps. */
  lemma LastByte()
    ensures Stepped(255) == 255
  {
    assert Stepped(1) == 1;
    StepsAdd(1, 1);
    StepsAdd(2, 1);
    StepsAdd(3, 3);
    StepsAdd(6, 6);
    StepsAdd(12, 3);
    StepsAdd(15, 15);
    StepsAdd(30, 30);
    StepsAdd(60, 60);
    StepsAdd(120, 120);
    StepsAdd(240, 15);
  }

  lemma NextVersion(x: int)
    requires 0 <= x < 256
    ensures ToByte((x + 1) % 256) == ToByte(x) + 1 && ToByte(0) == 0 && ToByte(1) == 1
  {
    if x == 255 { LastByte(); }
  }

  /** Where the writer is after j of its steps. */
  ghost predicate At(cfg: Config, s: State, t: State, w: int, op: Op, j: nat)
    requires ValidOp(cfg, op)
  {
    var n, v := |Steps(cfg, op)|, (s.newVer + 1) % 256;
    if j == 0 then t == s
    else if j == 1 then t.newVer == s.newVer && t.lastVer == s.lastVer && t.lock == 1 && w in t.writers && t.writers[w] == Seqlock.Locked(op)
    else if j <= n + 2 then t.newVer == v && t.lastVer == s.lastVer && t.lock == 1 && w in t.writers && t.writers[w] == Seqlock.Writing(op, v, j - 2)
    else if j == n + 3 then t.newVer == v && t.lastVer == v && t.lock == 1 && w in t.writers && t.writers[w] == Seqlock.Released(op)
    else t.newVer == v && t.lastVer == v && t.lock == 0
  }

  // ---- the writes of an operation stay clear of the lock and version bytes ----

  ghost predicate Above(steps: seq<Micro>) {
    forall k :: 0 <= k < |steps| ==> 3 <= steps[k].a
  }

  lemma AboveConcat(a: seq<Micro>, b: seq<Micro>)
    requires Above(a) && Above(b)
    ensures Above(a + b)
  {
  }

  lemma BitmapAbove(cfg: Config, pos: nat, len: nat, valid: bool)
    requires cfg.Valid()
    ensures Above(BitmapSteps(cfg, pos, len, valid))
  {
    hide HeadLen;
    var p1 := pos + HeadLen(pos, len);
    var n1: nat := len - HeadLen(pos, len);
    var head, mid, tail := HeadSteps(cfg, pos, len, valid), MidSteps(cfg, p1, n1, valid), TailSteps(cfg, p1 + n1 / 8 * 8, n1 % 8, valid);
    assert Above(head) && Above(mid) && Above(tail);
    AboveConcat(head, mid);
    AboveConcat(head + mid, tail);
  }

  lemma StepsAbove(cfg: Config, m: seq<byte>, op: Op)
    requires IsPage(cfg, m) && ValidOp(cfg, op)
    ensures AllOk(cfg, Steps(cfg, op)) && Above(Steps(cfg, op))
  {
    hide AllOk, Above, BitmapSteps, FlagSteps, CopySteps, Exec;
    match op
    case Write(pos, data) =>
      var copy, flag, bits := CopySteps(cfg.BodyStart() + pos, data), FlagSteps(cfg, |data|, true), BitmapSteps(cfg, pos, |data|, true);
      ExecStores(cfg, m, cfg.BodyStart() + pos, data);
      ExecFlag(cfg, m, |data|, true);
      ExecBitmap(cfg, m, pos, |data|, true);
      ExecConcat(cfg, m, flag, bits);
      ExecConcat(cfg, m, copy, flag + bits);
      SimpleAbove(cfg, cfg.BodyStart() + pos, data, |data|, true);
      BitmapAbove(cfg, pos, |data|, true);
      AboveConcat(flag, bits);
      AboveConcat(copy, flag + bits);
    case DeletePart(at, len) =>
      var flag, bits := FlagSteps(cfg, len, false), BitmapSteps(cfg, at, len, false);
      ExecFlag(cfg, m, len, false);
      ExecBitmap(cfg, m, at, len, false);
      ExecConcat(cfg, m, flag, bits);
      SimpleAbove(cfg, 3, [], len, false);
      BitmapAbove(cfg, at, len, false);
      AboveConcat(flag, bits);
  }

  lemma SimpleAbove(cfg: Config, at: int, data: seq<byte>, len: nat, valid: bool)
    requires 3 <= at
    ensures Above(CopySteps(at, data)) && Above(FlagSteps(cfg, len, valid))
  {
  }

  // ---- one step of the writer is one write of its update ----

  /** Step j of a writer. */
  function StepAt(n: nat, w: int, op: Op, j: nat): Seqlock.Step {
    if j == 0 then Seqlock.Acquire(w, op) else if j == 1 then Seqlock.AddNewVer(w)
    else if j < n + 2 then Seqlock.MemoryWrite(w) else if j == n + 2 then Seqlock.SetLastVer(w) else Seqlock.UnLock(w)
  }

  /** Write j of an update. */
  function WriteAt(steps: seq<Micro>, v: byte, j: nat): Micro {
    if j == 0 then Store(LOCK, 1) else if j == 1 then Store(NEWVER, v)
    else if j < |steps| + 2 then steps[j - 2] else if j == |steps| + 2 then Store(LASTVER, v) else Store(LOCK, 0)
  }

  lemma Listed(cfg: Config, w: int, op: Op, v: byte, j: nat)
    requires cfg.EnableCAS && ValidOp(cfg, op) && j < |Steps(cfg, op)| + 4
    ensures WriterSteps(cfg, w, op)[j] == StepAt(|Steps(cfg, op)|, w, op, j)
    ensures |UpdateSteps(cfg, op, v)| == |Steps(cfg, op)| + 4 && UpdateSteps(cfg, op, v)[j] == WriteAt(Steps(cfg, op), v, j)
  {
    hide Steps;
  }

  /** The writer's next step can be taken and makes one write. */
  ghost predicate Moves(cfg: Config, s: State, t: State, w: int, op: Op, j: nat, step: Seqlock.Step, st: Micro)
    requires ValidOp(cfg, op) && InRange(cfg, t) && MicroOk(cfg, st)
  {
    && Seqlock.Enabled(cfg, t, step)
    && MovesTo(cfg, s, t, Seqlock.Apply(cfg, t, step), w, op, j, st)
  }

  ghost predicate MovesTo(cfg: Config, s: State, t: State, u: State, w: int, op: Op, j: nat, st: Micro)
    requires ValidOp(cfg, op) && InRange(cfg, t) && MicroOk(cfg, st)
  {
    InRange(cfg, u) && At(cfg, s, u, w, op, j + 1) && Memory(cfg, u) == Exec1(cfg, Memory(cfg, t), st)
  }

  lemma Locks(cfg: Config, s: State, w: int, op: Op)
    requires ValidOp(cfg, op) && InRange(cfg, s) && s.lock == 0 && w !in s.writers
    ensures Moves(cfg, s, s, w, op, 0, Seqlock.Acquire(w, op), Store(LOCK, 1))
  {
    hide Steps, ToByte, Memory;
    var u := Seqlock.Apply(cfg, s, Seqlock.Acquire(w, op));
    NextVersion(0);
    SetsLock(cfg, s, u);
  }

  lemma SetsLock(cfg: Config, t: State, u: State)
    requires InRange(cfg, t) && InRange(cfg, u) && u.mem == t.mem && u.lastVer == t.lastVer && u.newVer == t.newVer
    ensures Memory(cfg, u) == Memory(cfg, t)[LOCK := ToByte(u.lock)]
  {
    hide ToByte;
  }

  lemma TakesVersion(cfg: Config, s: State, t: State, w: int, op: Op)
    requires ValidOp(cfg, op) && InRange(cfg, s) && InRange(cfg, t) && At(cfg, s, t, w, op, 1)
    ensures Moves(cfg, s, t, w, op, 1, Seqlock.AddNewVer(w), Store(NEWVER, ToByte(s.newVer) + 1))
  {
    hide Steps, ToByte, Memory;
    var u := Seqlock.Apply(cfg, t, Seqlock.AddNewVer(w));
    NextVersion(s.newVer);
    SetsVersion(cfg, t, u);
  }

  lemma SetsVersion(cfg: Config, t: State, u: State)
    requires InRange(cfg, t) && InRange(cfg, u) && u.mem == t.mem && u.lastVer == t.lastVer && u.lock == t.lock
    ensures Memory(cfg, u) == Memory(cfg, t)[NEWVER := ToByte(u.newVer)]
  {
    hide ToByte;
  }

  lemma Writes(cfg: Config, s: State, t: State, w: int, op: Op, j: nat)
    requires ValidOp(cfg, op) && InRange(cfg, s) && InRange(cfg, t) && 2 <= j < |Steps(cfg, op)| + 2 && At(cfg, s, t, w, op, j)
    ensures MicroOk(cfg, Steps(cfg, op)[j - 2]) && Moves(cfg, s, t, w, op, j, Seqlock.MemoryWrite(w), Steps(cfg, op)[j - 2])
  {
    hide Steps, ToByte, Memory, Exec1;
    StepsAbove(cfg, t.mem, op);
    var st := Steps(cfg, op)[j - 2];
    assert MicroOk(cfg, st) && 3 <= st.a;
    var u := Seqlock.Apply(cfg, t, Seqlock.MemoryWrite(w));
    WritesBody(cfg, t, u, st);
  }

  lemma WritesBody(cfg: Config, t: State, u: State, st: Micro)
    requires InRange(cfg, t) && InRange(cfg, u) && MicroOk(cfg, st) && 3 <= st.a && u.mem == Exec1(cfg, t.mem, st)
    requires u.lastVer == t.lastVer && u.newVer == t.newVer && u.lock == t.lock
    ensures Memory(cfg, u) == Exec1(cfg, Memory(cfg, t), st)
  {
    hide ToByte, SetBit, ClearBit;
  }

  lemma EndsVersion(cfg: Config, s: State, t: State, w: int, op: Op)
    requires ValidOp(cfg, op) && InRange(cfg, s) && InRange(cfg, t) && At(cfg, s, t, w, op, |Steps(cfg, op)| + 2)
    ensures Moves(cfg, s, t, w, op, |Steps(cfg, op)| + 2, Seqlock.SetLastVer(w), Store(LASTVER, ToByte(s.newVer) + 1))
  {
    hide Steps, ToByte, Memory;
    var u := Seqlock.Apply(cfg, t, Seqlock.SetLastVer(w));
    NextVersion(s.newVer);
    SetsLast(cfg, t, u);
  }

  lemma SetsLast(cfg: Config, t: State, u: State)
    requires InRange(cfg, t) && InRange(cfg, u) && u.mem == t.mem && u.newVer == t.newVer && u.lock == t.lock
    ensures Memory(cfg, u) == Memory(cfg, t)[LASTVER := ToByte(u.lastVer)]
  {
    hide ToByte;
  }

  lemma Unlocks(cfg: Config, s: State, t: State, w: int, op: Op)
    requires ValidOp(cfg, op) && InRange(cfg, s) && InRange(cfg, t) && At(cfg, s, t, w, op, |Steps(cfg, op)| + 3)
    ensures Moves(cfg, s, t, w, op, |Steps(cfg, op)| + 3, Seqlock.UnLock(w), Store(LOCK, 0))
  {
    hide Steps, ToByte, Memory;
    var u := Seqlock.Apply(cfg, t, Seqlock.UnLock(w));
    NextVersion(0);
    SetsLock(cfg, t, u);
  }

  lemma Goes(cfg: Config, s: State, t: State, w: int, op: Op, j: nat)
    requires ValidOp(cfg, op) && InRange(cfg, s) && InRange(cfg, t) && j < |Steps(cfg, op)| + 4 && At(cfg, s, t, w, op, j)
    requires s.lock == 0 && w !in s.writers
    ensures var st := WriteAt(Steps(cfg, op), ToByte(s.newVer) + 1, j);
      MicroOk(cfg, st) && Moves(cfg, s, t, w, op, j, StepAt(|Steps(cfg, op)|, w, op, j), st)
  {
    hide Steps, ToByte, Moves;
    var n := |Steps(cfg, op)|;
    if j == 0 { Locks(cfg, s, w, op); }
    else if j == 1 { TakesVersion(cfg, s, t, w, op); }
    else if j < n + 2 { Writes(cfg, s, t, w, op, j); }
    else if j == n + 2 { EndsVersion(cfg, s, t, w, op); }
    else { Unlocks(cfg, s, t, w, op); }
  }

  /** A writer that finds the lock byte free can take all its steps, and after each of them the memory of
      the page is what the writes of the update, in their order, have made of it so far. */
  lemma {:induction false} WriterRuns(cfg: Config, s: State, w: int, op: Op, j: nat)
    requires cfg.EnableCAS && ValidOp(cfg, op) && InRange(cfg, s) && s.lock == 0 && w !in s.writers && j <= |Steps(cfg, op)| + 4
    ensures Seqlock.Legal(cfg, s, WriterSteps(cfg, w, op)[..j])
    ensures var t := Seqlock.Run(cfg, s, WriterSteps(cfg, w, op)[..j]);
      && InRange(cfg, t) && At(cfg, s, t, w, op, j)
      && Traced(cfg, Memory(cfg, s), UpdateSteps(cfg, op, ToByte(s.newVer) + 1)[..j], Memory(cfg, t))
  {
    hide Memory, WriterSteps, UpdateSteps, Seqlock.Apply, Seqlock.Enabled, Steps, Traced, ToByte, StepAt, WriteAt, At, Exec1;
    var all, writes := WriterSteps(cfg, w, op), UpdateSteps(cfg, op, ToByte(s.newVer) + 1);
    if j == 0 {
      Nothing(cfg, s, w, op);
      assert all[..0] == [] && writes[..0] == [];
    } else {
      WriterRuns(cfg, s, w, op, j - 1);
      var t := Seqlock.Run(cfg, s, all[..j - 1]);
      Goes(cfg, s, t, w, op, j - 1);
      Listed(cfg, w, op, ToByte(s.newVer) + 1, j - 1);
      assert all[..j][..j - 1] == all[..j - 1];
      assert writes[..j] == writes[..j - 1] + [writes[j - 1]];
      NextTraced(cfg, Memory(cfg, s), writes[..j - 1], Memory(cfg, t), writes[j - 1]);
    }
  }

  lemma Nothing(cfg: Config, s: State, w: int, op: Op)
    requires InRange(cfg, s) && ValidOp(cfg, op)
    ensures At(cfg, s, s, w, op, 0) && Traced(cfg, Memory(cfg, s), [], Memory(cfg, s))
  {
  }

  /** A deletion that has cleared its bits can remove the page exactly if the page caches nothing any more. */
  lemma RemovesIfEmpty(cfg: Config, s: State, t: State, w: int, at: int, len: int)
    requires ValidOp(cfg, DeletePart(at, len)) && InRange(cfg, t) && At(cfg, s, t, w, DeletePart(at, len), |Steps(cfg, DeletePart(at, len))| + 2)
    ensures Seqlock.Enabled(cfg, t, Seqlock.RemovePage(w)) <==> Content(cfg, t.mem) == map[]
  {
    hide Steps, Content;
    EmptyMeaning(cfg, t.mem);
  }

  // ---- a reader ----

  function Copies(r: int, addrs: seq<int>): seq<Seqlock.Step> {
    seq(|addrs|, i requires 0 <= i < |addrs| => Seqlock.Copy(r, addrs[i]))
  }

  /** What one read attempt does, copying the bytes at some addresses in some order. */
  function ReaderSteps(r: int, addrs: seq<int>): seq<Seqlock.Step> {
    [Seqlock.ReadLastVer(r), Seqlock.CheckNewVer(r)] + Copies(r, addrs) + [Seqlock.FinalCheck(r)]
  }

  function SeenAt(mem: seq<byte>, addrs: seq<int>): seq<(int, byte)>
    requires forall i :: 0 <= i < |addrs| ==> 0 <= addrs[i] < |mem|
  {
    seq(|addrs|, i requires 0 <= i < |addrs| => (addrs[i], mem[addrs[i]]))
  }

  function Reading(s: State, r: int, q: Seqlock.Reader): State {
    s.(readers := s.readers[r := q])
  }

  lemma {:induction false} CopiesRun(cfg: Config, s: State, r: int, addrs: seq<int>)
    requires r !in s.readers && s.newVer == s.lastVer && forall i :: 0 <= i < |addrs| ==> 3 <= addrs[i] < |s.mem|
    ensures var steps := [Seqlock.ReadLastVer(r), Seqlock.CheckNewVer(r)] + Copies(r, addrs);
      && Seqlock.Legal(cfg, s, steps)
      && Seqlock.Run(cfg, s, steps) == Reading(s, r, Seqlock.Copying(s.lastVer, |s.ops|, s.started, SeenAt(s.mem, addrs)))
    decreases |addrs|
  {
    hide Seqlock.Legal, Seqlock.Run;
    if addrs == [] {
      var a := [Seqlock.ReadLastVer(r)];
      Starts(cfg, s);
      Seqlock.Extend(cfg, s, [], Seqlock.ReadLastVer(r));
      assert [] + [Seqlock.ReadLastVer(r)] == a;
      Seqlock.Extend(cfg, s, a, Seqlock.CheckNewVer(r));
      assert a + [Seqlock.CheckNewVer(r)] == [Seqlock.ReadLastVer(r), Seqlock.CheckNewVer(r)] + Copies(r, addrs);
    } else {
      var n := |addrs| - 1;
      var before := [Seqlock.ReadLastVer(r), Seqlock.CheckNewVer(r)] + Copies(r, addrs[..n]);
      CopiesRun(cfg, s, r, addrs[..n]);
      Seqlock.Extend(cfg, s, before, Seqlock.Copy(r, addrs[n]));
      assert before + [Seqlock.Copy(r, addrs[n])] == [Seqlock.ReadLastVer(r), Seqlock.CheckNewVer(r)] + Copies(r, addrs);
      assert SeenAt(s.mem, addrs) == SeenAt(s.mem, addrs[..n]) + [(addrs[n], s.mem[addrs[n]])];
    }
  }

  lemma Starts(cfg: Config, s: State)
    ensures Seqlock.Legal(cfg, s, []) && Seqlock.Run(cfg, s, []) == s
  {
  }

  /** A read of a page that nobody updates meanwhile passes its checks and has seen the page. */
  lemma QuietReadPasses(cfg: Config, s: State, r: int, addrs: seq<int>)
    requires r !in s.readers && s.newVer == s.lastVer && forall i :: 0 <= i < |addrs| ==> 3 <= addrs[i] < |s.mem|
    ensures Seqlock.Legal(cfg, s, ReaderSteps(r, addrs))
    ensures Seqlock.Run(cfg, s, ReaderSteps(r, addrs)) == Reading(s, r, Seqlock.Finished(|s.ops|, s.started, s.started, SeenAt(s.mem, addrs)))
  {
    hide Seqlock.Legal, Seqlock.Run;
    CopiesRun(cfg, s, r, addrs);
    Seqlock.Extend(cfg, s, [Seqlock.ReadLastVer(r), Seqlock.CheckNewVer(r)] + Copies(r, addrs), Seqlock.FinalCheck(r));
  }
}
