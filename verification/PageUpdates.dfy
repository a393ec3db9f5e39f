/** The memory writes of one page update, one by one, in program order, and what they do to the bitmap. */
module PageUpdates {
  import opened PageLayout

  datatype Op = Write(pos: int, data: seq<byte>) | DeletePart(at: int, len: int)

  predicate ValidOp(cfg: Config, op: Op) {
    match op
    case Write(pos, data) => 0 <= pos && pos + |data| <= cfg.PageBodySize
    case DeletePart(at, len) => 0 <= at && 0 <= len && at + len <= cfg.PageBodySize
  }

  // ---- single writes ----

  /** A byte stored, or one bit of a byte changed. */
  datatype Micro = Store(a: int, v: byte) | Bit(a: int, n: int, valid: bool)

  predicate MicroOk(cfg: Config, st: Micro) {
    0 <= st.a < cfg.RealPageSize() && (st.Bit? ==> 0 <= st.n < 8)
  }

  function Exec1(cfg: Config, m: seq<byte>, st: Micro): (r: seq<byte>)
    requires |m| == cfg.RealPageSize() && MicroOk(cfg, st)
    ensures |r| == |m|
  {
    match st
    case Store(a, v) => m[a := v]
    case Bit(a, n, valid) => m[a := if valid then SetBit(m[a], n) else ClearBit(m[a], n)]
  }

  ghost predicate AllOk(cfg: Config, steps: seq<Micro>) {
    forall k :: 0 <= k < |steps| ==> MicroOk(cfg, steps[k])
  }

  ghost function Exec(cfg: Config, m: seq<byte>, steps: seq<Micro>): (r: seq<byte>)
    requires |m| == cfg.RealPageSize() && AllOk(cfg, steps)
    ensures |r| == |m|
  {
    if steps == [] then m else Exec1(cfg, Exec(cfg, m, steps[..|steps| - 1]), steps[|steps| - 1])
  }

  lemma {:induction false} ExecConcat(cfg: Config, m: seq<byte>, a: seq<Micro>, b: seq<Micro>)
    requires |m| == cfg.RealPageSize() && AllOk(cfg, a) && AllOk(cfg, b)
    ensures AllOk(cfg, a + b)
    ensures Exec(cfg, m, a + b) == Exec(cfg, Exec(cfg, m, a), b)
    decreases |b|
  {
    if b == [] {
      assert a + b == a;
    } else {
      var n := |b| - 1;
      ExecConcat(cfg, m, a, b[..n]);
      assert (a + b)[..|a + b| - 1] == a + b[..n];
    }
  }

  /** The writes, in this order, lead from one memory of the page to the other. */
  ghost predicate Traced(cfg: Config, m0: seq<byte>, trace: seq<Micro>, m1: seq<byte>) {
    |m0| == cfg.RealPageSize() && AllOk(cfg, trace) && m1 == Exec(cfg, m0, trace)
  }

  lemma NextTraced(cfg: Config, m0: seq<byte>, before: seq<Micro>, m: seq<byte>, st: Micro)
    requires Traced(cfg, m0, before, m) && MicroOk(cfg, st)
    ensures Traced(cfg, m0, before + [st], Exec1(cfg, m, st))
  {
    assert (before + [st])[..|before|] == before;
  }

  lemma TracedEnd(cfg: Config, m0: seq<byte>, trace: seq<Micro>, m1: seq<byte>)
    requires Traced(cfg, m0, trace, m1)
    ensures |m0| == cfg.RealPageSize() && AllOk(cfg, trace) && m1 == Exec(cfg, m0, trace)
  {
  }

  lemma TracedConcat(cfg: Config, m0: seq<byte>, a: seq<Micro>, m1: seq<byte>, b: seq<Micro>, m2: seq<byte>)
    requires Traced(cfg, m0, a, m1) && Traced(cfg, m1, b, m2)
    ensures Traced(cfg, m0, a + b, m2)
  {
    ExecConcat(cfg, m0, a, b);
  }

  // ---- the bitmap ----

  /** One byte of the bitmap before and after the bits [pos, pos+len) are set to `valid`. */
  ghost predicate ByteUpdated(before: byte, after: byte, base: int, pos: int, len: int, valid: bool) {
    forall n :: 0 <= n < 8 ==>
      (GetBit(after, n) <==> if pos <= base + n < pos + len then valid else GetBit(before, n))
  }

  /** Exactly the bits [pos, pos+len) became `valid`; all other memory is as before. */
  ghost predicate BitmapUpdated(cfg: Config, m0: seq<byte>, m1: seq<byte>, pos: int, len: int, valid: bool) {
    && IsPage(cfg, m0) && |m1| == |m0|
    && (forall a :: 0 <= a < |m0| && !(cfg.PageMetaSize <= a < cfg.BodyStart()) ==> m1[a] == m0[a])
    && (forall a :: cfg.PageMetaSize <= a < cfg.BodyStart() ==>
          ByteUpdated(m0[a], m1[a], (a - cfg.PageMetaSize) * 8, pos, len, valid))
  }

  lemma UpdatesCompose(cfg: Config, m0: seq<byte>, m1: seq<byte>, m2: seq<byte>, pos: int, len1: nat, len2: nat, valid: bool)
    requires BitmapUpdated(cfg, m0, m1, pos, len1, valid)
    requires BitmapUpdated(cfg, m1, m2, pos + len1, len2, valid)
    ensures BitmapUpdated(cfg, m0, m2, pos, len1 + len2, valid)
  {
    forall a | cfg.PageMetaSize <= a < cfg.BodyStart()
      ensures ByteUpdated(m0[a], m2[a], (a - cfg.PageMetaSize) * 8, pos, len1 + len2, valid)
    {
      assert ByteUpdated(m0[a], m1[a], (a - cfg.PageMetaSize) * 8, pos, len1, valid);
      assert ByteUpdated(m1[a], m2[a], (a - cfg.PageMetaSize) * 8, pos + len1, len2, valid);
    }
  }

  /** Byte view to bit view. */
  lemma BitsAfterUpdate(cfg: Config, m0: seq<byte>, m1: seq<byte>, pos: int, len: int, valid: bool, i: int)
    requires BitmapUpdated(cfg, m0, m1, pos, len, valid) && 0 <= i < cfg.PageBodySize
    ensures BitAt(cfg, m1, i) <==> if pos <= i < pos + len then valid else BitAt(cfg, m0, i)
  {
    var a := cfg.PageMetaSize + i / 8;
    assert ByteUpdated(m0[a], m1[a], (a - cfg.PageMetaSize) * 8, pos, len, valid);
  }

  lemma FilledBytes(cfg: Config, m0: seq<byte>, m1: seq<byte>, at: int, n: int, valid: bool)
    requires IsPage(cfg, m0) && |m1| == |m0|
    requires cfg.PageMetaSize <= at && 0 <= n && at + n <= cfg.BodyStart()
    requires forall a :: 0 <= a < |m0| ==> m1[a] == if at <= a < at + n then (if valid then 255 else 0) else m0[a]
    ensures BitmapUpdated(cfg, m0, m1, (at - cfg.PageMetaSize) * 8, n * 8, valid)
  {
    FullByte(255);
    EmptyByte(0);
  }

  // ---- the pieces of an update, in the order the code performs them ----

  /** The bits first..first+n of one byte, highest first. */
  function BitSteps(at: int, first: int, n: nat, valid: bool): seq<Micro> {
    seq(n, i requires 0 <= i < n => Bit(at, first + n - 1 - i, valid))
  }

  function FillSteps(at: int, n: nat, v: byte): seq<Micro> {
    seq(n, i requires 0 <= i < n => Store(at + i, v))
  }

  function CopySteps(at: int, data: seq<byte>): seq<Micro> {
    seq(|data|, i requires 0 <= i < |data| => Store(at + i, data[i]))
  }

  function HeadLen(pos: int, len: nat): (n: nat)
    requires 0 <= pos
    ensures n <= len && n <= 8 - pos % 8 && (n < len ==> (pos + n) % 8 == 0)
  {
    if pos % 8 == 0 then 0 else if 8 - pos % 8 > len then len else 8 - pos % 8
  }

  function HeadSteps(cfg: Config, pos: nat, len: nat, valid: bool): seq<Micro> {
    BitSteps(cfg.PageMetaSize + pos / 8, pos % 8, HeadLen(pos, len), valid)
  }

  function MidSteps(cfg: Config, pos: nat, len: nat, valid: bool): seq<Micro> {
    FillSteps(cfg.PageMetaSize + pos / 8, len / 8, if valid then 255 else 0)
  }

  function TailSteps(cfg: Config, pos: nat, len: nat, valid: bool): seq<Micro> {
    BitSteps(cfg.PageMetaSize + pos / 8, 0, len, valid)
  }

  /** Head bits, whole bytes, tail bits of a bitmap update. */
  function BitmapSteps(cfg: Config, pos: nat, len: nat, valid: bool): seq<Micro> {
    var p1 := pos + HeadLen(pos, len);
    var n1 := len - HeadLen(pos, len);
    HeadSteps(cfg, pos, len, valid) + MidSteps(cfg, p1, n1, valid) + TailSteps(cfg, p1 + n1 / 8 * 8, n1 % 8, valid)
  }

  function FlagSteps(cfg: Config, len: nat, valid: bool): seq<Micro> {
    if valid then if len == cfg.PageBodySize then [Store(FAST_BITMAP, 1)] else [] else [Store(FAST_BITMAP, 0)]
  }

  function Steps(cfg: Config, op: Op): seq<Micro>
    requires ValidOp(cfg, op)
  {
    match op
    case Write(pos, data) =>
      CopySteps(cfg.BodyStart() + pos, data) + (FlagSteps(cfg, |data|, true) + BitmapSteps(cfg, pos, |data|, true))
    case DeletePart(at, len) =>
      FlagSteps(cfg, len, false) + BitmapSteps(cfg, at, len, false)
  }

  // ---- what the pieces do ----

  /** One more bit of the same byte, in front of those already changed. */
  lemma BitMore(cfg: Config, m: seq<byte>, m1: seq<byte>, at: int, first: int, n: nat, valid: bool)
    requires IsPage(cfg, m) && cfg.PageMetaSize <= at < cfg.BodyStart() && 0 <= first && 0 < n && first + n <= 8
    requires BitmapUpdated(cfg, m, m1, (at - cfg.PageMetaSize) * 8 + first + 1, n - 1, valid)
    ensures BitmapUpdated(cfg, m, Exec1(cfg, m1, Bit(at, first, valid)), (at - cfg.PageMetaSize) * 8 + first, n, valid)
  {
    hide GetBit, SetBit, ClearBit;
    var m2 := Exec1(cfg, m1, Bit(at, first, valid));
    forall a | cfg.PageMetaSize <= a < cfg.BodyStart()
      ensures ByteUpdated(m[a], m2[a], (a - cfg.PageMetaSize) * 8, (at - cfg.PageMetaSize) * 8 + first, n, valid)
    {
      assert ByteUpdated(m[a], m1[a], (a - cfg.PageMetaSize) * 8, (at - cfg.PageMetaSize) * 8 + first + 1, n - 1, valid);
    }
  }

  lemma {:induction false} ExecBits(cfg: Config, m: seq<byte>, at: int, first: int, n: nat, valid: bool)
    requires IsPage(cfg, m) && cfg.PageMetaSize <= at && 0 <= first && first + n <= 8 && (n > 0 ==> at < cfg.BodyStart())
    ensures AllOk(cfg, BitSteps(at, first, n, valid))
    ensures BitmapUpdated(cfg, m, Exec(cfg, m, BitSteps(at, first, n, valid)), (at - cfg.PageMetaSize) * 8 + first, n, valid)
    decreases n
  {
    hide BitmapUpdated, Exec1;
    var s := BitSteps(at, first, n, valid);
    if n > 0 {
      ExecBits(cfg, m, at, first + 1, n - 1, valid);
      assert s[..n - 1] == BitSteps(at, first + 1, n - 1, valid);
      BitMore(cfg, m, Exec(cfg, m, s[..n - 1]), at, first, n, valid);
    } else {
      NothingUpdated(cfg, m, (at - cfg.PageMetaSize) * 8 + first, valid);
    }
  }

  lemma NothingUpdated(cfg: Config, m: seq<byte>, pos: int, valid: bool)
    requires IsPage(cfg, m)
    ensures BitmapUpdated(cfg, m, m, pos, 0, valid)
  {
  }

  lemma {:induction false} ExecStores(cfg: Config, m: seq<byte>, at: int, data: seq<byte>)
    requires |m| == cfg.RealPageSize() && 0 <= at && at + |data| <= |m|
    ensures AllOk(cfg, CopySteps(at, data))
    ensures forall a :: 0 <= a < |m| ==>
      Exec(cfg, m, CopySteps(at, data))[a] == if at <= a < at + |data| then data[a - at] else m[a]
    decreases |data|
  {
    var s := CopySteps(at, data);
    if data != [] {
      var n := |data| - 1;
      ExecStores(cfg, m, at, data[..n]);
      assert s[..n] == CopySteps(at, data[..n]);
      assert Exec(cfg, m, s) == Exec(cfg, m, s[..n])[at + n := data[n]];
    }
  }

  lemma FillIsCopy(at: int, n: nat, v: byte)
    ensures FillSteps(at, n, v) == CopySteps(at, seq(n, i => v))
  {
  }

  lemma ExecFill(cfg: Config, m: seq<byte>, at: int, n: nat, valid: bool)
    requires IsPage(cfg, m) && cfg.PageMetaSize <= at && at + n <= cfg.BodyStart()
    ensures AllOk(cfg, FillSteps(at, n, if valid then 255 else 0))
    ensures BitmapUpdated(cfg, m, Exec(cfg, m, FillSteps(at, n, if valid then 255 else 0)), (at - cfg.PageMetaSize) * 8, n * 8, valid)
  {
    var v: byte := if valid then 255 else 0;
    var data := seq(n, i => v);
    assert FillSteps(at, n, v) == CopySteps(at, data);
    ExecStores(cfg, m, at, data);
    assert |data| == n && forall i :: 0 <= i < n ==> data[i] == v;
    FilledBytes(cfg, m, Exec(cfg, m, FillSteps(at, n, v)), at, n, valid);
  }

  lemma ExecHead(cfg: Config, m: seq<byte>, pos: nat, len: nat, valid: bool)
    requires IsPage(cfg, m) && pos + len <= cfg.PageBodySize
    ensures AllOk(cfg, HeadSteps(cfg, pos, len, valid))
    ensures BitmapUpdated(cfg, m, Exec(cfg, m, HeadSteps(cfg, pos, len, valid)), pos, HeadLen(pos, len), valid)
  {
    hide BitmapUpdated, BitSteps, Exec;
    ExecBits(cfg, m, cfg.PageMetaSize + pos / 8, pos % 8, HeadLen(pos, len), valid);
  }

  lemma ExecMid(cfg: Config, m: seq<byte>, pos: nat, len: nat, valid: bool)
    requires IsPage(cfg, m) && pos + len <= cfg.PageBodySize && (len > 0 ==> pos % 8 == 0)
    ensures AllOk(cfg, MidSteps(cfg, pos, len, valid))
    ensures BitmapUpdated(cfg, m, Exec(cfg, m, MidSteps(cfg, pos, len, valid)), pos, len / 8 * 8, valid)
  {
    hide BitmapUpdated, FillSteps, Exec;
    ExecFill(cfg, m, cfg.PageMetaSize + pos / 8, len / 8, valid);
    BitmapAt(cfg, m, Exec(cfg, m, MidSteps(cfg, pos, len, valid)), pos / 8 * 8, pos, len / 8 * 8, valid);
  }

  lemma ExecTail(cfg: Config, m: seq<byte>, pos: nat, len: nat, valid: bool)
    requires IsPage(cfg, m) && pos + len <= cfg.PageBodySize && len < 8 && (len > 0 ==> pos % 8 == 0)
    ensures AllOk(cfg, TailSteps(cfg, pos, len, valid))
    ensures BitmapUpdated(cfg, m, Exec(cfg, m, TailSteps(cfg, pos, len, valid)), pos, len, valid)
  {
    hide BitmapUpdated, BitSteps, Exec;
    ExecBits(cfg, m, cfg.PageMetaSize + pos / 8, 0, len, valid);
    BitmapAt(cfg, m, Exec(cfg, m, TailSteps(cfg, pos, len, valid)), pos / 8 * 8, pos, len, valid);
  }

  lemma ExecBitmap(cfg: Config, m: seq<byte>, pos: nat, len: nat, valid: bool)
    requires IsPage(cfg, m) && pos + len <= cfg.PageBodySize
    ensures AllOk(cfg, BitmapSteps(cfg, pos, len, valid))
    ensures BitmapUpdated(cfg, m, Exec(cfg, m, BitmapSteps(cfg, pos, len, valid)), pos, len, valid)
  {
    hide BitmapUpdated, Exec, HeadSteps, MidSteps, TailSteps, HeadLen, AllOk;
    var head, p1, n1, mid, rest := Split(pos, len);
    ExecHead(cfg, m, pos, len, valid);
    var m1 := Exec(cfg, m, HeadSteps(cfg, pos, len, valid));
    ExecMid(cfg, m1, p1, n1, valid);
    var m2 := Exec(cfg, m1, MidSteps(cfg, p1, n1, valid));
    ExecTail(cfg, m2, p1 + mid, rest, valid);
    var m3 := Exec(cfg, m2, TailSteps(cfg, p1 + mid, rest, valid));
    UpdatesCompose(cfg, m, m1, m2, pos, head, mid, valid);
    UpdatesCompose(cfg, m, m2, m3, pos, head + mid, rest, valid);
    ExecConcat(cfg, m, HeadSteps(cfg, pos, len, valid), MidSteps(cfg, p1, n1, valid));
    ExecConcat(cfg, m, HeadSteps(cfg, pos, len, valid) + MidSteps(cfg, p1, n1, valid), TailSteps(cfg, p1 + mid, rest, valid));
  }

  /** Head bits, whole bytes and tail bits of an update. */
  lemma Split(pos: nat, len: nat) returns (head: nat, p1: nat, n1: nat, mid: nat, rest: nat)
    ensures head == HeadLen(pos, len) && p1 == pos + head && n1 == len - head && mid == n1 / 8 * 8 && rest == n1 % 8
    ensures head + n1 == len && mid + rest == n1 && rest < 8 && (n1 > 0 ==> p1 % 8 == 0) && (rest > 0 ==> (p1 + mid) % 8 == 0)
  {
    head := HeadLen(pos, len);
    p1, n1 := pos + head, len - head;
    mid, rest := n1 / 8 * 8, n1 % 8;
  }

  /** An update of `n` bits may be read at any start that agrees when there are bits at all. */
  lemma BitmapAt(cfg: Config, m0: seq<byte>, m1: seq<byte>, p: int, q: int, n: int, valid: bool)
    requires BitmapUpdated(cfg, m0, m1, p, n, valid) && (n > 0 ==> p == q)
    ensures BitmapUpdated(cfg, m0, m1, q, n, valid)
  {
    forall a | cfg.PageMetaSize <= a < cfg.BodyStart()
      ensures ByteUpdated(m0[a], m1[a], (a - cfg.PageMetaSize) * 8, q, n, valid)
    {
      assert ByteUpdated(m0[a], m1[a], (a - cfg.PageMetaSize) * 8, p, n, valid);
    }
  }

  lemma ExecFlag(cfg: Config, m: seq<byte>, len: nat, valid: bool)
    requires IsPage(cfg, m)
    ensures AllOk(cfg, FlagSteps(cfg, len, valid))
    ensures Exec(cfg, m, FlagSteps(cfg, len, valid)) ==
      if !valid then m[FAST_BITMAP := 0] else if len == cfg.PageBodySize then m[FAST_BITMAP := 1] else m
  {
    var s := FlagSteps(cfg, len, valid);
    assert |s| > 0 ==> s[..|s| - 1] == [];
  }

  // ---- the whole update ----

  /** All writes of an update of a page: with versions on, take the lock byte, the new version, the
      bytes of the operation, the last version, and give the lock byte back. */
  function UpdateSteps(cfg: Config, op: Op, v: byte): seq<Micro>
    requires ValidOp(cfg, op)
  {
    if cfg.EnableCAS then BeginSteps(v) + Steps(cfg, op) + EndSteps(v) else Steps(cfg, op)
  }

  function BeginSteps(v: byte): seq<Micro> {
    [Store(LOCK, 1), Store(NEWVER, v)]
  }

  function EndSteps(v: byte): seq<Micro> {
    [Store(LASTVER, v), Store(LOCK, 0)]
  }
}
