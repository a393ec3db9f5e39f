/** What the memory writes of one page update mean, run to their end. */
module PageSteps {
  import opened PageLayout
  import opened PageUpdates
  import opened PageCaches

  /** What an operation means for the content of a page. */
  ghost function Meaning(op: Op, c: map<int, byte>): map<int, byte> {
    match op
    case Write(pos, data) => c + Placed(pos, data)
    case DeletePart(at, len) => c - Window(at, len)
  }

  lemma WriteSteps(cfg: Config, m: seq<byte>, pos: nat, data: seq<byte>)
    requires IsPage(cfg, m) && FastOk(cfg, m) && pos + |data| <= cfg.PageBodySize
    ensures AllOk(cfg, Steps(cfg, Write(pos, data)))
    ensures var r := Exec(cfg, m, Steps(cfg, Write(pos, data)));
      IsPage(cfg, r) && FastOk(cfg, r) && Content(cfg, r) == Content(cfg, m) + Placed(pos, data)
  {
    hide BitAt, Content, BitmapSteps, CopySteps, FlagSteps, Exec, BitmapUpdated, Placed, AllOk;
    var copy, flag, bits := CopySteps(cfg.BodyStart() + pos, data), FlagSteps(cfg, |data|, true), BitmapSteps(cfg, pos, |data|, true);
    ExecStores(cfg, m, cfg.BodyStart() + pos, data);
    var m1 := Exec(cfg, m, copy);
    ExecFlag(cfg, m1, |data|, true);
    var m2 := Exec(cfg, m1, flag);
    ExecBitmap(cfg, m2, pos, |data|, true);
    ExecConcat(cfg, m1, flag, bits);
    ExecConcat(cfg, m, copy, flag + bits);
    BitsSame(cfg, m, m2);
    assert BodyWritten(cfg, m, m2, pos, data);
    WriteMeaning(cfg, m, m2, Exec(cfg, m2, bits), pos, data);
    FastStaysOk(cfg, m2, Exec(cfg, m2, bits), pos, |data|, true);
  }

  lemma DeleteSteps(cfg: Config, m: seq<byte>, at: nat, len: nat)
    requires IsPage(cfg, m) && FastOk(cfg, m) && at + len <= cfg.PageBodySize
    ensures AllOk(cfg, Steps(cfg, DeletePart(at, len)))
    ensures var r := Exec(cfg, m, Steps(cfg, DeletePart(at, len)));
      IsPage(cfg, r) && FastOk(cfg, r) && Content(cfg, r) == Content(cfg, m) - Window(at, len)
  {
    hide BitAt, Content, BitmapSteps, FlagSteps, Exec, BitmapUpdated, Window, AllOk;
    var flag, bits := FlagSteps(cfg, len, false), BitmapSteps(cfg, at, len, false);
    ExecFlag(cfg, m, len, false);
    var m2 := Exec(cfg, m, flag);
    ExecBitmap(cfg, m2, at, len, false);
    ExecConcat(cfg, m, flag, bits);
    DeleteMeaning(cfg, m, m2, Exec(cfg, m2, bits), at, len);
    FastStaysOk(cfg, m2, Exec(cfg, m2, bits), at, len, false);
  }

  /** Run to its end, an update turns a trustworthy page into a trustworthy page with the content
      the operation means. */
  lemma UpdateMeaning(cfg: Config, m: seq<byte>, op: Op)
    requires IsPage(cfg, m) && FastOk(cfg, m) && ValidOp(cfg, op)
    ensures AllOk(cfg, Steps(cfg, op))
    ensures var r := Exec(cfg, m, Steps(cfg, op));
      IsPage(cfg, r) && FastOk(cfg, r) && Content(cfg, r) == Meaning(op, Content(cfg, m))
  {
    match op
    case Write(pos, data) => WriteSteps(cfg, m, pos, data);
    case DeletePart(at, len) => DeleteSteps(cfg, m, at, len);
  }
}
