/** The memory of one cache page: meta bytes, validity bitmap, body. */
module PageLayout {

  type byte = bv8

  // Positions of the meta bytes.
  const LOCK := 0
  const LASTVER := 1
  const NEWVER := 2
  const FAST_BITMAP := 3

  datatype Config = Config(PageBodySize: nat, PageMetaSize: nat, EnableCAS: bool, SafeMode: bool) {
    /** What the configuration check demands, plus room for the four meta bytes. */
    predicate Valid() {
      PageBodySize % 8 == 0 && 3 < PageMetaSize
    }

    function BitmapSize(): (n: nat) {
      PageBodySize / 8
    }

    function RealPageSize(): (n: nat) {
      PageMetaSize + BitmapSize() + PageBodySize
    }

    function BodyStart(): (n: nat) {
      PageMetaSize + BitmapSize()
    }
  }

  // ---- bits of one byte ----

  function Mask(n: int): byte
    requires 0 <= n < 8
  {
    match n
    case 0 => 1
    case 1 => 2
    case 2 => 4
    case 3 => 8
    case 4 => 16
    case 5 => 32
    case 6 => 64
    case 7 => 128
  }

  predicate GetBit(x: byte, n: int)
    requires 0 <= n < 8
  {
    x & Mask(n) != 0
  }

  /** Bit n counts from the lowest. */
  lemma BitIsShifted(x: byte, n: nat)
    requires n < 8
    ensures GetBit(x, n) <==> (x >> n) & 1 == 1
  {
    match n
    case 0 =>
    case 1 =>
    case 2 =>
    case 3 =>
    case 4 =>
    case 5 =>
    case 6 =>
    case 7 =>
  }

  function SetBit(x: byte, n: int): (y: byte)
    requires 0 <= n < 8
    ensures forall m :: 0 <= m < 8 ==> (GetBit(y, m) <==> m == n || GetBit(x, m))
  {
    x | Mask(n)
  }

  function ClearBit(x: byte, n: int): (y: byte)
    requires 0 <= n < 8
    ensures forall m :: 0 <= m < 8 ==> (GetBit(y, m) <==> m != n && GetBit(x, m))
  {
    x & !Mask(n)
  }

  lemma FullByte(x: byte)
    ensures x == 255 <==> forall n :: 0 <= n < 8 ==> GetBit(x, n)
  {
    if forall n :: 0 <= n < 8 ==> GetBit(x, n) {
      assert GetBit(x, 0) && GetBit(x, 1) && GetBit(x, 2) && GetBit(x, 3);
      assert GetBit(x, 4) && GetBit(x, 5) && GetBit(x, 6) && GetBit(x, 7);
    }
  }

  lemma EmptyByte(x: byte)
    ensures x == 0 <==> forall n :: 0 <= n < 8 ==> !GetBit(x, n)
  {
    if forall n :: 0 <= n < 8 ==> !GetBit(x, n) {
      assert !GetBit(x, 0) && !GetBit(x, 1) && !GetBit(x, 2) && !GetBit(x, 3);
      assert !GetBit(x, 4) && !GetBit(x, 5) && !GetBit(x, 6) && !GetBit(x, 7);
    }
  }

  // ---- the page as a value ----

  ghost predicate IsPage(cfg: Config, m: seq<byte>) {
    cfg.Valid() && |m| == cfg.RealPageSize()
  }

  /** Whether body offset `i` holds cached data. */
  ghost predicate BitAt(cfg: Config, m: seq<byte>, i: int)
    requires IsPage(cfg, m) && 0 <= i < cfg.PageBodySize
  {
    GetBit(m[cfg.PageMetaSize + i / 8], i % 8)
  }

  ghost function BodyAt(cfg: Config, m: seq<byte>, i: int): byte
    requires IsPage(cfg, m) && 0 <= i < cfg.PageBodySize
  {
    m[cfg.BodyStart() + i]
  }

  /** The meaning of a page: the cached offsets with their bytes. */
  ghost function Content(cfg: Config, m: seq<byte>): (c: map<int, byte>)
    requires IsPage(cfg, m)
  {
    map i: int | 0 <= i < cfg.PageBodySize && BitAt(cfg, m, i) :: BodyAt(cfg, m, i)
  }

  /** The invariant that lets readers trust the fast flag. */
  ghost predicate FastOk(cfg: Config, m: seq<byte>)
    requires IsPage(cfg, m)
  {
    m[FAST_BITMAP] == 1 ==> forall i :: 0 <= i < cfg.PageBodySize ==> BitAt(cfg, m, i)
  }
}
