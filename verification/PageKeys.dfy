/** How a file key and a page index become the key of a page. */
module PageKeys {
  import D = Decimal

  const PAGE_SEPARATOR: char := 26 as char

  datatype Side = ReadSide | WriteSide

  function Suffix(side: Side): string {
    match side
    case ReadSide => "_R"
    case WriteSide => "_W"
  }

  /** Keys of at most 200 characters are used whole; longer ones are cut and hashed. */
  function Base(md5: string -> string, key: string): string {
    if |key| <= 200 then key else key[..200] + md5(key)
  }

  function GetPageKey(md5: string -> string, side: Side, key: string, pageIndex: nat): string {
    Base(md5, key) + Suffix(side) + [PAGE_SEPARATOR] + D.ToString(pageIndex)
  }

  /** Two file keys share their pages exactly when they are equal or their long forms collide. */
  predicate Collide(md5: string -> string, a: string, b: string) {
    a == b || (|a| > 200 && |b| > 200 && a[..200] + md5(a) == b[..200] + md5(b))
  }

  lemma PageKeyInjective(md5: string -> string, side: Side, a: string, i: nat, b: string, j: nat)
    requires forall s :: 0 < |md5(s)|
    ensures GetPageKey(md5, side, a, i) == GetPageKey(md5, side, b, j) <==> Collide(md5, a, b) && i == j
  {
    if GetPageKey(md5, side, a, i) == GetPageKey(md5, side, b, j) {
      SamePageKey(md5, side, a, i, b, j);
    }
  }

  lemma SamePageKey(md5: string -> string, side: Side, a: string, i: nat, b: string, j: nat)
    requires GetPageKey(md5, side, a, i) == GetPageKey(md5, side, b, j)
    ensures Base(md5, a) == Base(md5, b) && i == j
  {
    D.SplitAtLast(Base(md5, a) + Suffix(side), Base(md5, b) + Suffix(side), D.ToString(i), D.ToString(j), PAGE_SEPARATOR);
    D.ToStringInjective(i, j);
    var x, y := Base(md5, a) + Suffix(side), Base(md5, b) + Suffix(side);
    assert Base(md5, a) == x[..|x| - 2] && Base(md5, b) == y[..|y| - 2];
  }
}
