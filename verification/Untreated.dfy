/** The list of file areas written but not yet uploaded. */
module Untreated {

  datatype Part = Part(start: int, size: int, tag: int) {
    function End(): int {
      start + size
    }
  }

  predicate PartHas(p: Part, i: int) {
    p.start <= i < p.End()
  }

  ghost predicate Has(list: seq<Part>, i: int) {
    exists k :: 0 <= k < |list| && PartHas(list[k], i)
  }

  /** Non-empty parts in ascending order. */
  ghost predicate Ordered(list: seq<Part>) {
    && (forall k :: 0 <= k < |list| ==> 0 <= list[k].start && 0 < list[k].size)
    && (forall j, k :: 0 <= j < k < |list| ==> list[j].End() <= list[k].start)
  }

  /** Like Ordered, but no two parts touch, so every part is a maximal untreated area. */
  ghost predicate Apart(list: seq<Part>) {
    && (forall k :: 0 <= k < |list| ==> 0 <= list[k].start && 0 < list[k].size)
    && (forall j, k :: 0 <= j < k < |list| ==> list[j].End() < list[k].start)
  }

  /** Overlapping or adjacent areas. */
  predicate CheckOverlap(p: Part, start: int, size: int) {
    !(start < 0 || size <= 0 || p.start < 0 || p.size <= 0 || start + size < p.start || p.End() < start)
  }

  function Stretched(p: Part, start: int, size: int, tag: int): Part {
    var lo := if p.start < start then p.start else start;
    var hi := if p.End() < start + size then start + size else p.End();
    Part(lo, hi - lo, tag)
  }

  lemma HasConcat(a: seq<Part>, b: seq<Part>, i: int)
    ensures Has(a + b, i) <==> Has(a, i) || Has(b, i)
  {
    var c := a + b;
    if Has(a, i) {
      var k :| 0 <= k < |a| && PartHas(a[k], i);
      assert PartHas(c[k], i);
    }
    if Has(b, i) {
      var k :| 0 <= k < |b| && PartHas(b[k], i);
      assert PartHas(c[|a| + k], i);
    }
  }

  lemma HasOne(p: Part, i: int)
    ensures Has([p], i) <==> PartHas(p, i)
  {
    assert [p][0] == p;
  }

  /** The list with the parts lo..hi replaced by `p`. */
  function Replaced(list: seq<Part>, lo: int, hi: int, p: Part): seq<Part>
    requires 0 <= lo <= hi <= |list|
  {
    list[..lo] + [p] + list[hi..]
  }

  /** `p` is the union of the parts lo..hi and the new area, and fits between its neighbours. */
  ghost predicate Fits(list: seq<Part>, lo: int, hi: int, p: Part, start: int, size: int) {
    && 0 <= lo <= hi <= |list| && 0 <= p.start <= start && 0 < size && start + size <= p.End()
    && (forall k :: 0 <= k < lo ==> list[k].End() < p.start)
    && (forall k :: hi <= k < |list| ==> p.End() < list[k].start)
    && (forall k :: lo <= k < hi ==> p.start <= list[k].start && list[k].End() <= p.End())
    && (forall i :: PartHas(p, i) ==> start <= i < start + size || Has(list[lo..hi], i))
  }

  lemma ReplacedApart(list: seq<Part>, lo: int, hi: int, p: Part, start: int, size: int)
    requires Apart(list) && Fits(list, lo, hi, p, start, size)
    ensures Apart(Replaced(list, lo, hi, p))
  {
    var after := Replaced(list, lo, hi, p);
    forall j, k | 0 <= j < k < |after| ensures after[j].End() < after[k].start {
      if k < lo {
      } else if k == lo {
        assert after[j] == list[j];
      } else {
        assert after[k] == list[k - 1 - lo + hi];
        if j < lo { assert after[j] == list[j]; } else if lo < j { assert after[j] == list[j - 1 - lo + hi]; }
      }
    }
  }

  lemma ReplacedHas(list: seq<Part>, lo: int, hi: int, p: Part, start: int, size: int, i: int)
    requires Fits(list, lo, hi, p, start, size)
    ensures Has(Replaced(list, lo, hi, p), i) <==> Has(list, i) || start <= i < start + size
  {
    HasConcat(list[..lo] + [p], list[hi..], i);
    HasConcat(list[..lo], [p], i);
    HasOne(p, i);
    assert list == list[..lo] + list[lo..hi] + list[hi..];
    HasConcat(list[..lo] + list[lo..hi], list[hi..], i);
    HasConcat(list[..lo], list[lo..hi], i);
    if Has(list[lo..hi], i) {
      var k :| 0 <= k < hi - lo && PartHas(list[lo..hi][k], i);
      assert list[lo..hi][k] == list[lo + k];
    }
  }

  /** Tags of a list: none above `last`, at most one equal to it. */
  ghost predicate TagsOk(list: seq<Part>, last: int) {
    && (forall k :: 0 <= k < |list| ==> list[k].tag <= last)
    && (forall j, k :: 0 <= j < k < |list| ==> list[j].tag != last || list[k].tag != last)
  }

  lemma ReplacedTags(list: seq<Part>, last: int, lo: int, hi: int, p: Part)
    requires TagsOk(list, last) && 0 <= lo <= hi <= |list| && p.tag == last + 1
    ensures TagsOk(Replaced(list, lo, hi, p), last + 1)
    ensures Replaced(list, lo, hi, p)[lo] == p
  {
  }

  /** The part with the last tag contains the area. */
  ghost predicate LastHolds(list: seq<Part>, last: int, start: int, size: int) {
    exists k :: 0 <= k < |list| && list[k].tag == last && list[k].start <= start && start + size <= list[k].End()
  }

  class UntreatedParts {
    var untreated_list: seq<Part>
    var last_tag: int

    ghost predicate Valid()
      reads this
    {
      Apart(untreated_list) && TagsOk(untreated_list, last_tag)
    }

    constructor ()
      ensures Valid() && untreated_list == [] && last_tag == 0
    {
      untreated_list := [];
      last_tag := 0;
    }

    /** Stretches the part at `iter` over the new area and every following part it then reaches. */
    static method Stretch(list: seq<Part>, iter: int, start: int, size: int, tag: int) returns (p: Part, niter: int)
      requires Apart(list) && 0 <= iter < |list| && CheckOverlap(list[iter], start, size)
      requires forall k :: 0 <= k < iter ==> list[k].End() < start
      ensures iter < niter && p.tag == tag && Fits(list, iter, niter, p, start, size)
    {
      p := Stretched(list[iter], start, size, tag);
      niter := iter + 1;
      StretchCovers(list, iter, iter, list[iter], p, start, size, true);
      while niter < |list| && CheckOverlap(p, list[niter].start, list[niter].size)
        invariant iter < niter <= |list| && p.tag == tag
        invariant Growing(list, iter, niter, p, start, size)
      {
        StretchCovers(list, iter, niter, p, Stretched(p, list[niter].start, list[niter].size, tag), start, size, false);
        p := Stretched(p, list[niter].start, list[niter].size, tag);
        niter := niter + 1;
      }
    }

    /** `p` so far: like Fits, but it may still reach the next part. */
    static ghost predicate Growing(list: seq<Part>, lo: int, hi: int, p: Part, start: int, size: int) {
      && 0 <= lo < hi <= |list| && 0 <= p.start <= start && 0 < size && start + size <= p.End()
      && (forall k :: 0 <= k < lo ==> list[k].End() < p.start)
      && (forall k :: lo <= k < hi ==> p.start <= list[k].start && list[k].End() <= p.End())
      && (forall i :: PartHas(p, i) ==> start <= i < start + size || Has(list[lo..hi], i))
    }

    static lemma StretchCovers(list: seq<Part>, lo: int, n: int, p: Part, q: Part, start: int, size: int, first: bool)
      requires Apart(list) && 0 <= lo <= n < |list|
      requires first ==> n == lo && p == list[lo] && q == Stretched(p, start, size, q.tag) && CheckOverlap(p, start, size)
      requires first ==> forall k :: 0 <= k < lo ==> list[k].End() < start
      requires !first ==> lo < n && Growing(list, lo, n, p, start, size)
      requires !first ==> q == Stretched(p, list[n].start, list[n].size, q.tag) && CheckOverlap(p, list[n].start, list[n].size)
      ensures Growing(list, lo, n + 1, q, start, size)
    {
      assert list[lo..n + 1] == list[lo..n] + [list[n]];
      forall i | PartHas(q, i) ensures start <= i < start + size || Has(list[lo..n + 1], i) {
        HasConcat(list[lo..n], [list[n]], i);
        HasOne(list[n], i);
      }
    }

    /** Adds an area, merging it with every part it overlaps or touches; the part it ends up in
        becomes the last updated one. */
    method AddPart(start: int, size: int) returns (ok: bool)
      requires Valid()
      modifies this
      ensures Valid() && ok == (0 <= start && 0 < size)
      ensures !ok ==> untreated_list == old(untreated_list) && last_tag == old(last_tag)
      ensures ok ==> forall i :: Has(untreated_list, i) <==> Has(old(untreated_list), i) || start <= i < start + size
      ensures ok ==> LastHolds(untreated_list, last_tag, start, size)
    {
      if start < 0 || size <= 0 { return false; }
      last_tag := last_tag + 1;
      var iter := 0;
      while iter < |untreated_list|
        invariant 0 <= iter <= |untreated_list| && untreated_list == old(untreated_list)
        invariant forall k :: 0 <= k < iter ==> untreated_list[k].End() < start
      {
        if CheckOverlap(untreated_list[iter], start, size) {
          var p, niter := Stretch(untreated_list, iter, start, size, last_tag);
          Put(iter, niter, p, start, size);
          return true;
        } else if start + size < untreated_list[iter].start {
          Put(iter, iter, Part(start, size, last_tag), start, size);
          return true;
        }
        iter := iter + 1;
      }
      Put(iter, iter, Part(start, size, last_tag), start, size);
      ok := true;
    }

    /** Puts the merged part in place of the parts lo..hi. */
    method Put(lo: int, hi: int, p: Part, ghost start: int, ghost size: int)
      requires Apart(untreated_list) && TagsOk(untreated_list, last_tag - 1) && p.tag == last_tag
      requires Fits(untreated_list, lo, hi, p, start, size)
      modifies this`untreated_list
      ensures Valid()
      ensures forall i :: Has(untreated_list, i) <==> Has(old(untreated_list), i) || start <= i < start + size
      ensures LastHolds(untreated_list, last_tag, start, size)
    {
      hide Apart, Has;
      ReplacedApart(untreated_list, lo, hi, p, start, size);
      ReplacedTags(untreated_list, last_tag - 1, lo, hi, p);
      forall i ensures Has(Replaced(untreated_list, lo, hi, p), i) <==> Has(untreated_list, i) || start <= i < start + size {
        ReplacedHas(untreated_list, lo, hi, p, start, size, i);
      }
      untreated_list := untreated_list[..lo] + [p] + untreated_list[hi..];
    }

    /** Position of the last updated part, or the length of the list when there is none. */
    method FindLast() returns (iter: int)
      requires Valid()
      ensures 0 <= iter <= |untreated_list|
      ensures iter < |untreated_list| ==> untreated_list[iter].tag == last_tag
      ensures iter == |untreated_list| ==> forall k :: 0 <= k < |untreated_list| ==> untreated_list[k].tag != last_tag
    {
      iter := 0;
      while iter < |untreated_list|
        invariant 0 <= iter <= |untreated_list|
        invariant forall k :: 0 <= k < iter ==> untreated_list[k].tag != last_tag
      {
        if untreated_list[iter].tag == last_tag { return; }
        iter := iter + 1;
      }
    }

    method GetLastUpdatePart() returns (found: bool, start: int, size: int)
      requires Valid()
      ensures found <==> exists k :: 0 <= k < |untreated_list| && untreated_list[k].tag == last_tag
      ensures found ==> exists k :: 0 <= k < |untreated_list| && untreated_list[k] == Part(start, size, last_tag)
    {
      var iter := FindLast();
      if iter == |untreated_list| { return false, 0, 0; }
      assert untreated_list[iter] == Part(untreated_list[iter].start, untreated_list[iter].size, last_tag);
      return true, untreated_list[iter].start, untreated_list[iter].size;
    }

    /** Puts another area in place of the last updated part, or drops it when the size is not positive.
        An area inside the part keeps the list in order. */
    method ReplaceLastUpdatePart(start: int, size: int) returns (ok: bool, ghost k: int)
      requires Valid()
      modifies this`untreated_list
      ensures size <= 0 || Inside(old(untreated_list), last_tag, start, size) ==> Valid()
      ensures ok <==> exists j :: 0 <= j < |old(untreated_list)| && old(untreated_list)[j].tag == last_tag
      ensures !ok ==> untreated_list == old(untreated_list)
      ensures ok ==> 0 <= k < |old(untreated_list)| && old(untreated_list)[k].tag == last_tag
      ensures ok ==> forall i :: Has(untreated_list, i) <==>
        (Has(old(untreated_list), i) && !PartHas(old(untreated_list)[k], i)) || start <= i < start + size
    {
      var iter := FindLast();
      k := iter;
      if iter == |untreated_list| { return false, k; }
      ghost var before := untreated_list;
      if 0 < size {
        untreated_list := untreated_list[iter := Part(start, size, untreated_list[iter].tag)];
        forall i ensures Has(untreated_list, i) <==> (Has(before, i) && !PartHas(before[k], i)) || start <= i < start + size {
          UpdatedHas(before, k, Part(start, size, last_tag), i);
        }
      } else {
        untreated_list := untreated_list[..iter] + untreated_list[iter + 1..];
        forall i ensures Has(untreated_list, i) <==> Has(before, i) && !PartHas(before[k], i) {
          RemovedHas(before, k, i);
        }
      }
      ok := true;
    }

    static ghost predicate Inside(list: seq<Part>, tag: int, start: int, size: int) {
      forall j :: 0 <= j < |list| && list[j].tag == tag ==> list[j].start <= start && start + size <= list[j].End()
    }

    method RemoveLastUpdatePart() returns (ok: bool, ghost k: int)
      requires Valid()
      modifies this`untreated_list
      ensures Valid()
      ensures ok <==> exists j :: 0 <= j < |old(untreated_list)| && old(untreated_list)[j].tag == last_tag
      ensures !ok ==> untreated_list == old(untreated_list)
      ensures ok ==> 0 <= k < |old(untreated_list)| && old(untreated_list)[k].tag == last_tag
      ensures ok ==> forall i :: Has(untreated_list, i) <==> Has(old(untreated_list), i) && !PartHas(old(untreated_list)[k], i)
    {
      ok, k := ReplaceLastUpdatePart(0, 0);
    }

    method ClearAll()
      requires Valid()
      modifies this`untreated_list
      ensures Valid() && untreated_list == []
    {
      untreated_list := [];
    }
  }

  lemma RemovedHas(list: seq<Part>, k: int, i: int)
    requires Apart(list) && 0 <= k < |list|
    ensures Has(list[..k] + list[k + 1..], i) <==> Has(list, i) && !PartHas(list[k], i)
  {
    HasConcat(list[..k], list[k + 1..], i);
    assert list == list[..k] + [list[k]] + list[k + 1..];
    HasConcat(list[..k] + [list[k]], list[k + 1..], i);
    HasConcat(list[..k], [list[k]], i);
    HasOne(list[k], i);
    assert forall j :: 0 <= j < k ==> list[..k][j] == list[j];
    assert forall j :: k < j < |list| ==> list[k + 1..][j - k - 1] == list[j];
  }

  lemma UpdatedHas(list: seq<Part>, k: int, p: Part, i: int)
    requires Apart(list) && 0 <= k < |list|
    ensures Has(list[k := p], i) <==> (Has(list, i) && !PartHas(list[k], i)) || PartHas(p, i)
  {
    RemovedHas(list, k, i);
    assert list[k := p] == list[..k] + [p] + list[k + 1..];
    HasConcat(list[..k] + [p], list[k + 1..], i);
    HasConcat(list[..k], [p], i);
    HasConcat(list[..k], list[k + 1..], i);
    HasOne(p, i);
  }
}
