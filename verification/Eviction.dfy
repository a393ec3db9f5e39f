/** Choosing which stat cache entries to evict. */
module Eviction {
  import opened Sets

  /** Seconds and nanoseconds. */
  datatype Time = Time(sec: int, nsec: int)

  datatype Entry = Entry(date: Time, hitCount: nat, noObject: bool, notruncate: nat)

  /** Negative, zero or positive as `a` is before, at or after `b`. */
  function CompareTime(a: Time, b: Time): int {
    if a.sec < b.sec then -1
    else if a.sec > b.sec then 1
    else if a.nsec < b.nsec then -1
    else if a.nsec > b.nsec then 1
    else 0
  }

  /** Earlier date, or the same date and fewer hits. */
  predicate Older(a: Entry, b: Entry) {
    var c := CompareTime(a.date, b.date);
    c < 0 || (c == 0 && a.hitCount < b.hitCount)
  }

  /** What eviction promises of an entry that goes and one that stays: the date, in seconds and then
      nanoseconds, is no later, and on the same date the hits are no more. */
  ghost predicate UpTo(x: Entry, y: Entry) {
    || x.date.sec < y.date.sec
    || (x.date.sec == y.date.sec && x.date.nsec < y.date.nsec)
    || (x.date.sec == y.date.sec && x.date.nsec == y.date.nsec && x.hitCount <= y.hitCount)
  }

  type Cache = map<string, Entry>

  ghost predicate Known(cache: Cache, list: seq<string>) {
    forall k :: 0 <= k < |list| ==> list[k] in cache
  }

  /** Ascending by age. */
  ghost predicate Sorted(cache: Cache, list: seq<string>)
    requires Known(cache, list)
  {
    forall j, k :: 0 <= j < k < |list| ==> UpTo(cache[list[j]], cache[list[k]])
  }

  ghost predicate Distinct(list: seq<string>) {
    forall j, k :: 0 <= j < k < |list| ==> list[j] != list[k]
  }

  /** The same names, each once. */
  ghost predicate SameNames(a: seq<string>, b: seq<string>) {
    |a| == |b| && (Distinct(a) ==> Distinct(b)) && forall x :: x in a <==> x in b
  }

  lemma InsertedNames(list: seq<string>, pos: nat, x: string)
    requires pos <= |list|
    ensures SameNames(list + [x], list[..pos] + [x] + list[pos..])
  {
    var a, b := list + [x], list[..pos] + [x] + list[pos..];
    assert list == list[..pos] + list[pos..];
    assert b[pos] == x && a[|list|] == x;
    if Distinct(a) {
      forall j, k | 0 <= j < k < |b| ensures b[j] != b[k] {
        var j1 := if j < pos then j else if j == pos then |list| else j - 1;
        var k1 := if k < pos then k else if k == pos then |list| else k - 1;
        assert a[j1] == b[j] && a[k1] == b[k] && j1 != k1;
      }
    }
  }

  /** Sorts a list of entries by age. */
  method Sort(cache: Cache, list: seq<string>) returns (sorted: seq<string>)
    requires Known(cache, list)
    ensures SameNames(list, sorted) && Known(cache, sorted) && Sorted(cache, sorted)
  {
    sorted := [];
    var i := 0;
    while i < |list|
      invariant 0 <= i <= |list| && SameNames(list[..i], sorted) && Known(cache, sorted) && Sorted(cache, sorted)
    {
      var x, pos := list[i], |sorted|;
      while pos > 0 && Older(cache[x], cache[sorted[pos - 1]])
        invariant 0 <= pos <= |sorted|
        invariant forall k :: pos <= k < |sorted| ==> Older(cache[x], cache[sorted[k]])
      {
        pos := pos - 1;
      }
      InsertedNames(sorted, pos, x);
      NextNames(list, i, sorted);
      InsertedSorted(cache, sorted, pos, x);
      sorted := sorted[..pos] + [x] + sorted[pos..];
      i := i + 1;
    }
    assert list[..i] == list;
  }

  lemma NextNames(list: seq<string>, i: nat, sorted: seq<string>)
    requires i < |list| && SameNames(list[..i], sorted)
    ensures list[..i + 1] == list[..i] + [list[i]] && SameNames(list[..i + 1], sorted + [list[i]])
  {
    var a, b := list[..i + 1], sorted + [list[i]];
    assert a == list[..i] + [list[i]];
    if Distinct(a) {
      assert forall j, k :: 0 <= j < k < i ==> list[..i][j] == a[j] && list[..i][k] == a[k];
      forall j | 0 <= j < |sorted| ensures sorted[j] != list[i] {
        assert sorted[j] in list[..i];
        var m :| 0 <= m < i && list[..i][m] == sorted[j];
        assert a[m] == sorted[j] && a[i] == list[i];
      }
    }
  }

  lemma InsertedSorted(cache: Cache, list: seq<string>, pos: nat, x: string)
    requires Known(cache, list) && Sorted(cache, list) && x in cache && pos <= |list|
    requires forall k :: pos <= k < |list| ==> Older(cache[x], cache[list[k]])
    requires pos > 0 ==> !Older(cache[x], cache[list[pos - 1]])
    ensures Known(cache, list[..pos] + [x] + list[pos..]) && Sorted(cache, list[..pos] + [x] + list[pos..])
  {
    var out := list[..pos] + [x] + list[pos..];
    forall j, k | 0 <= j < k < |out| ensures UpTo(cache[out[j]], cache[out[k]]) {
      if k == pos && j < pos - 1 { assert UpTo(cache[list[j]], cache[list[pos - 1]]); }
    }
  }

  // ---- the scan ----

  predicate Pinned(cache: Cache, k: string) {
    k in cache && 0 < cache[k].notruncate
  }

  /** The entries of `seen` that may be evicted but were not chosen are no older than any chosen one,
      and there are some only if the list is full. */
  ghost predicate Chosen(cache: Cache, seen: set<string>, chosen: seq<string>, bound: int) {
    && Distinct(chosen) && |chosen| <= bound
    && (forall x :: x in chosen ==> x in seen && x in cache && !Pinned(cache, x))
    && (forall y :: y in seen && y in cache && !Pinned(cache, y) && y !in chosen ==>
         |chosen| == bound && forall x :: x in chosen ==> UpTo(cache[x], cache[y]))
  }

  lemma UpToChain(x: Entry, w: Entry, y: Entry)
    requires UpTo(x, w) && UpTo(w, y)
    ensures UpTo(x, y)
  {
  }

  /** From `before` to `after` at most one name was added, and no newly seen name that may be evicted
      was left out. */
  ghost predicate Grown(cache: Cache, seen: set<string>, before: seq<string>, seen1: set<string>, after: seq<string>) {
    && seen <= seen1
    && (forall x :: x in before ==> x in after)
    && (forall x :: x in after && x !in before ==> x in seen1 && x in cache && !Pinned(cache, x))
    && (forall x, y :: x in after && x !in before && y in after && y !in before ==> x == y)
    && (forall y :: y in seen1 - seen && y in cache && !Pinned(cache, y) ==> y in after)
  }

  /** With one more entry or a lower bound, sorting and cutting off the youngest keeps the choice
      right. */
  lemma CutOff(cache: Cache, seen: set<string>, before: seq<string>, bound0: int, seen1: set<string>, sorted: seq<string>, bound: nat)
    requires Chosen(cache, seen, before, bound0) && bound <= bound0 && bound < |sorted| && Grown(cache, seen, before, seen1, sorted)
    requires Known(cache, sorted) && Sorted(cache, sorted) && Distinct(sorted)
    ensures Chosen(cache, seen1, sorted[..bound], bound)
  {
    var cut := sorted[..bound];
    assert forall x :: x in cut ==> x in sorted;
    forall y, x | y in seen1 && y in cache && !Pinned(cache, y) && y !in cut && x in cut
      ensures UpTo(cache[x], cache[y])
    {
      var j :| 0 <= j < bound && sorted[j] == x;
      if y in sorted {
        var k :| 0 <= k < |sorted| && sorted[k] == y;
        assert forall i :: 0 <= i < bound ==> cut[i] == sorted[i] && cut[i] in cut;
        assert bound <= k;
      } else {
        Dropped(cache, seen, before, bound0, seen1, sorted, bound, y, j);
      }
    }
  }

  /** A name dropped earlier is no older than what is kept now. */
  lemma Dropped(cache: Cache, seen: set<string>, before: seq<string>, bound0: int, seen1: set<string>, sorted: seq<string>, bound: nat,
                y: string, j: nat)
    requires Chosen(cache, seen, before, bound0) && bound <= bound0 && bound < |sorted| && Grown(cache, seen, before, seen1, sorted)
    requires Known(cache, sorted) && Sorted(cache, sorted) && Distinct(sorted)
    requires j < bound && y in seen1 && y in cache && !Pinned(cache, y) && y !in sorted
    ensures UpTo(cache[sorted[j]], cache[y])
  {
    var x, w := sorted[j], sorted[bound];
    assert x in sorted && w in sorted && x != w;
    assert y in seen && y !in before;
    if x !in before {
      assert w in before;
      UpToChain(cache[x], cache[w], cache[y]);
    }
  }

  /** Without a cut: the bound is the same or the list is below it. */
  lemma NoCut(cache: Cache, seen: set<string>, before: seq<string>, bound0: int, seen1: set<string>, after: seq<string>, bound: nat)
    requires Chosen(cache, seen, before, bound0) && |after| <= bound <= bound0 && Grown(cache, seen, before, seen1, after)
    requires after == before || (bound == bound0 && exists z :: z !in before && after == before + [z])
    requires Distinct(after)
    ensures Chosen(cache, seen1, after, bound)
  {
    assert forall y :: y in seen1 && y in cache && !Pinned(cache, y) && y !in after ==> y in seen && y !in before && |before| == bound0;
  }

  ghost function PinnedIn(cache: Cache, seen: set<string>): set<string> {
    set k | k in seen && Pinned(cache, k)
  }

  lemma SeenPinned(cache: Cache, seen: set<string>, key: string)
    requires key in cache && key !in seen
    ensures |PinnedIn(cache, seen + {key})| == |PinnedIn(cache, seen)| + if Pinned(cache, key) then 1 else 0
  {
    assert PinnedIn(cache, seen + {key}) == PinnedIn(cache, seen) + if Pinned(cache, key) then {key} else {};
  }

  /** Puts one entry into the list or lowers the bound, then cuts the list down to the bound. */
  method Consider(cache: Cache, ghost seen: set<string>, key: string, erase_count0: nat, erase_iters0: seq<string>)
    returns (erase_count: nat, erase_iters: seq<string>)
    requires key in cache && key !in seen && 0 < erase_count0 && Chosen(cache, seen, erase_iters0, erase_count0)
    ensures Chosen(cache, seen + {key}, erase_iters, erase_count)
    ensures erase_count == erase_count0 - if Pinned(cache, key) then 1 else 0
  {
    erase_count, erase_iters := erase_count0, erase_iters0;
    if 0 < cache[key].notruncate {
      erase_count := erase_count - 1;
    } else {
      erase_iters := erase_iters + [key];
    }
    ghost var after := erase_iters;
    assert Grown(cache, seen, erase_iters0, seen + {key}, after) && Distinct(after);
    if erase_count < |erase_iters| {
      erase_iters := Sort(cache, erase_iters);
      ghost var sorted := erase_iters;
      CutOff(cache, seen, erase_iters0, erase_count0, seen + {key}, sorted, erase_count);
      while erase_count < |erase_iters|
        invariant erase_count <= |erase_iters| <= |sorted| && erase_iters == sorted[..|erase_iters|]
      {
        erase_iters := erase_iters[..|erase_iters| - 1];
      }
    } else {
      NoCut(cache, seen, erase_iters0, erase_count0, seen + {key}, after, erase_count);
    }
  }

  /** How many entries a full cache evicts: the excess over its size and one more, less the pinned
      entries, but never more than there are that are not pinned. */
  ghost function Evicted(cache: Cache, cacheSize: nat): int {
    var excess, free := |cache| - cacheSize + 1 - |PinnedIn(cache, cache.Keys)|, |cache| - |PinnedIn(cache, cache.Keys)|;
    if |cache| < cacheSize || excess < 0 then 0 else if cacheSize == 0 then free else excess
  }

  /** The entries to evict from a cache that has reached its size, whatever the order of the scan:
      none is pinned, and no entry that may be evicted and is kept is older than one that is evicted. */
  method SelectOldest(cache: Cache, cacheSize: nat) returns (erase_iters: seq<string>)
    requires cacheSize <= |cache|
    ensures Chosen(cache, cache.Keys, erase_iters, |erase_iters|)
    ensures forall x, y :: x in erase_iters && y in cache && cache[y].notruncate == 0 && y !in erase_iters ==>
      var a, b := cache[x], cache[y];
      || a.date.sec < b.date.sec
      || (a.date.sec == b.date.sec && a.date.nsec < b.date.nsec)
      || (a.date.sec == b.date.sec && a.date.nsec == b.date.nsec && a.hitCount <= b.hitCount)
    ensures forall x :: x in erase_iters ==> x in cache && cache[x].notruncate == 0
    ensures |erase_iters| == Evicted(cache, cacheSize)
  {
    hide UpTo;
    var erase_count := |cache| - cacheSize + 1;
    erase_iters := [];
    var todo := cache.Keys;
    ghost var seen: set<string> := {};
    assert PinnedIn(cache, seen) == {};
    while todo != {} && 0 < erase_count
      invariant todo + seen == cache.Keys && todo !! seen && 0 <= erase_count
      invariant erase_count + |PinnedIn(cache, seen)| == |cache| - cacheSize + 1
      invariant Chosen(cache, seen, erase_iters, erase_count)
      decreases |todo|
    {
      var key :| key in todo;
      SeenPinned(cache, seen, key);
      erase_count, erase_iters := Consider(cache, seen, key, erase_count, erase_iters);
      todo, seen := todo - {key}, seen + {key};
    }
    AllSeen(cache, seen, erase_iters, erase_count, cacheSize);
    OldestGo(cache, erase_iters);
  }

  /** The choice spelled out. */
  lemma OldestGo(cache: Cache, chosen: seq<string>)
    requires Chosen(cache, cache.Keys, chosen, |chosen|)
    ensures forall x, y :: x in chosen && y in cache && cache[y].notruncate == 0 && y !in chosen ==>
      var a, b := cache[x], cache[y];
      || a.date.sec < b.date.sec
      || (a.date.sec == b.date.sec && a.date.nsec < b.date.nsec)
      || (a.date.sec == b.date.sec && a.date.nsec == b.date.nsec && a.hitCount <= b.hitCount)
    ensures forall x :: x in chosen ==> x in cache && cache[x].notruncate == 0
  {
    forall x, y | x in chosen && y in cache && cache[y].notruncate == 0 && y !in chosen ensures UpTo(cache[x], cache[y]) {
      assert y in cache.Keys && !Pinned(cache, y);
    }
  }

  lemma AllSeen(cache: Cache, seen: set<string>, chosen: seq<string>, bound: nat, cacheSize: nat)
    requires cacheSize <= |cache| && seen <= cache.Keys && (seen == cache.Keys || bound == 0)
    requires bound + |PinnedIn(cache, seen)| == |cache| - cacheSize + 1 && Chosen(cache, seen, chosen, bound)
    ensures Chosen(cache, cache.Keys, chosen, |chosen|)
    ensures |chosen| == Evicted(cache, cacheSize)
  {
    var pinned := PinnedIn(cache, cache.Keys);
    assert PinnedIn(cache, seen) <= pinned;
    SubsetSize(PinnedIn(cache, seen), pinned);
    Apart(cache, chosen);
    if bound > 0 && forall y :: y in cache && !Pinned(cache, y) ==> y in chosen { Covered(cache, chosen); }
  }

  /** The entries that are not pinned. */
  ghost function Free(cache: Cache): set<string> {
    set k | k in cache && cache[k].notruncate == 0
  }

  lemma FreeSize(cache: Cache)
    ensures |Free(cache)| + |PinnedIn(cache, cache.Keys)| == |cache|
  {
    assert Free(cache) !! PinnedIn(cache, cache.Keys) && Free(cache) + PinnedIn(cache, cache.Keys) == cache.Keys;
    assert |cache| == |cache.Keys|;
  }

  /** A full cache keeps, of the entries that are not pinned, one fewer than its size, or all if they
      are fewer. */
  lemma FreeKept(cache: Cache, chosen: seq<string>, cacheSize: nat)
    requires Chosen(cache, cache.Keys, chosen, |chosen|) && |chosen| == Evicted(cache, cacheSize) && 1 <= cacheSize <= |cache|
    ensures |Free(cache - (set k | k in chosen))| == if |Free(cache)| < cacheSize then |Free(cache)| else cacheSize - 1
  {
    var names := set k | k in chosen;
    FreeSize(cache);
    DistinctSize(chosen);
    assert names <= Free(cache);
    assert Free(cache - names) == Free(cache) - names;
  }

  /** The chosen and the pinned entries are different ones. */
  lemma Apart(cache: Cache, chosen: seq<string>)
    requires Distinct(chosen) && forall x :: x in chosen ==> x in cache && !Pinned(cache, x)
    ensures |chosen| + |PinnedIn(cache, cache.Keys)| <= |cache|
  {
    var names := set x | x in chosen;
    var pinned := PinnedIn(cache, cache.Keys);
    DistinctSize(chosen);
    assert names !! pinned;
    SubsetSize(names + pinned, cache.Keys);
    assert |cache| == |cache.Keys|;
  }

  lemma {:induction false} DistinctSize(list: seq<string>)
    requires Distinct(list)
    ensures |set x | x in list| == |list|
  {
    if list != [] {
      var rest := list[..|list| - 1];
      DistinctSize(rest);
      assert (set x | x in list) == (set x | x in rest) + {list[|list| - 1]};
    }
  }

  /** If everything that may be evicted is chosen, the chosen and the pinned entries are all. */
  lemma Covered(cache: Cache, chosen: seq<string>)
    requires forall y :: y in cache && !Pinned(cache, y) ==> y in chosen
    ensures |cache| <= |chosen| + |PinnedIn(cache, cache.Keys)|
  {
    var names := set x | x in chosen;
    var pinned := PinnedIn(cache, cache.Keys);
    NamesSize(chosen);
    assert cache.Keys <= names + pinned;
    SubsetSize(cache.Keys, names + pinned);
    assert |names + pinned| <= |names| + |pinned|;
    assert |cache| == |cache.Keys|;
  }

  lemma {:induction false} NamesSize(list: seq<string>)
    ensures |set x | x in list| <= |list|
  {
    if list != [] {
      var rest := list[..|list| - 1];
      NamesSize(rest);
      assert (set x | x in list) == (set x | x in rest) + {list[|list| - 1]};
    }
  }
}
