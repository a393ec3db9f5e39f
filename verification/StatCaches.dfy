/** The stat cache and its index of pinned files. */
module StatCaches {
  import opened Eviction

  // ---- paths ----

  /** Position of the last '/', or -1. */
  function LastSlash(s: string): (pos: int)
    ensures -1 <= pos < |s| && (pos >= 0 ==> s[pos] == '/')
    ensures forall i :: pos < i < |s| ==> s[i] != '/'
  {
    if s == [] then -1 else if s[|s| - 1] == '/' then |s| - 1 else LastSlash(s[..|s| - 1])
  }

  /** Absolute, without empty components. */
  ghost predicate IsPath(key: string) {
    key != [] && key[0] == '/' && forall i :: 0 < i < |key| ==> !(key[i - 1] == '/' && key[i] == '/')
  }

  predicate IsFile(key: string) {
    key != [] && key[|key| - 1] != '/'
  }

  /** The directory of a path with a '/' appended; the root directory becomes "//". */
  function ParentDir(key: string): string {
    var pos := LastSlash(key);
    if pos < 0 then "./" else if pos == 0 then "//" else key[..pos] + "/"
  }

  function FileName(key: string): string {
    key[LastSlash(key) + 1..]
  }

  /** The path that is listed under a directory by a name. */
  function PathOf(dir: string, name: string): string {
    if dir == "//" then "/" + name else dir + name
  }

  lemma PathOfParts(key: string)
    requires IsPath(key)
    ensures PathOf(ParentDir(key), FileName(key)) == key && '/' !in FileName(key)
    ensures IsFile(key) ==> FileName(key) != []
  {
    var pos := LastSlash(key);
    if pos == 0 {
      assert "/" + key[1..] == key;
    } else {
      var dir := key[..pos] + "/";
      assert key[pos] == '/' && dir[0] == '/' && dir[|dir| - 1] == '/';
      assert key[pos - 1] != '/';
      assert dir[pos - 1] == key[pos - 1];
      NotRoot(dir, pos);
      assert dir + key[pos + 1..] == key;
    }
  }

  lemma NotRoot(dir: string, pos: nat)
    requires 0 < pos && |dir| == pos + 1 && dir[pos - 1] != '/'
    ensures dir != "//"
  {
    var root := "//";
    assert root[0] == '/' && root[1] == '/';
  }

  // ---- the index ----

  type Index = map<string, seq<string>>

  predicate HasName(index: Index, d: string, n: string) {
    d in index && n in index[d]
  }

  predicate Listed(index: Index, key: string) {
    HasName(index, ParentDir(key), FileName(key))
  }

  /** No empty list, no name twice, and every listed name belongs to a pinned file. */
  ghost predicate IndexTidy(cache: Cache, index: Index) {
    && (forall d :: d in index ==> index[d] != [] && Distinct(index[d]))
    && (forall d, n :: HasName(index, d, n) ==> ListsPinned(cache, d, n))
  }

  ghost predicate ListsPinned(cache: Cache, d: string, n: string) {
    var key := PathOf(d, n);
    IsPath(key) && IsFile(key) && ParentDir(key) == d && FileName(key) == n && Pinned(cache, key)
  }

  /** A file is listed under its directory exactly when its entry is pinned. */
  ghost predicate Agrees(cache: Cache, index: Index) {
    && IndexTidy(cache, index)
    && forall key :: IsPath(key) && IsFile(key) ==> (Listed(index, key) <==> Pinned(cache, key))
  }

  lemma Injective(a: string, b: string)
    requires IsPath(a) && IsPath(b)
    ensures ParentDir(a) == ParentDir(b) && FileName(a) == FileName(b) <==> a == b
  {
    PathOfParts(a);
    PathOfParts(b);
  }

  /** The index lists `key` more (or less) than before, and nothing else has changed. */
  ghost predicate Changed(before: Index, after: Index, key: string, listed: bool) {
    forall d, n :: HasName(after, d, n) <==> if d == ParentDir(key) && n == FileName(key) then listed else HasName(before, d, n)
  }

  lemma ChangedListed(before: Index, after: Index, key: string, listed: bool, other: string)
    requires Changed(before, after, key, listed) && IsPath(key) && IsPath(other)
    ensures Listed(after, other) <==> if other == key then listed else Listed(before, other)
  {
    Injective(key, other);
  }

  /** Pinning or unpinning an entry together with its index entry keeps the agreement. */
  lemma AgreesStep(cache: Cache, index: Index, cache1: Cache, index1: Index, key: string)
    requires Agrees(cache, index) && IsPath(key) && IsFile(key)
    requires forall k :: k != key ==> (Pinned(cache1, k) <==> Pinned(cache, k))
    requires forall d :: d in index1 ==> index1[d] != [] && Distinct(index1[d])
    requires Changed(index, index1, key, Pinned(cache1, key))
    ensures Agrees(cache1, index1)
  {
    PathOfParts(key);
    forall d, n | HasName(index1, d, n) ensures ListsPinned(cache1, d, n) {
      if !(d == ParentDir(key) && n == FileName(key)) { assert ListsPinned(cache, d, n); }
    }
    forall k | IsPath(k) && IsFile(k) ensures Listed(index1, k) <==> Pinned(cache1, k) {
      ChangedListed(index, index1, key, Pinned(cache1, key), k);
    }
  }

  lemma SamePins(cache: Cache, cache1: Cache, index: Index)
    requires Agrees(cache, index) && forall k :: IsPath(k) && IsFile(k) ==> (Pinned(cache1, k) <==> Pinned(cache, k))
    ensures Agrees(cache1, index)
  {
    forall d, n | HasName(index, d, n) ensures ListsPinned(cache1, d, n) {
      assert ListsPinned(cache, d, n);
    }
  }

  lemma DropUnpinned(cache: Cache, index: Index, k: string)
    requires Agrees(cache, index) && !Pinned(cache, k)
    ensures Agrees(cache - {k}, index)
  {
    hide Agrees;
    SamePins(cache, cache - {k}, index);
  }

  ghost function Names(list: seq<string>): set<string> {
    set k | k in list
  }

  lemma NamesNext(list: seq<string>, i: nat)
    requires i < |list|
    ensures Names(list[..i + 1]) == Names(list[..i]) + {list[i]}
    ensures Distinct(list) ==> list[i] !in Names(list[..i])
  {
    assert list[..i + 1] == list[..i] + [list[i]];
  }

  /** A change of the pin count of one entry, with the index following it. */
  lemma CountAgrees(cache: Cache, index: Index, key: string, n: nat, index1: Index)
    requires Agrees(cache, index) && IsPath(key) && key in cache
    requires forall d :: d in index1 ==> index1[d] != [] && Distinct(index1[d])
    requires if IsFile(key) && (0 < n) != (0 < cache[key].notruncate) then Changed(index, index1, key, 0 < n) else index1 == index
    ensures Agrees(cache[key := cache[key].(notruncate := n)], index1)
  {
    var cache1 := cache[key := cache[key].(notruncate := n)];
    assert forall k :: k != key ==> (Pinned(cache1, k) <==> Pinned(cache, k));
    if IsFile(key) && (0 < n) != (0 < cache[key].notruncate) {
      AgreesStep(cache, index, cache1, index1, key);
    } else {
      SamePins(cache, cache1, index1);
    }
  }

  /** An entry dropped together with its index entry. */
  lemma ErasedAgrees(cache: Cache, index: Index, key: string, index1: Index)
    requires Agrees(cache, index) && IsPath(key)
    requires forall d :: d in index1 ==> index1[d] != [] && Distinct(index1[d])
    requires if IsFile(key) then Changed(index, index1, key, false) else index1 == index
    ensures Agrees(cache - {key}, index1)
  {
    if IsFile(key) {
      AgreesStep(cache, index, cache - {key}, index1, key);
    } else {
      SamePins(cache, cache - {key}, index1);
    }
  }

  lemma Tidy(cache: Cache, index: Index)
    requires Agrees(cache, index)
    ensures forall d :: d in index ==> index[d] != [] && Distinct(index[d])
  {
  }

  lemma NothingChosen(cache: Cache, size: nat)
    requires |cache| < size || cache == map[]
    ensures Chosen(cache, cache.Keys, [], 0) && Evicted(cache, size) == 0 && cache == cache - Names([])
  {
    assert cache == map[] ==> PinnedIn(cache, cache.Keys) == {};
  }

  lemma ChosenErasable(cache: Cache, chosen: seq<string>)
    requires Chosen(cache, cache.Keys, chosen, |chosen|)
    ensures Distinct(chosen) && forall k :: k in chosen ==> k in cache && !Pinned(cache, k)
  {
  }

  lemma AppendDistinct(list: seq<string>, x: string)
    requires Distinct(list) && x !in list
    ensures Distinct(list + [x])
  {
  }

  lemma EraseDistinct(list: seq<string>, pos: nat)
    requires Distinct(list) && pos < |list|
    ensures Distinct(list[..pos] + list[pos + 1..])
    ensures forall x :: x in list[..pos] + list[pos + 1..] <==> x in list && x != list[pos]
  {
    var rest := list[..pos] + list[pos + 1..];
    forall x ensures x in rest <==> x in list && x != list[pos] {
      if x in rest {
        var k :| 0 <= k < |rest| && rest[k] == x;
        assert x == list[if k < pos then k else k + 1];
      }
      if x in list && x != list[pos] {
        var k :| 0 <= k < |list| && list[k] == x;
        assert x == rest[if k < pos then k else k - 1];
      }
    }
    forall j, k | 0 <= j < k < |rest| ensures rest[j] != rest[k] {
      assert rest[j] == list[if j < pos then j else j + 1];
      assert rest[k] == list[if k < pos then k else k + 1];
    }
  }

  /** The same path with or without its final '/'. */
  function Twin(key: string): set<string>
    requires IsPath(key)
  {
    if key == "/" then {} else if IsFile(key) then {key + "/"} else {key[..|key| - 1]}
  }

  class StatCache {
    var stat_cache: Cache
    var notruncate_file_cache: Index
    const CacheSize: nat
    const IsExpireTime: bool
    const ExpireTime: int
    const IsCacheNoObject: bool

    ghost predicate Valid()
      reads this
    {
      Agrees(stat_cache, notruncate_file_cache)
    }

    constructor (size: nat, expires: bool, expireTime: int, noObject: bool)
      ensures Valid() && stat_cache == map[]
      ensures CacheSize == size && IsExpireTime == expires && ExpireTime == expireTime && IsCacheNoObject == noObject
    {
      stat_cache, notruncate_file_cache := map[], map[];
      CacheSize, IsExpireTime, ExpireTime, IsCacheNoObject := size, expires, expireTime, noObject;
    }

    // ---- the index ----

    method AddNotruncateCache(key: string)
      requires IsPath(key)
      requires forall d :: d in notruncate_file_cache ==> notruncate_file_cache[d] != [] && Distinct(notruncate_file_cache[d])
      modifies this`notruncate_file_cache
      ensures forall d :: d in notruncate_file_cache ==> notruncate_file_cache[d] != [] && Distinct(notruncate_file_cache[d])
      ensures if IsFile(key) then Changed(old(notruncate_file_cache), notruncate_file_cache, key, true)
              else notruncate_file_cache == old(notruncate_file_cache)
    {
      if !IsFile(key) { return; }
      var parentdir, filename := ParentDir(key), FileName(key);
      if parentdir !in notruncate_file_cache {
        notruncate_file_cache := notruncate_file_cache[parentdir := [filename]];
      } else if filename !in notruncate_file_cache[parentdir] {
        AppendDistinct(notruncate_file_cache[parentdir], filename);
        notruncate_file_cache := notruncate_file_cache[parentdir := notruncate_file_cache[parentdir] + [filename]];
      }
    }

    method DelNotruncateCache(key: string)
      requires IsPath(key)
      requires forall d :: d in notruncate_file_cache ==> notruncate_file_cache[d] != [] && Distinct(notruncate_file_cache[d])
      modifies this`notruncate_file_cache
      ensures forall d :: d in notruncate_file_cache ==> notruncate_file_cache[d] != [] && Distinct(notruncate_file_cache[d])
      ensures if IsFile(key) then Changed(old(notruncate_file_cache), notruncate_file_cache, key, false)
              else notruncate_file_cache == old(notruncate_file_cache)
    {
      if !IsFile(key) { return; }
      var parentdir, filename := ParentDir(key), FileName(key);
      if parentdir !in notruncate_file_cache { return; }
      var filelist := notruncate_file_cache[parentdir];
      var fiter := 0;
      while fiter < |filelist| && filelist[fiter] != filename
        invariant 0 <= fiter <= |filelist| && filename !in filelist[..fiter]
      {
        fiter := fiter + 1;
      }
      if fiter < |filelist| {
        EraseDistinct(filelist, fiter);
        filelist := filelist[..fiter] + filelist[fiter + 1..];
        notruncate_file_cache := if filelist == [] then notruncate_file_cache - {parentdir} else notruncate_file_cache[parentdir := filelist];
      }
    }

    // ---- entries ----

    /** Drops one entry and its pin. */
    method Erase(key: string)
      requires Valid() && IsPath(key)
      modifies this
      ensures Valid() && stat_cache == old(stat_cache) - {key}
    {
      hide Agrees, Changed;
      if key !in stat_cache {
        assert stat_cache == stat_cache - {key};
        return;
      }
      ghost var cache, index := stat_cache, notruncate_file_cache;
      Tidy(stat_cache, notruncate_file_cache);
      stat_cache := stat_cache - {key};
      DelNotruncateCache(key);
      ErasedAgrees(cache, index, key, notruncate_file_cache);
    }

    /** Drops the entry of a path, and that of the same path with or without its final '/'. */
    method DelStat(key: string)
      requires Valid() && IsPath(key)
      modifies this
      ensures Valid()
      ensures stat_cache == old(stat_cache) - {key} - Twin(key)
    {
      Erase(key);
      if key != "/" {
        if key[|key| - 1] == '/' {
          ShorterPath(key);
          Erase(key[..|key| - 1]);
        } else {
          Erase(key + "/");
        }
      }
    }

    lemma ShorterPath(key: string)
      requires IsPath(key) && |key| > 1
      ensures IsPath(key[..|key| - 1])
    {
    }

    /** Sets the entry of a path. */
    method SetEntry(key: string, e: Entry)
      requires Valid() && IsPath(key) && (IsFile(key) ==> !Pinned(stat_cache, key))
      modifies this
      ensures Valid() && stat_cache == old(stat_cache)[key := e]
    {
      hide Agrees, Changed;
      ghost var cache, index := stat_cache, notruncate_file_cache;
      Tidy(cache, index);
      stat_cache := stat_cache[key := e];
      if 0 < e.notruncate {
        AddNotruncateCache(key);
      }
      if IsFile(key) && 0 < e.notruncate {
        AgreesStep(cache, index, stat_cache, notruncate_file_cache, key);
      } else {
        SamePins(cache, stat_cache, notruncate_file_cache);
      }
    }

    // ---- eviction ----

    /** The entry is older than the expiry time. */
    predicate Expired(e: Entry, now: Time) {
      IsExpireTime && 0 < CompareTime(now.(sec := now.sec - ExpireTime), e.date)
    }

    /** Dated more than the expiry time before `now`, in seconds and then nanoseconds. */
    ghost predicate Overdue(e: Entry, now: Time) {
      IsExpireTime && (e.date.sec + ExpireTime < now.sec || (e.date.sec + ExpireTime == now.sec && e.date.nsec < now.nsec))
    }

    lemma ExpiredIsOverdue(e: Entry, now: Time)
      ensures Expired(e, now) <==> Overdue(e, now)
    {
    }

    /** What expiry leaves: the pinned entries and those not overdue. */
    ghost function Live(cache: Cache, now: Time): Cache {
      map k | k in cache && (0 < cache[k].notruncate || !Overdue(cache[k], now)) :: cache[k]
    }

    method EraseExpired(now: Time)
      requires Valid()
      modifies this`stat_cache
      ensures Valid() && stat_cache == Live(old(stat_cache), now)
    {
      hide Agrees, CompareTime, Expired, Overdue;
      var todo := stat_cache.Keys;
      while todo != {}
        invariant Valid() && todo <= stat_cache.Keys
        invariant forall k :: k in stat_cache ==> k in old(stat_cache) && stat_cache[k] == old(stat_cache)[k]
        invariant forall k :: k in old(stat_cache) && k !in stat_cache ==> 0 == old(stat_cache)[k].notruncate && Overdue(old(stat_cache)[k], now)
        invariant forall k :: k in stat_cache && k !in todo ==> 0 < stat_cache[k].notruncate || !Overdue(stat_cache[k], now)
        decreases |todo|
      {
        var k :| k in todo;
        todo := todo - {k};
        ExpiredIsOverdue(stat_cache[k], now);
        if 0 == stat_cache[k].notruncate && Expired(stat_cache[k], now) {
          DropUnpinned(stat_cache, notruncate_file_cache, k);
          stat_cache := stat_cache - {k};
        }
      }
    }

    /** Erases the chosen entries. */
    method EraseAll(erase_iters: seq<string>)
      requires Valid() && forall k :: k in erase_iters ==> k in stat_cache && !Pinned(stat_cache, k)
      requires Distinct(erase_iters)
      modifies this`stat_cache
      ensures Valid() && stat_cache == old(stat_cache) - Names(erase_iters)
    {
      hide Agrees;
      assert stat_cache == stat_cache - {};
      var i := 0;
      while i < |erase_iters|
        invariant 0 <= i <= |erase_iters| && Valid()
        invariant stat_cache == old(stat_cache) - Names(erase_iters[..i])
      {
        NamesNext(erase_iters, i);
        assert erase_iters[i] in erase_iters;
        DropUnpinned(stat_cache, notruncate_file_cache, erase_iters[i]);
        stat_cache := stat_cache - {erase_iters[i]};
        i := i + 1;
      }
      assert erase_iters[..i] == erase_iters;
    }

    /** Makes room. Expired entries that are not pinned go; if the cache is still full, the oldest of
        the others that are not pinned go until these are one fewer than its size. */
    method TruncateCache(now: Time) returns (ghost chosen: seq<string>)
      requires Valid()
      modifies this`stat_cache
      ensures Valid()
      ensures var live := Live(old(stat_cache), now);
        && stat_cache == live - Names(chosen)
        && Chosen(live, live.Keys, chosen, |chosen|)
        && |chosen| == Evicted(live, CacheSize)
      ensures var live := Live(old(stat_cache), now);
        forall x, y :: x in live && x !in stat_cache && y in stat_cache && stat_cache[y].notruncate == 0 ==>
          var a, b := live[x], stat_cache[y];
          || a.date.sec < b.date.sec
          || (a.date.sec == b.date.sec && a.date.nsec < b.date.nsec)
          || (a.date.sec == b.date.sec && a.date.nsec == b.date.nsec && a.hitCount <= b.hitCount)
      ensures var live := Live(old(stat_cache), now);
        1 <= CacheSize <= |live| ==>
          |Free(stat_cache)| == if |Free(live)| < CacheSize then |Free(live)| else CacheSize - 1
    {
      hide Agrees, Chosen, Evicted, Pinned;
      chosen := [];
      if stat_cache == map[] {
        assert Live(stat_cache, now) == stat_cache;
        NothingChosen(stat_cache, CacheSize);
        return;
      }
      if IsExpireTime {
        EraseExpired(now);
      } else {
        assert stat_cache == Live(stat_cache, now);
      }
      if |stat_cache| < CacheSize {
        NothingChosen(stat_cache, CacheSize);
        return;
      }
      var erase_iters := SelectOldest(stat_cache, CacheSize);
      ChosenErasable(stat_cache, erase_iters);
      chosen := erase_iters;
      if 1 <= CacheSize { FreeKept(stat_cache, chosen, CacheSize); }
      EraseAll(erase_iters);
    }

    // ---- the operations on entries ----

    /** The entries left when room is made for a path: an old entry of the path goes with its twin; or
        else, if the cache has grown over its size, the expired and the chosen entries go; or else all
        entries stay. */
    ghost predicate Room(before: Cache, after: Cache, key: string, now: Time, chosen: seq<string>)
      requires IsPath(key)
    {
      if key in before then after == before - {key} - Twin(key)
      else if |before| <= CacheSize then after == before
      else
        var live := Live(before, now);
        after == live - Names(chosen) && Chosen(live, live.Keys, chosen, |chosen|) && |chosen| == Evicted(live, CacheSize)
    }

    /** Making room for a path without an entry takes no pinned entry. */
    lemma RoomKeepsPinned(before: Cache, after: Cache, key: string, now: Time, chosen: seq<string>)
      requires IsPath(key) && Room(before, after, key, now, chosen) && key !in before
      ensures forall k :: Pinned(before, k) ==> k in after && after[k] == before[k]
    {
    }

    method MakeRoom(key: string, now: Time) returns (ghost chosen: seq<string>)
      requires Valid() && IsPath(key)
      modifies this
      ensures Valid() && key !in stat_cache && Room(old(stat_cache), stat_cache, key, now, chosen)
      ensures forall k :: k in stat_cache ==> k in old(stat_cache) && stat_cache[k] == old(stat_cache)[k]
    {
      hide Agrees, Chosen, Evicted;
      chosen := [];
      if key in stat_cache {
        DelStat(key);
      } else if |stat_cache| > CacheSize {
        chosen := TruncateCache(now);
      }
    }

    /** Stores the entry of a path, pinned or not. `convertible` is whether the headers make a valid
        entry; if not, room is made all the same. */
    method AddStat(key: string, no_truncate: bool, convertible: bool, now: Time) returns (ok: bool, ghost chosen: seq<string>)
      requires Valid() && IsPath(key)
      modifies this
      ensures Valid()
      ensures !no_truncate && CacheSize < 1 ==> ok && stat_cache == old(stat_cache)
      ensures no_truncate || 1 <= CacheSize ==> ok == convertible && Room(old(stat_cache), stat_cache - {key}, key, now, chosen)
      ensures no_truncate || 1 <= CacheSize ==> (key in stat_cache <==> convertible)
      ensures (no_truncate || 1 <= CacheSize) && convertible ==> stat_cache[key] == Entry(now, 0, false, if no_truncate then 1 else 0)
      ensures key !in old(stat_cache) ==> forall k :: Pinned(old(stat_cache), k) ==> k in stat_cache && stat_cache[k] == old(stat_cache)[k]
    {
      hide Agrees, Room;
      if !no_truncate && CacheSize < 1 { return true, []; }
      chosen := MakeRoom(key, now);
      if key !in old(stat_cache) { RoomKeepsPinned(old(stat_cache), stat_cache, key, now, chosen); }
      ghost var rest := stat_cache;
      assert rest - {key} == rest;
      if !convertible { return false, chosen; }
      SetEntry(key, Entry(now, 0, false, if no_truncate then 1 else 0));
      assert stat_cache - {key} == rest;
      ok := true;
    }

    /** Notes that a path has no object. */
    method AddNoObjectCache(key: string, now: Time) returns (ok: bool, ghost chosen: seq<string>)
      requires Valid() && IsPath(key)
      modifies this
      ensures Valid() && ok
      ensures !IsCacheNoObject || CacheSize < 1 ==> stat_cache == old(stat_cache)
      ensures IsCacheNoObject && 1 <= CacheSize ==> key in stat_cache && stat_cache[key] == Entry(now, 0, true, 0)
      ensures IsCacheNoObject && 1 <= CacheSize ==> Room(old(stat_cache), stat_cache - {key}, key, now, chosen)
      ensures key !in old(stat_cache) ==> forall k :: Pinned(old(stat_cache), k) ==> k in stat_cache && stat_cache[k] == old(stat_cache)[k]
    {
      hide Agrees, Room;
      ok, chosen := true, [];
      if !IsCacheNoObject { return; }
      if CacheSize < 1 { return; }
      chosen := MakeRoom(key, now);
      if key !in old(stat_cache) { RoomKeepsPinned(old(stat_cache), stat_cache, key, now, chosen); }
      ghost var rest := stat_cache;
      assert rest - {key} == rest;
      SetEntry(key, Entry(now, 0, true, 0));
      assert stat_cache - {key} == rest;
    }

    /** Counts the users that want an entry pinned. */
    method ChangeNoTruncateFlag(key: string, no_truncate: bool)
      requires Valid() && IsPath(key)
      modifies this
      ensures Valid()
      ensures key !in old(stat_cache) ==> stat_cache == old(stat_cache)
      ensures key in old(stat_cache) ==>
        var n := old(stat_cache)[key].notruncate;
        stat_cache == old(stat_cache)[key := old(stat_cache)[key].(notruncate := if no_truncate then n + 1 else if 0 < n then n - 1 else 0)]
    {
      hide Agrees, Changed;
      if key !in stat_cache { return; }
      ghost var cache, index := stat_cache, notruncate_file_cache;
      Tidy(stat_cache, notruncate_file_cache);
      var e := stat_cache[key];
      if no_truncate {
        if 0 == e.notruncate {
          AddNotruncateCache(key);
        }
        stat_cache := stat_cache[key := e.(notruncate := e.notruncate + 1)];
      } else if 0 < e.notruncate {
        stat_cache := stat_cache[key := e.(notruncate := e.notruncate - 1)];
        if 1 == e.notruncate {
          DelNotruncateCache(key);
        }
      } else {
        assert stat_cache == stat_cache[key := e];
      }
      CountAgrees(cache, index, key, stat_cache[key].notruncate, notruncate_file_cache);
    }
  }
}
