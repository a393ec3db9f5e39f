/** How the chunks of a file are spread over replicas, listed in its metadata, and read back. */
module ReplicaLayout {
  import opened ChunkKeys
  import opened Multiples

  type byte = bv8

  /** A write-cache server: the next object id it hands out and the chunks it stores. */
  datatype Server = Server(nextOid: nat, chunks: map<string, seq<byte>>) {
    /** Stores a chunk under a fresh internal key. */
    function Put(partialKey: string, data: seq<byte>): Server {
      HandOut().Add(InternalKey(partialKey, nextOid), data)
    }

    function HandOut(): Server {
      Server(nextOid + 1, chunks)
    }

    function Add(internalKey: string, data: seq<byte>): Server {
      Server(nextOid, chunks[internalKey := data])
    }
  }

  datatype Result<T> = Ok(value: T) | Err

  /** Reads part of a chunk; an empty range or one past the end of the chunk is refused. */
  function GetEntry(s: Server, internalKey: string, start: nat, len: nat): Result<seq<byte>> {
    if internalKey !in s.chunks || len == 0 || start + len > |s.chunks[internalKey]| then Err
    else Ok(s.chunks[internalKey][start..start + len])
  }

  const TWO_TO_THE_64: nat := 0x1_0000_0000_0000_0000

  /** Replica i of a file: the hash of its key plus i, in 64 bits, modulo the number of servers. */
  function ReplicaServer(seed: nat, i: nat, n: nat): (server: nat)
    requires 0 < n
    ensures server < n
  {
    (seed + i) % TWO_TO_THE_64 % n
  }

  /** The servers that hold a file's replicas: the first by the hash of the key, each next one the
      following server, in a circle; server 0 follows where the 64-bit sum wraps around. With enough
      servers they are all different, except when the sum wraps around and the remainder of 2^64 is a
      distance between two replicas. */
  method GetReplica(seed: nat, numChoose: nat, numAvailable: nat) returns (replicas: seq<nat>)
    requires 0 < numAvailable && seed < TWO_TO_THE_64 && numChoose < TWO_TO_THE_64
    ensures |replicas| == numChoose && forall i :: 0 <= i < numChoose ==> replicas[i] == ReplicaServer(seed, i, numAvailable) < numAvailable
    ensures 0 < numChoose ==> replicas[0] == seed % numAvailable
    ensures forall i :: 1 <= i < numChoose ==>
      replicas[i] == if seed + i == TWO_TO_THE_64 || replicas[i - 1] == numAvailable - 1 then 0 else replicas[i - 1] + 1
    ensures numChoose <= numAvailable ==>
      ((forall i, j :: 0 <= i < j < numChoose ==> replicas[i] != replicas[j]) <==>
       seed + numChoose <= TWO_TO_THE_64 || TWO_TO_THE_64 % numAvailable == 0 || numChoose <= TWO_TO_THE_64 % numAvailable)
  {
    replicas := [];
    for i := 0 to numChoose
      invariant |replicas| == i
      invariant forall k :: 0 <= k < i ==> replicas[k] == ReplicaServer(seed, k, numAvailable)
    {
      replicas := replicas + [(seed + i) % TWO_TO_THE_64 % numAvailable];
    }
    FirstReplica(seed, numAvailable);
    forall i | 1 <= i < numChoose
      ensures replicas[i] == if seed + i == TWO_TO_THE_64 || replicas[i - 1] == numAvailable - 1 then 0 else replicas[i - 1] + 1
    {
      NextReplica(seed, i, numAvailable);
    }
    if numChoose <= numAvailable {
      ReplicasDiffer(seed, numChoose, numAvailable, replicas);
    }
  }

  lemma FirstReplica(seed: nat, n: nat)
    requires 0 < n && seed < TWO_TO_THE_64
    ensures ReplicaServer(seed, 0, n) == seed % n
  {
    SmallMod(seed, TWO_TO_THE_64);
  }

  lemma NextReplica(seed: nat, i: nat, n: nat)
    requires 0 < n && 0 < i < TWO_TO_THE_64 && seed < TWO_TO_THE_64
    ensures var before := ReplicaServer(seed, i - 1, n);
      ReplicaServer(seed, i, n) == if seed + i == TWO_TO_THE_64 || before == n - 1 then 0 else before + 1
  {
    SmallMod(seed + i - 1, TWO_TO_THE_64);
    SmallMod(seed + i, TWO_TO_THE_64);
    var x := (seed + i - 1) % TWO_TO_THE_64;
    if seed + i == TWO_TO_THE_64 {
      ZeroMod(n);
    } else {
      NextMod(x, n);
    }
  }

  lemma ZeroMod(n: nat)
    requires 0 < n
    ensures 0 % n == 0
  {
  }

  lemma NextMod(x: nat, n: nat)
    requires 0 < n
    ensures (x + 1) % n == if x % n == n - 1 then 0 else x % n + 1
  {
    var q := x / n;
    assert x == q * n + x % n;
    if x % n == n - 1 {
      assert (q + 1) * n == q * n + n;
      DivMod(n, x + 1, q + 1, 0);
    } else {
      DivMod(n, x + 1, q, x % n + 1);
    }
  }

  lemma ReplicasDiffer(seed: nat, count: nat, n: nat, replicas: seq<nat>)
    requires 0 < n && seed < TWO_TO_THE_64 && count < TWO_TO_THE_64 && count <= n
    requires |replicas| == count && forall i :: 0 <= i < count ==> replicas[i] == ReplicaServer(seed, i, n)
    ensures (forall i, j :: 0 <= i < j < count ==> replicas[i] != replicas[j]) <==>
      seed + count <= TWO_TO_THE_64 || TWO_TO_THE_64 % n == 0 || count <= TWO_TO_THE_64 % n
  {
    hide ReplicaServer;
    var d, w := TWO_TO_THE_64 % n, TWO_TO_THE_64 - seed;
    forall i, j | 0 <= i < j < count ensures replicas[i] == replicas[j] <==> i < w <= j && j - i == d {
      ReplicasMeet(seed, i, j, n);
    }
    if w < count && 0 < d < count {
      var i := if d <= w then w - d else 0;
      assert replicas[i] == replicas[i + d];
    }
  }

  lemma ReplicasMeet(seed: nat, i: nat, j: nat, n: nat)
    requires i < j < n && seed < TWO_TO_THE_64 && j < TWO_TO_THE_64
    ensures ReplicaServer(seed, i, n) == ReplicaServer(seed, j, n) <==> seed + i < TWO_TO_THE_64 <= seed + j && j - i == TWO_TO_THE_64 % n
  {
    SameServer(TWO_TO_THE_64, seed, i, j, n);
  }

  /** Two numbers a distance apart that is a multiple of n and less than n more. */
  lemma SameRemainder(a: int, b: int, q: int, e: int, n: int)
    requires 0 < n && e < n && 0 < n + e && b == a + q * n + e
    ensures a % n == b % n <==> e == 0
  {
    var qa, qb := a / n, b / n;
    assert a == qa * n + a % n && b == qb * n + b % n;
    assert (qb - qa - q) * n == qb * n - qa * n - q * n;
    if a % n == b % n {
      SmallMultiple(qb - qa - q, n);
    } else if e == 0 {
      assert (qb - qa - q) * n == a % n - b % n;
      SmallMultiple(qb - qa - q, n);
    }
  }

  lemma SmallMod(x: nat, m: nat)
    requires 0 < m
    ensures x < m ==> x % m == x
    ensures m <= x < 2 * m ==> x % m == x - m
  {
    if x < m { DivMod(m, x, 0, x); } else if x < 2 * m { DivMod(m, x, 1, x - m); }
  }

  lemma SameServer(m: nat, seed: nat, i: nat, j: nat, n: nat)
    requires i < j < n && seed < m && j < m
    ensures (seed + i) % m % n == (seed + j) % m % n <==> seed + i < m <= seed + j && j - i == m % n
  {
    if seed + j < m {
      SmallMod(seed + i, m);
      SmallMod(seed + j, m);
      SameRemainder(seed + i, seed + j, 0, j - i, n);
    } else if m <= seed + i {
      SmallMod(seed + i, m);
      SmallMod(seed + j, m);
      SameRemainder(seed + i - m, seed + j - m, 0, j - i, n);
    } else {
      SmallMod(seed + i, m);
      SmallMod(seed + j, m);
      assert m == m / n * n + m % n;
      SameRemainder(seed + j - m, seed + i, m / n, m % n - (j - i), n);
    }
  }

  // ---- chunks of a file ----

  function NumChunks(size: nat, cs: nat): nat
    requires 0 < cs
  {
    size / cs + if size % cs == 0 then 0 else 1
  }

  /** Chunk c of a file's bytes; every chunk but the last has the chunk size. */
  function Piece(data: seq<byte>, c: nat, cs: nat): seq<byte> {
    var lo, hi := c * cs, c * cs + cs;
    if lo > |data| then [] else if hi <= |data| then data[lo..hi] else data[lo..]
  }

  ghost predicate ChunkAt(servers: seq<Server>, server: nat, internalKey: string, data: seq<byte>) {
    server < |servers| && internalKey in servers[server].chunks && servers[server].chunks[internalKey] == data
  }

  ghost predicate KnownServers(servers: seq<Server>, replicas: seq<nat>) {
    |replicas| > 0 && forall r :: 0 <= r < |replicas| ==> replicas[r] < |servers|
  }

  /** The chunk that path entry i belongs to, with n replicas. */
  function ChunkOf(i: nat, n: nat): nat
    requires 0 < n
  {
    i / n
  }

  function ReplicaOf(i: nat, n: nat): (r: nat)
    requires 0 < n
    ensures r < n
  {
    i % n
  }

  /** The path index of replica r of chunk c. */
  function EntryIndex(c: nat, r: nat, n: nat): (i: nat)
    requires r < n
    ensures ChunkOf(i, n) == c && ReplicaOf(i, n) == r
  {
    MulMono(-1, c, n);
    DivMod(n, c * n + r, c, r);
    c * n + r
  }

  /** Entry i of a path belongs to chunk i / R and to replica i mod R. */
  ghost predicate EntryHolds(servers: seq<Server>, replicas: seq<nat>, path: seq<string>, data: seq<byte>, cs: nat, i: nat)
    requires |replicas| > 0 && i < |path|
  {
    ChunkAt(servers, replicas[ReplicaOf(i, |replicas|)], path[i], Piece(data, ChunkOf(i, |replicas|), cs))
  }

  /** The path names, chunk by chunk and replica by replica, chunks that hold the data. */
  ghost predicate PathHolds(servers: seq<Server>, replicas: seq<nat>, path: seq<string>, data: seq<byte>, cs: nat) {
    && 0 < cs && KnownServers(servers, replicas)
    && |path| == NumChunks(|data|, cs) * |replicas|
    && forall i :: 0 <= i < |path| ==> EntryHolds(servers, replicas, path, data, cs, i)
  }

  lemma ChunkBounds(size: nat, cs: nat, n: nat)
    requires 0 < cs && n == NumChunks(size, cs)
    ensures size <= n * cs && (n > 0 ==> (n - 1) * cs < size) && (size % cs == 0 <==> n * cs == size)
  {
    assert size == size / cs * cs + size % cs;
    if size % cs == 0 {
      assert n * cs == size;
      assert n > 0 ==> (n - 1) * cs == n * cs - cs;
    } else {
      assert n * cs == size / cs * cs + cs;
      assert (n - 1) * cs == size / cs * cs;
    }
  }

  lemma ChunksUnique(size: nat, cs: nat, n: nat)
    requires 0 < cs && size <= n * cs && (n > 0 ==> (n - 1) * cs < size)
    ensures n == NumChunks(size, cs)
  {
    var m := NumChunks(size, cs);
    ChunkBounds(size, cs, m);
    MulMono(n - 1, m, cs);
    if m > 0 { MulMono(m - 1, n, cs); }
  }

  // ---- storing ----

  /** Every chunk of `before` is still there. */
  ghost predicate Extends(before: seq<Server>, after: seq<Server>) {
    && |after| == |before|
    && (forall s :: 0 <= s < |before| ==> before[s].nextOid <= after[s].nextOid)
    && (forall s, k :: 0 <= s < |before| && k in before[s].chunks ==> k in after[s].chunks && after[s].chunks[k] == before[s].chunks[k])
  }

  /** Server invariant: object ids up to the next one are not in use. */
  ghost predicate FreshOids(s: Server) {
    forall p: string, oid: nat :: s.nextOid <= oid ==> InternalKey(p, oid) !in s.chunks
  }

  lemma PutFresh(s: Server, partialKey: string, data: seq<byte>)
    requires FreshOids(s)
    ensures FreshOids(s.Put(partialKey, data)) && InternalKey(partialKey, s.nextOid) !in s.chunks
  {
    forall p: string, oid: nat | s.nextOid + 1 <= oid ensures InternalKey(p, oid) !in s.Put(partialKey, data).chunks {
      InternalKeyInjective(p, oid, partialKey, s.nextOid);
    }
  }

  /** The chunk name of chunk c of an upload that starts `off` bytes into its file. */
  function ChunkName(key: string, off: nat, c: nat, cs: nat): string
    requires 0 < cs
  {
    PartialKey(key, (off + c * cs) / cs, cs)
  }

  /** An upload that starts on a chunk boundary names its chunks by their number in the file. */
  lemma AlignedName(key: string, first: nat, c: nat, cs: nat)
    requires 0 < cs
    ensures ChunkName(key, first * cs, c, cs) == PartialKey(key, first + c, cs)
  {
    DistributeOver(first, c, cs);
    DivMod(cs, first * cs + c * cs, first + c, 0);
  }

  /** An internal key made from a chunk name and an object id handed out at or after `from`. */
  ghost predicate Named(internalKey: string, partialKey: string, from: nat) {
    exists oid: nat :: from <= oid && internalKey == InternalKey(partialKey, oid)
  }

  ghost predicate EntryNamed(before: seq<Server>, replicas: seq<nat>, path: seq<string>, key: string, off: nat, cs: nat, i: nat)
    requires |replicas| > 0 && 0 < cs && i < |path|
  {
    var server := replicas[ReplicaOf(i, |replicas|)];
    server < |before| && Named(path[i], ChunkName(key, off, ChunkOf(i, |replicas|), cs), before[server].nextOid)
  }

  /** A chunk of the upload, under an id that its server has handed out since. */
  ghost predicate NewChunk(before: Server, after: Server, k: string, data: seq<byte>, key: string, off: nat, cs: nat)
    requires 0 < cs && k in after.chunks
  {
    exists c: nat, oid: nat :: c * cs < |data| && before.nextOid <= oid < after.nextOid
      && k == InternalKey(ChunkName(key, off, c, cs), oid) && after.chunks[k] == Piece(data, c, cs)
  }

  /** A server has nothing more than before but chunks of the upload. */
  ghost predicate OnlyChunks(before: Server, after: Server, data: seq<byte>, key: string, off: nat, cs: nat)
    requires 0 < cs
  {
    forall k :: k in after.chunks && k !in before.chunks ==> NewChunk(before, after, k, data, key, off, cs)
  }

  /** How many of the first m chunks sent, replica by replica, go to a server. */
  ghost function Sent(replicas: seq<nat>, m: nat, server: nat): nat
    requires |replicas| > 0
  {
    if m == 0 then 0 else Sent(replicas, m - 1, server) + if replicas[(m - 1) % |replicas|] == server then 1 else 0
  }

  /** Nothing but chunks of the upload was added, and every chunk sent has used up one id. */
  ghost predicate Added(before: seq<Server>, after: seq<Server>, replicas: seq<nat>, m: nat, data: seq<byte>, key: string, off: nat, cs: nat) {
    && 0 < cs && |replicas| > 0 && |after| == |before|
    && (forall s :: 0 <= s < |before| ==> OnlyChunks(before[s], after[s], data, key, off, cs))
    && (forall s :: 0 <= s < |before| ==> after[s].nextOid == before[s].nextOid + Sent(replicas, m, s))
  }

  lemma AddedNone(servers: seq<Server>, replicas: seq<nat>, data: seq<byte>, key: string, off: nat, cs: nat)
    requires 0 < cs && |replicas| > 0
    ensures Added(servers, servers, replicas, 0, data, key, off, cs)
  {
  }

  lemma AddedOne(before: seq<Server>, after: seq<Server>, replicas: seq<nat>, m: nat, data: seq<byte>, key: string, off: nat, cs: nat, c: nat, r: nat, stored: bool)
    requires Added(before, after, replicas, m, data, key, off, cs) && r < |replicas| && m == c * |replicas| + r && c * cs < |data|
    requires replicas[r] < |after| && FreshOids(after[replicas[r]])
    ensures var server := replicas[r]; var name := ChunkName(key, off, c, cs);
      var s1 := if stored then after[server].Put(name, Piece(data, c, cs)) else after[server].HandOut();
      Added(before, after[server := s1], replicas, m + 1, data, key, off, cs)
  {
    hide Piece, ChunkName, OnlyChunks, FreshOids, InternalKey;
    var server, n := replicas[r], |replicas|;
    var name := ChunkName(key, off, c, cs);
    var s1 := if stored then after[server].Put(name, Piece(data, c, cs)) else after[server].HandOut();
    assert m % n == r by { var i := EntryIndex(c, r, n); }
    OnlyOneMore(before[server], after[server], data, key, off, cs, c, stored);
  }

  lemma OnlyOneMore(before: Server, s: Server, data: seq<byte>, key: string, off: nat, cs: nat, c: nat, stored: bool)
    requires 0 < cs && c * cs < |data| && OnlyChunks(before, s, data, key, off, cs) && FreshOids(s) && before.nextOid <= s.nextOid
    ensures var name := ChunkName(key, off, c, cs);
      OnlyChunks(before, if stored then s.Put(name, Piece(data, c, cs)) else s.HandOut(), data, key, off, cs)
  {
    hide Piece, ChunkName, FreshOids;
    var name := ChunkName(key, off, c, cs);
    var t := if stored then s.Put(name, Piece(data, c, cs)) else s.HandOut();
    PutFresh(s, name, Piece(data, c, cs));
    forall k | k in t.chunks && k !in before.chunks ensures NewChunk(before, t, k, data, key, off, cs) {
      if k in s.chunks {
        assert NewChunk(before, s, k, data, key, off, cs);
        var c1: nat, oid: nat :| c1 * cs < |data| && before.nextOid <= oid < s.nextOid
          && k == InternalKey(ChunkName(key, off, c1, cs), oid) && s.chunks[k] == Piece(data, c1, cs);
        assert t.chunks[k] == Piece(data, c1, cs);
      } else {
        assert k == InternalKey(name, s.nextOid) && t.chunks[k] == Piece(data, c, cs);
      }
    }
  }

  /** A put under way: while every chunk was accepted, the path lists what was stored. */
  ghost predicate Storing(ok: bool, servers0: seq<Server>, servers: seq<Server>, replicas: seq<nat>, path: seq<string>, data: seq<byte>, key: string, off: nat, cs: nat) {
    && 0 < cs && KnownServers(servers, replicas) && Extends(servers0, servers)
    && (forall s :: 0 <= s < |servers| ==> FreshOids(servers[s]))
    && (ok ==> forall i :: 0 <= i < |path| ==> EntryHolds(servers, replicas, path, data, cs, i))
    && (ok ==> forall i :: 0 <= i < |path| ==> EntryNamed(servers0, replicas, path, key, off, cs, i))
  }

  lemma StoreOne(ok: bool, servers0: seq<Server>, servers: seq<Server>, replicas: seq<nat>, path: seq<string>, data: seq<byte>, key: string, off: nat, cs: nat,
                 c: nat, r: nat)
    requires Storing(ok, servers0, servers, replicas, path, data, key, off, cs)
    requires r < |replicas| && |path| == c * |replicas| + r
    ensures var server, partial := replicas[r], ChunkName(key, off, c, cs);
      Storing(ok, servers0, servers[server := servers[server].Put(partial, Piece(data, c, cs))], replicas,
        path + [InternalKey(partial, servers[server].nextOid)], data, key, off, cs)
  {
    hide Piece, ChunkName, FreshOids, Named, EntryNamed;
    var n := |replicas|;
    var server, partial := replicas[r], ChunkName(key, off, c, cs);
    var s := servers[server];
    var servers1, path1 := servers[server := s.Put(partial, Piece(data, c, cs))], path + [InternalKey(partial, s.nextOid)];
    PutFresh(s, partial, Piece(data, c, cs));
    var at := EntryIndex(c, r, n);
    NewNamed(servers0, servers, replicas, path1, key, off, cs, c, r);
    forall i | ok && 0 <= i < |path| ensures EntryNamed(servers0, replicas, path1, key, off, cs, i) {
      SameNamed(servers0, replicas, path, path1, key, off, cs, i);
    }
    forall i | ok && 0 <= i < |path| ensures EntryHolds(servers1, replicas, path1, data, cs, i) {
      assert EntryHolds(servers, replicas, path, data, cs, i);
    }
  }

  /** A refused chunk uses up an object id and ends the success of the put. */
  lemma RefuseOne(ok: bool, servers0: seq<Server>, servers: seq<Server>, replicas: seq<nat>, path: seq<string>, data: seq<byte>, key: string, off: nat, cs: nat,
                  r: nat, name: string)
    requires Storing(ok, servers0, servers, replicas, path, data, key, off, cs) && r < |replicas|
    ensures var server := replicas[r];
      Storing(false, servers0, servers[server := servers[server].HandOut()], replicas, path + [name], data, key, off, cs)
  {
    assert FreshOids(servers[replicas[r]]);
    assert FreshOids(servers[replicas[r]].HandOut());
  }

  lemma SameNamed(servers0: seq<Server>, replicas: seq<nat>, path: seq<string>, path1: seq<string>, key: string, off: nat, cs: nat, i: nat)
    requires |replicas| > 0 && 0 < cs && i < |path| && i < |path1| && path[i] == path1[i] && EntryNamed(servers0, replicas, path, key, off, cs, i)
    ensures EntryNamed(servers0, replicas, path1, key, off, cs, i)
  {
  }

  lemma NewNamed(servers0: seq<Server>, servers: seq<Server>, replicas: seq<nat>, path1: seq<string>, key: string, off: nat, cs: nat, c: nat, r: nat)
    requires 0 < cs && KnownServers(servers, replicas) && Extends(servers0, servers) && r < |replicas| && |path1| == c * |replicas| + r + 1
    requires path1[c * |replicas| + r] == InternalKey(ChunkName(key, off, c, cs), servers[replicas[r]].nextOid)
    ensures EntryNamed(servers0, replicas, path1, key, off, cs, c * |replicas| + r)
  {
    var at := EntryIndex(c, r, |replicas|);
    assert Named(path1[c * |replicas| + r], ChunkName(key, off, c, cs), servers0[replicas[r]].nextOid);
  }

  /** Stores every chunk of a buffer on every replica and lists the internal keys. The put succeeds
      exactly if every chunk is accepted; a failed one gives no record. */
  method Put(servers0: seq<Server>, replicas: seq<nat>, key: string, data: seq<byte>, off: nat, cs: nat, accepts: nat -> bool)
    returns (ok: bool, servers: seq<Server>, path: seq<string>)
    requires 0 < cs && KnownServers(servers0, replicas) && forall s :: 0 <= s < |servers0| ==> FreshOids(servers0[s])
    ensures ok <==> forall i: nat :: i < NumChunks(|data|, cs) * |replicas| ==> accepts(i)
    ensures if ok then PathHolds(servers, replicas, path, data, cs) else path == []
    ensures Extends(servers0, servers) && forall s :: 0 <= s < |servers| ==> FreshOids(servers[s])
    ensures forall i :: 0 <= i < |path| ==> EntryNamed(servers0, replicas, path, key, off, cs, i)
    ensures Added(servers0, servers, replicas, NumChunks(|data|, cs) * |replicas|, data, key, off, cs)
  {
    hide Added;
    ok, servers, path := true, servers0, [];
    AddedNone(servers0, replicas, data, key, off, cs);
    var offset := 0;
    ghost var c := 0;
    while offset < |data|
      invariant offset == c * cs && |path| == c * |replicas| && (c > 0 ==> (c - 1) * cs < |data|)
      invariant ok <==> forall i: nat :: i < |path| ==> accepts(i)
      invariant Storing(ok, servers0, servers, replicas, path, data, key, off, cs)
      invariant Added(servers0, servers, replicas, |path|, data, key, off, cs)
      decreases |data| - offset
    {
      var region := data[offset..if |data| - offset < cs then |data| else offset + cs];
      ok, servers, path := PutChunk(ok, servers0, servers, replicas, path, data, key, off, offset, cs, region, accepts, c);
      NextChunk(c, cs, |replicas|);
      offset := offset + cs;
      c := c + 1;
    }
    ChunksUnique(|data|, cs, c);
    if !ok { path := []; }
  }

  lemma StoringFresh(ok: bool, servers0: seq<Server>, servers: seq<Server>, replicas: seq<nat>, path: seq<string>, data: seq<byte>, key: string, off: nat, cs: nat, r: nat)
    requires Storing(ok, servers0, servers, replicas, path, data, key, off, cs) && r < |replicas|
    ensures replicas[r] < |servers| && FreshOids(servers[replicas[r]])
  {
    hide FreshOids, EntryHolds, EntryNamed, Extends;
  }

  lemma NextChunk(c: nat, cs: nat, n: nat)
    ensures (c + 1) * cs == c * cs + cs && (c + 1) * n == c * n + n
  {
  }

  method PartialName(key: string, off: nat, offset: nat, ghost c: nat, cs: nat) returns (partial: string)
    requires 0 < cs && offset == c * cs
    ensures partial == ChunkName(key, off, c, cs)
  {
    partial := PartialKey(key, (off + offset) / cs, cs);
  }

  /** Stores one chunk on every replica. */
  method PutChunk(ok1: bool, ghost servers0: seq<Server>, servers1: seq<Server>, replicas: seq<nat>, path1: seq<string>, ghost data: seq<byte>,
                  key: string, off: nat, offset: nat, cs: nat, region: seq<byte>, accepts: nat -> bool, ghost c: nat)
    returns (ok: bool, servers: seq<Server>, path: seq<string>)
    requires Storing(ok1, servers0, servers1, replicas, path1, data, key, off, cs) && KnownServers(servers1, replicas) && 0 < cs
    requires offset == c * cs < |data| && |path1| == c * |replicas| && region == Piece(data, c, cs)
    requires Added(servers0, servers1, replicas, |path1|, data, key, off, cs)
    requires ok1 <==> forall i: nat :: i < |path1| ==> accepts(i)
    ensures Storing(ok, servers0, servers, replicas, path, data, key, off, cs) && |path| == c * |replicas| + |replicas|
    ensures ok <==> forall i: nat :: i < |path| ==> accepts(i)
    ensures Added(servers0, servers, replicas, |path|, data, key, off, cs)
  {
    hide Storing, Piece, Added, FreshOids;
    ok, servers, path := ok1, servers1, path1;
    ghost var name := ChunkName(key, off, c, cs);
    var partial := PartialName(key, off, offset, c, cs);
    var r := 0;
    while r < |replicas|
      invariant 0 <= r <= |replicas| && |path| == c * |replicas| + r && |servers| == |servers1|
      invariant ok <==> forall i: nat :: i < |path| ==> accepts(i)
      invariant Storing(ok, servers0, servers, replicas, path, data, key, off, cs)
      invariant Added(servers0, servers, replicas, |path|, data, key, off, cs)
    {
      var server := replicas[r];
      StoringFresh(ok, servers0, servers, replicas, path, data, key, off, cs, r);
      AddedOne(servers0, servers, replicas, |path|, data, key, off, cs, c, r, accepts(|path|));
      if accepts(|path|) {
        StoreOne(ok, servers0, servers, replicas, path, data, key, off, cs, c, r);
        assert partial == name;
        path := path + [InternalKey(partial, servers[server].nextOid)];
        servers := servers[server := servers[server].Put(partial, region)];
      } else {
        RefuseOne(ok, servers0, servers, replicas, path, data, key, off, cs, r, "<undefined>");
        path := path + ["<undefined>"];
        servers := servers[server := servers[server].HandOut()];
        ok := false;
      }
      r := r + 1;
    }
  }

  // ---- joining the parts of an upload ----

  lemma JoinIndex(i: nat, n1: nat, n: nat)
    requires 0 < n && n1 * n <= i
    ensures n1 <= ChunkOf(i, n) && ChunkOf(i - n1 * n, n) == ChunkOf(i, n) - n1 && ReplicaOf(i - n1 * n, n) == ReplicaOf(i, n)
  {
    var q, r := i / n, i % n;
    assert i == q * n + r;
    MulMono(q, n1, n);
    assert i - n1 * n == (q - n1) * n + r;
    DivMod(n, (q - n1) * n + r, q - n1, r);
  }

  lemma PieceOfJoin(a: seq<byte>, b: seq<byte>, c: nat, n1: nat, cs: nat)
    requires 0 < cs && |a| == n1 * cs
    ensures c < n1 ==> Piece(a + b, c, cs) == Piece(a, c, cs)
    ensures c >= n1 ==> Piece(a + b, c, cs) == Piece(b, c - n1, cs)
  {
    MulMono(c, n1, cs);
    if c >= n1 {
      assert c * cs == n1 * cs + (c - n1) * cs;
      MulMono(n1, c + 1, cs);
    }
  }

  lemma JoinChunks(a: nat, b: nat, cs: nat)
    requires 0 < cs && a % cs == 0
    ensures NumChunks(a + b, cs) == NumChunks(a, cs) + NumChunks(b, cs)
  {
    hide NumChunks;
    var n, m := NumChunks(a, cs), NumChunks(b, cs);
    ChunkBounds(a, cs, n);
    ChunkBounds(b, cs, m);
    DistributeOver(n, m, cs);
    if m > 0 { DistributeOver(n, m - 1, cs); }
    ChunksUnique(a + b, cs, n + m);
  }

  lemma DistributeOver(a: int, b: int, n: int)
    ensures (a + b) * n == a * n + b * n
  {
  }

  /** Appending the path of the next part keeps the layout when the part before it ends on a chunk
      boundary. */
  lemma JoinedHolds(servers: seq<Server>, replicas: seq<nat>, path: seq<string>, a: seq<byte>, more: seq<string>, b: seq<byte>, cs: nat)
    requires PathHolds(servers, replicas, path, a, cs) && PathHolds(servers, replicas, more, b, cs) && |a| % cs == 0
    ensures PathHolds(servers, replicas, path + more, a + b, cs)
  {
    var n, n1, n2 := |replicas|, NumChunks(|a|, cs), NumChunks(|b|, cs);
    JoinChunks(|a|, |b|, cs);
    ChunkBounds(|a|, cs, n1);
    DistributeOver(n1, n2, n);
    hide Piece, NumChunks, ChunkOf, ReplicaOf, EntryHolds;
    forall i | 0 <= i < |path + more| ensures EntryHolds(servers, replicas, path + more, a + b, cs, i) {
      if i < |path| {
        JoinedFront(servers, replicas, path, a, more, b, cs, n1, i);
      } else {
        JoinedBack(servers, replicas, path, a, more, b, cs, n1, i);
      }
    }
  }

  lemma JoinedFront(servers: seq<Server>, replicas: seq<nat>, path: seq<string>, a: seq<byte>, more: seq<string>, b: seq<byte>, cs: nat, n1: nat, i: nat)
    requires 0 < cs && |a| == n1 * cs && |replicas| > 0 && i < |path| == n1 * |replicas| && EntryHolds(servers, replicas, path, a, cs, i)
    ensures EntryHolds(servers, replicas, path + more, a + b, cs, i)
  {
    hide Piece;
    BelowBound(i, n1, |replicas|);
    PieceOfJoin(a, b, ChunkOf(i, |replicas|), n1, cs);
  }

  lemma JoinedBack(servers: seq<Server>, replicas: seq<nat>, path: seq<string>, a: seq<byte>, more: seq<string>, b: seq<byte>, cs: nat, n1: nat, i: nat)
    requires 0 < cs && |a| == n1 * cs && |replicas| > 0 && |path| == n1 * |replicas| && |path| <= i < |path| + |more|
    requires EntryHolds(servers, replicas, more, b, cs, i - |path|)
    ensures EntryHolds(servers, replicas, path + more, a + b, cs, i)
  {
    hide Piece, ChunkOf, ReplicaOf;
    JoinIndex(i, n1, |replicas|);
    PieceOfJoin(a, b, ChunkOf(i, |replicas|), n1, cs);
    assert (path + more)[i] == more[i - |path|];
  }

  lemma BelowBound(i: nat, n1: nat, n: nat)
    requires 0 < n && i < n1 * n
    ensures ChunkOf(i, n) < n1
  {
    assert i == i / n * n + i % n;
    MulMono(i / n, n1, n);
  }

  /** When the part before ends inside a chunk, the joined path is wrong: its entry for that chunk
      holds too few bytes. So the layout survives joining exactly on chunk boundaries. */
  lemma JoinedHoldsExactly(servers: seq<Server>, replicas: seq<nat>, path: seq<string>, a: seq<byte>, more: seq<string>, b: seq<byte>, cs: nat)
    requires PathHolds(servers, replicas, path, a, cs) && PathHolds(servers, replicas, more, b, cs)
    ensures PathHolds(servers, replicas, path + more, a + b, cs) <==> |a| % cs == 0 || b == []
  {
    if |a| % cs == 0 {
      JoinedHolds(servers, replicas, path, a, more, b, cs);
    } else if b == [] {
      assert NumChunks(0, cs) == 0 && more == [] && path + more == path && a + b == a;
    } else {
      var c := NumChunks(|a|, cs) - 1;
      ShortPiece(a, b, cs, c);
      hide Piece;
      var i := EntryIndex(c, 0, |replicas|);
      MulMono(c, c + 1, |replicas|);
      assert EntryHolds(servers, replicas, path, a, cs, i);
      assert (path + more)[i] == path[i];
      assert !EntryHolds(servers, replicas, path + more, a + b, cs, i);
    }
  }

  lemma ShortPiece(a: seq<byte>, b: seq<byte>, cs: nat, c: nat)
    requires 0 < cs && |a| % cs != 0 && b != [] && c == NumChunks(|a|, cs) - 1
    ensures Piece(a, c, cs) != Piece(a + b, c, cs)
  {
    ChunkBounds(|a|, cs, c + 1);
    MulMono(c, c + 1, cs);
    assert |Piece(a, c, cs)| < |Piece(a + b, c, cs)|;
  }

  datatype Root = Root(replica: seq<nat>, path: seq<string>, size: nat)

  function Flatten(parts: seq<seq<byte>>): seq<byte> {
    if parts == [] then [] else Flatten(parts[..|parts| - 1]) + parts[|parts| - 1]
  }

  lemma {:induction false} FlattenAligned(parts: seq<seq<byte>>, cs: nat)
    requires 0 < cs && forall k :: 0 <= k < |parts| ==> |parts[k]| % cs == 0
    ensures |Flatten(parts)| % cs == 0
  {
    if parts != [] {
      var rest, last := Flatten(parts[..|parts| - 1]), parts[|parts| - 1];
      FlattenAligned(parts[..|parts| - 1], cs);
      SumMultiple(|rest|, |last|, cs);
    }
  }

  lemma SumMultiple(a: nat, b: nat, cs: nat)
    requires 0 < cs && a % cs == 0 && b % cs == 0
    ensures (a + b) % cs == 0
  {
    var p, q := a / cs, b / cs;
    assert a == p * cs && b == q * cs;
    assert (p + q) * cs == p * cs + q * cs;
    DivMod(cs, a + b, p + q, 0);
  }

  /** Makes one metadata record from those of the parts; nothing is recorded for no parts. */
  method Completed(ghost servers: seq<Server>, roots: seq<Root>, size: nat, ghost parts: seq<seq<byte>>, ghost cs: nat) returns (r: Result<Root>)
    requires 0 < cs && |parts| == |roots|
    requires forall k :: 0 <= k < |roots| ==> PathHolds(servers, roots[0].replica, roots[k].path, parts[k], cs)
    requires forall k :: 0 <= k < |roots| - 1 ==> |parts[k]| % cs == 0
    ensures r.Err? <==> roots == []
    ensures r.Ok? ==> r.value.replica == roots[0].replica && r.value.size == size
    ensures r.Ok? ==> PathHolds(servers, r.value.replica, r.value.path, Flatten(parts), cs)
  {
    if roots == [] { return Err; }
    var json_path := [];
    var i := 0;
    assert parts[..0] == [];
    while i < |roots|
      invariant 0 <= i <= |roots|
      invariant PathHolds(servers, roots[0].replica, json_path, Flatten(parts[..i]), cs)
    {
      FlattenAligned(parts[..i], cs);
      assert parts[..i + 1][..i] == parts[..i];
      JoinedHolds(servers, roots[0].replica, json_path, Flatten(parts[..i]), roots[i].path, parts[i], cs);
      json_path := json_path + roots[i].path;
      i := i + 1;
    }
    assert parts[..i] == parts;
    r := Ok(roots[0].(path := json_path, size := size));
  }

  // ---- reading ----

  datatype ChunkRequest = ChunkRequest(chunkId: nat, chunkStart: nat, chunkLen: nat, bufferOffset: nat)

  /** The requests read [start, start + size) in order, each inside one chunk. */
  ghost predicate Requested(requests: seq<ChunkRequest>, start: nat, cs: nat, total: nat) {
    && (forall k :: 0 <= k < |requests| ==> RequestOk(requests[k], start, cs))
    && (forall k :: 0 <= k < |requests| ==> Chained(requests, k, total))
    && (if requests == [] then total == 0 else requests[0].bufferOffset == 0)
  }

  /** A request ends in the buffer where the next one begins. */
  ghost predicate Chained(requests: seq<ChunkRequest>, k: nat, total: nat)
    requires k < |requests|
  {
    requests[k].bufferOffset + requests[k].chunkLen == if k == |requests| - 1 then total else requests[k + 1].bufferOffset
  }

  ghost predicate RequestOk(r: ChunkRequest, start: nat, cs: nat) {
    && r.chunkId * cs + r.chunkStart == start + r.bufferOffset
    && 0 < r.chunkLen && r.chunkStart + r.chunkLen <= cs
  }

  lemma AppendRequest(requests: seq<ChunkRequest>, start: nat, cs: nat, total: nat, r: ChunkRequest)
    requires Requested(requests, start, cs, total) && RequestOk(r, start, cs) && r.bufferOffset == total
    ensures Requested(requests + [r], start, cs, total + r.chunkLen)
  {
    var more := requests + [r];
    var after := total + r.chunkLen;
    forall k | 0 <= k < |more| ensures Chained(more, k, after) {
      if k < |requests| { assert Chained(requests, k, total); }
    }
  }

  /** Splits a range into one request for each chunk it touches. */
  method GenerateGetChunkRequests(start: nat, size: nat, cs: nat) returns (requests: seq<ChunkRequest>)
    requires 0 < cs
    ensures Requested(requests, start, cs, size)
  {
    requests := [];
    assert Requested(requests, start, cs, 0);
    hide Requested, RequestOk;
    var end := start + size;
    var chunk_id, end_chunk_id := start / cs, (end + cs - 1) / cs;
    var buffer_offset := 0;
    FirstChunk(start, end, cs);
    while chunk_id < end_chunk_id
      invariant 0 <= buffer_offset <= size && Requested(requests, start, cs, buffer_offset)
      invariant if requests == [] then chunk_id == start / cs else start + buffer_offset == if chunk_id * cs < end then chunk_id * cs else end
    {
      ChunkWindow(chunk_id, start, end, cs);
      MulMono(chunk_id, chunk_id + 1, cs);
      var chunk_start := if chunk_id * cs > start then chunk_id * cs else start;
      var chunk_stop := if (chunk_id + 1) * cs < end then (chunk_id + 1) * cs else end;
      if chunk_stop <= chunk_start { return; }
      assert chunk_start == start + buffer_offset && chunk_id * cs <= chunk_start < chunk_id * cs + cs;
      InChunk(chunk_id, chunk_start, chunk_stop, start, buffer_offset, cs);
      AppendRequest(requests, start, cs, buffer_offset, ChunkRequest(chunk_id, chunk_start % cs, chunk_stop - chunk_start, buffer_offset));
      requests := requests + [ChunkRequest(chunk_id, chunk_start % cs, chunk_stop - chunk_start, buffer_offset)];
      buffer_offset := buffer_offset + (chunk_stop - chunk_start);
      chunk_id := chunk_id + 1;
    }
    LastChunk(chunk_id, end_chunk_id, start, end, cs);
  }

  lemma InChunk(c: nat, from: nat, to: nat, start: nat, offset: nat, cs: nat)
    requires 0 < cs && from < to && from == start + offset && c * cs <= from && to <= c * cs + cs
    ensures RequestOk(ChunkRequest(c, from % cs, to - from, offset), start, cs)
  {
    DivMod(cs, from, c, from - c * cs);
  }

  lemma FirstChunk(start: nat, end: nat, cs: nat)
    requires 0 < cs && start <= end
    ensures start / cs * cs <= start < (start / cs + 1) * cs
  {
    MulMono(start / cs, start / cs + 1, cs);
  }

  lemma ChunkWindow(c: nat, start: nat, end: nat, cs: nat)
    requires 0 < cs && c < (end + cs - 1) / cs
    ensures c * cs < end
    ensures c == start / cs ==> c * cs <= start < c * cs + cs
  {
    var e := (end + cs - 1) / cs;
    assert e * cs <= end + cs - 1;
    MulMono(c, e, cs);
    MulMono(start / cs, start / cs + 1, cs);
  }

  lemma LastChunk(c: nat, e: nat, start: nat, end: nat, cs: nat)
    requires 0 < cs && e == (end + cs - 1) / cs && e <= c
    ensures end <= c * cs
    ensures c == start / cs ==> end <= start
  {
    assert end + cs - 1 < e * cs + cs;
    MulMono(e, c, cs);
    MulMono(c, e, cs);
    assert start / cs * cs <= start;
  }

  /** The chunk a request reads is stored on the chosen replica and covers the request. */
  lemma RequestServed(servers: seq<Server>, replicas: seq<nat>, path: seq<string>, data: seq<byte>, cs: nat, start: nat, req: ChunkRequest, p: nat)
    requires PathHolds(servers, replicas, path, data, cs) && RequestOk(req, start, cs) && p < |replicas|
    requires start + req.bufferOffset + req.chunkLen <= |data|
    ensures EntryIndex(req.chunkId, p, |replicas|) < |path| && replicas[p] < |servers|
    ensures var at := start + req.bufferOffset;
      GetEntry(servers[replicas[p]], path[EntryIndex(req.chunkId, p, |replicas|)], req.chunkStart, req.chunkLen) == Ok(data[at..at + req.chunkLen])
  {
    hide Piece, ChunkOf, ReplicaOf, NumChunks;
    var n, m := |replicas|, NumChunks(|data|, cs);
    RequestInFile(data, cs, start, req, m);
    MulMono(req.chunkId, m, n);
    var i := EntryIndex(req.chunkId, p, n);
    assert EntryHolds(servers, replicas, path, data, cs, i);
  }

  /** The part of its chunk that a request reads. */
  lemma RequestInFile(data: seq<byte>, cs: nat, start: nat, req: ChunkRequest, m: nat)
    requires 0 < cs && m == NumChunks(|data|, cs) && RequestOk(req, start, cs) && start + req.bufferOffset + req.chunkLen <= |data|
    ensures req.chunkId < m
    ensures var piece, at := Piece(data, req.chunkId, cs), start + req.bufferOffset;
      req.chunkStart + req.chunkLen <= |piece| && piece[req.chunkStart..req.chunkStart + req.chunkLen] == data[at..at + req.chunkLen]
  {
    ChunkBounds(|data|, cs, m);
    MulMono(req.chunkId, m, cs);
    var x := req.chunkId * cs;
    var piece := Piece(data, req.chunkId, cs);
    var end := if x + cs <= |data| then x + cs else |data|;
    assert piece == data[x..end];
    SubSlice(data, x, end, req.chunkStart, req.chunkLen);
  }

  lemma SubSlice(data: seq<byte>, lo: nat, hi: nat, from: nat, len: nat)
    requires lo <= hi <= |data| && lo + from + len <= hi
    ensures data[lo..hi][from..from + len] == data[lo + from..lo + from + len]
  {
    var x, y := data[lo..hi][from..from + len], data[lo + from..lo + from + len];
    assert forall i :: 0 <= i < len ==> x[i] == y[i];
  }

  /** Reads a range inside the file, every chunk from a replica of its own choice. */
  method Get(servers: seq<Server>, replicas: seq<nat>, path: seq<string>, start: nat, size: nat, cs: nat, primary: nat -> nat, ghost data: seq<byte>)
    returns (r: Result<seq<byte>>)
    requires PathHolds(servers, replicas, path, data, cs) && start + size <= |data|
    ensures r == Ok(data[start..start + size])
  {
    hide Requested, RequestOk, GetEntry, EntryIndex, EntryHolds, NumChunks;
    var requests := GenerateGetChunkRequests(start, size, cs);
    FirstRequest(requests, start, cs, size);
    var buffer := [];
    var k := 0;
    while k < |requests|
      invariant 0 <= k <= |requests| && |buffer| == (if k < |requests| then requests[k].bufferOffset else size)
      invariant |buffer| <= size && buffer == data[start..start + |buffer|]
    {
      var req := requests[k];
      RequestAt(requests, start, cs, size, k);
      var p := primary(k) % |replicas|;
      RequestServed(servers, replicas, path, data, cs, start, req, p);
      var out := GetEntry(servers[replicas[p]], path[EntryIndex(req.chunkId, p, |replicas|)], req.chunkStart, req.chunkLen);
      if out.Err? { return Err; }
      buffer := buffer + out.value;
      k := k + 1;
    }
    r := Ok(buffer);
  }

  lemma FirstRequest(requests: seq<ChunkRequest>, start: nat, cs: nat, total: nat)
    requires Requested(requests, start, cs, total)
    ensures if requests == [] then total == 0 else requests[0].bufferOffset == 0
  {
  }

  /** A request continues where the ones before it end. */
  lemma RequestAt(requests: seq<ChunkRequest>, start: nat, cs: nat, total: nat, k: nat)
    requires Requested(requests, start, cs, total) && k < |requests|
    ensures RequestOk(requests[k], start, cs) && requests[k].bufferOffset + requests[k].chunkLen <= total
    ensures requests[k].bufferOffset + requests[k].chunkLen == if k == |requests| - 1 then total else requests[k + 1].bufferOffset
  {
    OffsetsBelow(requests, start, cs, total, k);
    assert Chained(requests, k, total);
  }

  lemma {:induction false} OffsetsBelow(requests: seq<ChunkRequest>, start: nat, cs: nat, total: nat, k: nat)
    requires Requested(requests, start, cs, total) && k < |requests|
    ensures requests[k].bufferOffset + requests[k].chunkLen <= total
    decreases |requests| - k
  {
    assert Chained(requests, k, total);
    if k < |requests| - 1 { OffsetsBelow(requests, start, cs, total, k + 1); }
  }
}
