/** What happens without each of the guarantees of a deployment, alone: runs from the initial state
    that break one guarantee and lose a committed upload. */
module GarbageRuns {
  import opened ChunkKeys
  import D = Decimal
  import opened CollectGarbage
  import opened GarbageSafety
  import opened Multiples
  import opened ReplicaLayout

  /** Some run reaches a state, keeping every guarantee but one, if any. */
  ghost predicate Reachable(cfg: Config, s: State, broken: set<Guarantee>) {
    exists run, steps :: IsRun(cfg, run, steps) && run[|run| - 1] == s && forall k, g :: 0 <= k < |steps| && g !in broken ==> Keeps(g, run[k], steps[k])
  }

  lemma Take(cfg: Config, s: State, t: State, step: Step, broken: set<Guarantee>)
    requires Reachable(cfg, s, broken) && Next(cfg, s, t, step) && forall g :: g !in broken ==> Keeps(g, s, step)
    ensures Reachable(cfg, t, broken)
  {
    hide Next, Keeps, Init;
    var run, steps :| IsRun(cfg, run, steps) && run[|run| - 1] == s && forall k, g :: 0 <= k < |steps| && g !in broken ==> Keeps(g, run[k], steps[k]);
    var run1, steps1 := run + [t], steps + [step];
    forall k | 0 <= k < |steps1| ensures Next(cfg, run1[k], run1[k + 1], steps1[k]) {
      if k < |steps| { assert Next(cfg, run[k], run[k + 1], steps[k]); }
    }
    forall k, g | 0 <= k < |steps1| && g !in broken ensures Keeps(g, run1[k], steps1[k]) {
      if k < |steps| { assert Keeps(g, run[k], steps[k]); }
    }
    assert IsRun(cfg, run1, steps1);
  }

  lemma Begins(cfg: Config, s: State, broken: set<Guarantee>)
    requires 0 < cfg.cs && Init(s)
    ensures Reachable(cfg, s, broken)
  {
    assert IsRun(cfg, [s], []);
    assert [s][|[s]| - 1] == s;
  }

  // ---- one server, chunks of one byte ----

  function Resting(s3: map<string, seq<byte>>): State {
    State([Server(0, map[])], map[], s3, map[], Gc(Idle, [], {}, [], map[], {}), s3, {})
  }

  function Name(key: string, oid: nat): string {
    InternalKey(PartialKey(key, 0, 1), oid)
  }

  /** An upload of one byte with its only chunk stored. */
  function Loaded(key: string, b: byte, oid: nat): Upload {
    Upload(key, [b], [0], map[], map[0 := Name(key, oid)])
  }

  function WithUpload(s: State, id: nat, key: string, b: byte): State
    requires |s.servers| == 1
  {
    s.(servers := [s.servers[0].Put(PartialKey(key, 0, 1), [b])], uploads := s.uploads[id := Loaded(key, b, s.servers[0].nextOid)])
  }

  /** Any state with one server can go on with an upload of one byte. */
  lemma Uploads(cfg: Config, s: State, id: nat, key: string, b: byte, broken: set<Guarantee>)
    requires cfg.cs == 1 && Reachable(cfg, s, broken) && |s.servers| == 1 && id !in s.uploads && s.servers[0].nextOid < UINT64_MAX
    ensures Reachable(cfg, WithUpload(s, id, key, b), broken)
  {
    hide Reachable;
    var oid, u := s.servers[0].nextOid, Upload(key, [b], [0], map[], map[]);
    var s1 := s.(uploads := s.uploads[id := u]);
    Take(cfg, s, s1, Client(BeginStep(id, u)), broken);
    var s2 := s1.(servers := [s.servers[0].HandOut()], uploads := s.uploads[id := u.(ids := map[0 := oid])]);
    assert s2.uploads == s1.uploads[id := u.(ids := u.ids[0 := oid])] && s2.servers == s1.servers[0 := s.servers[0].HandOut()];
    Take(cfg, s1, s2, Client(TakeIdStep(id, 0)), broken);
    var s3 := WithUpload(s, id, key, b);
    assert Piece([b], 0, 1) == [b];
    assert (map[0 := oid]) - {0} == map[];
    assert s3.servers == s2.servers[0 := s2.servers[0].Add(Name(key, oid), [b])];
    assert s3.uploads == s2.uploads[id := Loaded(key, b, oid)];
    Take(cfg, s2, s3, Client(StoreStep(id, 0)), broken);
  }

  function WithCommit(s: State, id: nat, key: string, b: byte, oid: nat): State {
    s.(etcd := s.etcd[key := Root([0], [Name(key, oid)], 1)], truth := s.truth[key := [b]], uploads := s.uploads - {id}, pending := s.pending - {id})
  }

  lemma Commits(cfg: Config, s: State, id: nat, key: string, b: byte, oid: nat, broken: set<Guarantee>)
    requires cfg.cs == 1 && Reachable(cfg, s, broken) && SmallOids(s) && id in s.uploads && s.uploads[id] == Loaded(key, b, oid)
    requires NoOverlap in broken || !Flushed(s, key)
    ensures Reachable(cfg, WithCommit(s, id, key, b, oid), broken)
  {
    hide Reachable, Flushed;
    var t, u := WithCommit(s, id, key, b, oid), s.uploads[id];
    assert NumChunks(|u.data|, 1) * |u.replicas| == 1;
    assert PathOf(u, 1) == [Name(key, oid)];
    Take(cfg, s, t, Client(CommitStep(id)), broken);
  }

  /** The only server is sampled. */
  function Sampled(s: State): State
    requires |s.servers| == 1
  {
    s.(gc := Gc(Listing, [s.servers[0].nextOid], {}, [], map[], {}), pending := OnServer(s, 0))
  }

  lemma Samples(cfg: Config, s: State, broken: set<Guarantee>)
    requires Reachable(cfg, s, broken) && |s.servers| == 1 && SmallOids(s) && s.gc.phase == Idle
    ensures Reachable(cfg, Sampled(s), broken)
  {
    hide Reachable;
    var s1 := s.(gc := Gc(Sampling(0), [], {}, [], map[], {}), pending := {});
    Take(cfg, s, s1, Collect(StartStep), broken);
    var s2 := s1.(gc := s1.gc.(phase := Sampling(1), ts := [s.servers[0].nextOid]), pending := OnServer(s, 0));
    assert OnServer(s1, 0) == OnServer(s, 0);
    Take(cfg, s1, s2, Collect(SampleStep(true, 0)), broken);
    Take(cfg, s2, Sampled(s), Collect(EndSamplingStep), broken);
  }

  /** The collection goes on with one listed key up to its flush. */
  function AtFlush(s: State, key: string, f: Flush): State {
    s.(gc := s.gc.(phase := Flushing, keys := [key], flushes := map[key := f]))
  }

  lemma Lists(cfg: Config, s: State, key: string, broken: set<Guarantee>)
    requires 0 < cfg.cs && Reachable(cfg, s, broken) && SmallOids(s) && s.gc.phase == Listing && s.etcd.Keys == {key} && cfg.prefix == ""
    ensures Reachable(cfg, AtFlush(s, key, Waiting), broken)
    ensures Reachable(cfg, AtFlush(s, key, GotMeta(s.etcd[key])), broken)
  {
    hide Reachable;
    var s1, s2 := AtFlush(s, key, Waiting), AtFlush(s, key, GotMeta(s.etcd[key]));
    assert s1.gc.flushes == map k | k in [key] :: Waiting;
    assert forall k :: k in s.etcd <==> k in s.etcd.Keys;
    Take(cfg, s, s1, Collect(ListStep([key])), broken);
    assert s2.gc.flushes == s1.gc.flushes[key := GotMeta(s.etcd[key])];
    Take(cfg, s1, s2, Collect(FlushStep(key, n => 0)), broken);
  }

  /** The flush has its bytes: they go to the object store, and the metadata goes. */
  lemma FlushEnds(cfg: Config, s: State, key: string, data: seq<byte>, broken: set<Guarantee>)
    requires 0 < cfg.cs && Reachable(cfg, s, broken) && SmallOids(s) && s.gc.phase == Flushing && s.gc.flushes == map[key := GotData(data)]
    ensures Reachable(cfg, s.(s3 := s.s3[key := data], etcd := s.etcd - {key}, gc := s.gc.(flushes := map[key := Finished])), broken)
  {
    hide Reachable;
    var s1 := s.(s3 := s.s3[key := data], gc := s.gc.(flushes := map[key := InS3]));
    assert s1.gc.flushes == s.gc.flushes[key := InS3];
    Take(cfg, s, s1, Collect(FlushStep(key, n => 0)), broken);
    var s2 := s1.(etcd := s.etcd - {key}, gc := s.gc.(flushes := map[key := Finished]));
    assert s2.gc.flushes == s1.gc.flushes[key := Finished];
    Take(cfg, s1, s2, Collect(FlushStep(key, n => 0)), broken);
  }

  /** The collection lists no file and deletes the chunk of the only upload. */
  function Deleted(s: State): State
    requires |s.servers| == 1
  {
    s.(servers := [s.servers[0].(chunks := map[])], gc := s.gc.(phase := Deleting, keys := [], flushes := map[]))
  }

  lemma ListsNothing(cfg: Config, s: State, t: State, broken: set<Guarantee>)
    requires Reachable(cfg, s, broken) && SmallOids(s) && s.gc.phase == Listing && Listed(s.etcd, cfg.prefix, [])
    requires s.pending == {} || OldOnesEnd in broken
    requires t == s.(gc := s.gc.(phase := Deleting, keys := [], flushes := map[]))
    ensures Reachable(cfg, t, broken)
  {
    hide Reachable, HasPrefix;
    var gc, none: seq<string> := s.gc.(keys := [], flushes := map[]), [];
    assert (map k | k in none :: Waiting) == map[];
    var s1 := s.(gc := gc.(phase := Flushing));
    Take(cfg, s, s1, Collect(ListStep([])), broken);
    var s2 := s.(gc := gc.(phase := Relisting));
    Take(cfg, s1, s2, Collect(EndFlushingStep), broken);
    var s3 := s.(gc := gc.(phase := Preserving(0)));
    Take(cfg, s2, s3, Collect(RelistStep([])), broken);
    Take(cfg, s3, t, Collect(EndPreservingStep), broken);
  }

  lemma Deletes(cfg: Config, s: State, key: string, broken: set<Guarantee>)
    requires Reachable(cfg, s, broken) && |s.servers| == 1 && SmallOids(s) && s.gc == Gc(Listing, [1], {}, [], map[], {})
    requires s.servers[0].chunks.Keys == {Name(key, 0)} && HasPrefix(Name(key, 0), cfg.prefix)
    requires Listed(s.etcd, cfg.prefix, []) && (s.pending == {} || OldOnesEnd in broken)
    ensures Reachable(cfg, Deleted(s), broken)
  {
    hide Reachable, HasPrefix, Listed;
    var s4 := s.(gc := s.gc.(phase := Deleting, keys := [], flushes := map[]));
    ListsNothing(cfg, s, s4, broken);
    TakesOnlyChunk(cfg, s4, key, broken);
    assert Deleted(s) == s4.(servers := [s.servers[0].(chunks := map[])]);
  }

  /** The deletion takes the only chunk. */
  lemma TakesOnlyChunk(cfg: Config, s: State, key: string, broken: set<Guarantee>)
    requires Reachable(cfg, s, broken) && |s.servers| == 1 && SmallOids(s) && s.servers[0].chunks.Keys == {Name(key, 0)} && HasPrefix(Name(key, 0), cfg.prefix)
    requires s.gc.phase == Deleting && s.gc.ts == [1] && s.gc.skipped == {} && s.gc.preserve == {}
    ensures Reachable(cfg, s.(servers := [s.servers[0].(chunks := map[])]), broken)
  {
    hide Reachable, HasPrefix, ParseTS, Keeps;
    ParseTsOfInternal(PartialKey(key, 0, 1), 0);
    assert Name(key, 0) in s.servers[0].chunks.Keys;
    assert Excepted(s.gc, 0) == {};
    assert s.servers[0].chunks - {Name(key, 0)} == map[];
    assert Removable(cfg, s.gc, 0, Name(key, 0));
    var step, t := Collect(RemoveStep(0, Name(key, 0))), s.(servers := [s.servers[0].(chunks := map[])]);
    assert Next(cfg, s, t, step);
    forall g | g !in broken ensures Keeps(g, s, step) { Removes(g, s, 0, Name(key, 0)); }
    Take(cfg, s, t, step, broken);
  }

  lemma Removes(g: Guarantee, s: State, server: nat, k: string)
    requires SmallOids(s)
    ensures Keeps(g, s, Collect(RemoveStep(server, k)))
  {
  }

  // ---- the guarantees are needed ----

  ghost predicate Loses(cfg: Config, s: State, key: string, broken: set<Guarantee>, seen: Result<seq<byte>>) {
    && Reachable(cfg, s, broken) && key in s.truth && seen != Ok(s.truth[key])
    && forall primary :: View(cfg, s, key, primary) == seen
  }

  /** After one committed upload of a key, a collection that has just listed it. */
  lemma ListedOnce(s3: map<string, seq<byte>>, key: string, b: byte, broken: set<Guarantee>) returns (s: State)
    ensures Reachable(Config(1, ""), s, broken) && |s.servers| == 1 && s.servers[0] == Server(1, map[Name(key, 0) := [b]])
    ensures s.uploads == map[] && s.s3 == s3 && s.truth == s3[key := [b]] && s.etcd == map[key := Root([0], [Name(key, 0)], 1)]
    ensures s.gc == Gc(Flushing, [1], {}, [key], map[key := GotMeta(s.etcd[key])], {}) && s.pending == {}
  {
    hide Reachable, Flushed;
    var cfg, s0 := Config(1, ""), Resting(s3);
    Begins(cfg, s0, broken);
    var s1 := WithUpload(s0, 0, key, b);
    Uploads(cfg, s0, 0, key, b, broken);
    assert !Flushed(s1, key) by { NotFlushing(s1, key); }
    var s2 := WithCommit(s1, 0, key, b, 0);
    Commits(cfg, s1, 0, key, b, 0, broken);
    Samples(cfg, s2, broken);
    s := AtFlush(Sampled(s2), key, GotMeta(s2.etcd[key]));
    assert s2.uploads == map[] && OnServer(s2, 0) == {};
    Lists(cfg, Sampled(s2), key, broken);
  }

  lemma NotFlushing(s: State, key: string)
    requires s.gc.phase != Flushing
    ensures !Flushed(s, key)
  {
  }

  lemma OneChunk(servers: seq<Server>, key: string, b: byte, primary: nat -> nat)
    requires |servers| == 1 && Name(key, 0) in servers[0].chunks && servers[0].chunks[Name(key, 0)] == [b]
    ensures Assemble(servers, Root([0], [Name(key, 0)], 1), primary, NumChunks(1, 1)) == Ok([b])
  {
    var root := Root([0], [Name(key, 0)], 1);
    assert Assemble(servers, root, primary, 0) == Ok([]);
    assert primary(0) % 1 == 0 && NumChunks(1, 1) == 1;
    assert [] + [b] == [b];
  }

  /** The object store has the content of a file, and the servers have no chunk at all. */
  ghost predicate InStoreOnly(s: State, key: string, data: seq<byte>) {
    && key in s.truth && s.truth[key] == data && key !in s.etcd && key in s.s3 && s.s3[key] == data
    && forall i :: 0 <= i < |s.servers| ==> s.servers[i].chunks == map[]
  }

  /** A collection that nothing disturbs moves a file to the object store and frees its chunk. */
  lemma FlushedChunkGoes(key: string, b: byte)
    ensures exists s :: Reachable(Config(1, ""), s, {}) && InStoreOnly(s, key, [b])
  {
    hide Reachable, Flushed, Assemble, HasPrefix, OnServer;
    var cfg, none: set<Guarantee> := Config(1, ""), {};
    var s0 := ListedOnce(map[], key, b, none);
    var s1 := s0.(gc := s0.gc.(flushes := map[key := GotData([b])]));
    OneChunk(s0.servers, key, b, n => 0);
    assert s1.gc.flushes == s0.gc.flushes[key := GotData([b])];
    Take(cfg, s0, s1, Collect(FlushStep(key, n => 0)), none);
    var s2 := s1.(s3 := s1.s3[key := [b]], etcd := s1.etcd - {key}, gc := s1.gc.(flushes := map[key := Finished]));
    FlushEnds(cfg, s1, key, [b], none);
    var s5 := s2.(gc := s2.gc.(phase := Deleting));
    assert s2.etcd == map[];
    RereadsGone(cfg, s2, s5, key, none);
    EmptyPrefix(Name(key, 0));
    assert s5.servers[0].chunks.Keys == {Name(key, 0)};
    TakesOnlyChunk(cfg, s5, key, none);
    var s := s5.(servers := [Server(1, map[])]);
    assert InStoreOnly(s, key, [b]);
  }

  lemma EmptyPrefix(k: string)
    ensures HasPrefix(k, "")
  {
  }

  /** The listed key is gone, so nothing is noted for it. */
  lemma RereadsGone(cfg: Config, s: State, t: State, key: string, broken: set<Guarantee>)
    requires Reachable(cfg, s, broken) && SmallOids(s) && s.gc.phase == Flushing && s.gc.flushes == map[key := Finished] && s.gc.keys == [key]
    requires s.etcd == map[] && s.pending == {} && t == s.(gc := s.gc.(phase := Deleting))
    ensures Reachable(cfg, t, broken)
  {
    hide Reachable, HasPrefix;
    var s1 := s.(gc := s.gc.(phase := Relisting));
    Take(cfg, s, s1, Collect(EndFlushingStep), broken);
    var s2 := s.(gc := s.gc.(phase := Preserving(0)));
    assert s1.gc.keys + [] == [key];
    Take(cfg, s1, s2, Collect(RelistStep([])), broken);
    var s3 := s.(gc := s.gc.(phase := Preserving(1)));
    Take(cfg, s2, s3, Collect(PreserveStep), broken);
    Take(cfg, s3, t, Collect(EndPreservingStep), broken);
  }

  /** An upload committed while its key is being flushed is lost: the flush stores the bytes it has
      read and then deletes the new metadata. */
  lemma OverlapLosesUpload(key: string)
    ensures exists s :: Loses(Config(1, ""), s, key, {NoOverlap}, Ok([1]))
  {
    hide Reachable, Flushed, Assemble, OnServer;
    var cfg, broken := Config(1, ""), {NoOverlap};
    var s0 := ListedOnce(map[], key, 1, broken);
    var s1 := s0.(gc := s0.gc.(flushes := map[key := GotData([1])]));
    OneChunk(s0.servers, key, 1, n => 0);
    assert s1.gc.flushes == s0.gc.flushes[key := GotData([1])];
    Take(cfg, s0, s1, Collect(FlushStep(key, n => 0)), broken);
    var s2 := WithUpload(s1, 1, key, 2);
    Uploads(cfg, s1, 1, key, 2, broken);
    var s3 := WithCommit(s2, 1, key, 2, 1);
    Commits(cfg, s2, 1, key, 2, 1, broken);
    var s := s3.(s3 := s3.s3[key := [1]], etcd := s3.etcd - {key}, gc := s3.gc.(flushes := map[key := Finished]));
    FlushEnds(cfg, s3, key, [1], broken);
    assert s.truth[key] == [2] && key !in s.etcd && s.s3[key] == [1];
    assert Loses(cfg, s, key, broken, Ok([1]));
  }

  /** A flush that cannot reach a replica and reads an older object instead stores the older bytes and
      deletes the metadata of the new ones. */
  lemma FallBackLosesUpload(key: string)
    ensures exists s :: Loses(Config(1, ""), s, key, {StoreCurrent}, Ok([1]))
  {
    hide Reachable, Flushed, Assemble, OnServer;
    var cfg, broken := Config(1, ""), {StoreCurrent};
    var s0 := ListedOnce(map[key := [1]], key, 2, broken);
    var s1 := s0.(gc := s0.gc.(flushes := map[key := GotData([1])]));
    assert s1.gc.flushes == s0.gc.flushes[key := GotData([1])];
    Take(cfg, s0, s1, Collect(FlushFallsBackStep(key, [1])), broken);
    var s := s1.(s3 := s1.s3[key := [1]], etcd := s1.etcd - {key}, gc := s1.gc.(flushes := map[key := Finished]));
    FlushEnds(cfg, s1, key, [1], broken);
    assert s.truth[key] == [2] && key !in s.etcd && s.s3[key] == [1];
    assert Loses(cfg, s, key, broken, Ok([1]));
  }

  /** An upload that was on a server when it was sampled and commits after the second listing names a
      chunk that is gone. */
  lemma LateCommitDangles(key: string)
    ensures exists s :: Loses(Config(1, ""), s, key, {OldOnesEnd}, Err)
  {
    hide Reachable, Flushed;
    var cfg, broken, s0 := Config(1, ""), {OldOnesEnd}, Resting(map[]);
    Begins(cfg, s0, broken);
    var s1 := WithUpload(s0, 0, key, 1);
    Uploads(cfg, s0, 0, key, 1, broken);
    var s2 := Sampled(s1);
    Samples(cfg, s1, broken);
    Deletes(cfg, s2, key, broken);
    var s3 := Deleted(s2);
    NotFlushing(s3, key);
    var s := WithCommit(s3, 0, key, 1, 0);
    Commits(cfg, s3, 0, key, 1, 0, broken);
    forall primary ensures View(cfg, s, key, primary) == Err { Dangling(s.servers, key, primary); }
    assert Loses(cfg, s, key, broken, Err);
  }

  lemma Dangling(servers: seq<Server>, key: string, primary: nat -> nat)
    requires |servers| == 1 && servers[0].chunks == map[]
    ensures Assemble(servers, Root([0], [Name(key, 0)], 1), primary, NumChunks(1, 1)) == Err
  {
    assert primary(0) % 1 == 0 && NumChunks(1, 1) == 1;
  }

  /** A prefix that is not safe loses a file although every guarantee is kept: the file is not listed,
      and its chunk is deleted. */
  lemma UnsafePrefixLosesFile()
    ensures !SafePrefix("a-0", 1) && exists s :: Loses(Config(1, "a-0"), s, "a", {}, Err)
  {
    hide Reachable, Flushed, SafePrefix, HasPrefix;
    var cfg, key, s0 := Config(1, "a-0"), "a", Resting(map[]);
    DashPrefix(1, 0);
    Begins(cfg, s0, {});
    var s1 := WithUpload(s0, 0, key, 1);
    Uploads(cfg, s0, 0, key, 1, {});
    NotFlushing(s1, key);
    var s2 := WithCommit(s1, 0, key, 1, 0);
    Commits(cfg, s1, 0, key, 1, 0, {});
    Samples(cfg, s2, {});
    var s3 := Sampled(s2);
    assert s3.etcd.Keys == {key};
    Deletes(cfg, s3, key, {});
    var s := Deleted(s3);
    forall primary ensures View(cfg, s, key, primary) == Err { Dangling(s.servers, key, primary); }
    assert Loses(cfg, s, key, {}, Err);
  }
}
