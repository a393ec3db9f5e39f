/** Garbage collection never takes a chunk that a live file needs, and leaves every file's content. */
module GarbageSafety {
  import opened ChunkKeys
  import opened CollectGarbage
  import opened Multiples
  import opened ReplicaLayout
  import opened UploadSafety

  // ---- reading ----

  lemma PieceJoins(data: seq<byte>, c: nat, cs: nat)
    requires 0 < cs && c < NumChunks(|data|, cs)
    ensures c * cs <= |data| && (c + 1) * cs == c * cs + cs
    ensures data[..c * cs] + Piece(data, c, cs) == data[..if (c + 1) * cs <= |data| then (c + 1) * cs else |data|]
  {
    var n := NumChunks(|data|, cs);
    ChunkBounds(|data|, cs, n);
    MulMono(c, n - 1, cs);
    MulMono(c, c + 1, cs);
    FrontAndPiece(data, c, cs, c * cs);
  }

  lemma FrontAndPiece(data: seq<byte>, c: nat, cs: nat, x: nat)
    requires x == c * cs && x <= |data|
    ensures data[..x] + Piece(data, c, cs) == data[..if x + cs <= |data| then x + cs else |data|]
  {
  }

  /** Any replica of a chunk holds it. */
  lemma ChunkHolds(cfg: Config, servers: seq<Server>, root: Root, data: seq<byte>, c: nat, p: nat)
    requires PathHolds(servers, root.replica, root.path, data, cfg.cs) && c < NumChunks(|data|, cfg.cs) && p < |root.replica|
    ensures 0 <= c * |root.replica| + p < |root.path| && root.replica[p] < |servers|
    ensures var chunks, name := servers[root.replica[p]].chunks, root.path[c * |root.replica| + p];
      name in chunks && chunks[name] == Piece(data, c, cfg.cs)
  {
    hide Piece, NumChunks;
    var i := EntryIndex(c, p, |root.replica|);
    MulMono(c, NumChunks(|data|, cfg.cs), |root.replica|);
    assert EntryHolds(servers, root.replica, root.path, data, cfg.cs, i);
  }

  /** Whatever replicas are chosen, the chunks of a live file put together are its content. */
  lemma {:induction false} AssembleHolds(cfg: Config, servers: seq<Server>, root: Root, data: seq<byte>, primary: nat -> nat, n: nat)
    requires PathHolds(servers, root.replica, root.path, data, cfg.cs) && n <= NumChunks(|data|, cfg.cs)
    ensures Assemble(servers, root, primary, n) == Ok(data[..if n * cfg.cs <= |data| then n * cfg.cs else |data|])
    ensures n == NumChunks(|data|, cfg.cs) ==> Assemble(servers, root, primary, n) == Ok(data)
  {
    hide Piece, NumChunks, EntryHolds;
    if n > 0 {
      AssembleHolds(cfg, servers, root, data, primary, n - 1);
      PieceJoins(data, n - 1, cfg.cs);
      ChunkHolds(cfg, servers, root, data, n - 1, primary(n - 1) % |root.replica|);
    }
    ChunkBounds(|data|, cfg.cs, NumChunks(|data|, cfg.cs));
    assert data[..|data|] == data;
  }

  /** In a state that keeps the invariant every key reads as its last committed bytes. */
  lemma ReadsTruth(cfg: Config, s: State, key: string, primary: nat -> nat)
    requires Inv(cfg, s) && key in s.truth
    ensures View(cfg, s, key, primary) == Ok(s.truth[key])
  {
    if key in s.etcd {
      AssembleHolds(cfg, s.servers, s.etcd[key], s.truth[key], primary, NumChunks(|s.truth[key]|, cfg.cs));
    }
  }

  // ---- steps of the collector ----

  lemma SamePlacesInv(cfg: Config, s: State, t: State)
    requires Inv(cfg, s) && SamePlaces(s, t)
    ensures EtcdOk(cfg, t) && S3Ok(t) && UploadsOk(cfg, t) && IdsDiffer(t) && ServersOk(t)
  {
    hide RootOk, UploadOk, FreshOids, OldKeys;
  }

  lemma StartInv(cfg: Config, s: State, t: State)
    requires Inv(cfg, s) && Start(s, t)
    ensures Inv(cfg, t)
  {
    hide EtcdOk, S3Ok, UploadsOk, IdsDiffer, ServersOk;
    SamePlacesInv(cfg, s, t);
    forall id | id in t.uploads && id !in t.pending ensures UploadYoung(t.gc, t.uploads[id]) {
      KeepsReplicas(cfg, s, id);
    }
  }

  lemma KeepsReplicas(cfg: Config, s: State, id: nat)
    requires UploadsOk(cfg, s) && id in s.uploads
    ensures UploadOk(cfg, s.servers, s.uploads[id])
  {
  }

  /** Every upload that is not on the sampled server holds no id of it, and every other one is
      pending; ids handed out later are at least as large as the sample. */
  lemma SampleInv(cfg: Config, s: State, t: State, answered: bool, other: nat)
    requires Inv(cfg, s) && Sample(s, t, answered, other)
    ensures Inv(cfg, t)
  {
    hide EtcdOk, S3Ok, UploadsOk, IdsDiffer, ServersOk;
    SamePlacesInv(cfg, s, t);
    forall id | id in t.uploads && id !in t.pending ensures UploadYoung(t.gc, t.uploads[id]) {
      assert UploadYoung(s.gc, s.uploads[id]);
      if answered { assert !On(s.uploads[id], s.gc.phase.next); }
    }
  }

  lemma QuietInv(cfg: Config, s: State, t: State, step: GcStep)
    requires Inv(cfg, s) && GcNext(cfg, s, t, step)
    requires step.EndSamplingStep? || step.ListStep? || step.EndFlushingStep? || step.StopStep?
    ensures Inv(cfg, t)
  {
    hide RootOk, UploadOk, FreshOids, EtcdOk, S3Ok, UploadsOk, IdsDiffer, ServersOk, Listed;
    SamePlacesInv(cfg, s, t);
    SameSample(s, t);
  }

  lemma SameSample(s: State, t: State)
    requires Quiet(s, t) && t.gc.ts == s.gc.ts && t.gc.skipped == s.gc.skipped
    requires t.gc.phase.Preserving? || t.gc.phase.Deleting? ==> s.pending == {}
    ensures SamplesOk(s) ==> SamplesOk(t)
    ensures OthersYoung(s) ==> OthersYoung(t)
  {
    if OthersYoung(s) {
      forall id | id in t.uploads && id !in t.pending ensures UploadYoung(t.gc, t.uploads[id]) {
        assert UploadYoung(s.gc, s.uploads[id]);
      }
    }
  }

  lemma FlushPlaces(cfg: Config, s: State, t: State, key: string, primary: nat -> nat)
    requires EtcdOk(cfg, s) && S3Ok(s) && FlushOk(s, key) && FlushNext(cfg, s, t, key, primary)
    ensures EtcdOk(cfg, t) && S3Ok(t)
  {
    hide RootOk, Assemble;
  }

  lemma FlushStates(cfg: Config, s: State, t: State, key: string, primary: nat -> nat)
    requires EtcdOk(cfg, s) && FlushesOk(s) && FlushNext(cfg, s, t, key, primary)
    ensures FlushesOk(t)
  {
    hide RootOk, Assemble;
    assert FlushOk(s, key);
    if s.gc.flushes[key].GotMeta? {
      RootSize(cfg, s.servers, key, s.etcd[key], s.truth[key], primary);
    }
    forall k | k in t.gc.flushes ensures FlushOk(t, k) {
      assert FlushOk(s, k);
    }
  }

  lemma FlushInv(cfg: Config, s: State, t: State, key: string, primary: nat -> nat)
    requires Inv(cfg, s) && FlushNext(cfg, s, t, key, primary)
    ensures Inv(cfg, t)
  {
    hide EtcdOk, S3Ok, UploadsOk, ServersOk, FlushOk, Assemble, RootSpared, IdsDiffer, UploadYoung;
    UploadsSame(cfg, s, t);
    assert FlushOk(s, key);
    FlushPlaces(cfg, s, t, key, primary);
    FlushStates(cfg, s, t, key, primary);
    SamplesSame(s, t);
  }

  lemma UploadsSame(cfg: Config, s: State, t: State)
    requires UploadsOk(cfg, s) && ServersOk(s) && IdsDiffer(s) && t.servers == s.servers && t.uploads == s.uploads
    ensures UploadsOk(cfg, t) && ServersOk(t) && IdsDiffer(t)
  {
    hide UploadOk, FreshOids, OldKeys;
  }

  lemma SamplesSame(s: State, t: State)
    requires t.servers == s.servers && t.uploads == s.uploads && t.pending == s.pending
    requires t.gc.ts == s.gc.ts && t.gc.skipped == s.gc.skipped && t.gc.phase == s.gc.phase == Flushing
    ensures SamplesOk(s) ==> SamplesOk(t)
    ensures OthersYoung(s) ==> OthersYoung(t)
  {
    if OthersYoung(s) {
      forall id | id in t.uploads && id !in t.pending ensures UploadYoung(t.gc, t.uploads[id]) {
        assert UploadYoung(s.gc, s.uploads[id]);
      }
    }
  }

  lemma RootSize(cfg: Config, servers: seq<Server>, key: string, root: Root, data: seq<byte>, primary: nat -> nat)
    requires RootOk(cfg, servers, key, root, data)
    ensures 0 < cfg.cs && Assemble(servers, root, primary, NumChunks(root.size, cfg.cs)) == Ok(data)
  {
    AssembleHolds(cfg, servers, root, data, primary, NumChunks(|data|, cfg.cs));
  }

  lemma FlushFailsInv(cfg: Config, s: State, t: State, key: string)
    requires Inv(cfg, s) && FlushFails(s, t, key)
    ensures Inv(cfg, t)
  {
    hide EtcdOk, S3Ok, UploadsOk, ServersOk, IdsDiffer, UploadYoung;
    SamePlacesInv(cfg, s, t);
    SamplesSame(s, t);
    forall k | k in t.gc.flushes ensures FlushOk(t, k) {
      assert FlushOk(s, k);
    }
  }

  /** Reading the object store during a flush keeps the invariant exactly if that gives the content. */
  lemma FallBackInv(cfg: Config, s: State, t: State, key: string, data: seq<byte>)
    requires Inv(cfg, s) && FlushFallsBack(s, t, key, data)
    ensures key in s.truth && (Inv(cfg, t) <==> data == s.truth[key])
  {
    hide EtcdOk, S3Ok, UploadsOk, ServersOk, IdsDiffer, UploadYoung;
    SamePlacesInv(cfg, s, t);
    SamplesSame(s, t);
    assert FlushOk(s, key);
    assert FlushesOk(t) ==> FlushOk(t, key);
    forall k | k in t.gc.flushes && k != key ensures FlushOk(t, k) {
      assert FlushOk(s, k);
    }
  }

  /** Whatever the buffer holds, the fall-back gives the content exactly if the object store has it,
      perhaps with more bytes behind. */
  lemma FallBackExactly(cfg: Config, s: State, key: string)
    requires Inv(cfg, s) && s.gc.phase == Flushing && key in s.gc.flushes && s.gc.flushes[key].GotMeta? && key in s.s3
    ensures StoreIsCurrent(s, key) <==> forall t, data :: FlushFallsBack(s, t, key, data) ==> Inv(cfg, t)
  {
    hide Inv;
    assert FlushOk(s, key) && key in s.truth && s.gc.flushes[key].root.size == |s.truth[key]| by { MetaSize(cfg, s, key); }
    var truth, stored, n := s.truth[key], s.s3[key], |s.truth[key]|;
    if StoreIsCurrent(s, key) {
      forall t, data | FlushFallsBack(s, t, key, data) ensures Inv(cfg, t) {
        assert data == truth;
        FallBackInv(cfg, s, t, key, data);
      }
    } else {
      var data := if n <= |stored| then stored[..n] else stored + seq(n - |stored|, i requires 0 <= i < n - |stored| => truth[|stored| + i] ^ 1);
      assert data != truth by { Differs(truth, stored, data); }
      var t := s.(gc := s.gc.(flushes := s.gc.flushes[key := GotData(data)]));
      assert FlushFallsBack(s, t, key, data);
      FallBackInv(cfg, s, t, key, data);
    }
  }

  lemma Differs(truth: seq<byte>, stored: seq<byte>, data: seq<byte>)
    requires !(truth <= stored) && |data| == |truth|
    requires |truth| <= |stored| ==> data == stored[..|truth|]
    requires |stored| < |truth| ==> data[|truth| - 1] == truth[|truth| - 1] ^ 1
    ensures data != truth
  {
    if |stored| < |truth| {
      var b := truth[|truth| - 1];
      assert b ^ 1 != b;
    }
  }

  lemma MetaSize(cfg: Config, s: State, key: string)
    requires Inv(cfg, s) && s.gc.phase == Flushing && key in s.gc.flushes && s.gc.flushes[key].GotMeta?
    ensures FlushOk(s, key) && key in s.truth && s.gc.flushes[key].root.size == |s.truth[key]|
  {
    hide UploadsOk, ServersOk, IdsDiffer, LiveSpared, S3Ok;
    assert FlushOk(s, key);
    assert RootOk(cfg, s.servers, key, s.etcd[key], s.truth[key]);
  }

  lemma RelistInv(cfg: Config, s: State, t: State, keys: seq<string>)
    requires Inv(cfg, s) && Relist(cfg, s, t, keys) && s.pending == {}
    ensures Inv(cfg, t)
  {
    hide UploadsOk, ServersOk, IdsDiffer, PathHolds, Young, S3Ok, UploadYoung;
    SamePlacesInv(cfg, s, t);
    SameSample(s, t);
    forall key | key in t.etcd && HasPrefix(key, cfg.prefix) ensures RootSpared(t.gc, key, t.etcd[key]) {
      assert RootOk(cfg, s.servers, key, s.etcd[key], s.truth[key]);
      RootReplicas(cfg, s.servers, key, s.etcd[key], s.truth[key]);
      assert key in keys && key in t.gc.keys;
      assert t.gc.keys[0..] == t.gc.keys;
    }
    forall k | k in t.gc.flushes ensures FlushOk(t, k) {
    }
  }

  lemma RootReplicas(cfg: Config, servers: seq<Server>, key: string, root: Root, data: seq<byte>)
    requires RootOk(cfg, servers, key, root, data)
    ensures root.replica != []
  {
  }

  lemma PreserveInv(cfg: Config, s: State, t: State)
    requires Inv(cfg, s) && Preserve(s, t)
    ensures Inv(cfg, t)
  {
    hide EtcdOk, S3Ok, UploadsOk, ServersOk, IdsDiffer, Young, UploadYoung;
    SamePlacesInv(cfg, s, t);
    SameSample(s, t);
    var pos, key0 := s.gc.phase.pos, s.gc.keys[s.gc.phase.pos];
    forall k | k in t.gc.flushes ensures FlushOk(t, k) {
    }
    if t.gc.phase != Idle {
      forall key | key in t.etcd && HasPrefix(key, cfg.prefix) ensures RootSpared(t.gc, key, t.etcd[key]) {
        PreservedRoot(s, t, key);
      }
    }
  }

  lemma PreservedRoot(s: State, t: State, key: string)
    requires Preserve(s, t) && t.gc.phase != Idle && key in s.etcd && RootSpared(s.gc, key, s.etcd[key])
    ensures RootSpared(t.gc, key, t.etcd[key])
  {
    var pos, root := s.gc.phase.pos, s.etcd[key];
    assert s.gc.keys[pos..] == [s.gc.keys[pos]] + s.gc.keys[pos + 1..];
    forall i | 0 <= i < |root.path| ensures Spared(t.gc, key, root.replica[ReplicaOf(i, |root.replica|)], root.path[i]) {
      assert Spared(s.gc, key, root.replica[ReplicaOf(i, |root.replica|)], root.path[i]);
      if key == s.gc.keys[pos] {
        assert (root.replica[ReplicaOf(i, |root.replica|)], root.path[i]) in Entries(root);
      }
    }
  }

  lemma EndPreservingInv(cfg: Config, s: State, t: State)
    requires Inv(cfg, s) && EndPreserving(s, t)
    ensures Inv(cfg, t)
  {
    hide EtcdOk, S3Ok, UploadsOk, ServersOk, IdsDiffer, UploadYoung;
    SamePlacesInv(cfg, s, t);
    SameSample(s, t);
    assert s.gc.keys[|s.gc.keys|..] == [];
    forall k | k in t.gc.flushes ensures FlushOk(t, k) {
    }
    forall key | key in t.etcd && HasPrefix(key, cfg.prefix) ensures RootSpared(t.gc, key, t.etcd[key]) {
      var root := s.etcd[key];
      assert RootSpared(s.gc, key, root);
      forall i | 0 <= i < |root.path| ensures Spared(t.gc, key, root.replica[ReplicaOf(i, |root.replica|)], root.path[i]) {
        assert Spared(s.gc, key, root.replica[ReplicaOf(i, |root.replica|)], root.path[i]);
      }
    }
  }

  // ---- removing a chunk ----

  /** The removed chunk is no entry of a live file. */
  lemma NotLive(cfg: Config, s: State, server: nat, k: string, key: string, i: nat)
    requires Inv(cfg, s) && SafePrefix(cfg.prefix, cfg.cs) && s.gc.phase == Deleting && server < |s.servers| && Removable(cfg, s.gc, server, k)
    requires key in s.etcd && i < |s.etcd[key].path|
    ensures s.etcd[key].replica != [] && !(s.etcd[key].replica[ReplicaOf(i, |s.etcd[key].replica|)] == server && s.etcd[key].path[i] == k)
  {
    hide UploadsOk, ServersOk, FlushesOk, S3Ok, PathHolds, Entries;
    var root := s.etcd[key];
    RootReplicas(cfg, s.servers, key, root, s.truth[key]);
    assert Named(root.path[i], PartialKey(key, ChunkOf(i, |root.replica|), cfg.cs), 0);
    var oid: nat :| root.path[i] == InternalKey(PartialKey(key, ChunkOf(i, |root.replica|), cfg.cs), oid);
    PrefixOfInternal(cfg.prefix, key, ChunkOf(i, |root.replica|), cfg.cs, oid);
    if HasPrefix(key, cfg.prefix) {
      assert RootSpared(s.gc, key, root);
      assert Spared(s.gc, key, root.replica[ReplicaOf(i, |root.replica|)], root.path[i]);
    }
  }

  lemma RemovedRoot(cfg: Config, s: State, t: State, server: nat, k: string, key: string)
    requires Inv(cfg, s) && SafePrefix(cfg.prefix, cfg.cs) && Remove(cfg, s, t, server, k) && key in s.etcd
    ensures RootOk(cfg, t.servers, key, s.etcd[key], s.truth[key])
  {
    hide UploadsOk, ServersOk, FlushesOk, S3Ok, LiveSpared;
    var root := s.etcd[key];
    assert RootOk(cfg, s.servers, key, root, s.truth[key]);
    forall i | 0 <= i < |root.path| ensures EntryHolds(t.servers, root.replica, root.path, s.truth[key], cfg.cs, i) {
      NotLive(cfg, s, server, k, key, i);
      assert EntryHolds(s.servers, root.replica, root.path, s.truth[key], cfg.cs, i);
    }
  }

  /** A removed chunk belongs to no upload in progress, because those hold young chunks only. */
  lemma RemovedUpload(cfg: Config, s: State, t: State, server: nat, k: string, id: nat)
    requires UploadsOk(cfg, s) && OthersYoung(s) && Remove(cfg, s, t, server, k) && id in s.uploads
    ensures UploadOk(cfg, t.servers, s.uploads[id])
  {
    hide Piece, Named;
    var u := s.uploads[id];
    assert UploadOk(cfg, s.servers, u) && UploadYoung(s.gc, u);
    forall i | i in u.stored ensures ChunkOk(cfg, t.servers, u, i) {
      assert ChunkOk(cfg, s.servers, u, i);
      assert Young(s.gc, Target(u, i), u.stored[i]);
    }
    forall i | i in u.ids ensures IdOk(t.servers, Target(u, i), u.ids[i]) {
      assert IdOk(s.servers, Target(u, i), u.ids[i]);
    }
  }

  lemma RemovedRest(cfg: Config, s: State, t: State, server: nat, k: string)
    requires Inv(cfg, s) && Remove(cfg, s, t, server, k)
    ensures S3Ok(t) && IdsDiffer(t) && ServersOk(t) && FlushesOk(t) && GcOk(t) && SamplesOk(t) && OthersYoung(t) && LiveSpared(cfg, t)
  {
    hide EtcdOk, UploadsOk, UploadYoung;
    forall key | key in t.gc.flushes ensures FlushOk(t, key) {
    }
  }

  lemma RemoveInv(cfg: Config, s: State, t: State, server: nat, k: string)
    requires Inv(cfg, s) && SafePrefix(cfg.prefix, cfg.cs) && Remove(cfg, s, t, server, k)
    ensures Inv(cfg, t)
  {
    hide RootOk, UploadOk, IdsDiffer, ServersOk, S3Ok, FlushesOk, SamplesOk, LiveSpared, SafePrefix;
    forall key | key in t.etcd ensures RootOk(cfg, t.servers, key, t.etcd[key], t.truth[key]) {
      RemovedRoot(cfg, s, t, server, k, key);
    }
    forall id | id in t.uploads ensures UploadOk(cfg, t.servers, t.uploads[id]) {
      RemovedUpload(cfg, s, t, server, k, id);
    }
    RemovedRest(cfg, s, t, server, k);
  }

  lemma GcInv(cfg: Config, s: State, t: State, step: GcStep)
    requires Inv(cfg, s) && Good(s, Collect(step)) && SafePrefix(cfg.prefix, cfg.cs) && GcNext(cfg, s, t, step)
    ensures Inv(cfg, t) && t.truth == s.truth && t.uploads == s.uploads
  {
    hide Inv, SafePrefix;
    match step
    case StartStep => StartInv(cfg, s, t);
    case SampleStep(answered, other) => SampleInv(cfg, s, t, answered, other);
    case FlushStep(key, primary) => FlushInv(cfg, s, t, key, primary);
    case FlushFallsBackStep(key, data) => FallBackExactly(cfg, s, key);
    case FlushFailsStep(key) => FlushFailsInv(cfg, s, t, key);
    case RelistStep(keys) => RelistInv(cfg, s, t, keys);
    case PreserveStep => PreserveInv(cfg, s, t);
    case EndPreservingStep => EndPreservingInv(cfg, s, t);
    case RemoveStep(server, k) => RemoveInv(cfg, s, t, server, k);
    case _ => QuietInv(cfg, s, t, step);
  }

  // ---- whole runs ----

  /** Any interleaving from a resting system. */
  ghost predicate IsRun(cfg: Config, run: seq<State>, steps: seq<Step>) {
    && 0 < cfg.cs && |run| == |steps| + 1 && Init(run[0])
    && forall k :: 0 <= k < |steps| ==> Next(cfg, run[k], run[k + 1], steps[k])
  }

  /** A run in which the deployment keeps its guarantees. */
  ghost predicate IsGoodRun(cfg: Config, run: seq<State>, steps: seq<Step>) {
    && IsRun(cfg, run, steps) && SafePrefix(cfg.prefix, cfg.cs)
    && forall k :: 0 <= k < |steps| ==> Good(run[k], steps[k])
  }

  lemma InitInv(cfg: Config, s: State)
    requires 0 < cfg.cs && Init(s)
    ensures Inv(cfg, s)
  {
  }

  lemma {:induction false} RunInv(cfg: Config, run: seq<State>, steps: seq<Step>, k: nat)
    requires IsGoodRun(cfg, run, steps) && k < |run|
    ensures Inv(cfg, run[k])
  {
    hide Inv, Good, ClientNext, GcNext, Init, SafePrefix;
    if k == 0 {
      InitInv(cfg, run[0]);
    } else {
      RunInv(cfg, run, steps, k - 1);
      assert Next(cfg, run[k - 1], run[k - 1 + 1], steps[k - 1]);
      match steps[k - 1]
      case Client(c) => ClientInv(cfg, run[k - 1], run[k], c);
      case Collect(g) => GcInv(cfg, run[k - 1], run[k], g);
    }
  }

  ghost predicate LiveHolds(cfg: Config, s: State, key: string)
    requires key in s.etcd
  {
    key in s.truth && PathHolds(s.servers, s.etcd[key].replica, s.etcd[key].path, s.truth[key], cfg.cs)
  }

  /** At every moment of every run every chunk a live file names is stored, on each of its
      replicas and with the right bytes, and every reader gets the last committed content. */
  lemma NothingLiveIsLost(cfg: Config, run: seq<State>, steps: seq<Step>, k: nat)
    requires IsGoodRun(cfg, run, steps) && k < |run|
    ensures forall key :: key in run[k].etcd ==> LiveHolds(cfg, run[k], key)
    ensures forall key, primary :: key in run[k].truth ==> View(cfg, run[k], key, primary) == Ok(run[k].truth[key])
  {
    RunInv(cfg, run, steps, k);
    forall key, primary | key in run[k].truth ensures View(cfg, run[k], key, primary) == Ok(run[k].truth[key]) {
      ReadsTruth(cfg, run[k], key, primary);
    }
  }

  /** The step writes the metadata of an upload of the key. */
  ghost predicate CommitsKey(s: State, step: Step, key: string) {
    step.Client? && step.c.CommitStep? && step.c.id in s.uploads && s.uploads[step.c.id].key == key
  }

  lemma TruthStep(cfg: Config, s: State, t: State, step: Step, key: string)
    requires Next(cfg, s, t, step)
    ensures if CommitsKey(s, step, key) then key in t.truth && t.truth[key] == s.uploads[step.c.id].data
      else (key in t.truth <==> key in s.truth) && (key in s.truth ==> t.truth[key] == s.truth[key])
  {
    hide Assemble, Listed, Removable, Entries, OnServer, Piece, PathOf, Target, ChunkKey;
  }

  lemma {:induction false} TruthLasts(cfg: Config, run: seq<State>, steps: seq<Step>, m: nat, k: nat, key: string)
    requires IsRun(cfg, run, steps) && m < k < |run| && CommitsKey(run[m], steps[m], key)
    requires forall j :: m < j < k ==> !CommitsKey(run[j], steps[j], key)
    ensures key in run[k].truth && run[k].truth[key] == run[m].uploads[steps[m].c.id].data
    decreases k
  {
    hide Next, Init;
    assert Next(cfg, run[k - 1], run[k - 1 + 1], steps[k - 1]);
    TruthStep(cfg, run[k - 1], run[k], steps[k - 1], key);
    if m < k - 1 { TruthLasts(cfg, run, steps, m, k - 1, key); }
  }

  /** After an upload has been committed every reader gets its bytes, at every moment until another upload
      of the key is committed, whatever the collector does. */
  lemma LastCommitIsRead(cfg: Config, run: seq<State>, steps: seq<Step>, m: nat, k: nat, key: string, primary: nat -> nat)
    requires IsGoodRun(cfg, run, steps) && m < k < |run| && CommitsKey(run[m], steps[m], key)
    requires forall j :: m < j < k ==> !CommitsKey(run[j], steps[j], key)
    ensures 0 < cfg.cs && View(cfg, run[k], key, primary) == Ok(run[m].uploads[steps[m].c.id].data)
  {
    hide Next, Init, Inv, Good, View, SafePrefix;
    TruthLasts(cfg, run, steps, m, k, key);
    RunInv(cfg, run, steps, k);
    ReadsTruth(cfg, run[k], key, primary);
  }

  /** A stretch of a run in which only the collector works changes no key's content. */
  lemma {:induction false} CollectingKeepsContent(cfg: Config, run: seq<State>, steps: seq<Step>, a: nat, b: nat, key: string, primary: nat -> nat)
    requires IsGoodRun(cfg, run, steps) && a <= b < |run| && key in run[a].truth
    requires forall k :: a <= k < b ==> steps[k].Collect?
    ensures key in run[b].truth && run[b].truth == run[a].truth
    ensures View(cfg, run[b], key, primary) == View(cfg, run[a], key, primary)
    decreases b
  {
    hide Inv, Good, GcNext, View;
    RunInv(cfg, run, steps, a);
    RunInv(cfg, run, steps, b);
    ReadsTruth(cfg, run[a], key, primary);
    if a < b {
      CollectingKeepsContent(cfg, run, steps, a, b - 1, key, primary);
      RunInv(cfg, run, steps, b - 1);
      assert Next(cfg, run[b - 1], run[b - 1 + 1], steps[b - 1]);
      GcInv(cfg, run[b - 1], run[b], steps[b - 1].g);
    }
    ReadsTruth(cfg, run[b], key, primary);
  }

  // ---- old garbage goes ----

  lemma ClientGc(cfg: Config, s: State, t: State, step: ClientStep)
    requires ClientNext(cfg, s, t, step)
    ensures t.gc == s.gc
  {
    hide Piece, PathOf, Target, ChunkKey;
  }

  lemma SampleKept(cfg: Config, s: State, t: State, step: Step, server: nat)
    requires GcOk(s) && Next(cfg, s, t, step) && step != Collect(StartStep) && server < |s.gc.ts| && server !in s.gc.skipped
    ensures server < |t.gc.ts| && t.gc.ts[server] == s.gc.ts[server] && server !in t.gc.skipped
  {
    hide Assemble, Listed, Removable, Entries, OnServer, ClientNext;
    if step.Client? { ClientGc(cfg, s, t, step.c); }
  }

  lemma {:induction false} SampleLasts(cfg: Config, run: seq<State>, steps: seq<Step>, a: nat, b: nat, server: nat)
    requires IsGoodRun(cfg, run, steps) && a <= b < |run| && server < |run[a].gc.ts| && server !in run[a].gc.skipped
    requires forall k :: a <= k < b ==> steps[k] != Collect(StartStep)
    ensures server < |run[b].gc.ts| && run[b].gc.ts[server] == run[a].gc.ts[server] && server !in run[b].gc.skipped
    decreases b
  {
    hide Inv, Good, Next, SafePrefix;
    if a < b {
      SampleLasts(cfg, run, steps, a, b - 1, server);
      RunInv(cfg, run, steps, b - 1);
      assert GcOk(run[b - 1]) by { InvGc(cfg, run[b - 1]); }
      assert Next(cfg, run[b - 1], run[b - 1 + 1], steps[b - 1]);
      SampleKept(cfg, run[b - 1], run[b], steps[b - 1], server);
    }
  }

  lemma InvGc(cfg: Config, s: State)
    requires Inv(cfg, s)
    ensures GcOk(s) && ServersOk(s)
  {
  }

  /** The record names a chunk: some path entry is its key, and that entry belongs to the server. */
  ghost predicate Names(root: Root, server: nat, k: string) {
    root.replica != [] && exists i :: 0 <= i < |root.path| && root.path[i] == k && root.replica[i % |root.replica|] == server
  }

  /** The step reads a listed key again whose record is still there and names the chunk. */
  ghost predicate ReadsName(s: State, step: Step, server: nat, k: string) {
    && step == Collect(PreserveStep) && s.gc.phase.Preserving? && s.gc.phase.pos < |s.gc.keys|
    && var key := s.gc.keys[s.gc.phase.pos];
    key in s.etcd && Names(s.etcd[key], server, k)
  }

  lemma EntriesNamed(root: Root, server: nat, k: string)
    requires root.replica != []
    ensures (server, k) in Entries(root) <==> Names(root, server, k)
  {
    forall i: nat | i < |root.path| ensures ReplicaOf(i, |root.replica|) == i % |root.replica| {
    }
  }

  /** What one step adds to the chunks to preserve. */
  lemma PreserveStepExactly(cfg: Config, s: State, t: State, step: Step, server: nat, k: string)
    requires Next(cfg, s, t, step) && step != Collect(StartStep)
    ensures (server, k) in t.gc.preserve <==> (server, k) in s.gc.preserve || ReadsName(s, step, server, k)
  {
    hide Assemble, Listed, Removable, Entries, OnServer, Names, ClientNext;
    if step.Client? { ClientGc(cfg, s, t, step.c); }
    if step == Collect(PreserveStep) {
      var key := s.gc.keys[s.gc.phase.pos];
      if key in s.etcd && s.etcd[key].replica != [] {
        EntriesNamed(s.etcd[key], server, k);
        assert s.etcd[key].path == [] ==> !Names(s.etcd[key], server, k) by { NoneNamed(s.etcd[key], server, k); }
      } else if key in s.etcd {
        NoneNamed(s.etcd[key], server, k);
      }
    }
  }

  lemma NoneNamed(root: Root, server: nat, k: string)
    ensures root.replica == [] || root.path == [] ==> !Names(root, server, k)
  {
  }

  lemma {:induction false} NothingYet(cfg: Config, run: seq<State>, steps: seq<Step>, k: nat)
    requires IsRun(cfg, run, steps) && k < |run| && run[k].gc.phase.Sampling?
    ensures run[k].gc.preserve == {}
  {
    if k > 0 {
      assert Next(cfg, run[k - 1], run[k - 1 + 1], steps[k - 1]);
      SamplingBefore(cfg, run[k - 1], run[k], steps[k - 1]);
      if steps[k - 1] != Collect(StartStep) { NothingYet(cfg, run, steps, k - 1); }
    }
  }

  lemma SamplingBefore(cfg: Config, s: State, t: State, step: Step)
    requires Next(cfg, s, t, step) && t.gc.phase.Sampling?
    ensures if step == Collect(StartStep) then t.gc.preserve == {} else s.gc.phase.Sampling? && t.gc.preserve == s.gc.preserve
  {
    hide Assemble, Listed, Removable, Entries, OnServer, ClientNext;
    if step.Client? { ClientGc(cfg, s, t, step.c); }
  }

  /** At any moment of a collection the chunks to preserve are exactly those named by a record read
      again since it sampled. */
  lemma {:induction false} PreservedExactly(cfg: Config, run: seq<State>, steps: seq<Step>, a: nat, b: nat, server: nat, k: string)
    requires IsRun(cfg, run, steps) && a <= b < |run| && run[a].gc.phase.Sampling?
    requires forall j :: a <= j < b ==> steps[j] != Collect(StartStep)
    ensures (server, k) in run[b].gc.preserve <==> exists j :: a <= j < b && ReadsName(run[j], steps[j], server, k)
    decreases b
  {
    hide Next, Init, ReadsName;
    if a == b {
      NothingYet(cfg, run, steps, a);
    } else {
      PreservedExactly(cfg, run, steps, a, b - 1, server, k);
      assert Next(cfg, run[b - 1], run[b - 1 + 1], steps[b - 1]);
      PreserveStepExactly(cfg, run[b - 1], run[b], steps[b - 1], server, k);
    }
  }

  /** One chunk less on a server. */
  function LessChunk(s: State, server: nat, k: string): State
    requires server < |s.servers|
  {
    s.(servers := s.servers[server := Server(s.servers[server].nextOid, s.servers[server].chunks - {k})])
  }

  /** In the deletion an old chunk can go exactly if it is not preserved. */
  lemma RemovesUnlessPreserved(cfg: Config, s: State, server: nat, k: string)
    requires s.gc.phase == Deleting && server < |s.servers| && k in s.servers[server].chunks && HasPrefix(k, cfg.prefix)
    requires server < |s.gc.ts| && server !in s.gc.skipped && ParseTS(k) < s.gc.ts[server]
    ensures Next(cfg, s, LessChunk(s, server, k), Collect(RemoveStep(server, k))) <==> (server, k) !in s.gc.preserve
  {
    hide ParseTS, HasPrefix;
    assert k in Excepted(s.gc, server) <==> (server, k) in s.gc.preserve;
  }

  lemma SampledAbove(cfg: Config, s: State, t: State, other: nat, server: nat, k: string)
    requires Next(cfg, s, t, Collect(SampleStep(true, other))) && GcOk(s) && ServersOk(s)
    requires s.gc.phase == Sampling(server) && server < |s.servers| && k in s.servers[server].chunks && server !in s.gc.skipped
    ensures server < |t.gc.ts| && server !in t.gc.skipped && ParseTS(k) < t.gc.ts[server]
  {
    hide ParseTS;
    assert OldKeys(s.servers[server]);
  }

  /** The other half of safety: a chunk that was stored when its server was sampled can be removed, once
      the deletion has begun, exactly if no record read again in this collection names it. */
  lemma OldGarbageGoes(cfg: Config, run: seq<State>, steps: seq<Step>, a: nat, b: nat, other: nat, server: nat, k: string)
    requires IsGoodRun(cfg, run, steps) && a < b < |run| && steps[a] == Collect(SampleStep(true, other))
    requires run[a].gc.phase == Sampling(server) && server < |run[a].servers| && k in run[a].servers[server].chunks && HasPrefix(k, cfg.prefix)
    requires server !in run[a].gc.skipped && forall j :: a < j < b ==> steps[j] != Collect(StartStep)
    requires run[b].gc.phase == Deleting && server < |run[b].servers| && k in run[b].servers[server].chunks
    ensures Next(cfg, run[b], LessChunk(run[b], server, k), Collect(RemoveStep(server, k))) <==>
      !exists j :: a < j < b && ReadsName(run[j], steps[j], server, k)
  {
    hide Inv, Good, SafePrefix, Next, Init, HasPrefix, ParseTS, Names;
    RunInv(cfg, run, steps, a);
    InvGc(cfg, run[a]);
    assert Next(cfg, run[a], run[a + 1], steps[a]);
    SampledAbove(cfg, run[a], run[a + 1], other, server, k);
    SampleLasts(cfg, run, steps, a + 1, b, server);
    PreservedExactly(cfg, run, steps, a, b, server, k);
    assert !ReadsName(run[a], steps[a], server, k);
    RemovesUnlessPreserved(cfg, run[b], server, k);
  }
}
