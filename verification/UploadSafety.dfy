/** Every step of an upload, at any phase of a collection, keeps the invariant of the write cache. */
module UploadSafety {
  import opened ChunkKeys
  import opened CollectGarbage
  import opened ReplicaLayout

  lemma RootExtends(cfg: Config, before: seq<Server>, after: seq<Server>, key: string, root: Root, data: seq<byte>)
    requires RootOk(cfg, before, key, root, data) && Extends(before, after)
    ensures RootOk(cfg, after, key, root, data)
  {
    forall i | 0 <= i < |root.path| ensures EntryHolds(after, root.replica, root.path, data, cfg.cs, i) {
      assert EntryHolds(before, root.replica, root.path, data, cfg.cs, i);
    }
  }

  lemma UploadExtends(cfg: Config, before: seq<Server>, after: seq<Server>, u: Upload)
    requires UploadOk(cfg, before, u) && Extends(before, after) && IdsHeld(after, u)
    ensures UploadOk(cfg, after, u)
  {
    forall i | i in u.stored ensures ChunkOk(cfg, after, u, i) {
      assert ChunkOk(cfg, before, u, i);
    }
  }

  lemma PlacesExtend(cfg: Config, s: State, servers: seq<Server>)
    requires EtcdOk(cfg, s) && UploadsOk(cfg, s) && Extends(s.servers, servers)
    requires forall id :: id in s.uploads ==> IdsHeld(servers, s.uploads[id])
    ensures EtcdOk(cfg, s.(servers := servers)) && UploadsOk(cfg, s.(servers := servers))
  {
    forall k | k in s.etcd ensures RootOk(cfg, servers, k, s.etcd[k], s.truth[k]) {
      RootExtends(cfg, s.servers, servers, k, s.etcd[k], s.truth[k]);
    }
    forall id | id in s.uploads ensures UploadOk(cfg, servers, s.uploads[id]) {
      UploadExtends(cfg, s.servers, servers, s.uploads[id]);
    }
  }

  /** Steps that touch only servers and uploads. */
  lemma SameRest(cfg: Config, s: State, t: State)
    requires t == s.(servers := t.servers, uploads := t.uploads, pending := t.pending) && |t.servers| == |s.servers|
    requires forall i :: 0 <= i < |s.servers| ==> s.servers[i].nextOid <= t.servers[i].nextOid
    ensures S3Ok(s) ==> S3Ok(t)
    ensures FlushesOk(s) ==> FlushesOk(t)
    ensures GcOk(s) ==> GcOk(t)
    ensures SamplesOk(s) ==> SamplesOk(t)
    ensures LiveSpared(cfg, s) ==> LiveSpared(cfg, t)
  {
    if FlushesOk(s) {
      forall key | key in t.gc.flushes ensures FlushOk(t, key) {
        assert FlushOk(s, key);
      }
    }
  }

  /** Handing out the next object id keeps what is known about the ids handed out before. */
  lemma TakeIdPlaces(cfg: Config, s: State, t: State, id: nat, i: nat)
    requires EtcdOk(cfg, s) && UploadsOk(cfg, s) && ServersOk(s) && TakeId(cfg, s, t, id, i)
    ensures EtcdOk(cfg, t) && UploadsOk(cfg, t) && ServersOk(t)
  {
    hide RootOk, ChunkOk, IdOk, UploadOk;
    assert Extends(s.servers, t.servers);
    forall a | a in s.uploads ensures IdsHeld(t.servers, s.uploads[a]) {
      assert UploadOk(cfg, s.servers, s.uploads[a]);
      MoreIds(cfg, s.servers, t.servers, s.uploads[a]);
    }
    PlacesExtend(cfg, s, t.servers);
    assert UploadOk(cfg, t.servers, s.uploads[id]);
    NewIdUpload(cfg, s, t, id, i);
  }

  /** Servers with the same chunks that have handed out more ids. */
  lemma MoreIds(cfg: Config, before: seq<Server>, after: seq<Server>, u: Upload)
    requires UploadOk(cfg, before, u) && |after| == |before|
    requires forall j :: 0 <= j < |before| ==> after[j].chunks == before[j].chunks && before[j].nextOid <= after[j].nextOid
    ensures IdsHeld(after, u)
  {
    hide ChunkOk;
    forall j | j in u.ids ensures IdOk(after, Target(u, j), u.ids[j]) {
      assert IdOk(before, Target(u, j), u.ids[j]);
    }
  }

  lemma NewIdUpload(cfg: Config, s: State, t: State, id: nat, i: nat)
    requires ServersOk(s) && TakeId(cfg, s, t, id, i) && UploadOk(cfg, t.servers, s.uploads[id])
    ensures UploadOk(cfg, t.servers, t.uploads[id])
  {
    hide ChunkOk, OldKeys;
    var u, server := s.uploads[id], Target(s.uploads[id], i);
    var u1 := t.uploads[id];
    assert IdOk(t.servers, server, s.servers[server].nextOid);
    forall j | j in u1.stored ensures ChunkOk(cfg, t.servers, u1, j) {
      SameChunk(cfg, t.servers, u, u1, j);
    }
    forall j | j in u1.ids ensures IdOk(t.servers, Target(u1, j), u1.ids[j]) {
      if j != i { assert IdOk(t.servers, Target(u, j), u.ids[j]); }
    }
  }

  lemma SameChunk(cfg: Config, servers: seq<Server>, u: Upload, u1: Upload, j: nat)
    requires 0 < cfg.cs && u.replicas != [] && j in u.stored && ChunkOk(cfg, servers, u, j)
    requires u1.key == u.key && u1.data == u.data && u1.replicas == u.replicas && j in u1.stored && u1.stored[j] == u.stored[j]
    ensures ChunkOk(cfg, servers, u1, j)
  {
  }

  /** The id just handed out is larger than all ids of that server held so far. */
  lemma TakeIdDiffer(cfg: Config, s: State, t: State, id: nat, i: nat)
    requires UploadsOk(cfg, s) && IdsDiffer(s) && TakeId(cfg, s, t, id, i)
    ensures IdsDiffer(t)
  {
    hide ChunkOk, ReplicaOf, NumChunks;
    forall a, j | a in s.uploads && j in s.uploads[a].ids
      ensures s.uploads[a].replicas != [] && IdOk(s.servers, Target(s.uploads[a], j), s.uploads[a].ids[j])
    {
      assert UploadOk(cfg, s.servers, s.uploads[a]);
    }
    forall a, j, b, k | a in t.uploads && j in t.uploads[a].ids && b in t.uploads && k in t.uploads[b].ids && (a != b || j != k)
      ensures Differ(t.uploads[a], j, t.uploads[b], k)
    {
      if a == id && j == i {
        assert IdOk(s.servers, Target(s.uploads[b], k), s.uploads[b].ids[k]);
      } else if b == id && k == i {
        assert IdOk(s.servers, Target(s.uploads[a], j), s.uploads[a].ids[j]);
      } else {
        assert Differ(s.uploads[a], j, s.uploads[b], k);
      }
    }
  }

  lemma TakeIdYoung(cfg: Config, s: State, t: State, id: nat, i: nat)
    requires SamplesOk(s) && OthersYoung(s) && TakeId(cfg, s, t, id, i)
    ensures OthersYoung(t)
  {
    hide ReplicaOf, NumChunks;
    forall a | a in t.uploads && a !in t.pending ensures UploadYoung(t.gc, t.uploads[a]) {
      assert UploadYoung(s.gc, s.uploads[a]);
    }
  }

  lemma TakeIdInv(cfg: Config, s: State, t: State, id: nat, i: nat)
    requires Inv(cfg, s) && TakeId(cfg, s, t, id, i)
    ensures Inv(cfg, t)
  {
    hide EtcdOk, UploadsOk, ServersOk, IdsDiffer, OthersYoung, S3Ok, FlushesOk, GcOk, SamplesOk, LiveSpared;
    TakeIdPlaces(cfg, s, t, id, i);
    TakeIdDiffer(cfg, s, t, id, i);
    TakeIdYoung(cfg, s, t, id, i);
    SameRest(cfg, s, t);
  }

  /** A chunk goes under an id that was handed out and not used. */
  lemma AddFresh(s: Server, partial: string, oid: nat, data: seq<byte>)
    requires FreshOids(s) && OldKeys(s) && oid < s.nextOid
    ensures FreshOids(s.Add(InternalKey(partial, oid), data)) && OldKeys(s.Add(InternalKey(partial, oid), data))
  {
    ParseTsOfInternal(partial, oid);
    forall p: string, o: nat | s.nextOid <= o ensures InternalKey(p, o) !in s.Add(InternalKey(partial, oid), data).chunks {
      InternalKeyInjective(p, o, partial, oid);
    }
  }

  lemma OtherIdUnused(servers: seq<Server>, server: nat, partial: string, oid: nat, data: seq<byte>, at: nat, o: nat)
    requires server < |servers| && IdOk(servers, at, o) && (at == server ==> o != oid)
    ensures IdOk(servers[server := servers[server].Add(InternalKey(partial, oid), data)], at, o)
  {
    forall p: string ensures InternalKey(p, o) !in servers[server := servers[server].Add(InternalKey(partial, oid), data)][at].chunks {
      InternalKeyInjective(p, o, partial, oid);
    }
  }

  /** Storing a chunk takes up one object id and leaves the others free. */
  lemma StoreIds(cfg: Config, s: State, t: State, id: nat, i: nat)
    requires UploadsOk(cfg, s) && IdsDiffer(s) && Store(cfg, s, t, id, i)
    ensures forall a :: a in t.uploads ==> IdsHeld(t.servers, t.uploads[a])
    ensures Target(s.uploads[id], i) < |s.servers|
    ensures InternalKey(ChunkKey(cfg, s.uploads[id], i), s.uploads[id].ids[i]) !in s.servers[Target(s.uploads[id], i)].chunks
  {
    hide ChunkOk, IdOk, Piece;
    var u := s.uploads[id];
    var server := Target(u, i);
    assert UploadOk(cfg, s.servers, u);
    assert IdOk(s.servers, server, u.ids[i]);
    forall a | a in t.uploads ensures IdsHeld(t.servers, t.uploads[a]) {
      assert UploadOk(cfg, s.servers, s.uploads[a]);
      forall j | j in t.uploads[a].ids ensures IdOk(t.servers, Target(t.uploads[a], j), t.uploads[a].ids[j]) {
        assert IdOk(s.servers, Target(s.uploads[a], j), s.uploads[a].ids[j]);
        OtherIdUnused(s.servers, server, ChunkKey(cfg, u, i), u.ids[i], Piece(u.data, ChunkOf(i, |u.replicas|), cfg.cs),
                      Target(s.uploads[a], j), s.uploads[a].ids[j]);
      }
    }
    FreeKey(s.servers, server, ChunkKey(cfg, u, i), u.ids[i]);
  }

  lemma FreeKey(servers: seq<Server>, server: nat, partial: string, oid: nat)
    requires IdOk(servers, server, oid)
    ensures InternalKey(partial, oid) !in servers[server].chunks && oid < servers[server].nextOid
  {
  }

  lemma StorePlaces(cfg: Config, s: State, t: State, id: nat, i: nat)
    requires EtcdOk(cfg, s) && UploadsOk(cfg, s) && IdsDiffer(s) && ServersOk(s) && Store(cfg, s, t, id, i)
    ensures EtcdOk(cfg, t) && UploadsOk(cfg, t) && ServersOk(t)
  {
    hide RootOk, ChunkOk, IdOk, IdsDiffer, FreshOids, OldKeys, Piece, Named, ChunkKey;
    var u, u1 := s.uploads[id], t.uploads[id];
    var server, c := Target(u, i), ChunkOf(i, |u.replicas|);
    var partial := ChunkKey(cfg, u, i);
    StoreIds(cfg, s, t, id, i);
    assert UploadOk(cfg, s.servers, u);
    assert IdOk(s.servers, server, u.ids[i]);
    FreeKey(s.servers, server, partial, u.ids[i]);
    AddFresh(s.servers[server], partial, u.ids[i], Piece(u.data, c, cfg.cs));
    assert Extends(s.servers, t.servers);
    forall k | k in s.etcd ensures RootOk(cfg, t.servers, k, s.etcd[k], s.truth[k]) {
      RootExtends(cfg, s.servers, t.servers, k, s.etcd[k], s.truth[k]);
    }
    forall a | a in t.uploads ensures UploadOk(cfg, t.servers, t.uploads[a]) {
      if a != id {
        UploadExtends(cfg, s.servers, t.servers, s.uploads[a]);
      } else {
        StoredUpload(cfg, s, t, id, i);
      }
    }
  }

  lemma StoredUpload(cfg: Config, s: State, t: State, id: nat, i: nat)
    requires Store(cfg, s, t, id, i) && UploadOk(cfg, s.servers, s.uploads[id]) && Extends(s.servers, t.servers)
    requires IdsHeld(t.servers, t.uploads[id])
    ensures UploadOk(cfg, t.servers, t.uploads[id])
  {
    hide IdOk, Piece;
    var u, u1 := s.uploads[id], t.uploads[id];
    IsNamed(ChunkKey(cfg, u, i), u.ids[i]);
    forall j | j in u1.stored ensures ChunkOk(cfg, t.servers, u1, j) {
      if j != i { assert ChunkOk(cfg, s.servers, u, j); }
    }
  }

  lemma IsNamed(partial: string, oid: nat)
    ensures Named(InternalKey(partial, oid), partial, 0)
  {
  }

  lemma StoreDiffer(cfg: Config, s: State, t: State, id: nat, i: nat)
    requires IdsDiffer(s) && Store(cfg, s, t, id, i)
    ensures IdsDiffer(t)
  {
    hide ReplicaOf, Piece, ChunkKey;
    forall a, j, b, k | a in t.uploads && j in t.uploads[a].ids && b in t.uploads && k in t.uploads[b].ids && (a != b || j != k)
      ensures Differ(t.uploads[a], j, t.uploads[b], k)
    {
      assert Differ(s.uploads[a], j, s.uploads[b], k);
    }
  }

  /** A chunk stored late still carries the id it was given, however old that is. */
  lemma StoreYoung(cfg: Config, s: State, t: State, id: nat, i: nat)
    requires UploadsOk(cfg, s) && OthersYoung(s) && SmallOids(s) && Store(cfg, s, t, id, i)
    ensures OthersYoung(t)
  {
    hide ChunkOk, Piece, ReplicaOf, ChunkKey, ParseTS;
    var u := s.uploads[id];
    assert UploadOk(cfg, s.servers, u);
    assert IdOk(s.servers, Target(u, i), u.ids[i]);
    ParseTsOfInternal(ChunkKey(cfg, u, i), u.ids[i]);
    forall a | a in t.uploads && a !in t.pending ensures UploadYoung(t.gc, t.uploads[a]) {
      assert UploadYoung(s.gc, s.uploads[a]);
    }
  }

  lemma StoreInv(cfg: Config, s: State, t: State, id: nat, i: nat)
    requires Inv(cfg, s) && SmallOids(s) && Store(cfg, s, t, id, i)
    ensures Inv(cfg, t)
  {
    hide EtcdOk, UploadsOk, ServersOk, IdsDiffer, OthersYoung, S3Ok, FlushesOk, GcOk, SamplesOk, LiveSpared, SmallOids;
    StorePlaces(cfg, s, t, id, i);
    StoreDiffer(cfg, s, t, id, i);
    StoreYoung(cfg, s, t, id, i);
    SameRest(cfg, s, t);
  }

  /** Uploads that hold no more ids and chunks than before. */
  lemma FewerIds(cfg: Config, s: State, t: State)
    requires UploadsOk(cfg, s) && IdsDiffer(s) && OthersYoung(s)
    requires t == s.(uploads := t.uploads, pending := t.pending) && t.pending <= s.pending
    requires forall a :: a in t.uploads ==> a in s.uploads && (a in t.pending || a !in s.pending) && Fewer(s.uploads[a], t.uploads[a])
    ensures UploadsOk(cfg, t) && IdsDiffer(t) && OthersYoung(t)
  {
    hide ChunkOk, IdOk, ReplicaOf, SparesId, Young;
    forall a | a in t.uploads ensures UploadOk(cfg, t.servers, t.uploads[a]) {
      assert UploadOk(cfg, s.servers, s.uploads[a]);
      forall j | j in t.uploads[a].stored ensures ChunkOk(cfg, t.servers, t.uploads[a], j) {
        SameChunk(cfg, s.servers, s.uploads[a], t.uploads[a], j);
      }
    }
    forall a, j, b, k | a in t.uploads && j in t.uploads[a].ids && b in t.uploads && k in t.uploads[b].ids && (a != b || j != k)
      ensures Differ(t.uploads[a], j, t.uploads[b], k)
    {
      assert Differ(s.uploads[a], j, s.uploads[b], k);
    }
    forall a | a in t.uploads && a !in t.pending ensures UploadYoung(t.gc, t.uploads[a]) {
      assert UploadYoung(s.gc, s.uploads[a]);
    }
  }

  predicate Fewer(u: Upload, v: Upload) {
    v == u.(ids := v.ids) && v.ids.Keys <= u.ids.Keys && forall i :: i in v.ids ==> v.ids[i] == u.ids[i]
  }

  lemma BeginUploads(cfg: Config, s: State, t: State, id: nat, u: Upload)
    requires 0 < cfg.cs && UploadsOk(cfg, s) && IdsDiffer(s) && OthersYoung(s) && Begin(s, t, id, u)
    ensures UploadsOk(cfg, t) && IdsDiffer(t) && OthersYoung(t)
  {
    hide ChunkOk, IdOk, ReplicaOf, SparesId, Young;
    forall a | a in t.uploads ensures UploadOk(cfg, t.servers, t.uploads[a]) {
      if a != id { assert UploadOk(cfg, s.servers, s.uploads[a]); }
    }
    forall a, j, b, k | a in t.uploads && j in t.uploads[a].ids && b in t.uploads && k in t.uploads[b].ids && (a != b || j != k)
      ensures Differ(t.uploads[a], j, t.uploads[b], k)
    {
      assert Differ(s.uploads[a], j, s.uploads[b], k);
    }
    forall a | a in t.uploads && a !in t.pending ensures UploadYoung(t.gc, t.uploads[a]) {
      if a != id { assert UploadYoung(s.gc, s.uploads[a]); }
    }
  }

  /** Beginning an upload, giving one up, and a refused chunk. */
  lemma OtherClientInv(cfg: Config, s: State, t: State, step: ClientStep)
    requires Inv(cfg, s) && ClientNext(cfg, s, t, step) && (step.BeginStep? || step.RefuseStep? || step.AbortStep?)
    ensures Inv(cfg, t)
  {
    hide RootOk, UploadsOk, IdsDiffer, OthersYoung, LiveSpared, FlushesOk, S3Ok, FreshOids, OldKeys, GcOk, SamplesOk;
    SameRest(cfg, s, t);
    match step
    case BeginStep(id, u) => BeginUploads(cfg, s, t, id, u);
    case _ => FewerIds(cfg, s, t);
  }

  /** A complete upload's metadata is in order. */
  lemma CommitRoot(cfg: Config, servers: seq<Server>, u: Upload, n: nat)
    requires UploadOk(cfg, servers, u) && n == NumChunks(|u.data|, cfg.cs) * |u.replicas| && forall i :: 0 <= i < n ==> i in u.stored
    ensures RootOk(cfg, servers, u.key, Root(u.replicas, PathOf(u, n), |u.data|), u.data)
  {
    hide EntryHolds, Named, NumChunks, ChunkOk, PartialKey;
    var root := Root(u.replicas, PathOf(u, n), |u.data|);
    assert |root.path| == n && |root.replica| > 0;
    forall i | 0 <= i < |root.path| ensures EntryHolds(servers, root.replica, root.path, u.data, cfg.cs, i) {
      CommitEntry(cfg, servers, u, root, i);
    }
    forall i | 0 <= i < |root.path| ensures Named(root.path[i], PartialKey(u.key, ChunkOf(i, |root.replica|), cfg.cs), 0) {
      CommitEntry(cfg, servers, u, root, i);
    }
  }

  lemma CommitEntry(cfg: Config, servers: seq<Server>, u: Upload, root: Root, i: nat)
    requires 0 < cfg.cs && u.replicas != [] && i in u.stored && ChunkOk(cfg, servers, u, i)
    requires root.replica == u.replicas && i < |root.path| && root.path[i] == u.stored[i]
    ensures EntryHolds(servers, root.replica, root.path, u.data, cfg.cs, i)
    ensures Named(root.path[i], PartialKey(u.key, ChunkOf(i, |root.replica|), cfg.cs), 0)
  {
  }

  lemma CommitPlaces(cfg: Config, s: State, t: State, id: nat)
    requires Inv(cfg, s) && Commit(cfg, s, t, id)
    ensures EtcdOk(cfg, t) && S3Ok(t) && UploadsOk(cfg, t) && ServersOk(t)
  {
    hide RootOk, UploadOk, FreshOids, FlushesOk, LiveSpared;
    var u := s.uploads[id];
    CommitRoot(cfg, s.servers, u, NumChunks(|u.data|, cfg.cs) * |u.replicas|);
  }

  lemma CommitFlushes(cfg: Config, s: State, t: State, id: nat)
    requires FlushesOk(s) && Commit(cfg, s, t, id) && !Flushed(s, s.uploads[id].key)
    ensures FlushesOk(t)
  {
    forall key | key in t.gc.flushes ensures FlushOk(t, key) {
      assert FlushOk(s, key);
    }
  }

  /** An upload that commits after the second listing holds young chunks only. */
  lemma CommitLive(cfg: Config, s: State, t: State, id: nat)
    requires LiveSpared(cfg, s) && OthersYoung(s) && Commit(cfg, s, t, id)
    ensures LiveSpared(cfg, t)
  {
    hide Young;
    if s.gc.phase.Preserving? || s.gc.phase.Deleting? {
      var u := s.uploads[id];
      assert id !in s.pending && UploadYoung(s.gc, u);
      assert RootSpared(t.gc, u.key, t.etcd[u.key]);
    }
  }

  lemma CommitUploads(cfg: Config, s: State, t: State, id: nat)
    requires IdsDiffer(s) && OthersYoung(s) && Commit(cfg, s, t, id)
    ensures IdsDiffer(t) && OthersYoung(t)
  {
    hide UploadYoung;
  }

  lemma CommitInv(cfg: Config, s: State, t: State, id: nat)
    requires Inv(cfg, s) && Commit(cfg, s, t, id) && !Flushed(s, s.uploads[id].key)
    ensures Inv(cfg, t)
  {
    hide EtcdOk, S3Ok, ServersOk, FlushesOk, LiveSpared, UploadsOk, UploadOk, IdsDiffer, OthersYoung, Flushed;
    CommitPlaces(cfg, s, t, id);
    CommitFlushes(cfg, s, t, id);
    CommitUploads(cfg, s, t, id);
    CommitLive(cfg, s, t, id);
  }

  lemma ClientInv(cfg: Config, s: State, t: State, step: ClientStep)
    requires Inv(cfg, s) && Good(s, Client(step)) && ClientNext(cfg, s, t, step)
    ensures Inv(cfg, t)
  {
    hide Inv, SmallOids;
    match step
    case TakeIdStep(id, i) => TakeIdInv(cfg, s, t, id, i);
    case StoreStep(id, i) => StoreInv(cfg, s, t, id, i);
    case CommitStep(id) => CommitInv(cfg, s, t, id);
    case _ => OtherClientInv(cfg, s, t, step);
  }
}
