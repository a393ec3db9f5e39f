/** Garbage collection of the write cache, as steps interleaved with uploads. */
module CollectGarbage {
  import opened ChunkKeys
  import opened Multiples
  import opened ReplicaLayout

  datatype Config = Config(cs: nat, prefix: string)

  /** An upload in progress: by path index, the object ids its servers have handed out for chunks not
      yet stored, and the internal keys of the chunks stored. */
  datatype Upload = Upload(key: string, data: seq<byte>, replicas: seq<nat>, ids: map<nat, nat>, stored: map<nat, string>)

  /** How far the flush of one key has come. */
  datatype Flush = Waiting | GotMeta(root: Root) | GotData(data: seq<byte>) | InS3 | Finished

  datatype Phase = Idle | Sampling(next: nat) | Listing | Flushing | Relisting | Preserving(pos: nat) | Deleting

  datatype Gc = Gc(phase: Phase, ts: seq<nat>, skipped: set<nat>, keys: seq<string>, flushes: map<string, Flush>, preserve: set<(nat, string)>)

  /** The servers, the metadata store, the object store, the uploads in progress, one collector, what
      each key's content should be: the bytes of its last committed upload, and the uploads that were
      on a server when the collector sampled it and have not ended since. */
  datatype State = State(servers: seq<Server>, etcd: map<string, Root>, s3: map<string, seq<byte>>, uploads: map<nat, Upload>,
                         gc: Gc, truth: map<string, seq<byte>>, pending: set<nat>)

  // ---- reading a key ----

  /** The first n chunks of a file, each from a replica of its own choice. */
  function Assemble(servers: seq<Server>, root: Root, primary: nat -> nat, n: nat): Result<seq<byte>> {
    if n == 0 then Ok([])
    else if root.replica == [] then Err
    else
      var p := primary(n - 1) % |root.replica|;
      var i := (n - 1) * |root.replica| + p;
      var before := Assemble(servers, root, primary, n - 1);
      if before.Err? || i < 0 || |root.path| <= i || |servers| <= root.replica[p] || root.path[i] !in servers[root.replica[p]].chunks then Err
      else Ok(before.value + servers[root.replica[p]].chunks[root.path[i]])
  }

  /** What a reader of a key gets: the write cache if it has metadata, the object store otherwise. */
  function View(cfg: Config, s: State, key: string, primary: nat -> nat): Result<seq<byte>>
    requires 0 < cfg.cs
  {
    if key in s.etcd then Assemble(s.servers, s.etcd[key], primary, NumChunks(s.etcd[key].size, cfg.cs))
    else if key in s.s3 then Ok(s.s3[key])
    else Err
  }

  // ---- steps of uploads ----

  predicate Begin(s: State, t: State, id: nat, u: Upload) {
    && id !in s.uploads && u.ids == map[] && u.stored == map[] && u.replicas != [] && (forall r :: 0 <= r < |u.replicas| ==> u.replicas[r] < |s.servers|)
    && t == s.(uploads := s.uploads[id := u])
  }

  /** The server that path entry i of an upload goes to. */
  function Target(u: Upload, i: nat): nat
    requires u.replicas != []
  {
    u.replicas[ReplicaOf(i, |u.replicas|)]
  }

  function ChunkKey(cfg: Config, u: Upload, i: nat): string
    requires u.replicas != []
  {
    PartialKey(u.key, ChunkOf(i, |u.replicas|), cfg.cs)
  }

  /** A chunk has reached its server, which hands out an object id for it. */
  predicate TakeId(cfg: Config, s: State, t: State, id: nat, i: nat) {
    && 0 < cfg.cs && id in s.uploads
    && var u := s.uploads[id];
    && i !in u.ids && i !in u.stored && u.replicas != [] && i < NumChunks(|u.data|, cfg.cs) * |u.replicas|
    && var server := Target(u, i);
    && server < |s.servers|
    && t == s.(servers := s.servers[server := s.servers[server].HandOut()],
               uploads := s.uploads[id := u.(ids := u.ids[i := s.servers[server].nextOid])])
  }

  /** The server stores the chunk under the id it has handed out. */
  predicate Store(cfg: Config, s: State, t: State, id: nat, i: nat) {
    && id in s.uploads
    && var u := s.uploads[id];
    && i in u.ids && u.replicas != []
    && var server, k := Target(u, i), InternalKey(ChunkKey(cfg, u, i), u.ids[i]);
    && server < |s.servers|
    && t == s.(servers := s.servers[server := s.servers[server].Add(k, Piece(u.data, ChunkOf(i, |u.replicas|), cfg.cs))],
               uploads := s.uploads[id := u.(ids := u.ids - {i}, stored := u.stored[i := k])])
  }

  /** The server refuses the chunk; its object id is used up. */
  predicate Refuse(s: State, t: State, id: nat, i: nat) {
    && id in s.uploads && i in s.uploads[id].ids
    && t == s.(uploads := s.uploads[id := s.uploads[id].(ids := s.uploads[id].ids - {i})])
  }

  function PathOf(u: Upload, n: nat): seq<string>
    requires forall i :: 0 <= i < n ==> i in u.stored
  {
    seq(n, i requires 0 <= i < n => u.stored[i])
  }

  /** All chunks are stored: the metadata is written. */
  predicate Commit(cfg: Config, s: State, t: State, id: nat) {
    && 0 < cfg.cs && id in s.uploads
    && var u := s.uploads[id];
    && var n := NumChunks(|u.data|, cfg.cs) * |u.replicas|;
    && (forall i :: 0 <= i < n ==> i in u.stored)
    && t == s.(etcd := s.etcd[u.key := Root(u.replicas, PathOf(u, n), |u.data|)], truth := s.truth[u.key := u.data],
               uploads := s.uploads - {id}, pending := s.pending - {id})
  }

  /** An upload is given up after every server has answered. */
  predicate Abort(s: State, t: State, id: nat) {
    id in s.uploads && s.uploads[id].ids == map[] && t == s.(uploads := s.uploads - {id}, pending := s.pending - {id})
  }

  datatype ClientStep = BeginStep(id: nat, u: Upload) | TakeIdStep(id: nat, i: nat) | StoreStep(id: nat, i: nat) | RefuseStep(id: nat, i: nat)
    | CommitStep(id: nat) | AbortStep(id: nat)

  predicate ClientNext(cfg: Config, s: State, t: State, step: ClientStep) {
    match step
    case BeginStep(id, u) => Begin(s, t, id, u)
    case TakeIdStep(id, i) => TakeId(cfg, s, t, id, i)
    case StoreStep(id, i) => Store(cfg, s, t, id, i)
    case RefuseStep(id, i) => Refuse(s, t, id, i)
    case CommitStep(id) => Commit(cfg, s, t, id)
    case AbortStep(id) => Abort(s, t, id)
  }

  // ---- steps of the collector ----

  predicate SamePlaces(s: State, t: State) {
    t.servers == s.servers && t.etcd == s.etcd && t.s3 == s.s3 && t.uploads == s.uploads && t.truth == s.truth
  }

  /** A step that changes the collector only. */
  predicate Quiet(s: State, t: State) {
    SamePlaces(s, t) && t.pending == s.pending
  }

  predicate Start(s: State, t: State) {
    s.gc.phase == Idle && SamePlaces(s, t) && t.pending == {} && t.gc == Gc(Sampling(0), [], {}, [], map[], {})
  }

  /** An upload holds an object id of a server, with its chunk stored or not. */
  predicate On(u: Upload, server: nat) {
    u.replicas != [] && ((exists i :: i in u.ids && Target(u, i) == server) || (exists i :: i in u.stored && Target(u, i) == server))
  }

  function OnServer(s: State, server: nat): set<nat> {
    set id | id in s.uploads && On(s.uploads[id], server)
  }

  /** Asks one server for the next object id; a server that does not answer is skipped. */
  predicate Sample(s: State, t: State, answered: bool, other: nat) {
    && s.gc.phase.Sampling? && s.gc.phase.next < |s.servers| && SamePlaces(s, t)
    && var i := s.gc.phase.next;
    && t.pending == (if answered then s.pending + OnServer(s, i) else s.pending)
    && t.gc == s.gc.(phase := Sampling(i + 1), ts := s.gc.ts + [if answered then s.servers[i].nextOid else other],
                     skipped := if answered then s.gc.skipped else s.gc.skipped + {i})
  }

  predicate EndSampling(s: State, t: State) {
    && s.gc.phase == Sampling(|s.servers|) && Quiet(s, t)
    && t.gc == s.gc.(phase := if |s.gc.skipped| == |s.servers| then Idle else Listing)
  }

  predicate Listed(etcd: map<string, Root>, prefix: string, keys: seq<string>) {
    && (forall k :: k in keys ==> k in etcd && HasPrefix(k, prefix))
    && (forall k :: k in etcd && HasPrefix(k, prefix) ==> k in keys)
  }

  predicate List(cfg: Config, s: State, t: State, keys: seq<string>) {
    && s.gc.phase == Listing && Quiet(s, t) && Listed(s.etcd, cfg.prefix, keys)
    && t.gc == s.gc.(phase := Flushing, keys := keys, flushes := map k | k in keys :: Waiting)
  }

  /** The steps of flushing one key. */
  predicate FlushNext(cfg: Config, s: State, t: State, key: string, primary: nat -> nat) {
    && 0 < cfg.cs && s.gc.phase == Flushing && key in s.gc.flushes
    && match s.gc.flushes[key]
       case Waiting =>
         Quiet(s, t) && t.gc == s.gc.(flushes := s.gc.flushes[key := if key in s.etcd then GotMeta(s.etcd[key]) else Finished])
       case GotMeta(root) =>
         && Quiet(s, t) && key in s.etcd
         && var d := Assemble(s.servers, s.etcd[key], primary, NumChunks(root.size, cfg.cs));
         t.gc == s.gc.(flushes := s.gc.flushes[key := if d.Ok? then GotData(d.value) else Finished])
       case GotData(data) =>
         t == s.(s3 := s.s3[key := data], gc := s.gc.(flushes := s.gc.flushes[key := InS3]))
       case InS3 =>
         t == s.(etcd := s.etcd - {key}, gc := s.gc.(flushes := s.gc.flushes[key := Finished]))
       case Finished => false
  }

  /** No replica can be reached: the flush reads as many bytes from the object store instead. What lies
      beyond the end of the object there is whatever the buffer holds. */
  predicate FlushFallsBack(s: State, t: State, key: string, data: seq<byte>) {
    && s.gc.phase == Flushing && key in s.gc.flushes && s.gc.flushes[key].GotMeta? && key in s.s3 && Quiet(s, t)
    && |data| == s.gc.flushes[key].root.size && (forall i :: 0 <= i < |data| && i < |s.s3[key]| ==> data[i] == s.s3[key][i])
    && t.gc == s.gc.(flushes := s.gc.flushes[key := GotData(data)])
  }

  predicate FlushFails(s: State, t: State, key: string) {
    && s.gc.phase == Flushing && key in s.gc.flushes && Quiet(s, t)
    && t.gc == s.gc.(flushes := s.gc.flushes[key := Finished])
  }

  predicate EndFlushing(s: State, t: State) {
    && s.gc.phase == Flushing && (forall k :: k in s.gc.flushes ==> s.gc.flushes[k] == Finished)
    && Quiet(s, t) && t.gc == s.gc.(phase := Relisting)
  }

  /** The second listing is appended to the first. */
  predicate Relist(cfg: Config, s: State, t: State, keys: seq<string>) {
    && s.gc.phase == Relisting && Quiet(s, t) && Listed(s.etcd, cfg.prefix, keys)
    && t.gc == s.gc.(phase := Preserving(0), keys := s.gc.keys + keys)
  }

  function Entries(root: Root): set<(nat, string)>
    requires root.replica != []
  {
    set i | 0 <= i < |root.path| :: (root.replica[ReplicaOf(i, |root.replica|)], root.path[i])
  }

  /** Reads one listed key again and notes which chunks it needs; a key that is gone needs none. */
  predicate Preserve(s: State, t: State) {
    && s.gc.phase.Preserving? && s.gc.phase.pos < |s.gc.keys| && Quiet(s, t)
    && var key, next := s.gc.keys[s.gc.phase.pos], Preserving(s.gc.phase.pos + 1);
    if key !in s.etcd then t.gc == s.gc.(phase := next)
    else if s.etcd[key].replica == [] || s.etcd[key].path == [] then t.gc == s.gc.(phase := Idle)  // failed assertion
    else t.gc == s.gc.(phase := next, preserve := s.gc.preserve + Entries(s.etcd[key]))
  }

  predicate EndPreserving(s: State, t: State) {
    && s.gc.phase == Preserving(|s.gc.keys|) && Quiet(s, t) && t.gc == s.gc.(phase := Deleting)
  }

  /** The keys a deletion request to a server excepts. */
  function Excepted(gc: Gc, server: nat): set<string> {
    set e | e in gc.preserve && e.0 == server :: e.1
  }

  predicate Removable(cfg: Config, gc: Gc, server: nat, k: string) {
    server < |gc.ts| && server !in gc.skipped && Deletable(k, cfg.prefix, gc.ts[server], Excepted(gc, server))
  }

  predicate Remove(cfg: Config, s: State, t: State, server: nat, k: string) {
    && s.gc.phase == Deleting && server < |s.servers| && k in s.servers[server].chunks && Removable(cfg, s.gc, server, k)
    && t == s.(servers := s.servers[server := s.servers[server].(chunks := s.servers[server].chunks - {k})])
  }

  /** The collector stops, at the end or on an error. */
  predicate Stop(s: State, t: State) {
    Quiet(s, t) && t.gc == s.gc.(phase := Idle)
  }

  datatype GcStep = StartStep | SampleStep(answered: bool, other: nat) | EndSamplingStep | ListStep(keys: seq<string>)
    | FlushStep(key: string, primary: nat -> nat) | FlushFallsBackStep(key: string, data: seq<byte>) | FlushFailsStep(key: string) | EndFlushingStep | RelistStep(keys: seq<string>)
    | PreserveStep | EndPreservingStep | RemoveStep(server: nat, k: string) | StopStep

  predicate GcNext(cfg: Config, s: State, t: State, step: GcStep) {
    match step
    case StartStep => Start(s, t)
    case SampleStep(answered, other) => Sample(s, t, answered, other)
    case EndSamplingStep => EndSampling(s, t)
    case ListStep(keys) => List(cfg, s, t, keys)
    case FlushStep(key, primary) => FlushNext(cfg, s, t, key, primary)
    case FlushFallsBackStep(key, data) => FlushFallsBack(s, t, key, data)
    case FlushFailsStep(key) => FlushFails(s, t, key)
    case EndFlushingStep => EndFlushing(s, t)
    case RelistStep(keys) => Relist(cfg, s, t, keys)
    case PreserveStep => Preserve(s, t)
    case EndPreservingStep => EndPreserving(s, t)
    case RemoveStep(server, k) => Remove(cfg, s, t, server, k)
    case StopStep => Stop(s, t)
  }

  datatype Step = Client(c: ClientStep) | Collect(g: GcStep)

  predicate Next(cfg: Config, s: State, t: State, step: Step) {
    match step
    case Client(c) => ClientNext(cfg, s, t, c)
    case Collect(g) => GcNext(cfg, s, t, g)
  }

  // ---- what the deployment has to guarantee ----

  predicate Flushed(s: State, key: string) {
    s.gc.phase == Flushing && key in s.gc.flushes && (s.gc.flushes[key].GotMeta? || s.gc.flushes[key].GotData? || s.gc.flushes[key].InS3?)
  }

  predicate SmallOids(s: State) {
    forall i :: 0 <= i < |s.servers| ==> s.servers[i].nextOid <= UINT64_MAX
  }

  /** What keeps content safe: no upload of a key commits during the flush of that key; before the
      second listing every upload that was on a server when that server was sampled has ended; a flush
      falls back to the object store only where that holds the content; object ids fit in 64 bits. */
  datatype Guarantee = NoOverlap | OldOnesEnd | StoreCurrent | OidsFit

  predicate Keeps(g: Guarantee, s: State, step: Step) {
    match g
    case NoOverlap => step.Client? && step.c.CommitStep? && step.c.id in s.uploads ==> !Flushed(s, s.uploads[step.c.id].key)
    case OldOnesEnd => step.Collect? && step.g.RelistStep? ==> s.pending == {}
    case StoreCurrent => step.Collect? && step.g.FlushFallsBackStep? ==> StoreIsCurrent(s, step.g.key)
    case OidsFit => SmallOids(s)
  }

  predicate Good(s: State, step: Step) {
    Keeps(NoOverlap, s, step) && Keeps(OldOnesEnd, s, step) && Keeps(StoreCurrent, s, step) && Keeps(OidsFit, s, step)
  }

  /** The object store holds the content of a key, perhaps with more bytes behind it. */
  predicate StoreIsCurrent(s: State, key: string) {
    key in s.s3 && key in s.truth && s.truth[key] <= s.s3[key]
  }

  // ---- the invariant ----

  ghost predicate RootOk(cfg: Config, servers: seq<Server>, key: string, root: Root, data: seq<byte>) {
    && PathHolds(servers, root.replica, root.path, data, cfg.cs) && root.size == |data|
    && forall i :: 0 <= i < |root.path| ==> Named(root.path[i], PartialKey(key, ChunkOf(i, |root.replica|), cfg.cs), 0)
  }

  ghost predicate UploadOk(cfg: Config, servers: seq<Server>, u: Upload) {
    && 0 < cfg.cs && KnownServers(servers, u.replicas)
    && (forall i :: i in u.stored ==> ChunkOk(cfg, servers, u, i))
    && IdsHeld(servers, u) && forall i :: i in u.ids ==> i < NumChunks(|u.data|, cfg.cs) * |u.replicas|
  }

  ghost predicate IdsHeld(servers: seq<Server>, u: Upload) {
    u.replicas != [] && forall i :: i in u.ids ==> IdOk(servers, Target(u, i), u.ids[i])
  }

  /** An object id was handed out, and nothing is stored under it. */
  ghost predicate IdOk(servers: seq<Server>, server: nat, oid: nat) {
    && server < |servers| && oid < servers[server].nextOid
    && forall p: string :: InternalKey(p, oid) !in servers[server].chunks
  }

  ghost predicate ChunkOk(cfg: Config, servers: seq<Server>, u: Upload, i: nat)
    requires 0 < cfg.cs && u.replicas != [] && i in u.stored
  {
    var c := ChunkOf(i, |u.replicas|);
    && i < NumChunks(|u.data|, cfg.cs) * |u.replicas|
    && ChunkAt(servers, Target(u, i), u.stored[i], Piece(u.data, c, cfg.cs))
    && Named(u.stored[i], PartialKey(u.key, c, cfg.cs), 0)
  }

  ghost predicate EtcdOk(cfg: Config, s: State) {
    forall k :: k in s.etcd ==> k in s.truth && RootOk(cfg, s.servers, k, s.etcd[k], s.truth[k])
  }

  ghost predicate S3Ok(s: State) {
    forall k :: k in s.truth && k !in s.etcd ==> k in s.s3 && s.s3[k] == s.truth[k]
  }

  ghost predicate UploadsOk(cfg: Config, s: State) {
    forall id :: id in s.uploads ==> UploadOk(cfg, s.servers, s.uploads[id])
  }

  /** Two uploads never hold the same object id of a server, nor one upload for two chunks. */
  ghost predicate IdsDiffer(s: State) {
    forall a, i, b, j :: a in s.uploads && i in s.uploads[a].ids && b in s.uploads && j in s.uploads[b].ids && (a != b || i != j) ==>
      Differ(s.uploads[a], i, s.uploads[b], j)
  }

  ghost predicate Differ(u: Upload, i: nat, v: Upload, j: nat)
    requires i in u.ids && j in v.ids
  {
    u.replicas != [] && v.replicas != [] && (Target(u, i) == Target(v, j) ==> u.ids[i] != v.ids[j])
  }

  ghost predicate ServersOk(s: State) {
    forall i :: 0 <= i < |s.servers| ==> FreshOids(s.servers[i]) && OldKeys(s.servers[i])
  }

  /** Every stored key has an id below the next one. */
  ghost predicate OldKeys(s: Server) {
    forall k :: k in s.chunks ==> ParseTS(k) < s.nextOid
  }

  ghost predicate FlushOk(s: State, key: string) {
    Flushed(s, key) ==>
      && key in s.etcd && key in s.truth
      && match s.gc.flushes[key]
         case GotMeta(root) => root == s.etcd[key]
         case GotData(data) => data == s.truth[key]
         case _ => key in s.s3 && s.s3[key] == s.truth[key]
  }

  ghost predicate FlushesOk(s: State) {
    forall key :: key in s.gc.flushes ==> FlushOk(s, key)
  }

  /** The ids a server hands out from now on are not below its sample. */
  ghost predicate SamplesOk(s: State) {
    forall i :: 0 <= i < |s.gc.ts| && i !in s.gc.skipped ==> i < |s.servers| && s.gc.ts[i] <= s.servers[i].nextOid
  }

  /** A sample spares an object id. */
  predicate SparesId(gc: Gc, server: nat, oid: nat) {
    server in gc.skipped || |gc.ts| <= server || gc.ts[server] <= oid
  }

  /** A sample spares a chunk. */
  predicate Young(gc: Gc, server: nat, k: string) {
    SparesId(gc, server, ParseTS(k))
  }

  ghost predicate UploadYoung(gc: Gc, u: Upload) {
    && u.replicas != []
    && (forall i :: i in u.ids ==> SparesId(gc, Target(u, i), u.ids[i]))
    && (forall i :: i in u.stored ==> Young(gc, Target(u, i), u.stored[i]))
  }

  /** Only uploads that were on a server when it was sampled hold ids below the sample. */
  ghost predicate OthersYoung(s: State) {
    && (forall id :: id in s.uploads && id !in s.pending ==> UploadYoung(s.gc, s.uploads[id]))
    && (s.gc.phase.Preserving? || s.gc.phase.Deleting? ==> s.pending == {})
  }

  ghost predicate GcOk(s: State) {
    match s.gc.phase
    case Idle => true
    case Sampling(i) => |s.gc.ts| == i <= |s.servers|
    case _ => |s.gc.ts| == |s.servers|
  }

  /** A live chunk will survive the deletion. */
  predicate Spared(gc: Gc, key: string, server: nat, k: string) {
    Young(gc, server, k) || (server, k) in gc.preserve || (gc.phase.Preserving? && gc.phase.pos <= |gc.keys| && key in gc.keys[gc.phase.pos..])
  }

  ghost predicate LiveSpared(cfg: Config, s: State) {
    s.gc.phase.Preserving? || s.gc.phase.Deleting? ==>
      forall key :: key in s.etcd && HasPrefix(key, cfg.prefix) ==> RootSpared(s.gc, key, s.etcd[key])
  }

  ghost predicate RootSpared(gc: Gc, key: string, root: Root) {
    root.replica != [] && forall i :: 0 <= i < |root.path| ==> Spared(gc, key, root.replica[ReplicaOf(i, |root.replica|)], root.path[i])
  }

  ghost predicate Inv(cfg: Config, s: State) {
    && 0 < cfg.cs && EtcdOk(cfg, s) && S3Ok(s) && UploadsOk(cfg, s) && IdsDiffer(s) && ServersOk(s)
    && FlushesOk(s) && GcOk(s) && SamplesOk(s) && OthersYoung(s) && LiveSpared(cfg, s)
  }

  /** All files are in the object store only, and the collector rests. */
  predicate Init(s: State) {
    s.etcd == map[] && s.uploads == map[] && s.truth == s.s3 && s.gc == Gc(Idle, [], {}, [], map[], {}) && s.pending == {}
    && forall i :: 0 <= i < |s.servers| ==> s.servers[i] == Server(0, map[])
  }
}
