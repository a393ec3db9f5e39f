/** A collection that nothing disturbs can always be finished, and then it has done its work. */
module GarbageProgress {
  import opened ChunkKeys
  import opened CollectGarbage
  import opened GarbageSafety
  import opened ReplicaLayout
  import opened Sets
  import opened UploadSafety

  /** The collector alone can go from one state to the other, keeping every guarantee. */
  ghost predicate Leads(cfg: Config, s: State, t: State) {
    exists run: seq<State>, steps: seq<Step> :: LeadsBy(cfg, s, t, run, steps)
  }

  ghost predicate LeadsBy(cfg: Config, s: State, t: State, run: seq<State>, steps: seq<Step>) {
    && |run| == |steps| + 1 && run[0] == s && run[|steps|] == t
    && forall k :: 0 <= k < |steps| ==> steps[k].Collect? && Good(run[k], steps[k]) && Next(cfg, run[k], run[k + 1], steps[k])
  }

  lemma LeadsNowhere(cfg: Config, s: State)
    ensures Leads(cfg, s, s)
  {
    assert LeadsBy(cfg, s, s, [s], []);
  }

  lemma Goes(cfg: Config, s0: State, s: State, t: State, step: GcStep)
    requires Leads(cfg, s0, s) && Inv(cfg, s) && SafePrefix(cfg.prefix, cfg.cs) && SmallOids(s) && GcNext(cfg, s, t, step)
    requires !step.FlushFallsBackStep? && (step.RelistStep? ==> s.pending == {})
    ensures Leads(cfg, s0, t) && Inv(cfg, t)
  {
    hide Inv, GcNext, SafePrefix;
    assert Good(s, Collect(step));
    GcInv(cfg, s, t, step);
    hide Good;
    var run, steps :| LeadsBy(cfg, s0, s, run, steps);
    var run1, steps1 := run + [t], steps + [Collect(step)];
    forall k | 0 <= k < |steps1| ensures steps1[k].Collect? && Good(run1[k], steps1[k]) && Next(cfg, run1[k], run1[k + 1], steps1[k]) {
      if k < |steps| { assert steps[k].Collect? && Good(run[k], steps[k]) && Next(cfg, run[k], run[k + 1], steps[k]); }
    }
    assert LeadsBy(cfg, s0, t, run1, steps1);
  }

  // ---- sampling ----

  /** The first n servers have been asked. */
  function Asked(s: State, n: nat): State
    requires n <= |s.servers|
  {
    s.(gc := Gc(Sampling(n), seq(n, i requires 0 <= i < n => s.servers[i].nextOid), {}, [], map[], {}), pending := {})
  }

  lemma {:induction false} AsksAll(cfg: Config, s: State, n: nat)
    requires Inv(cfg, s) && SafePrefix(cfg.prefix, cfg.cs) && SmallOids(s) && s.gc.phase == Idle && s.uploads == map[] && n <= |s.servers|
    ensures Leads(cfg, s, Asked(s, n)) && Inv(cfg, Asked(s, n))
  {
    hide Inv, SafePrefix, Leads;
    if n == 0 {
      LeadsNowhere(cfg, s);
      Goes(cfg, s, s, Asked(s, 0), StartStep);
    } else {
      AsksAll(cfg, s, n - 1);
      var a, b := Asked(s, n - 1), Asked(s, n);
      assert OnServer(a, n - 1) == {};
      assert b.gc.ts == a.gc.ts + [s.servers[n - 1].nextOid];
      Goes(cfg, s, a, b, SampleStep(true, 0));
    }
  }

  lemma {:induction false} SkippedBelow(cfg: Config, run: seq<State>, steps: seq<Step>, k: nat)
    requires IsRun(cfg, run, steps) && k < |run| && run[k].gc.phase.Sampling?
    ensures forall i :: i in run[k].gc.skipped ==> i < run[k].gc.phase.next
  {
    hide Next, Init;
    if k == 0 {
      AtFirst(run[0]);
    } else {
      assert Next(cfg, run[k - 1], run[k - 1 + 1], steps[k - 1]);
      SkippedStep(cfg, run[k - 1], run[k], steps[k - 1]);
      if run[k].gc.skipped != {} { SkippedBelow(cfg, run, steps, k - 1); }
    }
  }

  lemma AtFirst(s: State)
    requires Init(s)
    ensures s.gc.skipped == {}
  {
  }

  lemma SkippedStep(cfg: Config, s: State, t: State, step: Step)
    requires Next(cfg, s, t, step) && t.gc.phase.Sampling?
    ensures t.gc.skipped == {} ||
      (s.gc.phase.Sampling? && s.gc.phase.next <= t.gc.phase.next && forall i :: i in t.gc.skipped ==> i in s.gc.skipped || i < t.gc.phase.next)
  {
    hide Assemble, Listed, Removable, Entries, OnServer, ClientNext;
    if step.Client? { ClientGc(cfg, s, t, step.c); }
  }

  /** Servers that do not answer are skipped; as long as one answers the collection goes on. */
  lemma OneAnswerIsEnough(cfg: Config, run: seq<State>, steps: seq<Step>, k: nat, t: State)
    requires IsRun(cfg, run, steps) && k < |run| && GcNext(cfg, run[k], t, EndSamplingStep)
    ensures t.gc.phase == Listing <==> exists i: nat :: i < |run[k].servers| && i !in run[k].gc.skipped
    ensures t.gc.phase != Listing ==> t.gc.phase == Idle
  {
    hide Init;
    SkippedBelow(cfg, run, steps, k);
    var n, skipped := |run[k].servers|, run[k].gc.skipped;
    SubsetSize(skipped, Below(n));
    if i :| i in Below(n) && i !in skipped {
      SubsetSize(skipped, Below(n) - {i});
      Without(Below(n), i);
    } else {
      SubsetSize(Below(n), skipped);
    }
  }

  ghost function Below(n: nat): (r: set<nat>)
    ensures |r| == n && forall i: nat :: i in r <==> i < n
  {
    if n == 0 then {} else Below(n - 1) + {n - 1}
  }

  // ---- flushing ----

  lemma {:induction false} ListOf(names: set<string>) returns (list: seq<string>)
    ensures forall x :: x in list <==> x in names
  {
    if names == {} {
      list := [];
    } else {
      var x :| x in names;
      list := ListOf(names - {x});
      list := list + [x];
    }
  }

  /** The file has moved to the object store. */
  function Moved(s: State, key: string, data: seq<byte>): State {
    s.(s3 := s.s3[key := data], etcd := s.etcd - {key}, gc := s.gc.(flushes := s.gc.flushes[key := Finished]))
  }

  lemma FlushesOne(cfg: Config, s0: State, s: State, key: string) returns (data: seq<byte>)
    requires Leads(cfg, s0, s) && Inv(cfg, s) && SafePrefix(cfg.prefix, cfg.cs) && SmallOids(s)
    requires s.gc.phase == Flushing && key in s.gc.flushes && s.gc.flushes[key] == Waiting && key in s.etcd
    ensures Leads(cfg, s0, Moved(s, key, data)) && Inv(cfg, Moved(s, key, data))
  {
    hide Inv, SafePrefix, Leads, SmallOids, Assemble;
    var a := s.(gc := s.gc.(flushes := s.gc.flushes[key := GotMeta(s.etcd[key])]));
    InvPositive(cfg, s);
    Goes(cfg, s0, s, a, FlushStep(key, n => 0));
    SameOids(s, a);
    var b;
    b, data := ReadsData(cfg, s0, a, key);
    SameOids(a, b);
    StoresAndForgets(cfg, s0, b, key, data);
    assert b.gc.flushes[key := Finished] == s.gc.flushes[key := Finished];
    assert Moved(b, key, data) == Moved(s, key, data);
  }

  lemma ReadsData(cfg: Config, s0: State, s: State, key: string) returns (t: State, data: seq<byte>)
    requires Leads(cfg, s0, s) && Inv(cfg, s) && SafePrefix(cfg.prefix, cfg.cs) && SmallOids(s) && 0 < cfg.cs
    requires s.gc.phase == Flushing && key in s.etcd && key in s.gc.flushes && s.gc.flushes[key] == GotMeta(s.etcd[key])
    ensures Leads(cfg, s0, t) && Inv(cfg, t) && t == s.(gc := s.gc.(flushes := s.gc.flushes[key := GotData(data)]))
  {
    hide Inv, SafePrefix, Leads, SmallOids, Assemble;
    var any: nat -> nat := n => 0;
    data := Readable(cfg, s, key, any);
    t := s.(gc := s.gc.(flushes := s.gc.flushes[key := GotData(data)]));
    Goes(cfg, s0, s, t, FlushStep(key, any));
  }

  lemma InvPositive(cfg: Config, s: State)
    requires Inv(cfg, s)
    ensures 0 < cfg.cs
  {
  }

  lemma Readable(cfg: Config, s: State, key: string, primary: nat -> nat) returns (data: seq<byte>)
    requires Inv(cfg, s) && key in s.etcd
    ensures 0 < cfg.cs && Assemble(s.servers, s.etcd[key], primary, NumChunks(s.etcd[key].size, cfg.cs)) == Ok(data)
  {
    hide UploadsOk, ServersOk, IdsDiffer, LiveSpared, FlushesOk, OthersYoung;
    data := s.truth[key];
    assert RootOk(cfg, s.servers, key, s.etcd[key], data);
    RootSize(cfg, s.servers, key, s.etcd[key], data, primary);
  }

  lemma StoresAndForgets(cfg: Config, s0: State, s: State, key: string, data: seq<byte>)
    requires Leads(cfg, s0, s) && Inv(cfg, s) && SafePrefix(cfg.prefix, cfg.cs) && SmallOids(s) && 0 < cfg.cs
    requires s.gc.phase == Flushing && key in s.gc.flushes && s.gc.flushes[key] == GotData(data)
    ensures Leads(cfg, s0, Moved(s, key, data)) && Inv(cfg, Moved(s, key, data))
  {
    hide Inv, SafePrefix, Leads, Assemble;
    var any: nat -> nat := n => 0;
    var a := s.(s3 := s.s3[key := data], gc := s.gc.(flushes := s.gc.flushes[key := InS3]));
    Goes(cfg, s0, s, a, FlushStep(key, any));
    var t := Moved(s, key, data);
    assert t.gc.flushes == a.gc.flushes[key := Finished];
    Goes(cfg, s0, a, t, FlushStep(key, any));
  }

  /** What the flushes leave as it is. */
  ghost predicate FlushedInto(s: State, t: State) {
    && t.servers == s.servers && t.uploads == s.uploads && t.truth == s.truth && t.pending == s.pending
    && t.gc == s.gc.(flushes := t.gc.flushes) && t.gc.flushes.Keys == s.gc.flushes.Keys
    && t.etcd.Keys <= s.etcd.Keys && s.etcd.Keys - s.gc.flushes.Keys <= t.etcd.Keys
    && forall k :: k in t.gc.flushes ==> t.gc.flushes[k] == Finished && k !in t.etcd
  }

  ghost function Unflushed(s: State): set<string> {
    set k | k in s.gc.flushes && s.gc.flushes[k] == Waiting
  }

  lemma {:induction false} FlushesAll(cfg: Config, s0: State, s: State) returns (t: State)
    requires Leads(cfg, s0, s) && Inv(cfg, s) && SafePrefix(cfg.prefix, cfg.cs) && SmallOids(s) && s.gc.phase == Flushing
    requires forall k :: k in s.gc.flushes ==> if s.gc.flushes[k] == Waiting then k in s.etcd else s.gc.flushes[k] == Finished && k !in s.etcd
    ensures Leads(cfg, s0, t) && Inv(cfg, t) && FlushedInto(s, t)
    decreases |Unflushed(s)|
  {
    hide Inv, SafePrefix, Leads;
    if Unflushed(s) == {} {
      assert forall k :: k in s.gc.flushes ==> k !in Unflushed(s);
      t := s;
    } else {
      var key :| key in Unflushed(s);
      var data := FlushesOne(cfg, s0, s, key);
      var a := Moved(s, key, data);
      assert Unflushed(a) == Unflushed(s) - {key};
      t := FlushesAll(cfg, s0, a);
    }
  }

  // ---- listing again, and reading nothing ----

  lemma {:induction false} RereadsAll(cfg: Config, s0: State, s: State, pos: nat)
    requires Leads(cfg, s0, s) && Inv(cfg, s) && SafePrefix(cfg.prefix, cfg.cs) && SmallOids(s)
    requires s.gc.phase == Preserving(pos) && pos <= |s.gc.keys| && forall k :: k in s.gc.keys ==> k !in s.etcd
    ensures var t := s.(gc := s.gc.(phase := Deleting)); Leads(cfg, s0, t) && Inv(cfg, t)
    decreases |s.gc.keys| - pos
  {
    hide Inv, SafePrefix, Leads;
    if pos == |s.gc.keys| {
      Goes(cfg, s0, s, s.(gc := s.gc.(phase := Deleting)), EndPreservingStep);
    } else {
      var a := s.(gc := s.gc.(phase := Preserving(pos + 1)));
      assert s.gc.keys[pos] in s.gc.keys;
      Goes(cfg, s0, s, a, PreserveStep);
      RereadsAll(cfg, s0, a, pos + 1);
    }
  }

  // ---- deleting ----

  ghost function Old(cfg: Config, s: State, server: nat): set<string>
    requires server < |s.servers|
  {
    set k | k in s.servers[server].chunks && HasPrefix(k, cfg.prefix)
  }

  /** Chunks have gone, nothing else has changed. */
  ghost predicate OnlyFewer(s: State, t: State) {
    t == s.(servers := t.servers) && |t.servers| == |s.servers|
    && forall i :: 0 <= i < |s.servers| ==> t.servers[i].nextOid == s.servers[i].nextOid
  }

  lemma RemovesOne(cfg: Config, s0: State, s: State, server: nat, k: string)
    requires Leads(cfg, s0, s) && Inv(cfg, s) && SafePrefix(cfg.prefix, cfg.cs) && SmallOids(s) && Sampled(s)
    requires server < |s.servers| && k in Old(cfg, s, server)
    ensures Leads(cfg, s0, LessChunk(s, server, k)) && Inv(cfg, LessChunk(s, server, k))
  {
    hide Inv, SafePrefix, Leads, HasPrefix, ParseTS;
    OldId(cfg, s, server, k);
    assert Excepted(s.gc, server) == {};
    Goes(cfg, s0, s, LessChunk(s, server, k), RemoveStep(server, k));
  }

  lemma OldId(cfg: Config, s: State, server: nat, k: string)
    requires Inv(cfg, s) && server < |s.servers| && k in s.servers[server].chunks
    ensures ParseTS(k) < s.servers[server].nextOid
  {
    InvGc(cfg, s);
  }

  /** The deletion has begun, every server was sampled after all its chunks were stored, and nothing is to
      be preserved. */
  ghost predicate Sampled(s: State) {
    && s.gc.phase == Deleting && s.gc.skipped == {} && s.gc.preserve == {} && |s.gc.ts| == |s.servers|
    && forall i :: 0 <= i < |s.servers| ==> s.gc.ts[i] == s.servers[i].nextOid
  }

  lemma {:induction false} RemovesAllOf(cfg: Config, s0: State, s: State, server: nat) returns (t: State)
    requires Leads(cfg, s0, s) && Inv(cfg, s) && SafePrefix(cfg.prefix, cfg.cs) && SmallOids(s) && Sampled(s) && server < |s.servers|
    ensures Leads(cfg, s0, t) && Inv(cfg, t) && OnlyFewer(s, t) && Old(cfg, t, server) == {}
    ensures forall i :: 0 <= i < |s.servers| && i != server ==> t.servers[i] == s.servers[i]
    decreases |Old(cfg, s, server)|
  {
    hide Inv, SafePrefix, Leads, HasPrefix;
    if Old(cfg, s, server) == {} {
      t := s;
    } else {
      var k :| k in Old(cfg, s, server);
      RemovesOne(cfg, s0, s, server, k);
      var a := LessChunk(s, server, k);
      assert Old(cfg, a, server) == Old(cfg, s, server) - {k};
      t := RemovesAllOf(cfg, s0, a, server);
    }
  }

  lemma {:induction false} RemovesAll(cfg: Config, s0: State, s: State, n: nat) returns (t: State)
    requires Leads(cfg, s0, s) && Inv(cfg, s) && SafePrefix(cfg.prefix, cfg.cs) && SmallOids(s) && Sampled(s) && n <= |s.servers|
    ensures Leads(cfg, s0, t) && Inv(cfg, t) && OnlyFewer(s, t)
    ensures forall i :: 0 <= i < n ==> Old(cfg, t, i) == {}
  {
    hide Inv, SafePrefix, Leads, HasPrefix, Old;
    if n == 0 {
      t := s;
    } else {
      var a := RemovesAll(cfg, s0, s, n - 1);
      t := RemovesAllOf(cfg, s0, a, n - 1);
      forall i | 0 <= i < n - 1 ensures Old(cfg, t, i) == {} {
        OldSame(cfg, a, t, i);
      }
    }
  }

  lemma OldSame(cfg: Config, s: State, t: State, i: nat)
    requires i < |s.servers| == |t.servers| && t.servers[i] == s.servers[i]
    ensures Old(cfg, t, i) == Old(cfg, s, i)
  {
  }

  // ---- the whole collection ----

  /** The collection has done its work: every file with the prefix is in the object store only, and no
      server has a chunk with the prefix. */
  ghost predicate Collected(cfg: Config, s: State, t: State) {
    && t.truth == s.truth && t.uploads == s.uploads
    && (forall key :: key in s.etcd && HasPrefix(key, cfg.prefix) ==> key !in t.etcd && key in t.s3 && key in s.truth && t.s3[key] == s.truth[key])
    && |t.servers| == |s.servers|
    && forall i, k :: 0 <= i < |t.servers| && k in t.servers[i].chunks ==> !HasPrefix(k, cfg.prefix)
  }

  /** From every resting state in which no upload is under way the collector can go on until every file
      with the prefix has moved to the object store and every chunk with the prefix is gone. */
  lemma CollectionCanFinish(cfg: Config, s: State) returns (t: State)
    requires Inv(cfg, s) && SafePrefix(cfg.prefix, cfg.cs) && SmallOids(s) && s.gc.phase == Idle && s.uploads == map[] && s.servers != []
    ensures Leads(cfg, s, t) && Collected(cfg, s, t)
  {
    hide Inv, SafePrefix, Leads, HasPrefix, SmallOids;
    var a := ToDeletion(cfg, s);
    assert SmallOids(a) by { SameOids(s, a); }
    t := RemovesAll(cfg, s, a, |a.servers|);
    forall i, k | 0 <= i < |t.servers| && k in t.servers[i].chunks ensures !HasPrefix(k, cfg.prefix) {
      assert Old(cfg, t, i) == {};
      assert k !in Old(cfg, t, i);
    }
    forall key | key in s.etcd && HasPrefix(key, cfg.prefix) ensures key !in t.etcd && key in t.s3 && key in s.truth && t.s3[key] == s.truth[key] {
      InStore(cfg, s, t, key);
    }
  }

  lemma SameOids(s: State, t: State)
    requires SmallOids(s) && t.servers == s.servers
    ensures SmallOids(t)
  {
  }

  lemma InStore(cfg: Config, s: State, t: State, key: string)
    requires Inv(cfg, s) && Inv(cfg, t) && key in s.etcd && key !in t.etcd && t.truth == s.truth
    ensures key in s.truth && key in t.s3 && t.s3[key] == s.truth[key]
  {
    hide UploadsOk, ServersOk, IdsDiffer, LiveSpared, FlushesOk, OthersYoung, RootOk;
  }

  /** Sampling, listing, flushing and listing again. */
  lemma ToDeletion(cfg: Config, s: State) returns (t: State)
    requires Inv(cfg, s) && SafePrefix(cfg.prefix, cfg.cs) && SmallOids(s) && s.gc.phase == Idle && s.uploads == map[] && s.servers != []
    ensures Leads(cfg, s, t) && Inv(cfg, t) && Sampled(t) && t.servers == s.servers && t.truth == s.truth && t.uploads == s.uploads
    ensures forall key :: key in s.etcd && HasPrefix(key, cfg.prefix) ==> key !in t.etcd
  {
    hide Inv, SafePrefix, Leads, HasPrefix, SmallOids;
    var a, names := ToFlushing(cfg, s);
    assert SmallOids(a) by { SameOids(s, a); }
    var b := FlushesAll(cfg, s, a);
    assert SmallOids(b) by { SameOids(s, b); }
    var c := b.(gc := b.gc.(phase := Relisting));
    Goes(cfg, s, b, c, EndFlushingStep);
    assert SmallOids(c) by { SameOids(s, c); }
    var d := b.(gc := b.gc.(phase := Preserving(0)));
    assert c.gc.keys + [] == d.gc.keys;
    assert forall k :: k in b.etcd && HasPrefix(k, cfg.prefix) ==> k in a.gc.flushes;
    Goes(cfg, s, c, d, RelistStep([]));
    assert SmallOids(d) by { SameOids(s, d); }
    RereadsAll(cfg, s, d, 0);
    t := d.(gc := d.gc.(phase := Deleting));
  }

  lemma ToFlushing(cfg: Config, s: State) returns (t: State, names: seq<string>)
    requires Inv(cfg, s) && SafePrefix(cfg.prefix, cfg.cs) && SmallOids(s) && s.gc.phase == Idle && s.uploads == map[] && s.servers != []
    ensures Leads(cfg, s, t) && Inv(cfg, t) && Listed(s.etcd, cfg.prefix, names)
    ensures t == Asked(s, |s.servers|).(gc := Asked(s, |s.servers|).gc.(phase := Flushing, keys := names, flushes := map k | k in names :: Waiting))
  {
    hide Inv, SafePrefix, Leads, HasPrefix, SmallOids;
    AsksAll(cfg, s, |s.servers|);
    var a := Asked(s, |s.servers|);
    assert SmallOids(a) by { SameOids(s, a); }
    var b := a.(gc := a.gc.(phase := Listing));
    Goes(cfg, s, a, b, EndSamplingStep);
    names := ListOf(set k | k in s.etcd && HasPrefix(k, cfg.prefix));
    assert Listed(s.etcd, cfg.prefix, names);
    t := a.(gc := a.gc.(phase := Flushing, keys := names, flushes := map k | k in names :: Waiting));
    assert SmallOids(b) by { SameOids(s, b); }
    Goes(cfg, s, b, t, ListStep(names));
  }

  // ---- an upload ----

  /** Steps of uploads alone lead from one state to the other. */
  ghost predicate UploadsLead(cfg: Config, s: State, t: State) {
    exists run: seq<State>, steps: seq<ClientStep> :: UploadsLeadBy(cfg, s, t, run, steps)
  }

  ghost predicate UploadsLeadBy(cfg: Config, s: State, t: State, run: seq<State>, steps: seq<ClientStep>) {
    && |run| == |steps| + 1 && run[0] == s && run[|steps|] == t
    && forall k :: 0 <= k < |steps| ==> ClientNext(cfg, run[k], run[k + 1], steps[k])
  }

  lemma UploadsGo(cfg: Config, s0: State, s: State, t: State, step: ClientStep)
    requires UploadsLead(cfg, s0, s) && ClientNext(cfg, s, t, step)
    ensures UploadsLead(cfg, s0, t)
  {
    hide ClientNext;
    var run, steps :| UploadsLeadBy(cfg, s0, s, run, steps);
    var run1, steps1 := run + [t], steps + [step];
    forall k | 0 <= k < |steps1| ensures ClientNext(cfg, run1[k], run1[k + 1], steps1[k]) {
      if k < |steps| { assert ClientNext(cfg, run[k], run[k + 1], steps[k]); }
    }
    assert UploadsLeadBy(cfg, s0, t, run1, steps1);
  }

  /** The upload is as it was but for its chunks, of which the first n are stored. */
  ghost predicate StoredUpTo(s: State, t: State, id: nat, n: nat)
    requires id in s.uploads
  {
    && id in t.uploads && |t.servers| == |s.servers|
    && t.uploads[id].key == s.uploads[id].key && t.uploads[id].data == s.uploads[id].data && t.uploads[id].replicas == s.uploads[id].replicas
    && forall i :: 0 <= i < n ==> i in t.uploads[id].stored
  }

  lemma StoresChunk(cfg: Config, s0: State, s: State, id: nat, i: nat) returns (t: State)
    requires UploadsLead(cfg, s0, s) && id in s.uploads && 0 < cfg.cs && KnownServers(s.servers, s.uploads[id].replicas)
    requires i < NumChunks(|s.uploads[id].data|, cfg.cs) * |s.uploads[id].replicas| && StoredUpTo(s, s, id, i)
    ensures UploadsLead(cfg, s0, t) && StoredUpTo(s, t, id, i + 1)
  {
    hide UploadsLead, NumChunks, Piece, InternalKey, PartialKey;
    var u := s.uploads[id];
    if i in u.stored {
      t := s;
    } else {
      var server := Target(u, i);
      var a, v := s, u;
      if i !in u.ids {
        v := u.(ids := u.ids[i := s.servers[server].nextOid]);
        a := s.(servers := s.servers[server := s.servers[server].HandOut()], uploads := s.uploads[id := v]);
        UploadsGo(cfg, s0, s, a, TakeIdStep(id, i));
      }
      var k := InternalKey(ChunkKey(cfg, v, i), v.ids[i]);
      t := a.(servers := a.servers[server := a.servers[server].Add(k, Piece(v.data, ChunkOf(i, |v.replicas|), cfg.cs))],
              uploads := a.uploads[id := v.(ids := v.ids - {i}, stored := v.stored[i := k])]);
      UploadsGo(cfg, s0, a, t, StoreStep(id, i));
    }
  }

  lemma {:induction false} StoresAll(cfg: Config, s: State, id: nat, n: nat) returns (t: State)
    requires id in s.uploads && 0 < cfg.cs && KnownServers(s.servers, s.uploads[id].replicas)
    requires n <= NumChunks(|s.uploads[id].data|, cfg.cs) * |s.uploads[id].replicas|
    ensures UploadsLead(cfg, s, t) && StoredUpTo(s, t, id, n)
  {
    hide UploadsLead, NumChunks;
    if n == 0 {
      Waits(cfg, s);
      t := s;
    } else {
      var a := StoresAll(cfg, s, id, n - 1);
      t := StoresChunk(cfg, s, a, id, n - 1);
    }
  }

  lemma Waits(cfg: Config, s: State)
    ensures UploadsLead(cfg, s, s)
  {
    assert UploadsLeadBy(cfg, s, s, [s], []);
  }

  /** An upload to servers that exist can always be finished, and then its metadata is written. */
  lemma UploadCanFinish(cfg: Config, s: State, id: nat) returns (t: State)
    requires id in s.uploads && 0 < cfg.cs && KnownServers(s.servers, s.uploads[id].replicas)
    ensures UploadsLead(cfg, s, t) && id !in t.uploads
    ensures var u := s.uploads[id];
      && u.key in t.truth && t.truth[u.key] == u.data
      && u.key in t.etcd && t.etcd[u.key].replica == u.replicas && t.etcd[u.key].size == |u.data|
      && |t.etcd[u.key].path| == NumChunks(|u.data|, cfg.cs) * |u.replicas|
  {
    hide UploadsLead, NumChunks;
    var n := NumChunks(|s.uploads[id].data|, cfg.cs) * |s.uploads[id].replicas|;
    var a := StoresAll(cfg, s, id, n);
    var u := a.uploads[id];
    t := a.(etcd := a.etcd[u.key := Root(u.replicas, PathOf(u, n), |u.data|)], truth := a.truth[u.key := u.data],
            uploads := a.uploads - {id}, pending := a.pending - {id});
    UploadsGo(cfg, s, a, t, CommitStep(id));
  }

  /** Any upload to known servers can begin. */
  lemma UploadCanBegin(cfg: Config, s: State, id: nat, key: string, data: seq<byte>, replicas: seq<nat>) returns (t: State)
    requires id !in s.uploads && KnownServers(s.servers, replicas)
    ensures UploadsLead(cfg, s, t) && t == s.(uploads := t.uploads)
    ensures t.uploads.Keys == s.uploads.Keys + {id} && t.uploads[id].key == key && t.uploads[id].data == data && t.uploads[id].replicas == replicas
  {
    hide UploadsLead;
    var u := Upload(key, data, replicas, map[], map[]);
    Waits(cfg, s);
    t := s.(uploads := s.uploads[id := u]);
    UploadsGo(cfg, s, s, t, BeginStep(id, u));
  }

  lemma RefusesOne(cfg: Config, s0: State, s: State, id: nat, i: nat) returns (t: State)
    requires UploadsLead(cfg, s0, s) && id in s.uploads && i in s.uploads[id].ids
    ensures UploadsLead(cfg, s0, t) && t == s.(uploads := t.uploads) && id in t.uploads && t.uploads - {id} == s.uploads - {id}
    ensures |t.uploads[id].ids| < |s.uploads[id].ids|
  {
    hide UploadsLead;
    var ids := s.uploads[id].ids;
    t := s.(uploads := s.uploads[id := s.uploads[id].(ids := ids - {i})]);
    UploadsGo(cfg, s0, s, t, RefuseStep(id, i));
    assert ids.Keys == (ids - {i}).Keys + {i};
    assert |ids.Keys| == |ids| && |(ids - {i}).Keys| == |ids - {i}|;
  }

  /** And it can be given up, when the servers refuse what they have not stored yet. */
  lemma {:induction false} UploadCanStop(cfg: Config, s0: State, s: State, id: nat) returns (t: State)
    requires UploadsLead(cfg, s0, s) && id in s.uploads
    ensures UploadsLead(cfg, s0, t) && t == s.(uploads := s.uploads - {id}, pending := s.pending - {id})
    decreases |s.uploads[id].ids|
  {
    hide UploadsLead;
    var u := s.uploads[id];
    if u.ids == map[] {
      t := s.(uploads := s.uploads - {id}, pending := s.pending - {id});
      UploadsGo(cfg, s0, s, t, AbortStep(id));
    } else {
      var i :| i in u.ids;
      var a := RefusesOne(cfg, s0, s, id, i);
      t := UploadCanStop(cfg, s0, a, id);
    }
  }
}
