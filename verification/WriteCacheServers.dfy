/** One write-cache server: storing chunks under fresh object ids, and the filtered deletion. */
module WriteCacheServers {
  import opened ChunkKeys
  import opened CollectGarbage
  import opened ReplicaLayout

  class WriteCache {
    var next_object_id: nat
    var chunks: map<string, seq<byte>>

    ghost function View(): Server
      reads this
    {
      Server(next_object_id, chunks)
    }

    ghost predicate Valid()
      reads this
    {
      FreshOids(View()) && OldKeys(View())
    }

    constructor ()
      ensures Valid() && View() == Server(0, map[])
    {
      next_object_id, chunks := 0, map[];
    }

    /** The time stamp of the server: every chunk stored so far has a smaller id, and every one stored
        from now on an id at least as large. */
    method QueryTS() returns (ts: nat)
      requires Valid()
      ensures ts == next_object_id && forall k :: k in chunks ==> ParseTS(k) < ts
    {
      ts := next_object_id;
    }

    /** Stores a chunk under a key not in use; a refused chunk, as on a full disk, uses up its object id. */
    method Put(key: string, data: seq<byte>, accepted: bool) returns (ok: bool, internal_key: string)
      requires Valid()
      modifies this
      ensures Valid() && ok == accepted && View() == if ok then old(View()).Put(key, data) else old(View()).HandOut()
      ensures ok ==> internal_key !in old(chunks) && internal_key in chunks && chunks[internal_key] == data
      ensures ok && old(next_object_id) <= UINT64_MAX ==> ParseTS(internal_key) == old(next_object_id)
    {
      var oid := next_object_id;
      next_object_id := next_object_id + 1;
      internal_key := InternalKey(key, oid);
      PutFresh(View().(nextOid := oid), key, data);
      ParseTsOfInternal(key, oid);
      if !accepted { return false, "<undefined>"; }
      chunks := chunks[internal_key := data];
      ok := true;
    }

    /** Removes the entries of a deletion request one after the other, in an order of the store's
        choice, and gives up at the first one that cannot be removed. */
    method Delete(prefix: string, ts: nat, except: set<string>, removable: string -> bool) returns (ok: bool)
      requires Valid()
      modifies this`chunks
      ensures Valid()
      ensures Trimmed(old(chunks), chunks, prefix, ts, except)
      ensures ok ==> forall k :: k in chunks ==> !Deletable(k, prefix, ts, except)
      ensures ok <==> forall k :: k in old(chunks) && Deletable(k, prefix, ts, except) ==> removable(k)
    {
      var todo := chunks.Keys;
      while todo != {}
        invariant Valid() && todo <= chunks.Keys
        invariant forall k :: k in chunks ==> k in old(chunks) && chunks[k] == old(chunks)[k]
        invariant forall k :: k in old(chunks) && k !in chunks ==> Deletable(k, prefix, ts, except) && removable(k)
        invariant forall k :: k in chunks && k !in todo ==> !Deletable(k, prefix, ts, except)
      {
        var key :| key in todo;
        todo := todo - {key};
        if HasPrefix(key, prefix) && ParseTS(key) < ts && key !in except {
          if !removable(key) { return false; }
          chunks := chunks - {key};
        }
      }
      ok := true;
    }
  }

  // ---- the server's operations as steps of the write cache ----

  /** Handing out an id and then storing the chunk under it is what `Put` does in one go. */
  lemma PutIsTwoSteps(cfg: Config, s: State, m: State, t: State, id: nat, i: nat)
    requires TakeId(cfg, s, m, id, i) && Store(cfg, m, t, id, i)
    ensures var u := s.uploads[id];
      Target(u, i) < |s.servers|
      && t.servers == s.servers[Target(u, i) := s.servers[Target(u, i)].Put(ChunkKey(cfg, u, i), Piece(u.data, ChunkOf(i, |u.replicas|), cfg.cs))]
  {
    hide Piece, NumChunks;
  }

  /** What `Delete` may leave of a server's chunks. */
  predicate Trimmed(before: map<string, seq<byte>>, after: map<string, seq<byte>>, prefix: string, ts: nat, except: set<string>) {
    && (forall k :: k in after ==> k in before && after[k] == before[k])
    && (forall k :: k in before && k !in after ==> Deletable(k, prefix, ts, except))
  }

  function WithChunks(s: State, server: nat, chunks: map<string, seq<byte>>): State
    requires server < |s.servers|
  {
    s.(servers := s.servers[server := s.servers[server].(chunks := chunks)])
  }

  ghost predicate RemovesOne(cfg: Config, s: State, t: State, server: nat) {
    exists k :: Remove(cfg, s, t, server, k)
  }

  lemma OneGone(cfg: Config, s: State, server: nat, after: map<string, seq<byte>>, k: string) returns (t: State)
    requires s.gc.phase == Deleting && server < |s.servers| && server < |s.gc.ts| && server !in s.gc.skipped
    requires Trimmed(s.servers[server].chunks, after, cfg.prefix, s.gc.ts[server], Excepted(s.gc, server))
    requires k in s.servers[server].chunks && k !in after
    ensures RemovesOne(cfg, s, t, server) && t.gc == s.gc && server < |t.servers|
    ensures t.servers[server].chunks == s.servers[server].chunks - {k} && WithChunks(t, server, after) == WithChunks(s, server, after)
  {
    hide Deletable, Excepted;
    t := WithChunks(s, server, s.servers[server].chunks - {k});
    assert Remove(cfg, s, t, server, k);
  }

  /** Every outcome of a deletion request of the collector is reached by removing one chunk after the
      other. */
  lemma {:induction false} DeleteIsRemoveSteps(cfg: Config, s: State, server: nat, after: map<string, seq<byte>>) returns (run: seq<State>)
    requires s.gc.phase == Deleting && server < |s.servers| && server < |s.gc.ts| && server !in s.gc.skipped
    requires Trimmed(s.servers[server].chunks, after, cfg.prefix, s.gc.ts[server], Excepted(s.gc, server))
    ensures run != [] && run[0] == s && run[|run| - 1] == WithChunks(s, server, after)
    ensures forall j :: 0 < j < |run| ==> RemovesOne(cfg, run[j - 1], run[j], server)
    decreases s.servers[server].chunks.Keys - after.Keys
  {
    hide Deletable, Excepted, RemovesOne;
    var before := s.servers[server].chunks;
    if before.Keys <= after.Keys {
      assert before == after;
      run := [s];
    } else {
      var k :| k in before && k !in after;
      var t := OneGone(cfg, s, server, after, k);
      assert k in before.Keys - after.Keys && k !in t.servers[server].chunks.Keys - after.Keys;
      var rest := DeleteIsRemoveSteps(cfg, t, server, after);
      run := [s] + rest;
    }
  }
}
