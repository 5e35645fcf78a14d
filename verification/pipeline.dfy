/** The two halves of the upload protocol together: chunks stored by
    `UploadCdnFileChunk` and consumed by `AddFile`. */
module AssetPipeline {
  import opened Common
  import opened Accounts
  import opened AssetPath
  import ChunkCache
  import opened Assets

  /** Uploading three chunks under fresh ids and then adding a file that
      lists them, with the right digest, publishes exactly their
      concatenation and leaves the cache as it was before the uploads. */
  lemma UploadThenAddFile(st: Cdn, caps: set<Capability>, p1: Bytes, p2: Bytes, p3: Bytes,
                          id1: ChunkId, id2: ChunkId, id3: ChunkId,
                          dir: string, target: string, digest: Bytes -> string)
    requires CdnManagement in caps
    requires 0 < |p1| <= ChunkCache.MaxChunkSize && 0 < |p2| <= ChunkCache.MaxChunkSize && 0 < |p3| <= ChunkCache.MaxChunkSize
    requires id1 !in st.cache && id2 !in st.cache && id3 !in st.cache
    requires id1 != id2 && id1 != id3 && id2 != id3
    requires target !in st.fs && target != dir && (dir in st.fs ==> st.fs[dir].Dir?)
    ensures
      var u1 := ChunkCache.UploadChunk(st.cache, Some(caps), p1, id1);
      var u2 := ChunkCache.UploadChunk(u1.cache, Some(caps), p2, id2);
      var u3 := ChunkCache.UploadChunk(u2.cache, Some(caps), p3, id3);
      var o := AddFileAction(st.(cache := u3.cache), dir, target, [id1, id2, id3], false, digest(p1 + p2 + p3), digest);
      && u1.reply == ChunkCache.Stored(id1) && u2.reply == ChunkCache.Stored(id2) && u3.reply == ChunkCache.Stored(id3)
      && o.reply == Done
      && o.cdn.fs[target] == File(p1 + p2 + p3)
      && o.cdn.cache == st.cache
  {
    var u1 := ChunkCache.UploadChunk(st.cache, Some(caps), p1, id1);
    var u2 := ChunkCache.UploadChunk(u1.cache, Some(caps), p2, id2);
    var u3 := ChunkCache.UploadChunk(u2.cache, Some(caps), p3, id3);
    var c := u3.cache;
    assert c == st.cache[id1 := p1][id2 := p2][id3 := p3];
    ThreeChunks(c, id1, id2, id3);
    assert c - {id1, id2, id3} == st.cache;
  }

  /** Three distinct cached ids: all cached, distinct, gathered in order. */
  lemma ThreeChunks(c: Cache, id1: ChunkId, id2: ChunkId, id3: ChunkId)
    requires id1 in c && id2 in c && id3 in c
    requires id1 != id2 && id1 != id3 && id2 != id3
    ensures AllCached(c, [id1, id2, id3]) && Distinct([id1, id2, id3])
    ensures Gather(c, [id1, id2, id3]) == c[id1] + c[id2] + c[id3]
    ensures IdSet([id1, id2, id3]) == {id1, id2, id3}
  {
    var ids := [id1, id2, id3];
    assert ids[1..] == [id2, id3] && ids[1..][1..] == [id3] && ids[1..][1..][1..] == [];
    assert Gather(c, [id3]) == c[id3] + Gather(c, []);
    assert Gather(c, [id2, id3]) == c[id2] + Gather(c, [id3]);
    assert Gather(c, ids) == c[id1] + Gather(c, [id2, id3]);
    assert ids[0] == id1 && ids[1] == id2 && ids[2] == id3;
  }

  /** The scenario of three ten-byte chunks, sent through the whole query:
      the thirty-byte file is published at the asset's resolved location
      under the scope root. */
  lemma ThirtyByteFile(st: Cdn, caps: set<Capability>, p1: Bytes, p2: Bytes, p3: Bytes,
                       id1: ChunkId, id2: ChunkId, id3: ChunkId,
                       scopes: map<string, string>, scope: string, name: string, path: string,
                       digest: Bytes -> string)
    requires CdnManagement in caps
    requires |p1| == 10 && |p2| == 10 && |p3| == 10
    requires id1 !in st.cache && id2 !in st.cache && id3 !in st.cache
    requires id1 != id2 && id1 != id3 && id2 != id3
    requires scope in scopes && ValidateName(name) && name != "" && ValidatePath(path)
    requires AssetTarget(scopes[scope], path, name) !in st.fs
    requires AssetDir(scopes[scope], path) in st.fs ==> st.fs[AssetDir(scopes[scope], path)].Dir?
    ensures
      var u1 := ChunkCache.UploadChunk(st.cache, Some(caps), p1, id1);
      var u2 := ChunkCache.UploadChunk(u1.cache, Some(caps), p2, id2);
      var u3 := ChunkCache.UploadChunk(u2.cache, Some(caps), p3, id3);
      var o := UpdateCdnAsset(st.(cache := u3.cache), Some(caps), scopes, scope, name, path,
                              AddFile(false, [id1, id2, id3], digest(p1 + p2 + p3)), digest);
      var target := AssetTarget(scopes[scope], path, name);
      && o.reply == Done
      && target in o.cdn.fs && |o.cdn.fs[target].content| == 30
      && o.cdn.cache == st.cache
  {
    UploadThenAddFile(st, caps, p1, p2, p3, id1, id2, id3,
                      AssetDir(scopes[scope], path), AssetTarget(scopes[scope], path, name), digest);
  }

  /** A wrong digest after the same uploads: nothing is published, the
      destination stays absent, the chunks are gone and a temporary file
      is left behind. */
  lemma WrongDigestConsumesChunks(st: Cdn, caps: set<Capability>, p1: Bytes, p2: Bytes,
                                  id1: ChunkId, id2: ChunkId, sha512: string,
                                  dir: string, target: string, digest: Bytes -> string)
    requires CdnManagement in caps
    requires 0 < |p1| <= ChunkCache.MaxChunkSize && 0 < |p2| <= ChunkCache.MaxChunkSize
    requires id1 !in st.cache && id2 !in st.cache && id1 != id2
    requires target !in st.fs && target != dir && (dir in st.fs ==> st.fs[dir].Dir?)
    requires sha512 != digest(p1 + p2)
    ensures
      var u1 := ChunkCache.UploadChunk(st.cache, Some(caps), p1, id1);
      var u2 := ChunkCache.UploadChunk(u1.cache, Some(caps), p2, id2);
      var o := AddFileAction(st.(cache := u2.cache), dir, target, [id1, id2], false, sha512, digest);
      && o.reply == Failed(HashMismatch)
      && target !in o.cdn.fs
      && id1 !in o.cdn.cache && id2 !in o.cdn.cache
      && |o.cdn.orphans| == |st.orphans| + 1
  {
    var u1 := ChunkCache.UploadChunk(st.cache, Some(caps), p1, id1);
    var u2 := ChunkCache.UploadChunk(u1.cache, Some(caps), p2, id2);
    var ids := [id1, id2];
    var c := u2.cache;
    assert AllCached(c, ids) && Distinct(ids);
    assert c[id1] == p1 && c[id2] == p2;
    assert Gather(c, ids) == p1 + p2 by {
      assert ids[1..] == [id2] && ids[1..][1..] == [];
      assert Gather(c, [id2]) == p2 + Gather(c, []);
      assert Gather(c, ids) == p1 + Gather(c, [id2]);
    }
    assert ids[0] == id1 && ids[1] == id2;
    assert id1 in IdSet(ids) && id2 in IdSet(ids);
  }
}
