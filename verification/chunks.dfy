/** The in-memory chunk cache behind `UploadCdnFileChunk`. */
module ChunkCache {
  import opened Common
  import opened Accounts

  type ChunkId = string
  type Cache = map<ChunkId, Bytes>

  /** Largest accepted chunk, in bytes. */
  const MaxChunkSize: nat := 100_000_000

  /** How many times the handler looks the chunk id up before giving up. */
  const MaxIdTries: nat := 10

  /** Time-to-live the cache is built with, in seconds (one hour; the
      query's own documentation says ten minutes). */
  const ChunkTtlSeconds: nat := 3600

  datatype UploadReply =
    | Stored(id: ChunkId)
    | AuthFailed
    | NoCdnCapability
    | ChunkTooLarge
    | ChunkEmpty
    | IdExhausted

  function UploadStatus(r: UploadReply): Status
  {
    match r
    case Stored(_) => Ok
    case AuthFailed => InternalError
    case NoCdnCapability => Forbidden
    case ChunkTooLarge => BadRequest
    case ChunkEmpty => BadRequest
    case IdExhausted => InternalError
  }

  datatype Upload = Upload(cache: Cache, reply: UploadReply, lookups: nat)

  /** The checks made before any id is generated: capabilities resolved
      and granting CDN management, size at most `MaxChunkSize`, non-empty. */
  predicate Admissible(caps: Option<set<Capability>>, chunk: Bytes)
  {
    caps.Some? && CdnManagement in caps.value && 0 < |chunk| <= MaxChunkSize
  }

  /** The retry loop as written: it probes the cache with the SAME id on
      every round, `lookups` counting the probes made so far. */
  function RetryWithSameId(cache: Cache, chunk: Bytes, id: ChunkId, tries: nat): (u: Upload)
    requires tries <= MaxIdTries
    ensures u.reply.Stored? <==> tries < MaxIdTries && id !in cache
    ensures u.reply.Stored? ==> u.reply.id == id && u.cache == cache[id := chunk] && u.lookups == tries + 1
    ensures !u.reply.Stored? ==> u.reply == IdExhausted && u.cache == cache && u.lookups == MaxIdTries
    decreases MaxIdTries - tries
  {
    if tries < MaxIdTries then
      if id !in cache then Upload(cache[id := chunk], Stored(id), tries + 1)
      else RetryWithSameId(cache, chunk, id, tries + 1)
    else
      assert tries == MaxIdTries;
      Upload(cache, IdExhausted, tries)
  }

  /** `UploadCdnFileChunk` as written: `chunkId` is the one id generated
      before the retry loop. */
  function UploadChunk(cache: Cache, caps: Option<set<Capability>>, chunk: Bytes, chunkId: ChunkId): (u: Upload)
    ensures caps.None? ==> u.reply == AuthFailed
    ensures caps.Some? && CdnManagement !in caps.value ==> u.reply == NoCdnCapability
    ensures caps.Some? && CdnManagement in caps.value && |chunk| > MaxChunkSize ==> u.reply == ChunkTooLarge
    ensures caps.Some? && CdnManagement in caps.value && |chunk| == 0 ==> u.reply == ChunkEmpty
    ensures u.reply.Stored? <==> Admissible(caps, chunk) && chunkId !in cache
    ensures u.reply.Stored? ==> u.reply.id == chunkId && u.cache == cache[chunkId := chunk]
    ensures u.reply.Stored? ==> u.cache.Keys == cache.Keys + {chunkId} && chunkId !in cache
    ensures !u.reply.Stored? ==> u.cache == cache
    ensures Admissible(caps, chunk) && chunkId in cache ==> u.reply == IdExhausted && u.lookups == MaxIdTries
  {
    if caps.None? then Upload(cache, AuthFailed, 0)
    else if CdnManagement !in caps.value then Upload(cache, NoCdnCapability, 0)
    else if |chunk| > MaxChunkSize then Upload(cache, ChunkTooLarge, 0)
    else if |chunk| == 0 then Upload(cache, ChunkEmpty, 0)
    else RetryWithSameId(cache, chunk, chunkId, 0)
  }

  /** The evidently intended loop: round `k` probes a freshly generated id
      `gen(k)`. */
  function RetryWithFreshIds(cache: Cache, chunk: Bytes, gen: nat -> ChunkId, tries: nat): (u: Upload)
    requires tries <= MaxIdTries
    ensures u.reply.Stored? <==> exists k :: tries <= k < MaxIdTries && gen(k) !in cache
    ensures u.reply.Stored? ==>
              && (exists k :: tries <= k < MaxIdTries && u.reply.id == gen(k))
              && u.reply.id !in cache
              && u.cache == cache[u.reply.id := chunk]
    ensures !u.reply.Stored? ==> u.reply == IdExhausted && u.cache == cache && u.lookups == MaxIdTries
    decreases MaxIdTries - tries
  {
    if tries < MaxIdTries then
      if gen(tries) !in cache then Upload(cache[gen(tries) := chunk], Stored(gen(tries)), tries + 1)
      else RetryWithFreshIds(cache, chunk, gen, tries + 1)
    else
      Upload(cache, IdExhausted, tries)
  }

  /** The corrected upload: identical gates, fresh id on every round. */
  function UploadChunkFresh(cache: Cache, caps: Option<set<Capability>>, chunk: Bytes, gen: nat -> ChunkId): (u: Upload)
    ensures u.reply.Stored? <==> Admissible(caps, chunk) && exists k :: 0 <= k < MaxIdTries && gen(k) !in cache
    ensures u.reply.Stored? ==> u.reply.id !in cache && u.cache == cache[u.reply.id := chunk]
    ensures !u.reply.Stored? ==> u.cache == cache
  {
    if caps.None? then Upload(cache, AuthFailed, 0)
    else if CdnManagement !in caps.value then Upload(cache, NoCdnCapability, 0)
    else if |chunk| > MaxChunkSize then Upload(cache, ChunkTooLarge, 0)
    else if |chunk| == 0 then Upload(cache, ChunkEmpty, 0)
    else RetryWithFreshIds(cache, chunk, gen, 0)
  }

  /** The loop as written is the corrected loop fed a generator that
      repeats its first id. */
  lemma {:induction false} SameIdIsConstantGenerator(cache: Cache, chunk: Bytes, id: ChunkId, tries: nat)
    requires tries <= MaxIdTries
    ensures RetryWithSameId(cache, chunk, id, tries) == RetryWithFreshIds(cache, chunk, (k: nat) => id, tries)
    decreases MaxIdTries - tries
  {
    if tries < MaxIdTries && id in cache {
      SameIdIsConstantGenerator(cache, chunk, id, tries + 1);
    }
  }

  /** The discrepancy on a concrete input: the first id collides, the
      second would be free; the retries as written cannot find it. */
  lemma CollisionDefeatsRetries()
    ensures var cache: Cache := map["taken" := [1]];
            var gen := (k: nat) => if k == 0 then "taken" else "free";
            && UploadChunk(cache, Some({CdnManagement}), [7], gen(0)).reply == IdExhausted
            && UploadChunkFresh(cache, Some({CdnManagement}), [7], gen).reply == Stored("free")
  {
    var cache: Cache := map["taken" := [1]];
    var gen := (k: nat) => if k == 0 then "taken" else "free";
    assert gen(1) !in cache;
    var u := RetryWithFreshIds(cache, [7], gen, 1);
    assert RetryWithFreshIds(cache, [7], gen, 0) == u;
  }
}
