/** The `UpdateCdnAsset` query: capability and scope checks, name/path
    validation, then one of the file actions on the scope's directory tree.
    The filesystem is a flat map from full path to node. */
module Assets {
  import opened Common
  import opened Accounts
  import opened AssetPath
  import ChunkCache

  type ChunkId = ChunkCache.ChunkId
  type Cache = ChunkCache.Cache

  datatype Node = File(content: Bytes) | Dir
  type Fs = map<string, Node>

  /** Everything an asset action touches: the chunk cache, the filesystem
      and the temporary files left behind in `/tmp` (their contents). */
  datatype Cdn = Cdn(cache: Cache, fs: Fs, orphans: seq<Bytes>)

  /** Most chunk ids one `AddFile` may list. */
  const MaxChunksPerFile: nat := 100_000

  datatype Action =
    | CreateFolder
    | AddFile(overwrite: bool, chunks: seq<ChunkId>, sha512: string)
    | CopyFile(overwrite: bool, deleteOriginal: bool, copyTo: string)
    | Delete

  datatype AssetError =
    | AuthFailed
    | NoCdnCapability
    | InvalidScope
    | InvalidName
    | InvalidPath
    | AlreadyExists
    | NoChunks
    | TooManyChunks
    | ChunkMissing
    | TargetIsDirectory
    | ParentNotDirectory
    | ChunkGone(id: ChunkId)
    | HashMismatch
    | PublishFailed
    | CopyToEmpty
    | CopyToExists
    | NotFound
    | TransferFailed

  datatype AssetReply = Done | Failed(error: AssetError)

  datatype Outcome = Outcome(cdn: Cdn, reply: AssetReply)

  /** Status of a reply; errors raised through the handler's generic error
      path (validation, chunk removal, filesystem calls) answer 500. */
  function AssetStatus(r: AssetReply): Status
  {
    match r
    case Done => NoContent
    case Failed(e) =>
      match e
      case AuthFailed => InternalError
      case NoCdnCapability => Forbidden
      case InvalidName => InternalError
      case InvalidPath => InternalError
      case ChunkGone(_) => InternalError
      case PublishFailed => InternalError
      case TransferFailed => InternalError
      case _ => BadRequest
  }

  /** The node at `k`, if any. */
  function Lookup(fs: Fs, k: string): Option<Node>
  {
    if k in fs then Some(fs[k]) else None
  }

  /** `k` lies strictly below directory `p`. */
  predicate Below(k: string, p: string)
  {
    HasPrefix(k, p + "/")
  }

  /** `k` is the scope root or lies below it. */
  predicate Within(root: string, k: string)
  {
    k == root || Below(k, root)
  }

  lemma BelowIsTransitive(k: string, p: string, root: string)
    requires Within(root, p) && Below(k, p)
    ensures Within(root, k) && k != root
  {
    assert k[..|p| + 1] == p + "/";
    if p != root {
      assert k[..|root| + 1] == p[..|root| + 1];
    }
  }

  // ----- Chunk assembly -----------------------------------------------

  /** Every listed chunk id is in the cache (the existence loop). */
  predicate AllCached(cache: Cache, ids: seq<ChunkId>)
  {
    forall i :: 0 <= i < |ids| ==> ids[i] in cache
  }

  predicate Distinct(ids: seq<ChunkId>)
  {
    forall i, j :: 0 <= i < j < |ids| ==> ids[i] != ids[j]
  }

  function IdSet(ids: seq<ChunkId>): set<ChunkId>
  {
    set i | 0 <= i < |ids| :: ids[i]
  }

  /** The payloads of the listed chunks, concatenated in listed order. */
  function Gather(cache: Cache, ids: seq<ChunkId>): Bytes
    requires AllCached(cache, ids)
  {
    if |ids| == 0 then [] else cache[ids[0]] + Gather(cache, ids[1..])
  }

  /** Gathering only reads the listed keys. */
  lemma {:induction false} GatherReadsListedOnly(c1: Cache, c2: Cache, ids: seq<ChunkId>)
    requires AllCached(c1, ids) && AllCached(c2, ids)
    requires forall i :: 0 <= i < |ids| ==> c1[ids[i]] == c2[ids[i]]
    ensures Gather(c1, ids) == Gather(c2, ids)
    decreases |ids|
  {
    if |ids| > 0 {
      GatherReadsListedOnly(c1, c2, ids[1..]);
    }
  }

  /** The id set of a non-empty list is its head plus its tail's ids. */
  lemma IdSetCons(ids: seq<ChunkId>)
    requires |ids| > 0
    ensures IdSet(ids) == {ids[0]} + IdSet(ids[1..])
  {
    forall y | y in IdSet(ids) ensures y in {ids[0]} + IdSet(ids[1..]) {
      var i :| 0 <= i < |ids| && ids[i] == y;
      if i > 0 { assert ids[1..][i - 1] == y; }
    }
    forall y | y in IdSet(ids[1..]) ensures y in IdSet(ids) {
      var i :| 0 <= i < |ids[1..]| && ids[1..][i] == y;
      assert ids[i + 1] == y;
    }
  }

  /** Removing the head chunk from the cache preserves "all cached and
      distinct" for the tail, and conversely. */
  lemma AssemblyStep(cache: Cache, ids: seq<ChunkId>)
    requires |ids| > 0 && ids[0] in cache
    ensures AllCached(cache, ids) && Distinct(ids)
        <==> AllCached(cache - {ids[0]}, ids[1..]) && Distinct(ids[1..])
  {
    var x := ids[0];
    if AllCached(cache, ids) && Distinct(ids) {
      forall i | 0 <= i < |ids[1..]| ensures ids[1..][i] in cache - {x} {
        assert ids[1..][i] == ids[i + 1] && ids[i + 1] != ids[0];
      }
      forall i, j | 0 <= i < j < |ids[1..]| ensures ids[1..][i] != ids[1..][j] {
        assert ids[1..][i] == ids[i + 1] && ids[1..][j] == ids[j + 1];
      }
    }
    if AllCached(cache - {x}, ids[1..]) && Distinct(ids[1..]) {
      forall i | 0 <= i < |ids| ensures ids[i] in cache {
        if i > 0 { assert ids[i] == ids[1..][i - 1]; }
      }
      forall i, j | 0 <= i < j < |ids| ensures ids[i] != ids[j] {
        assert ids[j] == ids[1..][j - 1];
        if i > 0 { assert ids[i] == ids[1..][i - 1]; }
      }
    }
  }

  /** Result of the write loop: the cache after the removals, the bytes
      written to the temporary file, and the first id whose removal found
      nothing. */
  datatype Assembly = Assembly(cache: Cache, written: Bytes, missing: Option<ChunkId>)

  /** The write loop: each listed chunk is removed from the cache and
      appended to the temporary file; a failed removal stops the loop. */
  function Assemble(cache: Cache, ids: seq<ChunkId>): (a: Assembly)
    ensures a.missing.None? <==> AllCached(cache, ids) && Distinct(ids)
    ensures a.missing.None? ==> a.written == Gather(cache, ids) && a.cache == cache - IdSet(ids)
    ensures a.cache.Keys <= cache.Keys
    ensures forall k :: k in a.cache ==> a.cache[k] == cache[k]
    ensures |ids| > 0 && ids[0] in cache ==> ids[0] !in a.cache
    // a failure at position n has consumed exactly the ids listed before it
    ensures a.missing.Some? ==>
              exists n :: 0 <= n < |ids| && ids[n] == a.missing.value
                          && a.cache == cache - IdSet(ids[..n]) && ids[n] !in a.cache
    decreases |ids|
  {
    if |ids| == 0 then Assembly(cache, [], None)
    else if ids[0] !in cache then
      assert IdSet(ids[..0]) == {};
      Assembly(cache, [], Some(ids[0]))
    else
      var x := ids[0];
      var rest := Assemble(cache - {x}, ids[1..]);
      IdSetCons(ids);
      AssemblyStep(cache, ids);
      if rest.missing.None? then
        GatherReadsListedOnly(cache - {x}, cache, ids[1..]);
        Assembly(rest.cache, cache[x] + rest.written, None)
      else
        FailureAfterHead(cache, ids, rest.cache, rest.missing.value);
        Assembly(rest.cache, cache[x] + rest.written, rest.missing)
  }

  /** A failure at position `m` of the tail, after the head was consumed,
      is a failure at position `m + 1` of the whole list. */
  lemma FailureAfterHead(cache: Cache, ids: seq<ChunkId>, left: Cache, missing: ChunkId)
    requires |ids| > 0
    requires exists m :: 0 <= m < |ids[1..]| && ids[1..][m] == missing
                         && left == (cache - {ids[0]}) - IdSet(ids[1..][..m]) && ids[1..][m] !in left
    ensures exists n :: 0 <= n < |ids| && ids[n] == missing && left == cache - IdSet(ids[..n]) && ids[n] !in left
  {
    var m :| 0 <= m < |ids[1..]| && ids[1..][m] == missing
             && left == (cache - {ids[0]}) - IdSet(ids[1..][..m]) && ids[1..][m] !in left;
    IdSetCons(ids[..m + 1]);
    assert ids[..m + 1][1..] == ids[1..][..m];
    assert ids[m + 1] == missing;
  }

  // ----- Actions ------------------------------------------------------

  function Fail(st: Cdn, e: AssetError): (o: Outcome)
    ensures o.cdn == st && o.reply.Failed?
  {
    Outcome(st, Failed(e))
  }

  /** `AddFile`: assemble the listed chunks into a temporary file, check the
      lowercase-hex SHA-512 of the result against `sha512`, and only then
      copy it to `target` inside `dir`. `digest` stands for SHA-512 followed
      by lowercase hex encoding. */
  function AddFileAction(st: Cdn, dir: string, target: string, chunks: seq<ChunkId>,
                         overwrite: bool, sha512: string, digest: Bytes -> string): (o: Outcome)
    // rejections made before anything is written
    ensures |chunks| == 0 ==> o == Outcome(st, Failed(NoChunks))
    ensures |chunks| > MaxChunksPerFile ==> o == Outcome(st, Failed(TooManyChunks))
    ensures 0 < |chunks| <= MaxChunksPerFile && !AllCached(st.cache, chunks) ==> o == Outcome(st, Failed(ChunkMissing))
    ensures 0 < |chunks| <= MaxChunksPerFile && AllCached(st.cache, chunks) && target in st.fs && !overwrite
            ==> o == Outcome(st, Failed(AlreadyExists))
    // publication
    ensures o.reply == Done <==>
              && 0 < |chunks| <= MaxChunksPerFile
              && AllCached(st.cache, chunks) && Distinct(chunks)
              && (target in st.fs ==> overwrite && st.fs[target].File?)
              && (dir in st.fs ==> st.fs[dir].Dir?)
              && target != dir
              && sha512 == digest(Gather(st.cache, chunks))
    ensures o.reply == Done ==>
              && target in o.cdn.fs && o.cdn.fs[target] == File(Gather(st.cache, chunks))
              && o.cdn.cache == st.cache - IdSet(chunks)
              && o.cdn.orphans == st.orphans
    // whatever happens, only `dir` and `target` can change
    ensures forall k :: k != dir && k != target ==> Lookup(o.cdn.fs, k) == Lookup(st.fs, k)
    // a digest mismatch leaves the destination as it was but consumes the chunks
    ensures o.reply == Failed(HashMismatch) ==>
              && (target != dir ==> Lookup(o.cdn.fs, target) == Lookup(st.fs, target))
              && o.cdn.cache == st.cache - IdSet(chunks)
              && |o.cdn.orphans| == |st.orphans| + 1
    // a repeated chunk id passes the existence check, then fails on removal
    ensures 0 < |chunks| <= MaxChunksPerFile && AllCached(st.cache, chunks) && !Distinct(chunks)
            && (target in st.fs ==> overwrite && st.fs[target].File?)
            && (dir in st.fs ==> st.fs[dir].Dir?)
            ==> o.reply.Failed? && o.reply.error.ChunkGone? && chunks[0] !in o.cdn.cache
  {
    if |chunks| == 0 then Fail(st, NoChunks)
    else if |chunks| > MaxChunksPerFile then Fail(st, TooManyChunks)
    else if !AllCached(st.cache, chunks) then Fail(st, ChunkMissing)
    else if target in st.fs && !overwrite then Fail(st, AlreadyExists)
    else if target in st.fs && st.fs[target].Dir? then Fail(st, TargetIsDirectory)
    else if dir in st.fs && !st.fs[dir].Dir? then Fail(st, ParentNotDirectory)
    else
      var fs1 := if dir in st.fs then st.fs else st.fs[dir := Dir];
      var a := Assemble(st.cache, chunks);
      if a.missing.Some? then
        Outcome(Cdn(a.cache, fs1, st.orphans + [a.written]), Failed(ChunkGone(a.missing.value)))
      else if sha512 != digest(a.written) then
        Outcome(Cdn(a.cache, fs1, st.orphans + [a.written]), Failed(HashMismatch))
      else if target == dir then
        // copying onto the directory just created fails; the temp file stays
        Outcome(Cdn(a.cache, fs1, st.orphans + [a.written]), Failed(PublishFailed))
      else
        Outcome(Cdn(a.cache, fs1[target := File(a.written)], st.orphans), Done)
  }

  /** `CreateFolder`: only when nothing exists at `target`. */
  function CreateFolderAction(st: Cdn, target: string): (o: Outcome)
    ensures o.reply == Done <==> target !in st.fs
    ensures o.reply == Done ==> o.cdn.fs.Keys == st.fs.Keys + {target} && o.cdn.fs[target] == Dir
    ensures forall k :: k != target ==> Lookup(o.cdn.fs, k) == Lookup(st.fs, k)
    ensures o.cdn.cache == st.cache && o.cdn.orphans == st.orphans
  {
    if target in st.fs then Fail(st, AlreadyExists)
    else Outcome(st.(fs := st.fs[target := Dir]), Done)
  }

  /** The filesystem without `p` and everything below it. */
  function RemoveTree(fs: Fs, p: string): (r: Fs)
    ensures forall k :: k in r <==> k in fs && k != p && !Below(k, p)
    ensures forall k :: k in r ==> r[k] == fs[k]
  {
    map k | k in fs && k != p && !Below(k, p) :: fs[k]
  }

  /** `Delete`: a file is removed, a directory is removed with its whole
      subtree; a missing target is an error. */
  function DeleteAction(st: Cdn, target: string): (o: Outcome)
    ensures o.reply == Done <==> target in st.fs
    ensures o.reply == Done ==> target !in o.cdn.fs
    ensures o.reply == Done && st.fs[target].Dir? ==> forall k :: Below(k, target) ==> k !in o.cdn.fs
    ensures forall k :: k != target && !Below(k, target) ==> Lookup(o.cdn.fs, k) == Lookup(st.fs, k)
    ensures o.cdn.cache == st.cache && o.cdn.orphans == st.orphans
  {
    if target !in st.fs then Fail(st, NotFound)
    else
      match st.fs[target]
      case File(_) => Outcome(st.(fs := st.fs - {target}), Done)
      case Dir => Outcome(st.(fs := RemoveTree(st.fs, target)), Done)
  }

  /** Where the entry `k` below `src` lands when `src` is copied to `dst`. */
  function Rebase(k: string, src: string, dst: string): string
    requires Below(k, src)
  {
    dst + k[|src|..]
  }

  /** Destinations of the entries below `src`. */
  function MovedKeys(fs: Fs, src: string, dst: string): set<string>
  {
    set k | k in fs && Below(k, src) :: Rebase(k, src, dst)
  }

  /** Every destination comes from exactly the source entry it names. */
  lemma MovedKeysOrigin(fs: Fs, src: string, dst: string)
    ensures forall t :: t in MovedKeys(fs, src, dst) ==>
              && Below(t, dst) && |dst| <= |t|
              && src + t[|dst|..] in fs && Below(src + t[|dst|..], src)
  {
    forall t | t in MovedKeys(fs, src, dst)
      ensures Below(t, dst) && |dst| <= |t| && src + t[|dst|..] in fs && Below(src + t[|dst|..], src)
    {
      var k :| k in fs && Below(k, src) && t == Rebase(k, src, dst);
      var rest := k[|src|..];
      assert k == src + rest;
      assert rest[0] == k[..|src| + 1][|src|] == '/';
      assert t == dst + rest;
      assert t[|dst|..] == rest;
      assert t[..|dst| + 1] == dst + [rest[0]];
    }
  }

  /** The copied subtree, keyed by destination. */
  function Subtree(fs: Fs, src: string, dst: string): (sub: Fs)
    ensures forall t :: t in sub ==> Below(t, dst)
    // nothing but rebased source entries
    ensures forall t :: t in sub ==>
              && |dst| <= |t| && src + t[|dst|..] in fs && Below(src + t[|dst|..], src)
              && sub[t] == fs[src + t[|dst|..]]
    ensures forall k :: k in fs && Below(k, src) ==> Rebase(k, src, dst) in sub && sub[Rebase(k, src, dst)] == fs[k]
  {
    MovedKeysOrigin(fs, src, dst);
    var sub := map t | t in MovedKeys(fs, src, dst) :: fs[src + t[|dst|..]];
    assert forall k :: k in fs && Below(k, src) ==> src + Rebase(k, src, dst)[|dst|..] == k by {
      forall k | k in fs && Below(k, src) ensures src + Rebase(k, src, dst)[|dst|..] == k {
        assert k == src + k[|src|..];
      }
    }
    sub
  }

  /** A transfer decided by `CopyFile`. */
  datatype Transfer =
    | MoveFile(src: string, dst: string)
    | CopyOneFile(src: string, dst: string)
    | MoveTree(src: string, dst: string)
    | CopyTree(src: string, dst: string)

  /** The filesystem after a transfer. A tree copy creates `dst` and writes
      every entry below `src` at the same relative place below `dst`; a tree
      move does the same and then removes `src` with its subtree. */
  function ApplyTransfer(fs: Fs, t: Transfer): (r: Fs)
    requires t.MoveFile? || t.CopyOneFile? ==> t.src in fs && fs[t.src].File?
    // a single file lands at the destination; a move removes the source
    ensures (t.MoveFile? || t.CopyOneFile?) ==> t.dst in r && r[t.dst] == fs[t.src]
    ensures t.MoveFile? && t.src != t.dst ==> t.src !in r
    ensures t.CopyOneFile? && t.src != t.dst ==> t.src in r && r[t.src] == fs[t.src]
    // a tree lands below a directory at the destination; a move removes the source tree
    ensures t.CopyTree? ==> t.dst in r && r[t.dst] == Dir
    ensures t.MoveTree? ==> forall k :: k == t.src || Below(k, t.src) ==> k !in r
    ensures t.MoveTree? && t.dst != t.src && !Below(t.dst, t.src) ==> t.dst in r && r[t.dst] == Dir
  {
    match t
    case MoveFile(src, dst) => (fs - {src})[dst := fs[src]]
    case CopyOneFile(src, dst) => fs[dst := fs[src]]
    case CopyTree(src, dst) => fs[dst := Dir] + Subtree(fs, src, dst)
    case MoveTree(src, dst) => RemoveTree(fs[dst := Dir] + Subtree(fs, src, dst), src)
  }

  /** A transfer only touches its source, its destination and what lies
      below them. */
  lemma TransferFrame(fs: Fs, t: Transfer)
    requires t.MoveFile? || t.CopyOneFile? ==> t.src in fs && fs[t.src].File?
    ensures forall k :: k != t.src && k != t.dst && !Below(k, t.src) && !Below(k, t.dst)
              ==> Lookup(ApplyTransfer(fs, t), k) == Lookup(fs, k)
  {
  }

  /** Copying a directory keeps its whole tree: every entry below the
      source reappears, with the same node, below the destination. */
  lemma CopyTreeKeepsEntries(fs: Fs, src: string, dst: string)
    ensures forall k :: k in fs && Below(k, src) ==>
              var fs' := ApplyTransfer(fs, CopyTree(src, dst));
              Rebase(k, src, dst) in fs' && fs'[Rebase(k, src, dst)] == fs[k]
    ensures ApplyTransfer(fs, CopyTree(src, dst))[dst] == Dir
    // and adds or changes nothing else
    ensures forall t ::
              (t in ApplyTransfer(fs, CopyTree(src, dst)) && t != dst
               && (t !in fs || ApplyTransfer(fs, CopyTree(src, dst))[t] != fs[t])) ==>
              && |dst| <= |t| && src + t[|dst|..] in fs && Below(src + t[|dst|..], src)
              && ApplyTransfer(fs, CopyTree(src, dst))[t] == fs[src + t[|dst|..]]
  {
  }

  /** Some entry below `src`, moved below `dst`, lands on an existing entry
      of the other kind: a file onto a directory (the copy or rename of the
      file fails) or a directory onto a file (creating the directory fails). */
  predicate KindClash(fs: Fs, src: string, dst: string)
  {
    var sub := Subtree(fs, src, dst);
    exists t :: t in sub && t in fs && sub[t].Dir? != fs[t].Dir?
  }

  /** `CopyFile`: validate and resolve `copyTo` under the scope root, check
      the destination, then move or copy a file or a directory tree. */
  function CopyFileAction(st: Cdn, root: string, target: string, copyTo: string,
                          overwrite: bool, deleteOriginal: bool): (o: Outcome)
    ensures !ValidatePath(copyTo) ==> o == Outcome(st, Failed(InvalidPath))
    ensures ValidatePath(copyTo) && copyTo == "" ==> o == Outcome(st, Failed(CopyToEmpty))
    ensures ValidatePath(copyTo) && copyTo != "" && !overwrite
            && (root + "/" + copyTo) in st.fs && st.fs[root + "/" + copyTo].File?
            ==> o == Outcome(st, Failed(CopyToExists))
    ensures o.reply.Failed? ==> o.cdn == st
    ensures o.reply == Done <==>
              && ValidatePath(copyTo) && copyTo != "" && target in st.fs
              && var dst := root + "/" + copyTo;
                 && (dst in st.fs && st.fs[dst].File? ==> overwrite && st.fs[target].File?)
                 && (dst in st.fs && st.fs[dst].Dir? ==> st.fs[target].Dir?)
                 && (st.fs[target].Dir? ==> !KindClash(st.fs, target, dst))
    ensures o.reply == Done ==>
              && ValidatePath(copyTo) && copyTo != "" && target in st.fs
              && var dst := root + "/" + copyTo;
                 o.cdn.fs == ApplyTransfer(st.fs, PlanTransfer(st.fs, target, dst, deleteOriginal))
    ensures o.cdn.cache == st.cache && o.cdn.orphans == st.orphans
  {
    if !ValidatePath(copyTo) then Fail(st, InvalidPath)
    else if copyTo == "" then Fail(st, CopyToEmpty)
    else
      var dst := root + "/" + copyTo;
      if dst in st.fs && !st.fs[dst].Dir? && !overwrite then Fail(st, CopyToExists)
      else if target !in st.fs then Fail(st, NotFound)
      else if st.fs[target].File? && dst in st.fs && st.fs[dst].Dir? then Fail(st, TransferFailed)
      else if st.fs[target].Dir? && dst in st.fs && st.fs[dst].File? then Fail(st, TransferFailed)
      else if st.fs[target].Dir? && KindClash(st.fs, target, dst) then Fail(st, TransferFailed)
      else Outcome(st.(fs := ApplyTransfer(st.fs, PlanTransfer(st.fs, target, dst, deleteOriginal))), Done)
  }

  /** Copying or moving a directory whose entry `x` is a file to a
      destination that already holds a directory `x` (or the converse)
      fails: the file cannot land on the directory. The tree is left as it
      was. */
  lemma KindClashFails(st: Cdn, root: string, target: string, copyTo: string, x: string,
                       overwrite: bool, deleteOriginal: bool)
    requires ValidatePath(copyTo) && copyTo != ""
    requires target in st.fs && st.fs[target].Dir?
    requires root + "/" + copyTo in st.fs ==> st.fs[root + "/" + copyTo].Dir?
    requires target + "/" + x in st.fs && root + "/" + copyTo + "/" + x in st.fs
    requires st.fs[target + "/" + x].Dir? != st.fs[root + "/" + copyTo + "/" + x].Dir?
    ensures CopyFileAction(st, root, target, copyTo, overwrite, deleteOriginal) == Outcome(st, Failed(TransferFailed))
  {
    var dst := root + "/" + copyTo;
    var k := target + "/" + x;
    assert k[..|target| + 1] == target + "/";
    assert Below(k, target);
    assert k[|target|..] == "/" + x;
    assert Rebase(k, target, dst) == dst + "/" + x;
    var sub := Subtree(st.fs, target, dst);
    assert dst + "/" + x in sub && sub[dst + "/" + x] == st.fs[k];
    assert KindClash(st.fs, target, dst);
  }

  /** Rename when the original is to be deleted, copy otherwise; a file
      and a directory take separate paths. */
  function PlanTransfer(fs: Fs, src: string, dst: string, deleteOriginal: bool): (t: Transfer)
    requires src in fs
    ensures t.src == src && t.dst == dst
    ensures (t.MoveFile? || t.MoveTree?) <==> deleteOriginal
    ensures (t.MoveFile? || t.CopyOneFile?) <==> fs[src].File?
  {
    match fs[src]
    case File(_) => if deleteOriginal then MoveFile(src, dst) else CopyOneFile(src, dst)
    case Dir => if deleteOriginal then MoveTree(src, dst) else CopyTree(src, dst)
  }

  /** The request passes the capability, scope, name and path checks. */
  predicate Accepted(caps: Option<set<Capability>>, scopes: map<string, string>,
                     scope: string, name: string, path: string)
  {
    caps.Some? && CdnManagement in caps.value && scope in scopes && ValidateName(name) && ValidatePath(path)
  }

  /** The whole query. `scopes` maps a scope name to its root directory. */
  function UpdateCdnAsset(st: Cdn, caps: Option<set<Capability>>, scopes: map<string, string>,
                          scope: string, name: string, path: string, action: Action,
                          digest: Bytes -> string): (o: Outcome)
    ensures caps.None? ==> o == Outcome(st, Failed(AuthFailed))
    ensures caps.Some? && CdnManagement !in caps.value ==> o == Outcome(st, Failed(NoCdnCapability))
    ensures caps.Some? && CdnManagement in caps.value && scope !in scopes ==> o == Outcome(st, Failed(InvalidScope))
    // a rejected name or path never reaches the filesystem or the cache
    ensures !ValidateName(name) || !ValidatePath(path) ==> o.cdn == st && o.reply.Failed?
    // confinement: nothing outside the scope root changes
    ensures scope in scopes ==>
              forall k :: !Within(scopes[scope], k) ==> Lookup(o.cdn.fs, k) == Lookup(st.fs, k)
    // an accepted request acts at the resolved directory and target
    ensures Accepted(caps, scopes, scope, name, path) && action.CreateFolder? ==>
              var target := AssetTarget(scopes[scope], path, name);
              && (o.reply == Done <==> target !in st.fs)
              && (o.reply == Done ==> target in o.cdn.fs && o.cdn.fs[target] == Dir)
    ensures Accepted(caps, scopes, scope, name, path) && action.Delete? ==>
              var target := AssetTarget(scopes[scope], path, name);
              && (o.reply == Done <==> target in st.fs)
              && (o.reply == Done ==> target !in o.cdn.fs)
    ensures Accepted(caps, scopes, scope, name, path) && action.AddFile? ==>
              var dir := AssetDir(scopes[scope], path);
              var target := AssetTarget(scopes[scope], path, name);
              o.reply == Done <==>
                && 0 < |action.chunks| <= MaxChunksPerFile
                && AllCached(st.cache, action.chunks) && Distinct(action.chunks)
                && (target in st.fs ==> action.overwrite && st.fs[target].File?)
                && (dir in st.fs ==> st.fs[dir].Dir?)
                && name != ""
                && action.sha512 == digest(Gather(st.cache, action.chunks))
    ensures Accepted(caps, scopes, scope, name, path) && action.AddFile? && o.reply == Done ==>
              var target := AssetTarget(scopes[scope], path, name);
              && target in o.cdn.fs && o.cdn.fs[target] == File(Gather(st.cache, action.chunks))
              && o.cdn.cache == st.cache - IdSet(action.chunks)
    ensures Accepted(caps, scopes, scope, name, path) && action.CopyFile? ==>
              var target := AssetTarget(scopes[scope], path, name);
              var dst := scopes[scope] + "/" + action.copyTo;
              o.reply == Done ==>
                && target in st.fs
                && o.cdn.fs == ApplyTransfer(st.fs, PlanTransfer(st.fs, target, dst, action.deleteOriginal))
  {
    if caps.None? then Fail(st, AuthFailed)
    else if CdnManagement !in caps.value then Fail(st, NoCdnCapability)
    else if scope !in scopes then Fail(st, InvalidScope)
    else if !ValidateName(name) then Fail(st, InvalidName)
    else if !ValidatePath(path) then Fail(st, InvalidPath)
    else
      var root := scopes[scope];
      var dir := AssetDir(root, path);
      var target := AssetTarget(root, path, name);
      DirAndTargetWithin(root, path, name);
      match action
      case CreateFolder => CreateFolderAction(st, target)
      case AddFile(overwrite, chunks, sha512) => AddFileAction(st, dir, target, chunks, overwrite, sha512, digest)
      case Delete =>
        DeleteConfined(st, root, target);
        DeleteAction(st, target)
      case CopyFile(overwrite, deleteOriginal, copyTo) =>
        CopyConfined(st, root, target, copyTo, overwrite, deleteOriginal);
        CopyFileAction(st, root, target, copyTo, overwrite, deleteOriginal)
  }

  /** Deleting a target within the root changes nothing outside it. */
  lemma DeleteConfined(st: Cdn, root: string, target: string)
    requires Within(root, target)
    ensures forall k :: !Within(root, k) ==> Lookup(DeleteAction(st, target).cdn.fs, k) == Lookup(st.fs, k)
  {
    forall k | Below(k, target) ensures Within(root, k) { BelowIsTransitive(k, target, root); }
  }

  /** Copying or moving a target within the root to `root/copyTo` changes
      nothing outside the root. */
  lemma CopyConfined(st: Cdn, root: string, target: string, copyTo: string,
                     overwrite: bool, deleteOriginal: bool)
    requires Within(root, target)
    ensures var o := CopyFileAction(st, root, target, copyTo, overwrite, deleteOriginal);
            forall k :: !Within(root, k) ==> Lookup(o.cdn.fs, k) == Lookup(st.fs, k)
  {
    var o := CopyFileAction(st, root, target, copyTo, overwrite, deleteOriginal);
    if o.reply == Done {
      var dst := root + "/" + copyTo;
      assert Within(root, dst) by { assert dst[..|root| + 1] == root + "/"; }
      TransferFrame(st.fs, PlanTransfer(st.fs, target, dst, deleteOriginal));
      forall k | Below(k, target) || Below(k, dst) ensures Within(root, k) {
        if Below(k, target) { BelowIsTransitive(k, target, root); }
        else { BelowIsTransitive(k, dst, root); }
      }
    }
  }

  /** The asset directory and target of accepted inputs lie within the root. */
  lemma DirAndTargetWithin(root: string, path: string, name: string)
    requires ValidatePath(path) && ValidateName(name)
    ensures Within(root, AssetDir(root, path)) && Within(root, AssetTarget(root, path, name))
  {
    var dir := AssetDir(root, path);
    if path != "" {
      assert dir[..|root| + 1] == root + "/";
    }
    if name != "" {
      assert Below(AssetTarget(root, path, name), dir) by {
        assert AssetTarget(root, path, name)[..|dir| + 1] == dir + "/";
      }
      if dir != root {
        BelowIsTransitive(AssetTarget(root, path, name), dir, root);
      } else {
        assert Below(AssetTarget(root, path, name), root);
      }
    }
  }
}
