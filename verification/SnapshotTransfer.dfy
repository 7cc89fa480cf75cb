/** Publishing a workspace snapshot into a content-addressed store and materialising it again. */
module SnapshotTransfer {
  import opened Machine
  import opened Outcomes
  import opened SnapshotChunks

  datatype SnapshotFile = SnapshotFile(path: string, chunks: seq<Chunk>, size: nat)

  /** A file of a workspace. */
  datatype SourceFile = SourceFile(path: string, bytes: Bytes)

  datatype PublishError = ChunkLimitChanged | PathEscaped | WorkspaceChanged | UploadFailed | OtherManifest
  datatype MaterialiseError = PathUnsafe | PathTaken | ChunkUnavailable | ChunkCorrupt | FileSizeWrong | TotalSizeWrong

  /** The answer of the control plane to the request for a chunk: by file, by position in the file, by digest. */
  type Source = (nat, nat, Digest) -> Option<seq<Byte>>

  /** The inventory of a workspace, as hashing its files gives it. */
  ghost predicate InventoryOf(digest: seq<Byte> -> Digest, workspace: seq<SourceFile>, files: seq<SnapshotFile>) {
    && |files| == |workspace|
    && forall i :: 0 <= i < |files| ==> files[i] == InventoryEntry(digest, workspace[i])
  }

  function InventoryEntry(digest: seq<Byte> -> Digest, file: SourceFile): SnapshotFile {
    SnapshotFile(file.path, ChunksOf(digest, file.bytes), |file.bytes|)
  }

  predicate DistinctPaths(files: seq<SnapshotFile>) {
    forall i, j :: 0 <= i < j < |files| ==> files[i].path != files[j].path
  }

  function DigestsOf(chunks: seq<Chunk>): set<Digest> {
    set c | c in chunks :: c.digest
  }

  function AllDigests(files: seq<SnapshotFile>): set<Digest> {
    if files == [] then {} else AllDigests(files[..|files| - 1]) + DigestsOf(files[|files| - 1].chunks)
  }

  predicate Distinct(ds: seq<Digest>) {
    forall i, j :: 0 <= i < j < |ds| ==> ds[i] != ds[j]
  }

  function Members(ds: seq<Digest>): set<Digest> {
    set d | d in ds
  }

  ghost predicate Honest(digest: seq<Byte> -> Digest, chunks: map<Digest, seq<Byte>>) {
    forall d :: d in chunks ==> digest(chunks[d]) == d
  }

  // Publishing

  /** Reading a file in chunks meets exactly the expected ones and then its end. */
  predicate Matches(digest: seq<Byte> -> Digest, expected: seq<Chunk>, bytes: seq<Byte>) {
    if expected == [] then bytes == []
    else ChunkOf(digest, bytes) == expected[0] && Matches(digest, expected[1..], bytes[Taken(bytes)..])
  }

  /** A file passes the re-read exactly when it still has the bytes that were hashed. */
  lemma {:induction false} MatchesMeansUnchanged(digest: seq<Byte> -> Digest, pool: iset<seq<Byte>>, hashed: seq<Byte>,
                                                 bytes: seq<Byte>)
    requires NoClash(digest, pool) && CutFrom(pool, hashed) && CutFrom(pool, bytes)
    ensures Matches(digest, ChunksOf(digest, hashed), bytes) <==> bytes == hashed
  {
    MatchesMeansSameChunks(digest, hashed, bytes);
    if ChunksOf(digest, hashed) == ChunksOf(digest, bytes) {
      ChunksPinFile(digest, pool, hashed, bytes);
    }
  }

  lemma {:induction false} MatchesMeansSameChunks(digest: seq<Byte> -> Digest, hashed: seq<Byte>, bytes: seq<Byte>)
    ensures Matches(digest, ChunksOf(digest, hashed), bytes) <==> ChunksOf(digest, bytes) == ChunksOf(digest, hashed)
    decreases |hashed|
  {
    var expected := ChunksOf(digest, hashed);
    if hashed != [] {
      var rest := ChunksOf(digest, hashed[Taken(hashed)..]);
      assert expected[0] == ChunkOf(digest, hashed) && expected[1..] == rest;
      MatchesMeansSameChunks(digest, hashed[Taken(hashed)..], bytes[Taken(bytes)..]);
      if bytes != [] {
        var more := ChunksOf(digest, bytes[Taken(bytes)..]);
        assert ([ChunkOf(digest, bytes)] + more)[0] == ChunkOf(digest, bytes)
               && ([ChunkOf(digest, bytes)] + more)[1..] == more;
        assert expected == [expected[0]] + expected[1..];
      }
    }
  }

  class ChunkStore {
    var chunks: map<Digest, seq<Byte>>
    var uploads: seq<Digest>

    /** `fails` says which upload, by the number of those before it, does not succeed. */
    method Upload(d: Digest, bytes: seq<Byte>, fails: nat -> bool) returns (ok: bool)
      modifies this
      ensures ok <==> !fails(|old(uploads)|)
      ensures ok ==> chunks == old(chunks)[d := bytes] && uploads == old(uploads) + [d]
      ensures !ok ==> chunks == old(chunks) && uploads == old(uploads)
    {
      ok := !fails(|uploads|);
      if ok {
        chunks := chunks[d := bytes];
        uploads := uploads + [d];
      }
    }
  }

  /** What an upload adds: the digests in `added`, each once, each with bytes of that digest, and nothing else. */
  ghost predicate Added(digest: seq<Byte> -> Digest, before: map<Digest, seq<Byte>>, after: map<Digest, seq<Byte>>,
                        uploadsBefore: seq<Digest>, uploads: seq<Digest>, added: set<Digest>) {
    && uploadsBefore <= uploads
    && Distinct(uploads[|uploadsBefore|..]) && Members(uploads[|uploadsBefore|..]) == added
    && after.Keys == before.Keys + added
    && (forall d :: d in before && d !in added ==> after[d] == before[d])
    && forall d :: d in added ==> digest(after[d]) == d
  }

  /** One more upload of a digest not uploaded yet. */
  lemma {:induction false} AddedOne(digest: seq<Byte> -> Digest, before: map<Digest, seq<Byte>>,
                                    after: map<Digest, seq<Byte>>, uploadsBefore: seq<Digest>,
                                    uploads: seq<Digest>, added: set<Digest>, bytes: seq<Byte>)
    requires Added(digest, before, after, uploadsBefore, uploads, added) && digest(bytes) !in added
    ensures Added(digest, before, after[digest(bytes) := bytes], uploadsBefore, uploads + [digest(bytes)],
                  added + {digest(bytes)})
  {
    var d := digest(bytes);
    var n := |uploadsBefore|;
    var news, more := uploads[n..], (uploads + [d])[n..];
    assert more == news + [d];
    assert d !in news by {
      assert d in news ==> d in Members(news);
    }
    assert Members(more) == added + {d} by {
      forall x
        ensures x in Members(more) <==> x in added + {d}
      {
        assert x in more <==> x in news || x == d;
        assert x in Members(news) <==> x in news;
      }
    }
  }

  lemma {:induction false} MatchesNext(digest: seq<Byte> -> Digest, expected: seq<Chunk>, k: nat, bytes: seq<Byte>,
                                       position: nat)
    requires k < |expected| && position <= |bytes|
    ensures var n := Taken(bytes[position..]);
            Matches(digest, expected[k..], bytes[position..]) <==>
            Chunk(digest(bytes[position..position + n]), n) == expected[k]
            && Matches(digest, expected[k + 1..], bytes[position + n..])
  {
    var n := Taken(bytes[position..]);
    assert bytes[position..][..n] == bytes[position..position + n];
    assert bytes[position..][n..] == bytes[position + n..];
    assert expected[k..][0] == expected[k] && expected[k..][1..] == expected[k + 1..];
  }

  lemma {:induction false} DigestsNext(chunks: seq<Chunk>, k: nat)
    requires k < |chunks|
    ensures DigestsOf(chunks[..k + 1]) == DigestsOf(chunks[..k]) + {chunks[k].digest}
  {
    assert chunks[..k + 1] == chunks[..k] + [chunks[k]];
  }

  /** Re-reads one file and uploads those of its chunks that are missing and were not uploaded before. */
  method PublishFile(digest: seq<Byte> -> Digest, store: ChunkStore, fails: nat -> bool, file: FileHandle,
                     expected: seq<Chunk>, missing: set<Digest>, uploaded: set<Digest>,
                     ghost before: map<Digest, seq<Byte>>, ghost uploadsBefore: seq<Digest>,
                     ghost pool: iset<seq<Byte>>)
    returns (r: Result<(), PublishError>, sent: set<Digest>)
    requires file.Valid() && file.position == 0
    requires Added(digest, before, store.chunks, uploadsBefore, store.uploads, uploaded)
    modifies store, file
    ensures r.Ok? ==> Matches(digest, expected, file.bytes) && sent == uploaded + missing * DigestsOf(expected)
    ensures r.Err? ==> (r.error == WorkspaceChanged && !Matches(digest, expected, file.bytes))
                       || (r.error == UploadFailed && fails(|store.uploads|))
    ensures Added(digest, before, store.chunks, uploadsBefore, store.uploads, sent)
    ensures old(StoredFrom(pool, store.chunks)) && CutFrom(pool, file.bytes) ==> StoredFrom(pool, store.chunks)
  {
    hide Matches, Added, DigestsOf, CutFrom;
    ghost var cut := StoredFrom(pool, store.chunks) && CutFrom(pool, file.bytes);
    var buffer := new Byte[CHUNK_BYTES](_ => 0);
    sent := uploaded;
    NoDigests(expected);
    assert file.bytes[0..] == file.bytes && expected[0..] == expected;
    for k := 0 to |expected|
      invariant file.Valid()
      invariant Matches(digest, expected[k..], file.bytes[file.position..]) <==> Matches(digest, expected, file.bytes)
      invariant Added(digest, before, store.chunks, uploadsBefore, store.uploads, sent)
      invariant sent == uploaded + missing * DigestsOf(expected[..k])
      invariant cut ==> StoredFrom(pool, store.chunks) && CutFrom(pool, file.bytes[file.position..])
    {
      MatchesNext(digest, expected, k, file.bytes, file.position);
      CutNext(pool, file.bytes, file.position);
      var size := file.ReadChunk(buffer);
      var bytes := buffer[..size];
      if Chunk(digest(bytes), size) != expected[k] {
        return Err(WorkspaceChanged), sent;
      }
      DigestsNext(expected, k);
      if expected[k].digest in missing && digest(bytes) !in sent {
        AddedOne(digest, before, store.chunks, uploadsBefore, store.uploads, sent, bytes);
        var ok := store.Upload(digest(bytes), bytes, fails);
        if !ok {
          return Err(UploadFailed), sent;
        }
        sent := sent + {digest(bytes)};
      }
    }
    assert expected[|expected|..] == [] && expected[..|expected|] == expected;
    NothingMatchesNothing(digest, file.bytes[file.position..]);
    var size := file.ReadChunk(buffer);
    r := if size == 0 then Ok(()) else Err(WorkspaceChanged);
  }

  lemma {:induction false} CutNext(pool: iset<seq<Byte>>, bytes: seq<Byte>, position: nat)
    requires position <= |bytes|
    ensures var n := Taken(bytes[position..]);
            CutFrom(pool, bytes[position..]) ==>
              bytes[position..position + n] in pool && CutFrom(pool, bytes[position + n..])
  {
    var n := Taken(bytes[position..]);
    assert bytes[position..][..n] == bytes[position..position + n];
    assert bytes[position..][n..] == bytes[position + n..];
  }

  lemma {:induction false} NoDigests(chunks: seq<Chunk>)
    ensures DigestsOf(chunks[..0]) == {}
  {
  }

  lemma {:induction false} NothingMatchesNothing(digest: seq<Byte> -> Digest, bytes: seq<Byte>)
    ensures Matches(digest, [], bytes) <==> |bytes| == 0
  {
  }

  predicate ChunkLimitHolds(files: seq<SnapshotFile>, maxChunk: nat) {
    maxChunk >= CHUNK_BYTES
    || forall i, k :: 0 <= i < |files| && 0 <= k < |files[i].chunks| ==> files[i].chunks[k].size <= maxChunk
  }

  /** A file as it is found when it is read again: still inside the workspace and not a link, and its bytes. */
  datatype Found = Found(inside: bool, bytes: Bytes)

  ghost predicate FoundFrom(pool: iset<seq<Byte>>, workspace: seq<Found>) {
    forall i :: 0 <= i < |workspace| ==> CutFrom(pool, workspace[i].bytes)
  }

  /** A file passes when it is found inside the workspace with the chunks of the inventory. */
  predicate Passes(digest: seq<Byte> -> Digest, file: SnapshotFile, found: Found) {
    found.inside && Matches(digest, file.chunks, found.bytes)
  }

  /** Unless an upload fails, publishing succeeds exactly when the chunk limit still holds, every file is found as in
      the inventory, and the control plane commits the manifest that was begun; it uploads each missing digest of the
      inventory exactly once. */
  method Publish(digest: seq<Byte> -> Digest, store: ChunkStore, fails: nat -> bool, files: seq<SnapshotFile>,
                 workspace: seq<Found>, pace: nat -> nat, missing: set<Digest>, maxChunk: nat, committed: bool,
                 ghost pool: iset<seq<Byte>>)
    returns (r: Result<(), PublishError>)
    requires |workspace| == |files|
    modifies store
    ensures r == Err(ChunkLimitChanged) <==> !ChunkLimitHolds(files, maxChunk)
    ensures r == Err(UploadFailed) ==> fails(|store.uploads|)
    ensures r != Err(UploadFailed) ==>
              (r.Ok? <==>
                 && ChunkLimitHolds(files, maxChunk) && committed
                 && forall i :: 0 <= i < |files| ==> Passes(digest, files[i], workspace[i]))
    ensures r.Ok? ==> forall i :: 0 <= i < |files| ==> workspace[i].inside
    ensures r == Err(PathEscaped) ==> exists i :: 0 <= i < |files| && !workspace[i].inside
    ensures r == Err(OtherManifest) ==> !committed
    ensures r.Ok? ==>
              Added(digest, old(store.chunks), store.chunks, old(store.uploads), store.uploads,
                    missing * AllDigests(files))
    ensures Honest(digest, old(store.chunks)) ==> Honest(digest, store.chunks)
    ensures old(StoredFrom(pool, store.chunks)) && FoundFrom(pool, workspace) ==> StoredFrom(pool, store.chunks)
  {
    hide Matches, ChunkLimitHolds, CutFrom, StoredFrom, Added, Honest, DigestsOf;
    ghost var cut := StoredFrom(pool, store.chunks) && FoundFrom(pool, workspace);
    ghost var before, uploadsBefore := store.chunks, store.uploads;
    NothingAdded(digest, before, uploadsBefore);
    var fits := WithinLimit(files, maxChunk);
    if !fits {
      return Err(ChunkLimitChanged);
    }
    var uploaded: set<Digest> := {};
    assert files[..0] == [];
    for i := 0 to |files|
      invariant Added(digest, before, store.chunks, uploadsBefore, store.uploads, uploaded)
      invariant uploaded == missing * AllDigests(files[..i])
      invariant forall j :: 0 <= j < i ==> Passes(digest, files[j], workspace[j])
      invariant cut ==> StoredFrom(pool, store.chunks)
    {
      assert files[..i + 1][..i] == files[..i];
      HonestStays(digest, before, store.chunks, uploadsBefore, store.uploads, uploaded);
      if !workspace[i].inside {
        return Err(PathEscaped);
      }
      var file := new FileHandle(workspace[i].bytes, pace);
      var one, sent := PublishFile(digest, store, fails, file, files[i].chunks, missing, uploaded, before,
                                   uploadsBefore, pool);
      HonestStays(digest, before, store.chunks, uploadsBefore, store.uploads, sent);
      if one.Err? {
        return one;
      }
      uploaded := sent;
    }
    assert files[..|files|] == files;
    HonestStays(digest, before, store.chunks, uploadsBefore, store.uploads, uploaded);
    r := if committed then Ok(()) else Err(OtherManifest);
  }

  method WithinLimit(files: seq<SnapshotFile>, maxChunk: nat) returns (fits: bool)
    ensures fits <==> ChunkLimitHolds(files, maxChunk)
  {
    if maxChunk >= CHUNK_BYTES {
      return true;
    }
    for i := 0 to |files|
      invariant forall j, k :: 0 <= j < i && 0 <= k < |files[j].chunks| ==> files[j].chunks[k].size <= maxChunk
    {
      for k := 0 to |files[i].chunks|
        invariant forall l :: 0 <= l < k ==> files[i].chunks[l].size <= maxChunk
      {
        if files[i].chunks[k].size > maxChunk {
          return false;
        }
      }
    }
    fits := true;
  }

  lemma {:induction false} NothingAdded(digest: seq<Byte> -> Digest, chunks: map<Digest, seq<Byte>>,
                                        uploads: seq<Digest>)
    ensures Added(digest, chunks, chunks, uploads, uploads, {})
  {
    assert uploads[|uploads|..] == [];
  }

  lemma {:induction false} HonestStays(digest: seq<Byte> -> Digest, before: map<Digest, seq<Byte>>,
                                       after: map<Digest, seq<Byte>>, uploadsBefore: seq<Digest>,
                                       uploads: seq<Digest>, added: set<Digest>)
    requires Added(digest, before, after, uploadsBefore, uploads, added)
    ensures Honest(digest, before) ==> Honest(digest, after)
  {
  }

  // Materialising

  /** The chunks of one file, fetched and checked one by one from position `k` on. */
  function Rebuilt(digest: seq<Byte> -> Digest, source: Source, i: nat, chunks: seq<Chunk>, k: nat)
    : Result<seq<Byte>, MaterialiseError>
    requires k <= |chunks|
    decreases |chunks| - k
  {
    if k == |chunks| then Ok([])
    else
      var answer := source(i, k, chunks[k].digest);
      if answer.None? then Err(ChunkUnavailable)
      else if Chunk(digest(answer.value), |answer.value|) != chunks[k] then Err(ChunkCorrupt)
      else
        var rest := Rebuilt(digest, source, i, chunks, k + 1);
        if rest.Err? then rest else Ok(answer.value + rest.value)
  }

  function SumSizes(files: seq<SnapshotFile>): nat {
    if files == [] then 0 else SumSizes(files[..|files| - 1]) + files[|files| - 1].size
  }

  ghost predicate Complete(digest: seq<Byte> -> Digest, source: Source, file: SnapshotFile, i: nat, bytes: seq<Byte>) {
    Rebuilt(digest, source, i, file.chunks, 0) == Ok(bytes) && |bytes| == file.size
  }

  predicate Rebuildable(digest: seq<Byte> -> Digest, source: Source, file: SnapshotFile, i: nat) {
    var rebuilt := Rebuilt(digest, source, i, file.chunks, 0);
    rebuilt.Ok? && |rebuilt.value| == file.size
  }

  /** The chunks of one file are fetched, checked and written in order. */
  method MaterialiseFile(digest: seq<Byte> -> Digest, source: Source, i: nat, chunks: seq<Chunk>)
    returns (r: Result<seq<Byte>, MaterialiseError>)
    ensures r == Rebuilt(digest, source, i, chunks, 0)
  {
    var output: seq<Byte> := [];
    assert forall bytes: seq<Byte> :: output + bytes == bytes;
    for k := 0 to |chunks|
      invariant var rest := Rebuilt(digest, source, i, chunks, k);
                Rebuilt(digest, source, i, chunks, 0) == if rest.Err? then rest else Ok(output + rest.value)
    {
      var answer := source(i, k, chunks[k].digest);
      if answer.None? {
        return Err(ChunkUnavailable);
      }
      var bytes := answer.value;
      if |bytes| != chunks[k].size || digest(bytes) != chunks[k].digest {
        return Err(ChunkCorrupt);
      }
      var rest := Rebuilt(digest, source, i, chunks, k + 1);
      assert rest.Ok? ==> output + (bytes + rest.value) == (output + bytes) + rest.value;
      output := output + bytes;
    }
    assert output + [] == output;
    r := Ok(output);
  }

  /** The part of a manifest that can be written: safe and different paths, and files that can be rebuilt. */
  predicate Writable(digest: seq<Byte> -> Digest, source: Source, safe: string -> bool, files: seq<SnapshotFile>) {
    && DistinctPaths(files)
    && forall i :: 0 <= i < |files| ==> safe(files[i].path) && Rebuildable(digest, source, files[i], i)
  }

  /** What has been written: the files of the manifest under their paths, and nothing else. */
  ghost predicate Holds(digest: seq<Byte> -> Digest, source: Source, files: seq<SnapshotFile>,
                        written: map<string, Bytes>)
  {
    && (forall path :: path in written ==> exists i :: 0 <= i < |files| && files[i].path == path)
    && forall i :: 0 <= i < |files| ==>
         files[i].path in written && Complete(digest, source, files[i], i, written[files[i].path])
  }

  /** Materialising into an empty directory succeeds exactly when all paths are safe and different, every file can be
      rebuilt at its recorded size and the sizes add up. */
  method Materialise(digest: seq<Byte> -> Digest, source: Source, safe: string -> bool, files: seq<SnapshotFile>,
                     totalBytes: nat)
    returns (r: Result<map<string, Bytes>, MaterialiseError>)
    ensures r.Ok? ==> Holds(digest, source, files, r.value)
    ensures r.Ok? <==> totalBytes == SumSizes(files) && Writable(digest, source, safe, files)
  {
    hide Rebuilt;
    var written: map<string, Bytes> := map[];
    var total := 0;
    for i := 0 to |files|
      invariant total == SumSizes(files[..i])
      invariant Holds(digest, source, files[..i], written) && Writable(digest, source, safe, files[..i])
    {
      assert files[..i + 1][..i] == files[..i];
      if !safe(files[i].path) {
        assert !Writable(digest, source, safe, files);
        return Err(PathUnsafe);
      }
      if files[i].path in written {
        TakenPath(digest, source, files, i, written);
        return Err(PathTaken);
      }
      var content := MaterialiseFile(digest, source, i, files[i].chunks);
      if content.Err? {
        return Err(content.error);
      }
      if |content.value| != files[i].size {
        return Err(FileSizeWrong);
      }
      OneMoreFile(digest, source, safe, files, i, written, content.value);
      written := written[files[i].path := content.value];
      total := total + files[i].size;
    }
    assert files[..|files|] == files;
    if total != totalBytes {
      return Err(TotalSizeWrong);
    }
    r := Ok(written);
  }

  lemma {:induction false} TakenPath(digest: seq<Byte> -> Digest, source: Source, files: seq<SnapshotFile>, i: nat,
                                     written: map<string, Bytes>)
    requires i < |files| && Holds(digest, source, files[..i], written) && files[i].path in written
    ensures !DistinctPaths(files)
  {
    hide Complete;
    var j :| 0 <= j < i && files[..i][j].path == files[i].path;
    assert files[j].path == files[i].path;
  }

  lemma {:induction false} OneMoreFile(digest: seq<Byte> -> Digest, source: Source, safe: string -> bool,
                                       files: seq<SnapshotFile>, i: nat, written: map<string, Bytes>, bytes: Bytes)
    requires i < |files| && Holds(digest, source, files[..i], written) && Writable(digest, source, safe, files[..i])
    requires files[i].path !in written && safe(files[i].path)
    requires Rebuilt(digest, source, i, files[i].chunks, 0) == Ok(bytes) && |bytes| == files[i].size
    ensures Holds(digest, source, files[..i + 1], written[files[i].path := bytes])
    ensures Writable(digest, source, safe, files[..i + 1])
  {
    hide Rebuilt;
    var now := written[files[i].path := bytes];
    var more := files[..i + 1];
    assert forall j :: 0 <= j < i ==> more[j] == files[..i][j];
    assert more[i] == files[i];
    forall path | path in now
      ensures exists j :: 0 <= j < |more| && more[j].path == path
    {
      if path != files[i].path {
        var j :| 0 <= j < i && files[..i][j].path == path;
        assert more[j].path == path;
      } else {
        assert more[i].path == path;
      }
    }
  }

  // Round trip

  /** Whatever the source answers, a file that passes all checks has the bytes that were hashed, unless an answer
      clashes with the chunk it stands for. */
  lemma {:induction false} RebuiltIsOriginal(digest: seq<Byte> -> Digest, pool: iset<seq<Byte>>, source: Source, i: nat,
                                             content: seq<Byte>)
    requires NoClash(digest, pool) && CutFrom(pool, content) && AnswersFrom(pool, source, i, ChunksOf(digest, content))
    requires Rebuilt(digest, source, i, ChunksOf(digest, content), 0).Ok?
    ensures Rebuilt(digest, source, i, ChunksOf(digest, content), 0).value == content
  {
    assert content[0..] == content && ChunksOf(digest, content)[0..] == ChunksOf(digest, content);
    RebuiltFrom(digest, pool, source, i, ChunksOf(digest, content), 0, content);
  }

  /** The answers to the requests for these chunks. */
  ghost predicate AnswersFrom(pool: iset<seq<Byte>>, source: Source, i: nat, chunks: seq<Chunk>) {
    forall k: nat :: k < |chunks| && source(i, k, chunks[k].digest).Some? ==>
      source(i, k, chunks[k].digest).value in pool
  }

  lemma {:induction false} RebuiltFrom(digest: seq<Byte> -> Digest, pool: iset<seq<Byte>>, source: Source, i: nat,
                                       chunks: seq<Chunk>, k: nat, content: seq<Byte>)
    requires NoClash(digest, pool) && CutFrom(pool, content) && AnswersFrom(pool, source, i, chunks)
    requires k <= |chunks| && chunks[k..] == ChunksOf(digest, content)
    requires Rebuilt(digest, source, i, chunks, k).Ok?
    ensures Rebuilt(digest, source, i, chunks, k).value == content
    decreases |chunks| - k
  {
    if content != [] {
      var n := Taken(content);
      FirstChunk(digest, chunks, k, content);
      var answer := source(i, k, chunks[k].digest).value;
      assert answer == content[..n];
      RebuiltFrom(digest, pool, source, i, chunks, k + 1, content[n..]);
      assert content == content[..n] + content[n..];
    }
  }

  lemma {:induction false} FirstChunk(digest: seq<Byte> -> Digest, chunks: seq<Chunk>, k: nat, content: seq<Byte>)
    requires k <= |chunks| && chunks[k..] == ChunksOf(digest, content) && content != []
    ensures k < |chunks| && chunks[k] == ChunkOf(digest, content)
    ensures chunks[k + 1..] == ChunksOf(digest, content[Taken(content)..])
  {
    var rest := ChunksOf(digest, content[Taken(content)..]);
    assert chunks[k..] == [ChunkOf(digest, content)] + rest;
    assert chunks[k] == chunks[k..][0];
    assert chunks[k + 1..] == chunks[k..][1..] == rest;
  }

  function FromStore(chunks: map<Digest, seq<Byte>>): Source {
    (i, k, d) => if d in chunks then Some(chunks[d]) else None
  }

  /** What a store holds. */
  ghost predicate StoredFrom(pool: iset<seq<Byte>>, store: map<Digest, seq<Byte>>) {
    forall d :: d in store ==> store[d] in pool
  }

  /** A store that honestly holds every chunk of a file can rebuild it. */
  lemma {:induction false} StoreRebuilds(digest: seq<Byte> -> Digest, pool: iset<seq<Byte>>,
                                         store: map<Digest, seq<Byte>>, i: nat, chunks: seq<Chunk>, k: nat,
                                         content: seq<Byte>)
    requires NoClash(digest, pool) && CutFrom(pool, content) && StoredFrom(pool, store)
    requires Honest(digest, store) && k <= |chunks| && chunks[k..] == ChunksOf(digest, content)
    requires forall c :: c in chunks ==> c.digest in store
    ensures Rebuilt(digest, FromStore(store), i, chunks, k) == Ok(content)
    decreases |chunks| - k
  {
    if content != [] {
      var n := Taken(content);
      FirstChunk(digest, chunks, k, content);
      assert chunks[k] in chunks;
      assert digest(store[chunks[k].digest]) == digest(content[..n]);
      StoreRebuilds(digest, pool, store, i, chunks, k + 1, content[n..]);
      assert content == content[..n] + content[n..];
    }
  }

  lemma {:induction false} InAllDigests(files: seq<SnapshotFile>, i: nat, c: Chunk)
    requires i < |files| && c in files[i].chunks
    ensures c.digest in AllDigests(files)
  {
    var n := |files| - 1;
    if i < n {
      InAllDigests(files[..n], i, c);
    }
  }

  ghost predicate SourcesFrom(pool: iset<seq<Byte>>, workspace: seq<SourceFile>) {
    forall i :: 0 <= i < |workspace| ==> CutFrom(pool, workspace[i].bytes)
  }

  /** Snapshot round trip: publish into a store, with the inventory digests the store lacks as the missing ones, and
      every file can be rebuilt from the store byte for byte, with the recorded sizes. */
  lemma {:induction false} PublishedIsMaterialised(digest: seq<Byte> -> Digest, pool: iset<seq<Byte>>,
                                                   workspace: seq<SourceFile>, files: seq<SnapshotFile>,
                                                   before: map<Digest, seq<Byte>>, after: map<Digest, seq<Byte>>,
                                                   uploadsBefore: seq<Digest>, uploads: seq<Digest>)
    requires NoClash(digest, pool) && SourcesFrom(pool, workspace) && StoredFrom(pool, after)
    requires InventoryOf(digest, workspace, files) && Honest(digest, before)
    requires Added(digest, before, after, uploadsBefore, uploads, (AllDigests(files) - before.Keys) * AllDigests(files))
    ensures forall i :: 0 <= i < |files| ==> Complete(digest, FromStore(after), files[i], i, workspace[i].bytes)
  {
    hide Added, Rebuilt, ChunksOf, Honest, NoClash, CutFrom, StoredFrom;
    var added := (AllDigests(files) - before.Keys) * AllDigests(files);
    HonestStays(digest, before, after, uploadsBefore, uploads, added);
    KeysAdded(digest, before, after, uploadsBefore, uploads, added);
    forall i | 0 <= i < |files|
      ensures Complete(digest, FromStore(after), files[i], i, workspace[i].bytes)
    {
      var chunks := files[i].chunks;
      forall c | c in chunks
        ensures c.digest in after
      {
        InAllDigests(files, i, c);
      }
      assert chunks[0..] == chunks;
      StoreRebuilds(digest, pool, after, i, chunks, 0, workspace[i].bytes);
    }
  }

  lemma {:induction false} KeysAdded(digest: seq<Byte> -> Digest, before: map<Digest, seq<Byte>>,
                                     after: map<Digest, seq<Byte>>, uploadsBefore: seq<Digest>,
                                     uploads: seq<Digest>, added: set<Digest>)
    requires Added(digest, before, after, uploadsBefore, uploads, added)
    ensures after.Keys == before.Keys + added
  {
  }

  function TotalOf(workspace: seq<SourceFile>): nat {
    if workspace == [] then 0 else TotalOf(workspace[..|workspace| - 1]) + |workspace[|workspace| - 1].bytes|
  }

  lemma {:induction false} InventorySizes(digest: seq<Byte> -> Digest, workspace: seq<SourceFile>,
                                          files: seq<SnapshotFile>)
    requires InventoryOf(digest, workspace, files)
    ensures SumSizes(files) == TotalOf(workspace)
  {
    hide ChunksOf;
    if files != [] {
      InventorySizes(digest, workspace[..|files| - 1], files[..|files| - 1]);
    }
  }

  /** Nothing has changed since the workspace was hashed. */
  predicate Unchanged(workspace: seq<SourceFile>, now: seq<Found>)
    requires |now| == |workspace|
  {
    forall i :: 0 <= i < |workspace| ==> now[i] == Found(true, workspace[i].bytes)
  }

  predicate GoodPaths(workspace: seq<SourceFile>, safe: string -> bool) {
    && (forall i :: 0 <= i < |workspace| ==> safe(workspace[i].path))
    && forall i, j :: 0 <= i < j < |workspace| ==> workspace[i].path != workspace[j].path
  }

  /** The directory has exactly the files of the workspace, byte for byte. */
  predicate Restored(workspace: seq<SourceFile>, written: map<string, Bytes>) {
    && (forall path :: path in written ==> exists i :: 0 <= i < |workspace| && workspace[i].path == path)
    && forall i :: 0 <= i < |workspace| ==>
         workspace[i].path in written && written[workspace[i].path] == workspace[i].bytes
  }

  /** The whole trip, with every read in it: hash the workspace, publish it from files that may have changed since, and
      materialise the manifest. With the full chunk size allowed and no failing upload, publishing succeeds exactly when
      no file changed and the manifest is committed. Then materialising can fail only for a path, and gives the
      workspace that was hashed, byte for byte. Of the digest it is asked that no two chunks that occur clash. */
  method RoundTrip(digest: seq<Byte> -> Digest, store: ChunkStore, fails: nat -> bool, workspace: seq<SourceFile>,
                   now: seq<Found>, hashPace: nat -> nat, pace: nat -> nat, maxChunk: nat, committed: bool,
                   safe: string -> bool, ghost pool: iset<seq<Byte>>)
    returns (published: Result<(), PublishError>, r: Result<map<string, Bytes>, MaterialiseError>)
    requires NoClash(digest, pool) && SourcesFrom(pool, workspace) && FoundFrom(pool, now)
    requires StoredFrom(pool, store.chunks) && Honest(digest, store.chunks) && |now| == |workspace|
    modifies store
    ensures maxChunk >= CHUNK_BYTES && published != Err(UploadFailed) ==>
              (published.Ok? <==> Unchanged(workspace, now) && committed)
    ensures published.Ok? ==> Unchanged(workspace, now) && (r.Ok? <==> GoodPaths(workspace, safe))
    ensures published.Ok? && r.Ok? ==> Restored(workspace, r.value)
    ensures Honest(digest, store.chunks)
  {
    hide Matches, Added, Rebuilt, ChunksOf, Honest, NoClash, CutFrom, StoredFrom;
    var files, total := Inventory(digest, workspace, hashPace);
    InventorySizes(digest, workspace, files);
    var missing := AllDigests(files) - store.chunks.Keys;
    ghost var before, uploadsBefore := store.chunks, store.uploads;
    published := Publish(digest, store, fails, files, now, pace, missing, maxChunk, committed, pool);
    forall i | 0 <= i < |files|
      ensures Passes(digest, files[i], now[i]) <==> now[i] == Found(true, workspace[i].bytes)
    {
      MatchesMeansUnchanged(digest, pool, workspace[i].bytes, now[i].bytes);
    }
    if published.Err? {
      return published, Err(ChunkUnavailable);
    }
    PublishedIsMaterialised(digest, pool, workspace, files, before, store.chunks, uploadsBefore, store.uploads);
    var source := FromStore(store.chunks);
    r := Materialise(digest, source, safe, files, total);
    assert forall i :: 0 <= i < |files| ==>
      Complete(digest, source, files[i], i, workspace[i].bytes) && Rebuildable(digest, source, files[i], i);
    assert forall i :: 0 <= i < |files| ==> files[i].path == workspace[i].path;
    if r.Ok? {
      RestoredFrom(digest, source, workspace, files, r.value);
    }
  }

  lemma {:induction false} RestoredFrom(digest: seq<Byte> -> Digest, source: Source, workspace: seq<SourceFile>,
                                        files: seq<SnapshotFile>, written: map<string, Bytes>)
    requires InventoryOf(digest, workspace, files) && Holds(digest, source, files, written)
    requires forall i :: 0 <= i < |files| ==> Complete(digest, source, files[i], i, workspace[i].bytes)
    ensures Restored(workspace, written)
  {
    hide Rebuilt, ChunksOf;
    assert forall i :: 0 <= i < |files| ==> files[i].path == workspace[i].path;
    forall path | path in written
      ensures exists i :: 0 <= i < |workspace| && workspace[i].path == path
    {
      var i :| 0 <= i < |files| && files[i].path == path;
      assert workspace[i].path == path;
    }
  }

  /** The inventory of a workspace. */
  method Inventory(digest: seq<Byte> -> Digest, workspace: seq<SourceFile>, pace: nat -> nat)
    returns (files: seq<SnapshotFile>, total: nat)
    ensures InventoryOf(digest, workspace, files) && total == TotalOf(workspace)
  {
    hide ChunksOf;
    files, total := [], 0;
    for i := 0 to |workspace|
      invariant InventoryOf(digest, workspace[..i], files) && total == TotalOf(workspace[..i])
    {
      assert workspace[..i + 1][..i] == workspace[..i];
      var file := new FileHandle(workspace[i].bytes, pace);
      var chunks, _, size := HashFile(digest, file);
      files := files + [SnapshotFile(workspace[i].path, chunks, size)];
      total := total + size;
    }
    assert workspace[..|workspace|] == workspace;
  }
}
