/** Content-addressed chunks of a file. */
module SnapshotChunks {
  import opened Machine

  type Digest = string

  const CHUNK_BYTES: nat := 16 * 1024 * 1024

  datatype Chunk = Chunk(digest: Digest, size: nat)

  /** The bytes a full chunk takes from the front of `bytes`. */
  function Taken(bytes: seq<Byte>): (n: nat)
    ensures n <= |bytes| && (bytes != [] ==> n > 0)
  {
    Smaller(CHUNK_BYTES, |bytes|)
  }

  function ChunkOf(digest: seq<Byte> -> Digest, bytes: seq<Byte>): Chunk {
    Chunk(digest(bytes[..Taken(bytes)]), Taken(bytes))
  }

  /** A file cut into chunks of the fixed size, the last one possibly shorter. */
  function ChunksOf(digest: seq<Byte> -> Digest, bytes: seq<Byte>): (chunks: seq<Chunk>)
    decreases |bytes|
  {
    if bytes == [] then [] else [ChunkOf(digest, bytes)] + ChunksOf(digest, bytes[Taken(bytes)..])
  }

  /** No two of these byte strings have the same digest. */
  ghost predicate NoClash(digest: seq<Byte> -> Digest, pool: iset<seq<Byte>>) {
    forall a, b :: a in pool && b in pool && digest(a) == digest(b) ==> a == b
  }

  /** Every chunk that is read from the file, up to the empty one at its end, is one of these byte strings. */
  ghost predicate CutFrom(pool: iset<seq<Byte>>, bytes: seq<Byte>)
    decreases |bytes|
  {
    bytes[..Taken(bytes)] in pool && (bytes != [] ==> CutFrom(pool, bytes[Taken(bytes)..]))
  }

  /** Two files with the same chunks are the same file, unless two different chunks of theirs have the same digest. */
  lemma {:induction false} ChunksPinFile(digest: seq<Byte> -> Digest, pool: iset<seq<Byte>>, a: seq<Byte>, b: seq<Byte>)
    requires NoClash(digest, pool) && CutFrom(pool, a) && CutFrom(pool, b)
    requires ChunksOf(digest, a) == ChunksOf(digest, b)
    ensures a == b
    decreases |a|
  {
    if a != [] && b != [] {
      var m, n := Taken(a), Taken(b);
      var restA, restB := ChunksOf(digest, a[m..]), ChunksOf(digest, b[n..]);
      assert ([ChunkOf(digest, a)] + restA)[0] == ([ChunkOf(digest, b)] + restB)[0];
      assert ([ChunkOf(digest, a)] + restA)[1..] == restA && ([ChunkOf(digest, b)] + restB)[1..] == restB;
      assert digest(a[..m]) == digest(b[..n]);
      ChunksPinFile(digest, pool, a[m..], b[n..]);
      assert a == a[..m] + a[m..] && b == b[..n] + b[n..];
    }
  }

  lemma {:induction false} ChunksGrow(digest: seq<Byte> -> Digest, bytes: seq<Byte>, position: nat, n: nat)
    requires position + n <= |bytes| && n == Taken(bytes[position..]) && n > 0
    ensures ChunksOf(digest, bytes[position..]) ==
              [Chunk(digest(bytes[position..position + n]), n)] + ChunksOf(digest, bytes[position + n..])
  {
    assert bytes[position..][..n] == bytes[position..position + n];
    assert bytes[position..][n..] == bytes[position + n..];
  }

  /** Hashing a file gives its chunks, its digest and its size, however the reads fall. */
  method HashFile(digest: seq<Byte> -> Digest, file: FileHandle) returns (chunks: seq<Chunk>, whole: Digest, total: nat)
    requires file.Valid() && file.position == 0
    modifies file
    ensures chunks == ChunksOf(digest, file.bytes) && whole == digest(file.bytes) && total == |file.bytes|
  {
    hide ChunksOf;
    var buffer := new Byte[CHUNK_BYTES](_ => 0);
    var hashed: seq<Byte> := [];
    chunks, total := [], 0;
    assert file.bytes[0..] == file.bytes;
    while true
      invariant file.Valid() && total == file.position && hashed == file.bytes[..file.position]
      invariant chunks + ChunksOf(digest, file.bytes[file.position..]) == ChunksOf(digest, file.bytes)
      decreases |file.bytes| - file.position
    {
      var size := file.ReadChunk(buffer);
      if size == 0 {
        break;
      }
      var bytes := buffer[..size];
      hashed := hashed + bytes;
      total := total + size;
      ChunksGrow(digest, file.bytes, file.position - size, size);
      chunks := chunks + [Chunk(digest(bytes), size)];
    }
    assert file.bytes[file.position..] == [];
    NoChunks(digest);
    assert hashed == file.bytes;
    whole := digest(hashed);
  }

  lemma {:induction false} NoChunks(digest: seq<Byte> -> Digest)
    ensures ChunksOf(digest, []) == []
  {
  }
}
