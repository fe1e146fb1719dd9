/**
 * The content hasher (`get_file_hash`, identical in both scripts): the file is
 * read in chunks of at most 64 KiB, each chunk is folded into an MD5 object,
 * and any failure gives `None`.
 *
 * MD5 itself is a parameter: the model only relies on `update` folding the
 * chunks into a digest of their concatenation.
 */
module Hashing {
  import opened Wrappers
  import opened FileSystem

  /** The size of one `f.read(65536)`. */
  const ChunkSize: nat := 65536

  function Concat(chunks: seq<Bytes>): Bytes {
    if chunks == [] then [] else Concat(chunks[..|chunks| - 1]) + chunks[|chunks| - 1]
  }

  /** `f.read(65536)` on a file positioned at `pos`: at most a chunk, empty only at the end. */
  function Read(content: Bytes, pos: nat): (buf: Bytes)
    requires pos <= |content|
    ensures pos + |buf| <= |content| && buf == content[pos..pos + |buf|]
    ensures |buf| <= ChunkSize
    ensures |buf| == 0 <==> pos == |content|
    ensures |buf| == ChunkSize || pos + |buf| == |content|
  {
    content[pos..if pos + ChunkSize <= |content| then pos + ChunkSize else |content|]
  }

  /** A `hashlib.md5()` object: the digest it reports is that of every byte fed to it. */
  class Hasher {
    const md5: Bytes -> Digest
    var consumed: Bytes

    constructor (md5: Bytes -> Digest)
      ensures this.md5 == md5 && consumed == []
    {
      this.md5 := md5;
      consumed := [];
    }

    /** `hasher.update(buf)` */
    method Update(buf: Bytes)
      modifies this
      ensures consumed == old(consumed) + buf
    {
      consumed := consumed + buf;
    }

    /** `hasher.hexdigest()` */
    function HexDigest(): Digest
      reads this
    {
      md5(consumed)
    }
  }

  /**
   * `get_file_hash(path)`. The result is the digest of the whole file, or
   * `None` when it cannot be opened or read. The reads it makes (ghost
   * `chunks`) are non-empty, at most 64 KiB each, and together are the file.
   */
  method HashFile(disk: Disk, ops: PathOps, md5: Bytes -> Digest, path: Path)
    returns (h: Option<Digest>, ghost chunks: seq<Bytes>)
    ensures h == FileDigest(disk, ops, md5, path)
    ensures h.Some? ==> Concat(chunks) == disk.files[ops.abs(path)]
    ensures forall i :: 0 <= i < |chunks| ==> 0 < |chunks[i]| <= ChunkSize
  {
    var hasher := new Hasher(md5);
    chunks := [];
    var a := ops.abs(path);
    if a !in disk.files || a in disk.unreadable {
      // `open` or one of the reads raised: the exception handler returns None
      return None, chunks;
    }
    var content := disk.files[a];
    var pos := 0;
    var buf := Read(content, pos);
    while |buf| > 0
      invariant pos <= |content|
      invariant buf == Read(content, pos)
      invariant hasher.consumed == content[..pos]
      invariant Concat(chunks) == content[..pos]
      invariant forall i :: 0 <= i < |chunks| ==> 0 < |chunks[i]| <= ChunkSize
      decreases |content| - pos
    {
      hasher.Update(buf);
      ghost var before := chunks;
      chunks := chunks + [buf];
      assert chunks[..|chunks| - 1] == before;
      pos := pos + |buf|;
      buf := Read(content, pos);
    }
    assert content[..pos] == content;
    h := Some(hasher.HexDigest());
  }
}
