/**
 * What a chunked upload of a file sends, stated by position rather than by
 * reading: chunk `i` holds the bytes `[i * ChunkSize, min((i + 1) * ChunkSize, size))`
 * of the file, and its PUT request carries that slice with its Content-Length
 * and Content-Range header values.
 */
module ChunkPlan {
  import opened Options
  import opened Decimal
  import ContentRange

  type Byte = bv8

  /** Bytes per chunk (3.2 MB). */
  const ChunkSize: nat := 3276800

  /** One PUT of a chunk: its offsets, its payload and its two header values. */
  datatype PutRequest = PutRequest(
    start: nat,
    end: nat,
    body: seq<Byte>,
    contentLength: string,
    contentRange: string)

  function Min(a: nat, b: nat): nat {
    if a <= b then a else b
  }

  /** ceil(n / ChunkSize): the number of chunks that cover `n` bytes. */
  function NumChunks(n: nat): nat {
    (n + ChunkSize - 1) / ChunkSize
  }

  /** Chunk `i` exists exactly when its start offset `i * ChunkSize` lies inside the file. */
  lemma NumChunksBound(n: nat, i: nat)
    ensures i < NumChunks(n) <==> i * ChunkSize < n
  {
  }

  /** The number of chunks is the least count whose chunks reach the end of the file. */
  lemma NumChunksIsCeiling(n: nat)
    ensures n <= NumChunks(n) * ChunkSize
    ensures NumChunks(n) > 0 ==> (NumChunks(n) - 1) * ChunkSize < n
    ensures NumChunks(n) == 0 <==> n == 0
  {
  }

  /** The bytes of chunk `i`: full-sized except the last, which ends the file. */
  function ChunkAt(data: seq<Byte>, i: nat): (chunk: seq<Byte>)
    requires i < NumChunks(|data|)
    ensures 0 < |chunk| <= ChunkSize
    ensures i + 1 < NumChunks(|data|) ==> |chunk| == ChunkSize
    ensures i + 1 == NumChunks(|data|) ==> i * ChunkSize + |chunk| == |data|
    ensures i * ChunkSize + |chunk| == Min((i + 1) * ChunkSize, |data|)
    ensures chunk == data[i * ChunkSize .. i * ChunkSize + |chunk|]
  {
    data[i * ChunkSize .. Min(i * ChunkSize + ChunkSize, |data|)]
  }

  /**
   * The request for the `i`-th non-empty chunk read from a file of
   * `fileSize` bytes: it starts at `i * ChunkSize` and ends (inclusively) at
   * its last byte.
   */
  function ChunkRequest(i: nat, chunk: seq<Byte>, fileSize: nat): (r: PutRequest)
    requires |chunk| > 0
    ensures r.start == i * ChunkSize && r.body == chunk
    ensures r.end - r.start + 1 == |r.body|
  {
    var start := i * ChunkSize;
    var end := start + |chunk| - 1;
    PutRequest(start, end, chunk, NatToString(|chunk|), ContentRange.Format(start, end, fileSize))
  }

  /**
   * The header values of a chunk request carry exactly its numbers: the
   * Content-Length reads back as the payload length and the Content-Range as
   * the request's first and last byte and the file size.
   */
  lemma ChunkRequestHeaders(i: nat, chunk: seq<Byte>, fileSize: nat)
    requires |chunk| > 0
    ensures var r := ChunkRequest(i, chunk, fileSize);
      && ParseNat(r.contentLength) == Some(|r.body|)
      && ContentRange.Parse(r.contentRange) == Some(ContentRange.ByteRange(r.start, r.end, fileSize))
  {
    var r := ChunkRequest(i, chunk, fileSize);
    ParseNatToString(|chunk|);
    ContentRange.ParseFormat(r.start, r.end, fileSize);
  }

  /** Every request of a complete upload of `data`, in order. */
  function Plan(data: seq<Byte>): (p: seq<PutRequest>)
    ensures |p| == NumChunks(|data|)
  {
    seq(NumChunks(|data|), i requires 0 <= i < NumChunks(|data|) =>
      ChunkRequest(i, ChunkAt(data, i), |data|))
  }

  /** The bytes a sequence of requests delivers, in request order. */
  function Delivered(reqs: seq<PutRequest>): seq<Byte> {
    if reqs == [] then [] else Delivered(reqs[..|reqs| - 1]) + reqs[|reqs| - 1].body
  }

  /** An empty file has no chunks; any other file has at least one. */
  lemma EmptyFileHasNoChunks(data: seq<Byte>)
    ensures Plan(data) == [] <==> |data| == 0
  {
  }

  /** Shape of each chunk: placed at `i * ChunkSize`, at most `ChunkSize` bytes, full except for the last. */
  lemma ChunkShape(data: seq<Byte>, i: nat)
    requires i < |Plan(data)|
    ensures var r := Plan(data)[i];
      && r.start == i * ChunkSize
      && 0 < |r.body| <= ChunkSize
      && (i + 1 < |Plan(data)| ==> |r.body| == ChunkSize)
      && r.end - r.start + 1 == |r.body|
      && r.body == data[r.start .. r.end + 1]
  {
  }

  /** Chunk `i` starts right after chunk `i - 1` ends. */
  lemma NextChunkAdjacent(data: seq<Byte>, i: nat)
    requires 0 < i < |Plan(data)|
    ensures Plan(data)[i].start == Plan(data)[i - 1].end + 1
  {
  }

  /** The chunks are contiguous: the first starts at 0 and each starts right after its predecessor. */
  lemma PlanContiguous(data: seq<Byte>)
    ensures var p := Plan(data);
      && (|p| > 0 ==> p[0].start == 0)
      && forall i :: 0 < i < |p| ==> p[i].start == p[i - 1].end + 1
  {
    var p := Plan(data);
    forall i | 0 < i < |p|
      ensures p[i].start == p[i - 1].end + 1
    {
      NextChunkAdjacent(data, i);
    }
  }

  /** The last chunk ends at the last byte of the file. */
  lemma PlanLastEnd(data: seq<Byte>)
    requires |data| > 0
    ensures |Plan(data)| > 0 && Plan(data)[|Plan(data)| - 1].end == |data| - 1
  {
  }

  /**
   * Every request's headers read back as its own numbers, and its
   * Content-Range names a range RFC 9110 accepts over the whole file's length.
   */
  lemma PlanHeaders(data: seq<Byte>, i: nat)
    requires i < |Plan(data)|
    ensures var r := Plan(data)[i];
      && ParseNat(r.contentLength) == Some(|r.body|)
      && ContentRange.Parse(r.contentRange) == Some(ContentRange.ByteRange(r.start, r.end, |data|))
      && ContentRange.ValidRange(ContentRange.ByteRange(r.start, r.end, |data|))
  {
    ChunkRequestHeaders(i, ChunkAt(data, i), |data|);
  }

  /** The first `j` chunks deliver exactly the first `min(j * ChunkSize, size)` bytes of the file. */
  lemma {:induction false} PlanDeliversPrefix(data: seq<Byte>, j: nat)
    requires j <= NumChunks(|data|)
    ensures Delivered(Plan(data)[..j]) == data[..Min(j * ChunkSize, |data|)]
  {
    if j == 0 {
      assert Plan(data)[..0] == [];
    } else {
      var k := j - 1;
      PlanDeliversPrefix(data, k);
      DeliveredStep(Plan(data), k);
      PlanBodyAt(data, k);
      var from, to := k * ChunkSize, Min(j * ChunkSize, |data|);
      assert data[..from] + data[from..to] == data[..to];
    }
  }

  /** The payload of chunk `k` is the file slice `[k * ChunkSize, min((k + 1) * ChunkSize, size))`. */
  lemma PlanBodyAt(data: seq<Byte>, k: nat)
    requires k < NumChunks(|data|)
    ensures k * ChunkSize <= Min((k + 1) * ChunkSize, |data|) <= |data|
    ensures Min(k * ChunkSize, |data|) == k * ChunkSize
    ensures Plan(data)[k].body == data[k * ChunkSize .. Min((k + 1) * ChunkSize, |data|)]
  {
  }

  lemma DeliveredStep(reqs: seq<PutRequest>, k: nat)
    requires k < |reqs|
    ensures Delivered(reqs[..k + 1]) == Delivered(reqs[..k]) + reqs[k].body
  {
    assert reqs[..k + 1][..k] == reqs[..k];
  }

  /** A complete upload delivers the whole file, byte for byte. */
  lemma PlanCoversFile(data: seq<Byte>)
    ensures Delivered(Plan(data)) == data
  {
    var p := Plan(data);
    PlanDeliversPrefix(data, |p|);
    assert p[..|p|] == p;
  }
}
