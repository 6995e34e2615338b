# Chunked upload to a SharePoint upload session

This project models the one piece of `upload_file_to_sharepoint` that is
more than a call into Microsoft Graph: the loop that streams the local file
to a Graph upload session. The loop reads the file in blocks of
3,276,800 bytes. For the `i`-th non-empty block it computes
`start = i * chunk_size` and `end = start + len(block) - 1`. It PUTs the
block with a `Content-Length` header and a `Content-Range: bytes
start-end/file_size` header, which is the byte-range form of section 14.4 of
RFC 9110. It accepts the statuses 200, 201 and 202 and raises on any other.
It stops at the first read that returns nothing.

Modules:

- `Decimal` (decimal.dfy): `NatToString`, the decimal rendering Python's
  `str()` and f-strings give a non-negative integer, and `ParseNat`, its
  inverse.
- `ContentRange` (content_range.dfy): the header value `Format(first, last,
  complete)`, its parser `Parse`, and the RFC 9110 validity condition
  `ValidRange`.
- `ChunkPlan` (chunk_plan.dfy): the reference definition of a complete
  upload, by position. Chunk `i` is the file slice
  `[i * ChunkSize, min((i + 1) * ChunkSize, size))`. `ChunkRequest` builds its request
  (lines 69-75 of the script) and `Plan` lists all requests. The lemmas state
  coverage, contiguity, chunk sizes, chunk count, last offset and header
  round-trips about `Plan`.
- `Uploader` (uploader.dfy): `UploadChunks`, the loop itself as a method with
  a `while` loop. The file is a byte sequence read through a position `pos`,
  as `f.read` does. The upload session is an oracle `server` that answers
  the `j`-th PUT with a status code. The method's postcondition ties what it
  sent to `Plan` and states when it stops. `UploaderExample` works out the
  7,000,000-byte case.

The loop computes `start` from its counter `i`, not from the file position.
The loop invariant `pos == min(i * chunk_size, size)` is what shows that the
two agree: a read is short only at end of file, so every chunk but the last
is full.

## Model

| member | source | states |
|---|---|---|
| Decimal.NatToString | scripts/upload_file_to_sharepoint.py:73-74 | the decimal rendering of a number is non-empty, all digits, and has no leading zero |
| Decimal.ParseNatToString | scripts/upload_file_to_sharepoint.py:73 | reading back a rendered number gives the number (round trip) |
| Decimal.NatToStringInjective | scripts/upload_file_to_sharepoint.py:73-74 | distinct numbers render as distinct strings |
| ContentRange.Format | scripts/upload_file_to_sharepoint.py:74 | the value `"bytes " + first + "-" + last + "/" + complete` with each number in canonical decimal; `ContentRange.ParseFormat` and `ContentRange.FormatInjective` state that it determines and is determined by the three numbers |
| ContentRange.ParseFormat | scripts/upload_file_to_sharepoint.py:74 | parsing `bytes {start}-{end}/{size}` recovers exactly start, end and size (round trip) |
| ContentRange.FormatInjective | scripts/upload_file_to_sharepoint.py:74 | different ranges give different Content-Range values |
| ChunkPlan.NumChunksBound | scripts/upload_file_to_sharepoint.py:64-67 | chunk index `i` exists (i < ceil(size / ChunkSize)) exactly when its start `i * ChunkSize` lies inside the file |
| ChunkPlan.NumChunksIsCeiling | scripts/upload_file_to_sharepoint.py:64-67 | the chunk count is ceil(size / ChunkSize): its chunks reach the end of the file, one fewer would not, and it is 0 only for an empty file |
| ChunkPlan.ChunkAt | scripts/upload_file_to_sharepoint.py:65 | chunk `i` is the file slice from `i * ChunkSize`, non-empty, at most `ChunkSize` bytes, exactly `ChunkSize` bytes unless it is the last, and the last one ends the file |
| ChunkPlan.ChunkRequest | scripts/upload_file_to_sharepoint.py:69-75 | a request starts at `i * ChunkSize`, carries the chunk as its body, and its inclusive range has the chunk's length |
| ChunkPlan.ChunkRequestHeaders | scripts/upload_file_to_sharepoint.py:72-75 | Content-Length reads back as the body length, and Content-Range reads back as (start, end, file size) |
| ChunkPlan.Plan | scripts/upload_file_to_sharepoint.py:64-83 | a complete upload issues ceil(size / ChunkSize) requests |
| ChunkPlan.EmptyFileHasNoChunks | scripts/upload_file_to_sharepoint.py:65-67 | the plan is empty exactly when the file is empty |
| ChunkPlan.ChunkShape | scripts/upload_file_to_sharepoint.py:65-70 | request `i` starts at `i * ChunkSize`, has 1 to `ChunkSize` bytes (exactly `ChunkSize` unless last), `end - start + 1` equals the body length, and the body is the file's bytes `start..end` |
| ChunkPlan.PlanBodyAt | scripts/upload_file_to_sharepoint.py:65-70 | the body of request `k` is the file slice `[k * ChunkSize, min((k + 1) * ChunkSize, size))` |
| ChunkPlan.NextChunkAdjacent | scripts/upload_file_to_sharepoint.py:69-83 | each request starts one byte after the previous request's end |
| ChunkPlan.PlanContiguous | scripts/upload_file_to_sharepoint.py:63-83 | the first request starts at 0 and the ranges are contiguous and strictly increasing |
| ChunkPlan.PlanLastEnd | scripts/upload_file_to_sharepoint.py:64-83 | for a non-empty file the last request ends at `size - 1` |
| ChunkPlan.PlanHeaders | scripts/upload_file_to_sharepoint.py:72-75 | every request's headers read back as its own numbers, and its range is valid in the sense of section 14.4 of RFC 9110 (first <= last < size) |
| ChunkPlan.PlanDeliversPrefix | scripts/upload_file_to_sharepoint.py:64-83 | the first `j` requests deliver exactly the first `min(j * ChunkSize, size)` bytes of the file |
| ChunkPlan.PlanCoversFile | scripts/upload_file_to_sharepoint.py:64-83 | the bodies of all requests, concatenated, equal the file contents |
| Uploader.Accepted | scripts/upload_file_to_sharepoint.py:80 | a chunk is accepted exactly on status 200, 201 or 202 |
| Uploader.Read | scripts/upload_file_to_sharepoint.py:65 | a read returns the next `min(n, size - pos)` bytes at the position, so it is short only at end of file |
| Uploader.ReadNextChunk | scripts/upload_file_to_sharepoint.py:64-70 | at the position counter `i` stands for, a read is empty exactly when all chunks are done; otherwise it returns chunk `i` and moves to where chunk `i + 1` starts |
| Uploader.UploadChunks | scripts/upload_file_to_sharepoint.py:58-83 | the requests sent are always a prefix of the plan. On completion they are the whole plan (which delivers the file, by `ChunkPlan.PlanCoversFile`) and every one was accepted (200/201/202). On abort the last one sent is the first refused one, its status is the reported status, and nothing after it is sent. An empty file completes with no request |
| UploaderExample.SevenMillionByteFile | scripts/upload_file_to_sharepoint.py:59-75 | a 7,000,000-byte file gives three requests whose headers are `bytes 0-3276799/7000000`, `bytes 3276800-6553599/7000000` and `bytes 6553600-6999999/7000000`, with Content-Length 3276800, 3276800 and 446400 |

## Left out

- `get_access_token` (lines 17-32) is left out: it is a call into the MSAL library, which is not part of this model.
- Site, drive and upload-session resolution (lines 38-56) are left out. They are HTTP calls to Microsoft Graph plus JSON field lookups. The upload URL they produce is implicit in the `server` oracle.
- Progress and success messages (lines 77, 85) and argument parsing in `main` (lines 87-92) are left out. They are console and command-line plumbing.
- Module-level configuration (lines 7-15) is left out. The chunk size is the script's constant (line 59), kept as `ChunkPlan.ChunkSize`; the lemmas about the plan are stated for that size, not for an arbitrary one.
- `os.path.getsize`, `os.path.basename` and the file handle (lines 51, 60, 62) are OS calls. The file is a fixed byte sequence `data` and `file_size` is `|data|`. The model assumes nothing changes the file between the size query and the reads.
- Uploader.UploadChunks: the raised exception also carries the response text (line 81). The model keeps only the status code in `Aborted`.
- Uploader.UploadChunks: transport failures inside `requests.put` are not modelled. The `server` oracle always answers with a status.
