/**
 * The chunk loop of `upload_file_to_sharepoint`: read the file in blocks of
 * `ChunkSize` bytes, PUT each non-empty block to the upload session with its
 * Content-Length and Content-Range headers, stop at the first read that
 * returns nothing, and abort on the first status other than 200, 201 or 202.
 *
 * The file is the byte sequence `data` (its size is `|data|`), the file
 * handle is the read position `pos`, and the upload session is an oracle
 * `server` that answers the `j`-th PUT with a status code.
 */
module Uploader {
  import opened ChunkPlan

  /** How the upload ended. */
  datatype Outcome = Completed | Aborted(status: int)

  /** The statuses that accept a chunk. */
  predicate Accepted(status: int) {
    status == 200 || status == 201 || status == 202
  }

  /** `f.read(n)` at position `pos` of a regular file: the next at most `n` bytes. */
  function Read(data: seq<Byte>, pos: nat, n: nat): (chunk: seq<Byte>)
    requires pos <= |data|
    ensures |chunk| == Min(n, |data| - pos)
    ensures chunk == data[pos .. pos + |chunk|]
  {
    data[pos .. Min(pos + n, |data|)]
  }

  /**
   * Reading at the position the counter `i` stands for returns nothing
   * exactly when all chunks have been read, and otherwise returns chunk `i`
   * of the plan and moves the position to where chunk `i + 1` starts.
   */
  lemma ReadNextChunk(data: seq<Byte>, i: nat, pos: nat)
    requires i <= NumChunks(|data|) && pos == Min(i * ChunkSize, |data|)
    ensures Read(data, pos, ChunkSize) == [] <==> i == NumChunks(|data|)
    ensures i < NumChunks(|data|) ==>
      && Read(data, pos, ChunkSize) == ChunkAt(data, i)
      && pos + |Read(data, pos, ChunkSize)| == Min((i + 1) * ChunkSize, |data|)
  {
  }

  lemma PrefixStep<T>(s: seq<T>, i: nat)
    requires i < |s|
    ensures s[..i + 1] == s[..i] + [s[i]]
  {
  }

  /**
   * Uploads `data` chunk by chunk. On completion the requests sent are the
   * whole plan and every one was accepted; on abort they are a non-empty
   * prefix of the plan whose last request is the first one refused, and
   * nothing after it is sent.
   */
  method UploadChunks(data: seq<Byte>, server: (nat, PutRequest) -> int)
    returns (sent: seq<PutRequest>, outcome: Outcome)
    ensures |sent| <= |Plan(data)| && sent == Plan(data)[..|sent|]
    ensures outcome.Completed? ==> sent == Plan(data)
    ensures outcome.Completed? ==> forall j :: 0 <= j < |sent| ==> Accepted(server(j, sent[j]))
    ensures outcome.Aborted? ==>
      && |sent| > 0
      && (forall j :: 0 <= j < |sent| - 1 ==> Accepted(server(j, sent[j])))
      && outcome.status == server(|sent| - 1, sent[|sent| - 1])
      && !Accepted(outcome.status)
    ensures |data| == 0 ==> sent == [] && outcome == Completed
  {
    var fileSize := |data|;
    ghost var plan := Plan(data);
    EmptyFileHasNoChunks(data);
    var pos := 0;
    var i := 0;
    sent := [];
    while true
      invariant i <= |plan|
      invariant pos == Min(i * ChunkSize, |data|)
      invariant sent == plan[..i]
      invariant forall j :: 0 <= j < i ==> Accepted(server(j, sent[j]))
      decreases |data| - pos
    {
      ReadNextChunk(data, i, pos);
      var chunk := Read(data, pos, ChunkSize);
      pos := pos + |chunk|;
      if |chunk| == 0 {
        break;
      }
      var req := ChunkRequest(i, chunk, fileSize);
      assert req == plan[i];
      PrefixStep(plan, i);
      sent := sent + [req];
      var status := server(i, req);
      if !Accepted(status) {
        outcome := Aborted(status);
        return;
      }
      i := i + 1;
    }
    assert plan[..i] == plan;
    outcome := Completed;
  }
}

/** The three requests of a 7,000,000-byte upload, header values written out. */
module UploaderExample {
  import opened Decimal
  import ContentRange
  import opened ChunkPlan
  import opened Uploader

  /** The three requests of a 7,000,000-byte file, in terms of the header functions. */
  lemma SevenMillionBytePlan(data: seq<Byte>)
    requires |data| == 7000000
    ensures var p := Plan(data);
      && |p| == 3
      && p[0].contentRange == ContentRange.Format(0, 3276799, 7000000)
      && p[1].contentRange == ContentRange.Format(3276800, 6553599, 7000000)
      && p[2].contentRange == ContentRange.Format(6553600, 6999999, 7000000)
      && p[0].contentLength == NatToString(3276800)
      && p[1].contentLength == NatToString(3276800)
      && p[2].contentLength == NatToString(446400)
  {
    ChunkShape(data, 1);
    PlanLastEnd(data);
  }

  /** The header values of a 7,000,000-byte upload, written out. */
  lemma SevenMillionByteFile(data: seq<Byte>)
    requires |data| == 7000000
    ensures var p := Plan(data);
      && |p| == 3
      && p[0].contentRange == "bytes 0-3276799/7000000"
      && p[1].contentRange == "bytes 3276800-6553599/7000000"
      && p[2].contentRange == "bytes 6553600-6999999/7000000"
      && p[0].contentLength == "3276800"
      && p[1].contentLength == "3276800"
      && p[2].contentLength == "446400"
  {
    SevenMillionBytePlan(data);
    FirstRangeValue();
    SecondRangeValue();
    ThirdRangeValue();
    Numeral3276800();
    Numeral446400();
  }

  /** The three Content-Range values written out, one lemma per value. */
  lemma FirstRangeValue()
    ensures ContentRange.Format(0, 3276799, 7000000) == "bytes 0-3276799/7000000"
  {
    Numeral3276799();
    Numeral7000000();
    assert NatToString(0) == "0";
  }

  lemma SecondRangeValue()
    ensures ContentRange.Format(3276800, 6553599, 7000000) == "bytes 3276800-6553599/7000000"
  {
    Numeral3276800();
    Numeral6553599();
    Numeral7000000();
    assert NatToString(0) == "0";
  }

  lemma ThirdRangeValue()
    ensures ContentRange.Format(6553600, 6999999, 7000000) == "bytes 6553600-6999999/7000000"
  {
    Numeral6553600();
    Numeral6999999();
    Numeral7000000();
    assert NatToString(0) == "0";
  }

  /** The decimal numerals of the upload's offsets and lengths, digit by digit. */
  lemma Numeral3276799()
    ensures NatToString(3276799) == "3276799"
  {
    assert NatToString(3) == "3";
    assert NatToString(32) == "32";
    assert NatToString(327) == "327";
    assert NatToString(3276) == "3276";
    assert NatToString(32767) == "32767";
    assert NatToString(327679) == "327679";
  }

  lemma Numeral3276800()
    ensures NatToString(3276800) == "3276800"
  {
    assert NatToString(3) == "3";
    assert NatToString(32) == "32";
    assert NatToString(327) == "327";
    assert NatToString(3276) == "3276";
    assert NatToString(32768) == "32768";
    assert NatToString(327680) == "327680";
  }

  lemma Numeral6553599()
    ensures NatToString(6553599) == "6553599"
  {
    assert NatToString(6) == "6";
    assert NatToString(65) == "65";
    assert NatToString(655) == "655";
    assert NatToString(6553) == "6553";
    assert NatToString(65535) == "65535";
    assert NatToString(655359) == "655359";
  }

  lemma Numeral6553600()
    ensures NatToString(6553600) == "6553600"
  {
    assert NatToString(6) == "6";
    assert NatToString(65) == "65";
    assert NatToString(655) == "655";
    assert NatToString(6553) == "6553";
    assert NatToString(65536) == "65536";
    assert NatToString(655360) == "655360";
  }

  lemma Numeral6999999()
    ensures NatToString(6999999) == "6999999"
  {
    assert NatToString(6) == "6";
    assert NatToString(69) == "69";
    assert NatToString(699) == "699";
    assert NatToString(6999) == "6999";
    assert NatToString(69999) == "69999";
    assert NatToString(699999) == "699999";
  }

  lemma Numeral7000000()
    ensures NatToString(7000000) == "7000000"
  {
    assert NatToString(7) == "7";
    assert NatToString(70) == "70";
    assert NatToString(700) == "700";
    assert NatToString(7000) == "7000";
    assert NatToString(70000) == "70000";
    assert NatToString(700000) == "700000";
  }

  lemma Numeral446400()
    ensures NatToString(446400) == "446400"
  {
    assert NatToString(4) == "4";
    assert NatToString(44) == "44";
    assert NatToString(446) == "446";
    assert NatToString(4464) == "4464";
    assert NatToString(44640) == "44640";
  }
}
