/** How ReadFlash and WriteFlash cut a transfer into reports: each report
    carries at most CMD_SIZE - 1 = 63 payload bytes in u.buffer[1..], and the
    data reports of a write are built in place over the previous report.  Also
    the 8-bit additive checksum WriteFlash computes. */
module Chunking {
  import opened Config
  import opened Framing

  /** Payload bytes per report: the union minus its command byte. */
  const CHUNK_PAYLOAD := 63

  lemma ChunkPayloadIsCommandRoom()
    ensures CHUNK_PAYLOAD == CMD_SIZE - 1
  {
  }

  /** Where a report's payload starts: u.buffer[1], after the report id and the command byte. */
  const AT_PAYLOAD := AT_CMD + 1

  function Min(a: int, b: int): int { if a < b then a else b }

  /** Reports needed to carry n payload bytes: the ceiling of n / 63. */
  function ChunkCount(n: nat): nat
  {
    (n + CHUNK_PAYLOAD - 1) / CHUNK_PAYLOAD
  }

  /** Where the i-th report of a run falls: it exists while 63*i bytes leave
      some over, and it is the last when what is left fits in it. */
  lemma ChunkCountAt(n: nat, i: nat)
    ensures CHUNK_PAYLOAD * (i + 1) == CHUNK_PAYLOAD * i + CHUNK_PAYLOAD
    ensures CHUNK_PAYLOAD * i < n ==> i < ChunkCount(n)
    ensures CHUNK_PAYLOAD * i < n <= CHUNK_PAYLOAD * i + CHUNK_PAYLOAD ==> ChunkCount(n) == i + 1
  {
  }

  /** One loop step takes min(remaining, 63) bytes and leaves one report fewer to go. */
  lemma ChunkCountStep(n: nat)
    requires n > 0
    ensures ChunkCount(n) == 1 + ChunkCount(n - Min(n, CHUNK_PAYLOAD))
  {
  }

  /** ChunkCount is the ceiling: enough reports for n bytes, and one fewer would not do. */
  lemma ChunkCountIsCeiling(n: nat)
    ensures ChunkCount(n) * CHUNK_PAYLOAD >= n
    ensures n > 0 ==> (ChunkCount(n) - 1) * CHUNK_PAYLOAD < n
    ensures ChunkCount(130) == 3 && ChunkCount(63) == 1 && ChunkCount(0) == 0
    ensures ChunkCount(MAX_SECTOR_SIZE) == 521
  {
  }

  /** A data report as WriteFlash fills it: report id 0, command byte 0, the
      chunk copied to u.buffer[1..], and whatever the previous report held
      after it (the buffer is reused, not cleared). */
  function DataFrame(prev: Report, chunk: seq<byte>): Report
    requires |chunk| <= CHUNK_PAYLOAD
  {
    [0, 0] + chunk + prev[AT_PAYLOAD + |chunk|..]
  }

  /** The data reports WriteFlash sends for data, starting from the report
      last held in its buffer: one per 63-byte chunk, each with command byte 0. */
  function Frames(prev: Report, data: seq<byte>): (frames: seq<Report>)
    ensures |frames| == ChunkCount(|data|)
    decreases |data|
  {
    if data == [] then []
    else
      var k := Min(|data|, CHUNK_PAYLOAD);
      var f := DataFrame(prev, data[..k]);
      ChunkCountStep(|data|);
      [f] + Frames(f, data[k..])
  }

  /** The n payload bytes carried by a run of reports, in order: the first
      min(remaining, 63) bytes after the command byte of each. */
  function Payloads(frames: seq<Report>, n: nat): (bytes: seq<byte>)
    requires ChunkCount(n) <= |frames|
    ensures |bytes| == n
    decreases n
  {
    if n == 0 then []
    else
      var k := Min(n, CHUNK_PAYLOAD);
      ChunkCountStep(n);
      frames[0][AT_PAYLOAD..AT_PAYLOAD + k] + Payloads(frames[1..], n - k)
  }

  /** Every data report has report id 0 and command byte 0. */
  lemma {:induction false} FramesAreData(prev: Report, data: seq<byte>)
    ensures forall i :: 0 <= i < |Frames(prev, data)| ==>
      Frames(prev, data)[i][AT_REPORT_ID] == 0 && Frames(prev, data)[i][AT_CMD] == 0
    decreases |data|
  {
    if data != [] {
      var k := Min(|data|, CHUNK_PAYLOAD);
      var f := DataFrame(prev, data[..k]);
      FramesAreData(f, data[k..]);
      assert Frames(prev, data) == [f] + Frames(f, data[k..]);
    }
  }

  /** The first data report carries the first min(n, 63) bytes over the
      previous report, and the rest are built over it. */
  lemma FramesStep(prev: Report, rest: seq<byte>, k: nat)
    requires rest != [] && k == Min(|rest|, CHUNK_PAYLOAD)
    ensures Frames(prev, rest) == [DataFrame(prev, rest[..k])] + Frames(DataFrame(prev, rest[..k]), rest[k..])
  {
  }

  /** Slicing the first n bytes of a buffer after pos is slicing the buffer. */
  lemma PrefixSlices(buffer: seq<byte>, n: nat, pos: nat, c: nat)
    requires pos + c <= n <= |buffer|
    ensures buffer[..n][pos..][..c] == buffer[pos..pos + c]
    ensures buffer[..n][pos..][c..] == buffer[..n][pos + c..]
  {
  }

  /** Round trip: the payloads of the data reports, concatenated, are exactly the data. */
  lemma {:induction false} PayloadsOfFrames(prev: Report, data: seq<byte>)
    ensures Payloads(Frames(prev, data), |data|) == data
    decreases |data|
  {
    if data != [] {
      var k := Min(|data|, CHUNK_PAYLOAD);
      var f := DataFrame(prev, data[..k]);
      var frames := Frames(prev, data);
      assert frames == [f] + Frames(f, data[k..]);
      assert frames[1..] == Frames(f, data[k..]);
      assert f[AT_PAYLOAD..AT_PAYLOAD + k] == data[..k];
      PayloadsOfFrames(f, data[k..]);
      assert data == data[..k] + data[k..];
    }
  }

  /** Report i of a run carries bytes 63*i .. 63*i + min(remaining, 63) of the payload. */
  lemma {:induction false} PayloadsSlice(frames: seq<Report>, n: nat, i: nat, lo: nat, c: nat)
    requires ChunkCount(n) <= |frames| && i < ChunkCount(n)
    requires lo == CHUNK_PAYLOAD * i && c == Min(n - lo, CHUNK_PAYLOAD)
    ensures lo < n
    ensures Payloads(frames, n)[lo .. lo + c] == frames[i][AT_PAYLOAD .. AT_PAYLOAD + c]
    decreases i
  {
    var k := Min(n, CHUNK_PAYLOAD);
    var head := frames[0][AT_PAYLOAD..AT_PAYLOAD + k];
    PayloadsUnfold(frames, n);
    var rest := Payloads(frames[1..], n - k);
    if i == 0 {
      assert (head + rest)[0..k] == head;
    } else {
      assert k == CHUNK_PAYLOAD == |head|;
      PayloadsSlice(frames[1..], n - k, i - 1, lo - k, c);
      SliceOfConcat(head, rest, lo - k, lo - k + c);
      assert frames[1..][i - 1] == frames[i];
    }
  }

  /** Payloads of n > 0 bytes: the first report's chunk, then the payloads of the rest. */
  lemma PayloadsUnfold(frames: seq<Report>, n: nat)
    requires 0 < n && ChunkCount(n) <= |frames|
    ensures ChunkCount(n) == 1 + ChunkCount(n - Min(n, CHUNK_PAYLOAD))
    ensures Payloads(frames, n)
         == frames[0][AT_PAYLOAD..AT_PAYLOAD + Min(n, CHUNK_PAYLOAD)] + Payloads(frames[1..], n - Min(n, CHUNK_PAYLOAD))
  {
    ChunkCountStep(n);
  }

  /** A slice of a + b that lies after a is a slice of b. */
  lemma SliceOfConcat<T>(a: seq<T>, b: seq<T>, lo: nat, hi: nat)
    requires lo <= hi <= |b|
    ensures (a + b)[|a| + lo .. |a| + hi] == b[lo..hi]
  {
  }

  /** s with piece written over it from position at on (what memcpy into s
      leaves): every byte outside the piece is unchanged. */
  function Splice(s: seq<byte>, at: nat, piece: seq<byte>): (r: seq<byte>)
    requires at + |piece| <= |s|
    ensures |r| == |s|
  {
    seq(|s|, q requires 0 <= q < |s| => if at <= q < at + |piece| then piece[q - at] else s[q])
  }

  /** A sequence that agrees with s before at and after the piece, and holds
      the piece in between, is s spliced with the piece. */
  lemma SpliceOfParts(s: seq<byte>, r: seq<byte>, at: nat, piece: seq<byte>)
    requires at + |piece| <= |s| == |r|
    requires r[..at] == s[..at] && r[at..at + |piece|] == piece
    requires r[at + |piece|..] == s[at + |piece|..]
    ensures r == Splice(s, at, piece)
  {
    forall q | 0 <= q < |r|
      ensures r[q] == Splice(s, at, piece)[q]
    {
      if q < at {
        assert r[q] == r[..at][q];
      } else if q < at + |piece| {
        assert r[q] == r[at..at + |piece|][q - at];
      } else {
        assert r[q] == r[at + |piece|..][q - at - |piece|];
      }
    }
  }

  /** Copying the next c bytes of an image after the first pos extends the
      copied prefix to pos + c bytes. */
  lemma SpliceStep(orig: seq<byte>, cur: seq<byte>, next: seq<byte>, at: nat,
                   image: seq<byte>, pos: nat, c: nat, piece: seq<byte>)
    requires pos + c <= |image| && at + |image| <= |orig|
    requires cur == Splice(orig, at, image[..pos])
    requires piece == image[pos..pos + c] && next == Splice(cur, at + pos, piece)
    ensures next == Splice(orig, at, image[..pos + c])
  {
    SpliceTwice(orig, at, image[..pos], piece);
    PrefixSplit(image, pos, pos + c);
  }

  /** Splicing a piece of at most bound bytes at at leaves every byte
      outside at..at+bound as it was. */
  lemma SpliceWithin(s: seq<byte>, r: seq<byte>, at: nat, bound: nat, piece: seq<byte>)
    requires |piece| <= bound && at + bound <= |s| && r == Splice(s, at, piece)
    ensures forall q :: 0 <= q < |s| && !(at <= q < at + bound) ==> r[q] == s[q]
  {
  }

  /** memcpy(buffer + at, piece, |piece|). */
  method Memcpy(buffer: array<byte>, at: nat, piece: seq<byte>)
    requires at + |piece| <= buffer.Length
    modifies buffer
    ensures buffer[..] == Splice(old(buffer[..]), at, piece)
  {
    forall q | 0 <= q < |piece| {
      buffer[at + q] := piece[q];
    }
    SpliceOfParts(old(buffer[..]), buffer[..], at, piece);
  }

  /** Two adjacent copies are one copy of the concatenation. */
  lemma SpliceTwice(s: seq<byte>, at: nat, a: seq<byte>, b: seq<byte>)
    requires at + |a| + |b| <= |s|
    ensures Splice(Splice(s, at, a), at + |a|, b) == Splice(s, at, a + b)
  {
  }

  /** The prefix of s up to b is its prefix up to a followed by s[a..b]. */
  lemma PrefixSplit<T>(s: seq<T>, a: nat, b: nat)
    requires a <= b <= |s|
    ensures s[..a] + s[a..b] == s[..b]
  {
  }

  /** Sum of the bytes of s. */
  function ByteSum(s: seq<byte>): int
  {
    if s == [] then 0 else ByteSum(s[..|s| - 1]) + s[|s| - 1]
  }

  /** WriteFlash's checksum: an unsigned char accumulator, so the sum of the
      first nBytes bytes modulo 256. */
  method Checksum(buffer: seq<byte>, nBytes: nat) returns (checkSum: byte)
    requires nBytes <= |buffer|
    ensures checkSum == ByteSum(buffer[..nBytes]) % 0x100
  {
    checkSum := 0;
    var i := 0;
    while i < nBytes
      invariant 0 <= i <= nBytes
      invariant checkSum == ByteSum(buffer[..i]) % 0x100
    {
      assert buffer[..i + 1][..i] == buffer[..i];
      checkSum := (checkSum + buffer[i]) % 0x100;
      i := i + 1;
    }
  }
}
