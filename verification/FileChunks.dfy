/** How `l8-1_client.c` cuts a file into 576-byte datagrams: two header words
    and 568 bytes of the file, zero padded.  The part that carries fewer than
    568 bytes is flagged last, so a file whose size is a multiple of 568 ends
    with a part that carries none. */
module FileChunks {
  import opened Modular

  const MAXBUF := 576
  const OFFSET := 8                  // two int32_t header words
  const PART := MAXBUF - OFFSET      // 568

  type Byte = x: int | 0 <= x < 256
  type Addr = int                    // sockaddr_in, compared bit by bit

  datatype Datagram = Datagram(chunkNo: int, last: int, payload: seq<Byte>)

  function Zeros(n: nat): seq<Byte> { seq(n, _ => 0) }

  function ChunkCount(file: seq<Byte>): nat { |file| / PART + 1 }

  function PartOf(file: seq<Byte>, k: nat): seq<Byte>
    requires 1 <= k <= ChunkCount(file)
  {
    file[(k - 1) * PART..if k * PART <= |file| then k * PART else |file|]
  }

  /** Part number k, 1 <= k <= ChunkCount(file), as it is sent. */
  function Chunk(file: seq<Byte>, k: nat): Datagram
    requires 1 <= k <= ChunkCount(file)
  {
    var part := PartOf(file, k);
    Datagram(k, if |part| < PART then 1 else 0, part + Zeros(PART - |part|))
  }

  function Chunks(file: seq<Byte>): seq<Datagram> {
    seq(ChunkCount(file), i requires 0 <= i < ChunkCount(file) => Chunk(file, i + 1))
  }

  function Payloads(parts: seq<Datagram>): seq<Byte> {
    if parts == [] then [] else Payloads(parts[..|parts| - 1]) + parts[|parts| - 1].payload
  }

  /** Exactly one part is flagged last, whatever the size of the file. */
  lemma OneLastPart(file: seq<Byte>, k: nat)
    requires 1 <= k <= ChunkCount(file)
    ensures Chunk(file, k).last == 1 <==> k == ChunkCount(file)
    ensures |Chunk(file, k).payload| == 568 && Chunk(file, k).chunkNo == k && Chunk(file, k).last in {0, 1}
  {
  }

  lemma {:induction false} FirstParts(file: seq<Byte>, k: nat)
    requires k < ChunkCount(file)
    ensures Payloads(Chunks(file)[..k]) == file[..k * PART]
  {
    if k > 0 {
      FirstParts(file, k - 1);
      var parts := Chunks(file)[..k];
      assert parts[..k - 1] == Chunks(file)[..k - 1];
      assert parts[k - 1] == Chunk(file, k) && Chunk(file, k).payload == file[(k - 1) * PART..k * PART];
      assert file[..(k - 1) * PART] + file[(k - 1) * PART..k * PART] == file[..k * PART];
    }
  }

  /** The last part carries the rest of the file and padding. */
  lemma LastPart(file: seq<Byte>)
    ensures var whole := (ChunkCount(file) - 1) * PART;
            && 0 <= whole <= |file| < whole + PART
            && Chunk(file, ChunkCount(file)).payload == file[whole..] + Zeros(whole + PART - |file|)
  {
  }

  /** The parts put together are the file, followed by padding. */
  lemma PartsMakeTheFile(file: seq<Byte>)
    ensures file <= Payloads(Chunks(file))
    ensures |Payloads(Chunks(file))| == ChunkCount(file) * 568 && |file| < |Payloads(Chunks(file))| <= |file| + 568
    ensures forall k :: |file| <= k < |Payloads(Chunks(file))| ==> Payloads(Chunks(file))[k] == 0
  {
    var whole := (ChunkCount(file) - 1) * PART;
    FirstParts(file, ChunkCount(file) - 1);
    LastPart(file);
    Regroup(file, whole, Zeros(whole + PART - |file|));
  }

  lemma Regroup(file: seq<Byte>, at: nat, padding: seq<Byte>)
    requires at <= |file|
    ensures file[..at] + (file[at..] + padding) == file + padding
    ensures file <= file + padding
  {
  }

  function Repeat<T>(s: seq<T>, n: nat): seq<T> {
    if n == 0 then [] else s + Repeat(s, n - 1)
  }

  /** `acc` runs through `parts` over and over and stands at position `at`. */
  ghost predicate Cyclic<T>(acc: seq<T>, parts: seq<T>, at: int) {
    && |parts| > 0
    && |acc| % |parts| == at
    && forall i :: 0 <= i < |acc| ==> acc[i] == parts[i % |parts|]
  }

  lemma CyclicStep<T>(acc: seq<T>, parts: seq<T>, at: int)
    requires Cyclic(acc, parts, at)
    ensures Cyclic(acc + [parts[at]], parts, if at + 1 == |parts| then 0 else at + 1)
  {
    ModStep(|acc|, |parts|);
  }

  lemma CyclicTail<T>(acc: seq<T>, parts: seq<T>, at: int)
    requires Cyclic(acc, parts, at) && |acc| >= |parts|
    ensures acc[..|parts|] == parts && Cyclic(acc[|parts|..], parts, at)
  {
    var m, tail := |parts|, acc[|parts|..];
    forall i | 0 <= i < |tail| ensures tail[i] == parts[i % m] {
      assert tail[i] == acc[m + i];
      ModShift(i, m);
    }
    ModShift(|tail|, m);
    forall i | 0 <= i < m ensures acc[i] == parts[i] {
      ModUnique(i, m, 0, i);
    }
  }

  lemma CyclicShort<T>(acc: seq<T>, parts: seq<T>, at: int)
    requires Cyclic(acc, parts, at) && |acc| < |parts|
    ensures acc == parts[..at] == Repeat(parts, 0) + parts[..at]
  {
    ModUnique(|acc|, |parts|, 0, |acc|);
    forall i | 0 <= i < |acc| ensures acc[i] == parts[i] {
      ModUnique(i, |parts|, 0, i);
    }
  }

  lemma RepeatOnce<T>(acc: seq<T>, parts: seq<T>, n: nat, rest: seq<T>)
    requires |acc| >= |parts| && acc[..|parts|] == parts && acc[|parts|..] == Repeat(parts, n) + rest
    ensures acc == Repeat(parts, n + 1) + rest
  {
    assert acc == acc[..|parts|] + acc[|parts|..];
    assert parts + (Repeat(parts, n) + rest) == (parts + Repeat(parts, n)) + rest;
  }

  /** The same, read as whole copies followed by a beginning. */
  lemma {:induction false} CyclicIsRepeat<T>(acc: seq<T>, parts: seq<T>, at: int)
    requires Cyclic(acc, parts, at)
    ensures acc == Repeat(parts, |acc| / |parts|) + parts[..at]
    decreases |acc|
  {
    assert 0 < |parts| && 0 <= at < |parts|;
    hide Cyclic, Repeat;
    if |acc| < |parts| {
      ModUnique(|acc|, |parts|, 0, |acc|);
      CyclicShort(acc, parts, at);
    } else {
      var tail := acc[|parts|..];
      CyclicTail(acc, parts, at);
      CyclicIsRepeat(tail, parts, at);
      ModShift(|tail|, |parts|);
      RepeatOnce(acc, parts, |tail| / |parts|, parts[..at]);
    }
  }
}
