/** src/lib/send.ts: the file holder's side. It answers each connection
    attempt that appears in the store, sends the manifest when the data
    channel opens, and on a `download` request reads the file slice by slice,
    sending each slice at once or, while the channel's buffered amount is over
    the low-water threshold, when the channel next reports a low buffer. An
    `end` message closes the channel and the connection and marks the
    transfer record completed. */
module Send {
  import opened Base
  import opened Signaling

  /** `chunkSize` in the source (8196, not 8192). */
  const ChunkSize: nat := 8196

  /** `dc.bufferedAmountLowThreshold`. */
  const BufferedAmountLowThreshold: int := 65536

  function Min(a: int, b: int): int
  {
    if a < b then a else b
  }

  // ---------------------------------------------------------------------
  // Slicing arithmetic
  // ---------------------------------------------------------------------

  /** The number of slices the send loop reads for a file of `size` bytes. */
  function ChunkCount(size: nat): nat
  {
    (size + ChunkSize - 1) / ChunkSize
  }

  /** The count is the ceiling of size / chunkSize: the slices reach `size`
      and one fewer would not. */
  lemma ChunkCountIsCeiling(size: nat)
    ensures ChunkCount(size) * ChunkSize >= size
    ensures ChunkCount(size) > 0 ==> (ChunkCount(size) - 1) * ChunkSize < size
    ensures ChunkCount(size) == 0 <==> size == 0
  {
  }

  /** The loop reads slice `k` exactly when `k * chunkSize < size`. */
  lemma ChunkIndexBound(size: nat, k: nat)
    ensures k * ChunkSize < size <==> k < ChunkCount(size)
  {
    ChunkCountIsCeiling(size);
    if k < ChunkCount(size) {
      assert k * ChunkSize <= (ChunkCount(size) - 1) * ChunkSize;
    } else {
      assert k * ChunkSize >= ChunkCount(size) * ChunkSize;
    }
  }

  /** Slice `k` starts at `k * chunkSize`. */
  function ChunkStart(k: nat): nat
  {
    k * ChunkSize
  }

  /** Slice `k` ends at `min((k + 1) * chunkSize, size)`. */
  function ChunkEnd(size: nat, k: nat): int
  {
    Min((k + 1) * ChunkSize, size)
  }

  /** The bytes of slice `k`: `file.slice(k * chunkSize, min((k + 1) * chunkSize, size))`. */
  function Chunk(file: seq<Byte>, k: nat): seq<Byte>
    requires k < ChunkCount(|file|)
  {
    ChunkCountIsCeiling(|file|);
    file[ChunkStart(k)..ChunkEnd(|file|, k)]
  }

  /** The first `k` slices, in order. */
  function ChunksUpTo(file: seq<Byte>, k: nat): seq<seq<Byte>>
    requires k <= ChunkCount(|file|)
  {
    if k == 0 then [] else ChunksUpTo(file, k - 1) + [Chunk(file, k - 1)]
  }

  /** Every file of a size the source can hold has its slices sent in full. */
  function AllChunks(file: seq<Byte>): seq<seq<Byte>>
  {
    ChunksUpTo(file, ChunkCount(|file|))
  }

  /** The slices are non-empty, consecutive (each starts where the previous
      one ended), start at 0 and end at `size`: they are disjoint and cover
      [0, size) exactly. */
  lemma ChunksPartition(size: nat)
    ensures forall k :: 0 <= k < ChunkCount(size) ==> ChunkStart(k) < ChunkEnd(size, k) <= size
    ensures forall k :: 0 <= k < ChunkCount(size) - 1 ==> ChunkEnd(size, k) == ChunkStart(k + 1)
    ensures ChunkCount(size) > 0 ==> ChunkStart(0) == 0 && ChunkEnd(size, ChunkCount(size) - 1) == size
  {
    ChunkCountIsCeiling(size);
    forall k | 0 <= k < ChunkCount(size)
      ensures ChunkStart(k) < ChunkEnd(size, k) <= size
    {
      assert k * ChunkSize <= (ChunkCount(size) - 1) * ChunkSize;
    }
    forall k | 0 <= k < ChunkCount(size) - 1
      ensures ChunkEnd(size, k) == ChunkStart(k + 1)
    {
      assert (k + 1) * ChunkSize <= (ChunkCount(size) - 1) * ChunkSize;
    }
  }

  /** The first `k` slices read back to back are the first
      `min(k * chunkSize, size)` bytes of the file. */
  lemma {:induction false} ChunksUpToPrefix(file: seq<Byte>, k: nat)
    requires k <= ChunkCount(|file|)
    ensures Concat(ChunksUpTo(file, k)) == file[..Min(k * ChunkSize, |file|)]
    ensures TotalLength(ChunksUpTo(file, k)) == Min(k * ChunkSize, |file|)
    ensures |ChunksUpTo(file, k)| == k
  {
    if k > 0 {
      var prev, last := ChunksUpTo(file, k - 1), Chunk(file, k - 1);
      ChunksUpToPrefix(file, k - 1);
      ConcatPush(prev, last);
      ChunkIndexBound(|file|, k - 1);
      var a, b := ChunkStart(k - 1), ChunkEnd(|file|, k - 1);
      assert Min((k - 1) * ChunkSize, |file|) == a;
      assert Min(k * ChunkSize, |file|) == b;
      assert ChunksUpTo(file, k) == prev + [last];
      assert last == file[a..b];
      assert Concat(ChunksUpTo(file, k)) == file[..a] + file[a..b];
      assert file[..a] + file[a..b] == file[..b];
    }
  }

  /** Reassembling every slice in order gives the file back, and the slices
      are `ceil(size / chunkSize)` in number. */
  lemma AllChunksReassemble(file: seq<Byte>)
    ensures Concat(AllChunks(file)) == file
    ensures TotalLength(AllChunks(file)) == |file|
    ensures |AllChunks(file)| == ChunkCount(|file|)
    ensures forall k :: 0 <= k < |AllChunks(file)| ==> AllChunks(file)[k] == Chunk(file, k)
  {
    ChunkCountIsCeiling(|file|);
    ChunksUpToPrefix(file, ChunkCount(|file|));
    assert file[..|file|] == file;
    ChunksUpToAt(file, ChunkCount(|file|));
  }

  /** Slice `j` of the first `k` is the slice `Chunk(file, j)`. */
  lemma {:induction false} ChunksUpToAt(file: seq<Byte>, k: nat)
    requires k <= ChunkCount(|file|)
    ensures |ChunksUpTo(file, k)| == k
    ensures forall j :: 0 <= j < k ==> ChunksUpTo(file, k)[j] == Chunk(file, j)
  {
    if k > 0 {
      ChunksUpToAt(file, k - 1);
    }
  }

  // ---------------------------------------------------------------------
  // The displayed `bytesSent` counter
  // ---------------------------------------------------------------------

  /** `bytesSent` after `k` sends, as the source computes it: `min(chunkSize, size)`
      when the download starts, then `min(chunkSize, size - currentChunk * chunkSize)`
      added after each send, with `currentChunk` already incremented. */
  function BytesSent(size: nat, k: nat): int
  {
    if k == 0 then Min(ChunkSize, size)
    else BytesSent(size, k - 1) + Min(ChunkSize, size - k * ChunkSize)
  }

  /** Before the last send the counter runs one slice ahead of what was sent:
      it counts the bytes of the slices sent and of the slice being read. */
  lemma {:induction false} BytesSentAhead(size: nat, k: nat)
    requires k < ChunkCount(size)
    ensures BytesSent(size, k) == Min((k + 1) * ChunkSize, size)
  {
    ChunkCountIsCeiling(size);
    if k > 0 {
      BytesSentAhead(size, k - 1);
    }
  }

  /** After the last send the final addend is `size - n * chunkSize <= 0`, so
      the counter ends at `2 * size - n * chunkSize`, which is `size` exactly
      when the chunk size divides the file size. */
  lemma BytesSentFinal(size: nat)
    ensures BytesSent(size, ChunkCount(size)) == 2 * size - ChunkCount(size) * ChunkSize
    ensures BytesSent(size, ChunkCount(size)) == size <==> size % ChunkSize == 0
  {
    ChunkCountIsCeiling(size);
    var n := ChunkCount(size);
    if n > 0 {
      BytesSentAhead(size, n - 1);
    }
  }

  /** The counter as written ends short: a file of 17000 bytes is sent as
      three slices and the counter ends at 9412. */
  lemma BytesSentEndsShort()
    ensures ChunkCount(17000) == 3
    ensures BytesSent(17000, ChunkCount(17000)) == 9412
  {
    BytesSentFinal(17000);
  }

  /** The counter with each addend clamped at zero (`max(0, min(chunkSize,
      size - currentChunk * chunkSize))`), as the display evidently intends. */
  function ClampedBytesSent(size: nat, k: nat): int
  {
    var addend := Min(ChunkSize, size - k * ChunkSize);
    if k == 0 then Min(ChunkSize, size)
    else ClampedBytesSent(size, k - 1) + (if addend < 0 then 0 else addend)
  }

  /** The clamped counter is always `min((k + 1) * chunkSize, size)`: it never
      decreases, never exceeds `size`, and ends at `size` for every size. */
  lemma {:induction false} ClampedBytesSentReachesSize(size: nat, k: nat)
    ensures ClampedBytesSent(size, k) == Min((k + 1) * ChunkSize, size)
    ensures 0 <= ClampedBytesSent(size, k) <= size
    ensures k >= ChunkCount(size) ==> ClampedBytesSent(size, k) == size
  {
    ChunkCountIsCeiling(size);
    if k > 0 {
      ClampedBytesSentReachesSize(size, k - 1);
    }
  }

  // ---------------------------------------------------------------------
  // Wire messages and the sender object
  // ---------------------------------------------------------------------

  /** A message the file holder puts on the data channel: the manifest
      `JSON.stringify({filename, size})`, or one binary slice. */
  datatype Wire = ManifestFrame(filename: string, size: nat) | DataFrame(bytes: seq<Byte>)

  /** The binary messages carrying `chunks`, in order. */
  function Frames(chunks: seq<seq<Byte>>): seq<Wire>
  {
    if chunks == [] then [] else Frames(chunks[..|chunks| - 1]) + [DataFrame(chunks[|chunks| - 1])]
  }

  lemma FramesPush(chunks: seq<seq<Byte>>, x: seq<Byte>)
    ensures Frames(chunks + [x]) == Frames(chunks) + [DataFrame(x)]
  {
    assert (chunks + [x])[..|chunks|] == chunks;
  }

  /** One send of slice `k` extends the frames sent by that slice, and the
      next slice exists exactly when its start is inside the file. */
  lemma SendStep(file: seq<Byte>, k: nat)
    requires k < ChunkCount(|file|)
    ensures Frames(ChunksUpTo(file, k + 1)) == Frames(ChunksUpTo(file, k)) + [DataFrame(Chunk(file, k))]
    ensures (k + 1) * ChunkSize < |file| <==> k + 1 < ChunkCount(|file|)
  {
    FramesPush(ChunksUpTo(file, k), Chunk(file, k));
    ChunkIndexBound(|file|, k + 1);
  }

  /** The `FileReader`: idle, reading a slice [start, end), holding the
      result of its last read, or aborted. */
  datatype Reader = Idle | Reading(start: nat, end: nat) | Loaded(result: seq<Byte>) | Aborted

  /** A connection attempt document written by a downloader. */
  datatype ConnectionDoc = ConnectionDoc(id: string, offer: Description)

  class Sender {
    /** `file.name` and the bytes of `file`. */
    const filename: string
    const file: seq<Byte>

    /** The transfer record's `completed` field. */
    var completed: bool
    /** Connection attempts answered, in the order their "added" changes arrived. */
    var answered: seq<ConnectionDoc>
    /** Local candidates written to `answerCandidates`, with the attempt they went to. */
    var answerCandidates: seq<(string, Candidate)>
    /** Remote candidates passed to `pc.addIceCandidate`. */
    var appliedCandidates: seq<Candidate>

    /** The `datachannel` event has fired. */
    var channelOpen: bool
    /** Everything sent on the data channel, in order. */
    var outbox: seq<Wire>
    /** The QR code element is still in the page; the `download` handler
        removes it first thing and throws if it is already gone. */
    var qrPresent: bool
    var currentChunk: nat
    var bytesSent: int
    var reader: Reader
    /** `dc.onbufferedamountlow` holds a send that has not happened yet. */
    var lowHandlerArmed: bool
    var dcClosed: bool
    var pcClosed: bool

    function Manifest(): Wire
    {
      ManifestFrame(filename, |file|)
    }

    /** `pc.currentRemoteDescription`: each answered attempt sets its offer
        as the remote description, so it is the offer answered last. */
    function RemoteDescription(): Option<Description>
      reads this`answered
    {
      if answered == [] then None else Some(answered[|answered| - 1].offer)
    }

    /** An `offerCandidates` listener exists for `attempt`: one is attached
        after each attempt's answer is written, and never removed. */
    predicate Listening(attempt: string)
      reads this`answered
    {
      exists i :: 0 <= i < |answered| && answered[i].id == attempt
    }

    /** What the reader is doing while the download is in progress: reading
        the current slice, or holding it for a deferred send; nothing pending
        once every slice is sent. */
    ghost predicate ReaderInStep()
      reads this
      requires currentChunk <= ChunkCount(|file|)
    {
      if currentChunk < ChunkCount(|file|) then
        (reader == Reading(ChunkStart(currentChunk), ChunkEnd(|file|, currentChunk)) && !lowHandlerArmed) ||
        (reader == Loaded(Chunk(file, currentChunk)) && lowHandlerArmed)
      else
        !lowHandlerArmed && (reader.Aborted? || reader.Loaded?)
    }

    /** The object invariant: before `download` only the manifest is on the
        wire; afterwards the manifest is followed by the first `currentChunk`
        slices in order, and `bytesSent` is the counter after that many sends. */
    ghost predicate Valid()
      reads this
    {
      Sent() && (!qrPresent ==> ReaderInStep())
    }

    /** The part of `Valid` that does not involve the reader. */
    ghost predicate Sent()
      reads this
    {
      && currentChunk <= ChunkCount(|file|)
      && (qrPresent ==>
            currentChunk == 0 && reader == Idle && !lowHandlerArmed &&
            outbox == (if channelOpen then [Manifest()] else []))
      && (!qrPresent ==>
            channelOpen &&
            outbox == [Manifest()] + Frames(ChunksUpTo(file, currentChunk)) &&
            bytesSent == BytesSent(|file|, currentChunk))
      && (!channelOpen ==> !dcClosed)
      && dcClosed == pcClosed
    }

    /** `send(file)` after the transfer record `{filename, size}` was created
        and before any connection attempt or data channel. */
    constructor (filename: string, file: seq<Byte>)
      ensures Valid()
      ensures this.filename == filename && this.file == file
      ensures !completed && answered == [] && answerCandidates == [] && appliedCandidates == []
      ensures !channelOpen && outbox == [] && qrPresent && !dcClosed && !pcClosed
    {
      this.filename := filename;
      this.file := file;
      completed := false;
      answered := [];
      answerCandidates := [];
      appliedCandidates := [];
      channelOpen := false;
      outbox := [];
      qrPresent := true;
      currentChunk := 0;
      bytesSent := 0;
      reader := Idle;
      lowHandlerArmed := false;
      dcClosed := false;
      pcClosed := false;
    }

    /** The `connections` listener: every "added" attempt is answered (its
        offer set as remote description, an answer created, set locally and
        merged into its document) and its offer candidates are listened to;
        modified and removed attempts are ignored. Local candidates go to the
        attempt answered last. */
    method OnConnectionsSnapshot(changes: seq<Change<ConnectionDoc>>)
      requires Valid()
      modifies this
      ensures Valid()
      ensures answered == old(answered) + AddedDocs(changes)
      ensures RemoteDescription() ==
                if AddedDocs(changes) == [] then old(RemoteDescription())
                else Some(AddedDocs(changes)[|AddedDocs(changes)| - 1].offer)
      ensures forall d :: d in AddedDocs(changes) ==> Listening(d.id)
      ensures outbox == old(outbox) && completed == old(completed)
      ensures answerCandidates == old(answerCandidates) && appliedCandidates == old(appliedCandidates)
      ensures channelOpen == old(channelOpen) && qrPresent == old(qrPresent)
      ensures currentChunk == old(currentChunk) && bytesSent == old(bytesSent)
      ensures reader == old(reader) && lowHandlerArmed == old(lowHandlerArmed)
      ensures dcClosed == old(dcClosed) && pcClosed == old(pcClosed)
    {
      var added := ForEachAdded(changes);
      ghost var before := answered;
      answered := answered + added;
      forall d | d in added
        ensures Listening(d.id)
      {
        var j :| 0 <= j < |added| && added[j] == d;
        assert answered[|before| + j] == d;
      }
    }

    /** `pc.onicecandidate`: a non-null candidate is written to the
        `answerCandidates` of the attempt answered last; before any attempt is
        answered the handler is not installed. */
    method OnIceCandidate(candidate: Option<Candidate>)
      requires Valid()
      modifies this`answerCandidates
      ensures Valid()
      ensures answered != [] && candidate.Some? ==>
                answerCandidates == old(answerCandidates) + [(answered[|answered| - 1].id, candidate.value)]
      ensures answered == [] || candidate.None? ==> answerCandidates == old(answerCandidates)
    {
      if answered != [] && candidate.Some? {
        answerCandidates := answerCandidates + [(answered[|answered| - 1].id, candidate.value)];
      }
    }

    /** A snapshot of the `offerCandidates` of connection attempt `attempt`:
        once that attempt is answered its listener passes only "added"
        candidates to `pc.addIceCandidate`; before that no listener exists. */
    method OnOfferCandidates(attempt: string, changes: seq<Change<Candidate>>)
      requires Valid()
      modifies this`appliedCandidates
      ensures Valid()
      ensures Listening(attempt) ==> appliedCandidates == old(appliedCandidates) + AddedDocs(changes)
      ensures !Listening(attempt) ==> appliedCandidates == old(appliedCandidates)
    {
      if Listening(attempt) {
        var added := ForEachAdded(changes);
        appliedCandidates := appliedCandidates + added;
      }
    }

    /** The `datachannel` event: the manifest is sent first, before anything else. */
    method OnDataChannel()
      requires Valid() && !channelOpen
      modifies this`channelOpen, this`outbox
      ensures Valid()
      ensures channelOpen && outbox == [Manifest()]
    {
      channelOpen := true;
      outbox := [Manifest()];
    }

    /** A message from the downloader. `download` starts the slice reader
        (and, for an empty file, aborts it at once) unless a download already
        started, in which case the handler throws before doing anything; `end`
        closes the channel and the connection and marks the record completed;
        any other message does nothing. */
    method OnMessage(data: string)
      requires Valid() && channelOpen && !dcClosed
      modifies this
      ensures Valid()
      ensures data == "download" && old(qrPresent) ==>
                && !qrPresent && currentChunk == 0 && outbox == old(outbox)
                && bytesSent == Min(ChunkSize, |file|)
                && !lowHandlerArmed
                && reader == (if |file| == 0 then Aborted else Reading(0, Min(ChunkSize, |file|)))
                && completed == old(completed) && !dcClosed && !pcClosed
                && answered == old(answered) && answerCandidates == old(answerCandidates)
                && appliedCandidates == old(appliedCandidates) && channelOpen
      ensures data == "end" ==>
                && dcClosed && pcClosed && completed
                && outbox == old(outbox) && qrPresent == old(qrPresent)
                && currentChunk == old(currentChunk) && bytesSent == old(bytesSent)
                && reader == old(reader) && lowHandlerArmed == old(lowHandlerArmed)
                && answered == old(answered) && answerCandidates == old(answerCandidates)
                && appliedCandidates == old(appliedCandidates) && channelOpen
      ensures (data != "download" && data != "end") || (data == "download" && !old(qrPresent)) ==>
                unchanged(this)
    {
      if data == "download" {
        if !qrPresent {
          return;
        }
        qrPresent := false;
        currentChunk := 0;
        bytesSent := 0;
        reader := Reading(0, Min(ChunkSize, |file|));
        bytesSent := bytesSent + Min(ChunkSize, |file|);
        if currentChunk * ChunkSize >= |file| {
          reader := Aborted;
        }
        assert Frames(ChunksUpTo(file, 0)) == [];
      } else if data == "end" {
        dcClosed := true;
        pcClosed := true;
        completed := true;
      }
    }

    /** The shared tail of both branches of `reader.onload`: send the loaded
        slice, advance, update the counter, and start reading the next slice
        if one remains. */
    method SendLoaded()
      requires Sent() && !qrPresent && currentChunk < ChunkCount(|file|)
      requires reader == Loaded(Chunk(file, currentChunk))
      modifies this`outbox, this`currentChunk, this`bytesSent, this`reader, this`lowHandlerArmed
      ensures Valid()
      ensures currentChunk == old(currentChunk) + 1
      ensures outbox == old(outbox) + [DataFrame(Chunk(file, old(currentChunk)))]
      ensures !lowHandlerArmed
      ensures currentChunk < ChunkCount(|file|) ==> reader.Reading?
    {
      PushLoaded();
      if currentChunk * ChunkSize < |file| {
        reader := Reading(currentChunk * ChunkSize, Min((currentChunk + 1) * ChunkSize, |file|));
      }
    }

    /** The send itself: the loaded slice goes on the wire, and the index and
        the counter advance as the source writes them. */
    method PushLoaded()
      requires Sent() && !qrPresent && currentChunk < ChunkCount(|file|)
      requires reader == Loaded(Chunk(file, currentChunk))
      modifies this`outbox, this`currentChunk, this`bytesSent, this`lowHandlerArmed
      ensures Sent() && !lowHandlerArmed
      ensures currentChunk == old(currentChunk) + 1
      ensures outbox == old(outbox) + [DataFrame(Chunk(file, old(currentChunk)))]
      ensures currentChunk * ChunkSize < |file| <==> currentChunk < ChunkCount(|file|)
    {
      SendStep(file, currentChunk);
      outbox := outbox + [DataFrame(reader.result)];
      currentChunk := currentChunk + 1;
      bytesSent := bytesSent + Min(ChunkSize, |file| - currentChunk * ChunkSize);
      lowHandlerArmed := false;
    }

    /** `reader.onload` for the slice being read, with the channel's
        `bufferedAmount` at that moment: over the threshold the send is
        deferred to `onbufferedamountlow`; otherwise the slice is sent now. */
    method OnLoad(bufferedAmount: int)
      requires Valid() && reader.Reading? && !dcClosed
      modifies this`outbox, this`currentChunk, this`bytesSent, this`reader, this`lowHandlerArmed
      ensures Valid()
      ensures bufferedAmount > BufferedAmountLowThreshold ==>
                && outbox == old(outbox) && currentChunk == old(currentChunk)
                && lowHandlerArmed && bytesSent == old(bytesSent)
                && reader == Loaded(Chunk(file, currentChunk))
      ensures bufferedAmount <= BufferedAmountLowThreshold ==>
                && old(currentChunk) < ChunkCount(|file|)
                && outbox == old(outbox) + [DataFrame(Chunk(file, old(currentChunk)))]
                && currentChunk == old(currentChunk) + 1 && !lowHandlerArmed
                && (currentChunk < ChunkCount(|file|) ==> reader.Reading?)
    {
      reader := Loaded(file[reader.start..reader.end]);
      if bufferedAmount > BufferedAmountLowThreshold {
        lowHandlerArmed := true;
      } else {
        SendLoaded();
      }
    }

    /** `dc.onbufferedamountlow` firing for a deferred send. */
    method OnBufferedAmountLow()
      requires Valid() && lowHandlerArmed && !dcClosed
      modifies this`outbox, this`currentChunk, this`bytesSent, this`reader, this`lowHandlerArmed
      ensures Valid()
      ensures old(currentChunk) < ChunkCount(|file|)
      ensures outbox == old(outbox) + [DataFrame(Chunk(file, old(currentChunk)))]
      ensures currentChunk == old(currentChunk) + 1 && !lowHandlerArmed
      ensures currentChunk < ChunkCount(|file|) ==> reader.Reading?
    {
      SendLoaded();
    }

    /** The whole chunk loop after `download`: slice `k` finishes loading
        when the buffered amount is `bufferedAmounts[k]`, and a deferred send
        goes out when the buffer next drains. Every slice is sent, once, in
        increasing offset order, and nothing else is sent. */
    method Pump(bufferedAmounts: seq<int>)
      requires Valid() && !qrPresent && !dcClosed && !lowHandlerArmed && currentChunk == 0
      requires |bufferedAmounts| == ChunkCount(|file|)
      modifies this`outbox, this`currentChunk, this`bytesSent, this`reader, this`lowHandlerArmed
      ensures Valid()
      ensures currentChunk == ChunkCount(|file|) && !lowHandlerArmed
      ensures outbox == [Manifest()] + Frames(AllChunks(file))
      ensures bytesSent == BytesSent(|file|, ChunkCount(|file|))
    {
      while currentChunk < ChunkCount(|file|)
        invariant Valid() && !qrPresent && !lowHandlerArmed
        invariant currentChunk < ChunkCount(|file|) ==> reader.Reading?
        decreases ChunkCount(|file|) - currentChunk
      {
        OnLoad(bufferedAmounts[currentChunk]);
        if lowHandlerArmed {
          OnBufferedAmountLow();
        }
      }
    }
  }
}
