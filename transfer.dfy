/** The transfer protocol end to end, over one open data channel: the file
    holder's `Sender` (src/lib/send.ts) and the downloader's `Receiver`
    (src/main.ts), with every message delivered in order, as the channel is
    ordered and reliable. */
module Transfer {
  import opened Base
  import opened Send
  import opened App

  /** What arrives at the downloader for a message the file holder sent
      (`JSON.parse` of the manifest gives its fields back). */
  function ToMessage(w: Wire): Message
  {
    match w
    case ManifestFrame(filename, size) => Text(Some(Manifest(filename, size)))
    case DataFrame(bytes) => Binary(bytes)
  }

  /** The text of a control message as the file holder compares it. */
  function ControlText(c: Control): string
  {
    match c
    case Download => "download"
    case End => "end"
  }

  /** The downloader's state once the manifest is in, `download` was sent
      and the first `i` slices have arrived; after the last slice it has
      sent `end`, closed up and saved the file. */
  function Receiving(filename: string, file: seq<Byte>, i: nat): ReceiverState
    requires i <= ChunkCount(|file|)
  {
    if i < ChunkCount(|file|) then
      ReceiverState(filename, |file|, Min(i * ChunkSize, |file|), ChunksUpTo(file, i),
                    false, [Download], false, false, None)
    else
      ReceiverState(filename, |file|, |file|, ChunksUpTo(file, i),
                    false, [Download, End], true, true, Some(SavedFile(filename, file)))
  }

  /** Slice `i` arriving moves the downloader from `i` slices to `i + 1`:
      no slice but the last reaches `size`, and the last one completes the
      file, byte for byte. */
  lemma DeliverSlice(filename: string, file: seq<Byte>, i: nat)
    requires filename != "" && i < ChunkCount(|file|)
    ensures Deliver(Receiving(filename, file, i), Binary(Chunk(file, i))) == Receiving(filename, file, i + 1)
  {
    ChunkCountIsCeiling(|file|);
    ChunksPartition(|file|);
    ChunksUpToPrefix(file, i);
    ChunksUpToPrefix(file, i + 1);
    if i + 1 == ChunkCount(|file|) {
      assert file[..|file|] == file;
    }
  }

  /** The slices on the wire reaching the downloader one by one, in order. */
  method DeliverSlices(receiver: Receiver, filename: string, file: seq<Byte>, wire: seq<Wire>)
    requires filename != "" && |file| > 0
    requires wire == [ManifestFrame(filename, |file|)] + Frames(AllChunks(file))
    requires receiver.Valid() && receiver.State() == Receiving(filename, file, 0)
    modifies receiver
    ensures receiver.Valid() && receiver.State() == Receiving(filename, file, ChunkCount(|file|))
  {
    var n := ChunkCount(|file|);
    var i := 0;
    while i < n
      invariant 0 <= i <= n
      invariant receiver.Valid() && receiver.State() == Receiving(filename, file, i)
    {
      WireAt(filename, file, i);
      DeliverNext(receiver, filename, file, i, ToMessage(wire[i + 1]));
      i := i + 1;
    }
  }

  /** Frame `i + 1` on the wire carries slice `i`. */
  lemma WireAt(filename: string, file: seq<Byte>, i: nat)
    requires i < ChunkCount(|file|)
    ensures |[ManifestFrame(filename, |file|)] + Frames(AllChunks(file))| == ChunkCount(|file|) + 1
    ensures ToMessage(([ManifestFrame(filename, |file|)] + Frames(AllChunks(file)))[i + 1]) == Binary(Chunk(file, i))
  {
    ChunksUpToAt(file, ChunkCount(|file|));
    FramesAt(AllChunks(file), i);
  }

  /** Slice `i` arriving at a downloader that holds the first `i`. */
  method DeliverNext(receiver: Receiver, filename: string, file: seq<Byte>, i: nat, m: Message)
    requires filename != "" && i < ChunkCount(|file|) && m == Binary(Chunk(file, i))
    requires receiver.Valid() && receiver.State() == Receiving(filename, file, i)
    modifies receiver
    ensures receiver.Valid() && receiver.State() == Receiving(filename, file, i + 1)
  {
    DeliverSlice(filename, file, i);
    receiver.OnMessage(m);
  }

  /** The transfer up to the click: the channel opens, the file holder
      sends the manifest, the downloader takes it and the user clicks
      download. */
  method Connect(filename: string, file: seq<Byte>) returns (sender: Sender, receiver: Receiver)
    requires filename != ""
    ensures fresh(sender) && fresh(receiver)
    ensures sender.Valid() && sender.filename == filename && sender.file == file
    ensures sender.channelOpen && sender.qrPresent && !sender.dcClosed && !sender.completed
    ensures sender.outbox == [ManifestFrame(filename, |file|)]
    ensures receiver.Valid()
    ensures receiver.State() == ReceiverState(filename, |file|, 0, [], false, [Download], false, false, None)
  {
    sender := new Sender(filename, file);
    receiver := new Receiver();
    sender.OnDataChannel();
    receiver.OnMessage(ToMessage(sender.outbox[0]));
    receiver.OnDownloadClick();
  }

  /** The transfer up to the first slice: after the click, the downloader's
      `download` reaches the file holder, which starts reading slice 0. */
  method Open(filename: string, file: seq<Byte>) returns (sender: Sender, receiver: Receiver)
    requires filename != ""
    ensures fresh(sender) && fresh(receiver)
    ensures sender.Valid() && sender.filename == filename && sender.file == file
    ensures sender.channelOpen && !sender.qrPresent && !sender.dcClosed && !sender.completed
    ensures !sender.lowHandlerArmed && sender.currentChunk == 0
    ensures sender.outbox == [ManifestFrame(filename, |file|)]
    ensures receiver.Valid()
    ensures receiver.State() == ReceiverState(filename, |file|, 0, [], false, [Download], false, false, None)
  {
    sender, receiver := Connect(filename, file);
    var request := ControlText(receiver.sent[0]);
    assert request == "download";
    sender.OnMessage(request);
  }

  /** A whole transfer of a non-empty file with a non-empty name: the channel
      opens, the manifest arrives, the user clicks download, the file holder
      sends every slice (slice `k` finishing its read while the buffered
      amount is `bufferedAmounts[k]`), the downloader takes them in order and
      answers `end`. The downloader saves exactly the file under its name,
      sends `download` and then `end`, once each, and the transfer record is
      marked completed; on the wire the manifest precedes the slices. */
  method RunTransfer(filename: string, file: seq<Byte>, bufferedAmounts: seq<int>)
    returns (saved: Option<SavedFile>, completed: bool, controls: seq<Control>, wire: seq<Wire>)
    requires filename != "" && |file| > 0
    requires |bufferedAmounts| == ChunkCount(|file|)
    ensures saved == Some(SavedFile(filename, file))
    ensures completed
    ensures controls == [Download, End]
    ensures wire == [ManifestFrame(filename, |file|)] + Frames(AllChunks(file))
  {
    var sender, receiver := Open(filename, file);
    sender.Pump(bufferedAmounts);
    wire := sender.outbox;
    ChunkCountIsCeiling(|file|);
    assert receiver.State() == Receiving(filename, file, 0);
    DeliverSlices(receiver, filename, file, wire);
    assert receiver.sent == [Download, End];
    sender.OnMessage(ControlText(End));
    saved, completed, controls := receiver.saved, sender.completed, receiver.sent;
  }

  /** The same run with an empty file: the download is requested, but the
      first read is aborted, no slice is sent, the downloader (whose manifest
      size 0 is falsy) never sends `end`, nothing is saved and the record is
      never marked completed. */
  method RunEmptyTransfer(filename: string) returns (saved: Option<SavedFile>, completed: bool, controls: seq<Control>, wire: seq<Wire>)
    requires filename != ""
    ensures saved.None? && !completed
    ensures controls == [Download]
    ensures wire == [ManifestFrame(filename, 0)]
  {
    var sender, receiver := Open(filename, []);
    sender.Pump([]);
    assert AllChunks([]) == [];
    saved, completed, controls, wire := receiver.saved, sender.completed, receiver.sent, sender.outbox;
  }

  lemma {:induction false} FramesLength(chunks: seq<seq<Byte>>)
    ensures |Frames(chunks)| == |chunks|
  {
    if chunks != [] {
      FramesLength(chunks[..|chunks| - 1]);
    }
  }

  /** Frame `i` carries chunk `i`. */
  lemma {:induction false} FramesAt(chunks: seq<seq<Byte>>, i: nat)
    requires i < |chunks|
    ensures |Frames(chunks)| == |chunks| && Frames(chunks)[i] == DataFrame(chunks[i])
  {
    FramesLength(chunks);
    if i < |chunks| - 1 {
      FramesAt(chunks[..|chunks| - 1], i);
    }
  }
}
