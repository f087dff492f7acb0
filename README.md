# webft transfer protocol in Dafny

This project models the core of webft, a browser-to-browser file transfer
over a WebRTC data channel. It covers two protocols, each proved against a
specification:

- **Negotiation.** A Firestore document store carries the signalling.
- **Chunked transfer.** The file itself is sent over the data channel once
  it is open.

The modelled parts are:

- **The file holder** (`src/lib/send.ts`) is the class `Send.Sender`.
  - It answers each connection attempt that arrives as an "added" change.
  - It sends the manifest `{filename, size}` as soon as the data channel
    opens.
  - On a `download` message it reads the file in slices of 8196 bytes. Each
    slice goes out at once, or is deferred until `onbufferedamountlow` while
    the channel's `bufferedAmount` is over 65536.
  - On `end` it closes the channel and the connection and marks the
    transfer record completed.
  - The slicing arithmetic is plain functions and lemmas. They show that the
    slices partition `[0, size)`, that there are `ceil(size / 8196)` of them,
    and that they reassemble to the file.
- **The downloader's negotiation** (`src/lib/receive.ts`) is
  `Receive.CheckTransfer` plus the class `Receive.Downloader`.
  - It refuses a missing or completed transfer before it creates an offer.
  - It installs its candidate writer, then writes its offer, and only then
    subscribes to the store for the answer and the file holder's candidates.
  - It applies the first answer only, then unsubscribes.
  - It applies only "added" candidates.
- **The downloader's message handler** (`src/main.ts`) is the class
  `App.Receiver`, specified by the pure transition `App.Deliver`.
  - The first text message is the manifest. After that, `filename` and
    `size` are locked.
  - Binary messages are buffered only after the manifest, in arrival order.
  - Once `bytesReceived >= size`, the receiver sends `end`, closes up, and
    saves the buffers concatenated in order.
  - This part also covers the download button, the 5-second timeout and the
    send/receive role choice.
- **The helpers** (`src/lib/helpers.ts`, `src/lib/params.ts`) are the
  connection-state colour, the integer branches of `formatBytes`, and the
  last-wins fold of query pairs in `getParams`, into a plain object that never
  stores the key `__proto__`.
- **The end-to-end run** is `Transfer.RunTransfer`. It joins the file holder
  and the downloader over an ordered channel. Take a non-empty file with a
  non-empty name, any buffered amount at each slice's load, and one deferred
  send for each deferral. Then the downloader saves exactly the file, sends
  `download` and then `end` once each, and the record is marked completed.
  Later firings of a buffer-low handler after its deferred send are not
  covered (see "## Left out").

Callbacks (`reader.onload`, `onbufferedamountlow`, `dc.onmessage`, store
snapshots, the timeout) are methods. Calling them in sequence is a sequence
of events. The store, the peer connection and `createOffer` / `createAnswer`
are foreign calls:

- their results are parameters (the transfer document, the offer, the
  snapshots, the buffered amount);
- the calls made on them are recorded as an ordered effect log or as
  sequence fields.

The model follows the code where it departs from what a reader might
expect of such a protocol:

- The chunk size is 8196, not the power of two 8192.
- The downloader completes on `bytesReceived >= size`, not on equality.
- With a file of size 0, no slice is ever sent. The manifest size 0 is
  falsy, so the downloader never accepts data and never sends `end`, and the
  transfer never completes; it does not finish at once with an immediate
  `end` (`Transfer.RunEmptyTransfer`, `App.EmptyManifestStalls`).
- A manifest with a size but an empty file name takes the manifest slot,
  because the size is truthy. The data guard `filename && size` then refuses
  every slice, so this transfer stalls as well (`App.EmptyNameStalls`).
- A second `download` request starts no second send loop. This is not done
  by a guard: the handler throws when it tries to remove the QR element,
  which the first request already removed. The model keeps this as the flag
  `qrPresent`.
- The downloader creates the data channel and the offer, and the file holder
  answers; the file holder never makes an offer. The file holder also
  keeps no "already answered" set: it relies on the store reporting each
  attempt as "added" only once.

## Model

| member | source | states |
|---|---|---|
| `Helpers.ConnectionStateColor` | src/lib/helpers.ts:1-10 | "green" exactly for "connected", "orange" exactly for "connecting", "red" exactly for every other state string |
| `Helpers.FormatBytes` | src/lib/helpers.ts:19-39 | a text is produced exactly for the 'B' unit, and for 0 bytes with no unit or any unit but 'KB' to 'TB'; every such text ends in " B" |
| `Helpers.FormatBytesInB` | src/lib/helpers.ts:24-25 | `formatBytes(b, 'B')` is a decimal rendering followed by " B" that parses back to `b` |
| `Helpers.FormatBytesZero` | src/lib/helpers.ts:34-35 | with no unit, 0 bytes formats as "0 B", the same text as with the 'B' unit |
| `Params.GetParams` | src/lib/params.ts:1-8 | the loop's result is the fold of the pairs; its keys are exactly the query's keys other than `__proto__`; each stored key holds the value of its last occurrence; an empty query gives an empty map |
| `Params.CollectIsLastValue` | src/lib/params.ts:3-6 | folding the pairs agrees key by key with a backward scan for the last pair of that key, and `__proto__` is never stored |
| `Params.LastValueIsLastOccurrence` | src/lib/params.ts:4-5 | a key has a value exactly when it occurs, and that value is the one at its last occurrence |
| `Signaling.ForEachAdded` | src/lib/receive.ts:60-65 | the `forEach` over `docChanges()` acts on exactly the "added" changes, in delivery order |
| `Signaling.AddedDocsExactly` | src/lib/send.ts:76-83 | a document is acted on if and only if some "added" change carries it |
| `Signaling.NoAddedNoDocs` | src/lib/send.ts:47-49 | a snapshot of only modified and removed changes triggers nothing |
| `Send.ChunkCountIsCeiling` | src/lib/send.ts:128-132 | the number of slices read is `ceil(size / 8196)`: zero exactly for an empty file |
| `Send.ChunksPartition` | src/lib/send.ts:113-131 | the slices are non-empty, start at 0, each starts where the previous ended, and the last ends at `size`, so they are disjoint and cover `[0, size)` |
| `Send.ChunksUpToPrefix` | src/lib/send.ts:120-131 | the first `k` slices concatenated are the first `min(k * 8196, size)` bytes of the file |
| `Send.ChunksUpToAt` | src/lib/send.ts:123 | the `j`-th slice read is `file.slice(j * 8196, min((j + 1) * 8196, size))` |
| `Send.AllChunksReassemble` | src/lib/send.ts:108-139 | all slices, in order, reassemble to the file, and there are `ceil(size / 8196)` of them |
| `Send.BytesSentAhead` | src/lib/send.ts:114-129 | before the last send, `bytesSent` is `min((k + 1) * 8196, size)`, one slice ahead of what was sent |
| `Send.BytesSentFinal` | src/lib/send.ts:121-129 | after the last send, `bytesSent` is `2 * size - n * 8196`, which equals `size` if and only if 8196 divides `size` |
| `Send.BytesSentEndsShort` | src/lib/send.ts:129 | for a 17000-byte file, three slices are sent and `bytesSent` ends at 9412 |
| `Send.ClampedBytesSentReachesSize` | src/lib/send.ts:121 | with each addend clamped at 0, the counter is `min((k + 1) * 8196, size)`: within `[0, size]`, and `size` once all slices are sent |
| `Send.Sender.constructor` | src/lib/send.ts:18-37 | after the record is created: nothing sent, nothing answered, not completed |
| `Send.Sender.OnConnectionsSnapshot` | src/lib/send.ts:47-86 | answers exactly the "added" connection attempts, in order; the remote description becomes the offer of the last one answered; each answered attempt gets its `offerCandidates` listener; nothing on the data channel changes |
| `Send.Sender.OnIceCandidate` | src/lib/send.ts:63-67 | a non-null local candidate is written to the last answered attempt; a null one is not |
| `Send.Sender.OnOfferCandidates` | src/lib/send.ts:73-83 | for an answered attempt, exactly its "added" offer candidates are applied, in order; for an attempt not yet answered there is no listener and nothing is applied |
| `Send.Sender.OnDataChannel` | src/lib/send.ts:89-96 | the manifest `{filename, size}` is the first and only message on the new channel |
| `Send.Sender.OnMessage` | src/lib/send.ts:98-145 | `download` starts reading slice 0 with `bytesSent = min(8196, size)`, and aborts the read for an empty file; a repeated `download` changes nothing; `end` closes the channel and the connection and sets `completed`; any other message changes nothing; throughout, the wire holds the manifest followed by the slices sent so far |
| `Send.Sender.SendLoaded` | src/lib/send.ts:127-132 | the loaded slice is sent, the chunk index advances, and the next slice is read if one remains |
| `Send.Sender.OnLoad` | src/lib/send.ts:116-133 | over the 65536 threshold the slice is held and nothing is sent; otherwise exactly the current slice is sent next |
| `Send.Sender.OnBufferedAmountLow` | src/lib/send.ts:118-125 | the deferred slice is sent and the next read starts |
| `Send.Sender.Pump` | src/lib/send.ts:111-133 | for any buffered amount at each slice's load, with one deferred send per deferral, every slice is sent once, in offset order, after the manifest, and `bytesSent` ends at the as-written final value |
| `Receive.CheckTransfer` | src/lib/receive.ts:22-69 | "invalid transfer" exactly when the record is missing; "transfer already completed" exactly when it is completed; otherwise it proceeds |
| `Receive.ErrorMessage` | src/lib/receive.ts:24-68 | "invalid transfer" is thrown exactly for a missing record and "transfer already completed" exactly for a completed one; the two texts differ |
| `Receive.FirstAnswerWins` | src/lib/receive.ts:49-56 | over any snapshot sequence, the remote description ends as the first answer seen, and the listener is unsubscribed exactly when one was seen |
| `Receive.AppliedAnswerStays` | src/lib/receive.ts:51-54 | once an answer is applied, no later snapshot changes it |
| `Receive.NoAnswerNoChange` | src/lib/receive.ts:50-51 | snapshots without an `answer` change nothing |
| `Receive.Downloader.constructor` | src/lib/receive.ts:19-20 | the downloader creates the data channel first |
| `Receive.Downloader.Connect` | src/lib/receive.ts:22-71 | a refused transfer reads the record and does nothing else; otherwise offer created, set locally and written, then the answer and candidate listeners, in that order |
| `Receive.Downloader.OnIceCandidate` | src/lib/receive.ts:37-41 | only non-null candidates are written to `offerCandidates` |
| `Receive.Downloader.OnConnectionSnapshot` | src/lib/receive.ts:49-56 | applies the answer only when none is set and the snapshot has one, then unsubscribes; the remote description is set at most once |
| `Receive.Downloader.OnAnswerCandidates` | src/lib/receive.ts:59-66 | only "added" answer candidates are applied |
| `App.ChooseRole` | src/main.ts:20-79 | receive mode if and only if `params.receive` is present and non-empty, joining that transfer |
| `App.RoleFromQuery` | src/main.ts:10-20 | from the raw query: receive mode if and only if the last `receive` pair is non-empty |
| `App.DeliverKeepsInv` | src/main.ts:47-73 | each message keeps the invariant: counter = sum of buffered lengths; data only after a manifest; `end` sent once, exactly when the in-order concatenation was saved with `bytesReceived >= size` |
| `App.AcceptKeepsInv` | src/main.ts:60-71 | a binary message after the manifest keeps the invariant: the counter grows by the buffer's length and `end` goes out once, with the save |
| `App.DeliverAllKeepsInv` | src/main.ts:60-71 | any message sequence keeps that invariant |
| `App.ClickAndTimeoutKeepInv` | src/main.ts:31-59 | the download button and the timeout keep that invariant |
| `App.ManifestLockedIn` | src/main.ts:49-51 | once `filename` or `size` is set, no message changes either |
| `App.NoDataBeforeManifest` | src/main.ts:60 | before the manifest, binary messages change nothing |
| `App.EmptyNameStalls` | src/main.ts:48-59 | after a manifest with a size and an empty file name, no message is accepted and `end` is never sent |
| `App.SavedHoldsReceived` | src/main.ts:61-69 | the saved blob holds exactly `bytesReceived` bytes, at least `size` of them |
| `App.EmptyManifestStalls` | src/main.ts:49-65 | after a manifest with size 0, no message is accepted and `end` is never sent |
| `App.Receiver.constructor` | src/main.ts:26-29 | starts with no manifest, no data, nothing sent |
| `App.Receiver.OnMessage` | src/main.ts:47-73 | the fields change as `Deliver` says, and the invariant is kept |
| `App.Receiver.TakeManifest` | src/main.ts:49-59 | the first text message sets `filename` and `size` from the manifest and enables the button; unparsable text changes nothing |
| `App.Receiver.TakeData` | src/main.ts:60-71 | a binary message after the manifest is buffered and counted, and at `size` bytes or more `end` is sent, both closed and the buffers saved in order |
| `App.Receiver.OnDownloadClick` | src/main.ts:56-59 | an enabled button sends `download` and disables itself |
| `App.Receiver.OnTimeout` | src/main.ts:31-38 | closes the channel and the connection if and only if nothing was received and the state is not "connected" |
| `Transfer.Connect` | src/lib/send.ts:89-96 | the manifest is the first message on the opened channel; the downloader takes it, enables the button and, on the click, has sent exactly `download` |
| `Transfer.Open` | src/lib/send.ts:99-114 | that `download` starts the file holder's reader at slice 0 with only the manifest on the wire |
| `Transfer.DeliverSlice` | src/main.ts:60-71 | slice `i` moves the downloader from `i` to `i + 1` slices; only the last reaches `size`, and it saves exactly the file |
| `Transfer.DeliverSlices` | src/main.ts:62-71 | delivering every slice in order ends with the file saved and `end` sent |
| `Transfer.DeliverNext` | src/main.ts:60-71 | the downloader holding `i` slices takes slice `i` and then holds `i + 1` |
| `Transfer.RunTransfer` | src/lib/send.ts:89-145 | for a non-empty file with a non-empty name, any buffered amount at each slice's load and one deferred send per deferral: manifest first, then every slice; the downloader saves exactly the file under its name and sends `download` then `end` once each; the record is marked completed |
| `Transfer.RunEmptyTransfer` | src/lib/send.ts:113-139 | for an empty file: only the manifest is sent, `download` is requested, nothing is saved, no `end`, never completed |

## Findings

| source | as written | input that shows it | evidently intended | confidence | as-written member | corrected member |
|---|---|---|---|---|---|---|
| src/lib/send.ts:121-129 | after each send, `bytesSent += Math.min(chunkSize, size - currentChunk * chunkSize)`; after the last slice this addend is negative | a 17000-byte file: three slices, and the displayed counter ends at 9412 of 17000 | each addend clamped at 0, so the progress shows `size` when all slices are out | high (not executed) | `Send.BytesSentEndsShort` | `Send.ClampedBytesSentReachesSize` |

`Send.Sender` keeps the as-written counter because it models the code.
`Send.BytesSentFinal` states exactly when the two counters agree: when 8196
divides the file size.

## Left out

- Firestore (`addDoc`, `setDoc`, `getDoc`, `onSnapshot`), the
  `RTCPeerConnection` / `RTCDataChannel` internals and App Check are foreign
  code. Their inputs are parameters, and the calls made on them are recorded
  as effects or sequence fields.
- The DOM work is UI: the QR element, the `textContent` / `innerHTML`
  updates, file selection and drag-and-drop (src/main.ts:80-120), and
  `saveBlob`. The one exception is the QR element's removal, which decides
  what a repeated `download` does.
- `largestSizeUnit`, the 'KB' to 'TB' and logarithmic branches of
  `formatBytes`, and `formatDownloadProgress` use floating point. On those
  branches `Helpers.FormatBytes` gives None.
- Helpers.FormatBytes: JavaScript's exponent notation for integers of 1e21
  and above is not modelled. Byte counts are unbounded integers rendered in
  plain decimal.
- `URLSearchParams` parsing is not modelled. `getParams` takes the parsed
  pairs.
- Timing and interleaving are not modelled: `setTimeout` delays,
  `FileReader` asynchrony, concurrent snapshot delivery, and the unawaited
  `setRemoteDescription`. Each event is a method call. An applied answer
  becomes the remote description at once.
- Send.Sender.OnBufferedAmountLow: the `onbufferedamountlow` handler is never
  cleared in the source. The model has at most one pending deferred send per
  slice, and says nothing about stale re-fires after the send.
- Send.Sender.Pump: the source never clears `dc.onbufferedamountlow`
  (src/lib/send.ts:118), so any later drain to 65536 or below runs the
  handler again. That re-fire sends `reader.result`: null while the next slice
  is loading, or the last slice again once every slice is read. It also
  advances `currentChunk`, so a slice can be skipped or sent twice. `Pump`
  allows one deferred send per deferral and does not cover such re-fires.
- Transfer.RunTransfer: its result holds only with one deferred send per
  deferral. A stale buffer-low re-fire, as under `Send.Sender.Pump`, can put
  a null or repeated message on the wire and skip a slice, and the downloader
  then saves a different file or never completes. It also needs a non-empty
  file name: with an empty one the transfer stalls (`App.EmptyNameStalls`).
- Send.Sender.OnLoad: a load or buffer-low event after the channel has closed
  is not modelled (requires `!dcClosed`).
- Send.Sender.OnConnectionsSnapshot: the peer connection's reaction to a
  second offer on the same connection is not modelled. Each "added" attempt
  is recorded as answered.
- The manifest is taken as parsed into a string and an integer. A manifest
  whose fields have other JSON types, and a `NaN` size, are not modelled.
- Messages on a closed channel are not modelled. `App.Receiver.OnMessage`
  and `Send.Sender.OnMessage` require an open channel, and `App.DeliverAll`
  stops at close.
