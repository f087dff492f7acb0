/** src/main.ts: the page's entry point. It chooses the downloader's role
    when the query has a non-empty `receive` parameter and the file holder's
    otherwise. The downloader keeps `filename`, `size`, `bytesReceived` and
    the list of received buffers, and its `dc.onmessage` handler takes the
    first text message as the manifest and every later binary message as
    file data, until at least `size` bytes are in. */
module App {
  import opened Base
  import opened Params

  // ---------------------------------------------------------------------
  // Role selection
  // ---------------------------------------------------------------------

  datatype Role = ReceiveRole(transferId: string) | SendRole

  /** `if (params.receive)`: a present and non-empty value is truthy. */
  function ChooseRole(params: map<string, string>): (role: Role)
    ensures role.ReceiveRole? <==> "receive" in params && params["receive"] != ""
    ensures role.ReceiveRole? ==> role.transferId == params["receive"]
  {
    if "receive" in params && params["receive"] != "" then ReceiveRole(params["receive"]) else SendRole
  }

  /** From the raw query: the page receives exactly when the last `receive`
      pair has a non-empty value, and then joins that transfer. */
  lemma RoleFromQuery(pairs: Query)
    ensures ChooseRole(Collect(pairs)) ==
            match LastValue(pairs, "receive")
            case Some(id) => if id != "" then ReceiveRole(id) else SendRole
            case None => SendRole
  {
    CollectIsLastValue(pairs, "receive");
  }

  // ---------------------------------------------------------------------
  // The receiving state machine
  // ---------------------------------------------------------------------

  /** The parsed manifest `{filename, size}`. */
  datatype Manifest = Manifest(filename: string, size: int)

  /** A message on the data channel: text (with its manifest, or None when
      `JSON.parse` throws) or an `ArrayBuffer`. */
  datatype Message = Text(manifest: Option<Manifest>) | Binary(bytes: seq<Byte>)

  /** The control messages the downloader sends. */
  datatype Control = Download | End

  /** What `saveBlob` is handed. */
  datatype SavedFile = SavedFile(filename: string, contents: seq<Byte>)

  /** The downloader's state. `filename` and `size` start undefined, which
      is as falsy as "" and 0. */
  datatype ReceiverState = ReceiverState(
    filename: string,
    size: int,
    bytesReceived: int,
    incomingData: seq<seq<Byte>>,
    downloadEnabled: bool,
    sent: seq<Control>,
    dcClosed: bool,
    pcClosed: bool,
    saved: Option<SavedFile>)

  const Initial := ReceiverState("", 0, 0, [], false, [], false, false, None)

  /** `!filename && !size`: the manifest may still be parsed. */
  predicate AwaitingManifest(st: ReceiverState)
  {
    st.filename == "" && st.size == 0
  }

  /** `filename && size`: binary data is accepted. */
  predicate HasManifest(st: ReceiverState)
  {
    st.filename != "" && st.size != 0
  }

  /** `dc.onmessage` for one message. */
  function Deliver(st: ReceiverState, m: Message): ReceiverState
  {
    match m
    case Text(parsed) =>
      if AwaitingManifest(st) && parsed.Some? then
        st.(filename := parsed.value.filename, size := parsed.value.size, downloadEnabled := true)
      else st
    case Binary(bytes) =>
      if HasManifest(st) then Accept(st, bytes) else st
  }

  /** A binary message after the manifest: buffered and counted; once at
      least `size` bytes are in, `end` is sent, the channel and the
      connection are closed and the buffers are saved in order. */
  function Accept(st: ReceiverState, bytes: seq<Byte>): ReceiverState
  {
    var data := st.incomingData + [bytes];
    var received := st.bytesReceived + |bytes|;
    if received >= st.size then
      st.(incomingData := data, bytesReceived := received, sent := st.sent + [End],
          dcClosed := true, pcClosed := true, saved := Some(SavedFile(st.filename, Concat(data))))
    else
      st.(incomingData := data, bytesReceived := received)
  }

  /** Messages in order; a closed channel delivers nothing more. */
  function DeliverAll(st: ReceiverState, msgs: seq<Message>): ReceiverState
    decreases |msgs|
  {
    if msgs == [] || st.dcClosed then st else DeliverAll(Deliver(st, msgs[0]), msgs[1..])
  }

  /** `downloadButton.onclick`: sends `download` and disables the button.
      A disabled button does not fire, and `dc.send` on a closed channel
      throws before the button is disabled. */
  function ClickDownload(st: ReceiverState): ReceiverState
  {
    if st.downloadEnabled && !st.dcClosed then st.(sent := st.sent + [Download], downloadEnabled := false)
    else st
  }

  /** The 5-second timeout fires when nothing was received and the
      connection is not connected. */
  predicate TimesOut(bytesReceived: int, connectionState: string)
  {
    bytesReceived == 0 && connectionState != "connected"
  }

  /** The timeout callback: closes the channel and the connection if it fires. */
  function Timeout(st: ReceiverState, connectionState: string): ReceiverState
  {
    if TimesOut(st.bytesReceived, connectionState) then st.(dcClosed := true, pcClosed := true) else st
  }

  /** The number of `end` messages in a list of sent controls. */
  function Ends(sent: seq<Control>): nat
  {
    if sent == [] then 0 else Ends(sent[..|sent| - 1]) + (if sent[|sent| - 1] == End then 1 else 0)
  }

  lemma EndsPush(sent: seq<Control>, c: Control)
    ensures Ends(sent + [c]) == Ends(sent) + (if c == End then 1 else 0)
  {
    assert (sent + [c])[..|sent|] == sent;
  }

  /** The receiver's invariant: the counter is the sum of the buffered
      lengths; data is buffered only after a manifest; `end` is sent at most
      once, exactly when the file was saved, which happens only with at least
      `size` bytes in, after closing, and saves the buffers in arrival order. */
  ghost predicate Inv(st: ReceiverState)
  {
    && st.bytesReceived == TotalLength(st.incomingData)
    && (st.incomingData != [] ==> HasManifest(st))
    && Ends(st.sent) == (if st.saved.Some? then 1 else 0)
    && (st.saved.Some? ==>
          st.dcClosed && st.pcClosed && st.bytesReceived >= st.size &&
          st.saved.value == SavedFile(st.filename, Concat(st.incomingData)))
  }

  /** Each message handled on an open channel keeps the invariant. */
  lemma DeliverKeepsInv(st: ReceiverState, m: Message)
    requires Inv(st) && !st.dcClosed
    ensures Inv(Deliver(st, m))
  {
    assert st.saved.None?;
    match m
    case Text(parsed) =>
      if AwaitingManifest(st) && parsed.Some? {
        var next := Deliver(st, m);
        assert st.incomingData == [];
        assert next.incomingData == st.incomingData && next.bytesReceived == st.bytesReceived;
        assert next.sent == st.sent && next.saved == st.saved;
      }
    case Binary(bytes) =>
      if HasManifest(st) {
        AcceptKeepsInv(st, bytes);
      }
  }

  /** A binary message after the manifest keeps the invariant: the counter
      grows by the buffer's length, and `end` goes out with the save. */
  lemma AcceptKeepsInv(st: ReceiverState, bytes: seq<Byte>)
    requires Inv(st) && !st.dcClosed && HasManifest(st)
    ensures Inv(Accept(st, bytes))
  {
    var next := Accept(st, bytes);
    assert st.saved.None?;
    assert next.incomingData == st.incomingData + [bytes];
    assert next.bytesReceived == TotalLength(next.incomingData) by {
      ConcatPush(st.incomingData, bytes);
    }
    if next.bytesReceived >= st.size {
      assert Ends(next.sent) == 1 by {
        EndsPush(st.sent, End);
      }
    } else {
      assert next.sent == st.sent && next.saved.None?;
    }
  }

  /** Any sequence of messages keeps the invariant. */
  lemma {:induction false} DeliverAllKeepsInv(st: ReceiverState, msgs: seq<Message>)
    requires Inv(st)
    ensures Inv(DeliverAll(st, msgs))
    decreases |msgs|
  {
    if msgs != [] && !st.dcClosed {
      DeliverKeepsInv(st, msgs[0]);
      DeliverAllKeepsInv(Deliver(st, msgs[0]), msgs[1..]);
    }
  }

  /** Clicking and the timeout keep the invariant too. */
  lemma ClickAndTimeoutKeepInv(st: ReceiverState, connectionState: string)
    requires Inv(st)
    ensures Inv(ClickDownload(st)) && Inv(Timeout(st, connectionState))
  {
    if st.downloadEnabled && !st.dcClosed {
      EndsPush(st.sent, Download);
    }
  }

  /** Once a manifest is in (either field truthy), no later message changes
      `filename` or `size`. */
  lemma {:induction false} ManifestLockedIn(st: ReceiverState, msgs: seq<Message>)
    requires !AwaitingManifest(st)
    ensures DeliverAll(st, msgs).filename == st.filename
    ensures DeliverAll(st, msgs).size == st.size
    decreases |msgs|
  {
    if msgs != [] && !st.dcClosed {
      ManifestLockedIn(Deliver(st, msgs[0]), msgs[1..]);
    }
  }

  /** Before the manifest, binary messages are ignored: without a text
      message nothing changes at all. */
  lemma {:induction false} NoDataBeforeManifest(st: ReceiverState, msgs: seq<Message>)
    requires AwaitingManifest(st)
    requires forall i :: 0 <= i < |msgs| ==> msgs[i].Binary?
    ensures DeliverAll(st, msgs) == st
    decreases |msgs|
  {
    if msgs != [] && !st.dcClosed {
      NoDataBeforeManifest(st, msgs[1..]);
    }
  }

  /** With a manifest of size 0 (and a filename) every message is ignored:
      no data is ever accepted and `end` is never sent. */
  lemma {:induction false} EmptyManifestStalls(st: ReceiverState, msgs: seq<Message>)
    requires st.filename != "" && st.size == 0
    ensures DeliverAll(st, msgs) == st
    decreases |msgs|
  {
    if msgs != [] && !st.dcClosed {
      EmptyManifestStalls(st, msgs[1..]);
    }
  }

  /** With a size but an empty file name the manifest slot is taken (the size
      is truthy) yet the data guard `filename && size` fails: every message
      is ignored, no data is accepted and `end` is never sent. */
  lemma {:induction false} EmptyNameStalls(st: ReceiverState, msgs: seq<Message>)
    requires st.filename == "" && st.size != 0
    ensures DeliverAll(st, msgs) == st
    decreases |msgs|
  {
    if msgs != [] && !st.dcClosed {
      EmptyNameStalls(st, msgs[1..]);
    }
  }

  /** The saved blob holds exactly the counted bytes, at least `size` of them. */
  lemma SavedHoldsReceived(st: ReceiverState)
    requires Inv(st) && st.saved.Some?
    ensures |st.saved.value.contents| == st.bytesReceived >= st.size
  {
    ConcatLength(st.incomingData);
  }

  /** The downloader: the state of `src/main.ts` held in fields that the
      `dc.onmessage` handler, the button and the timeout update in place. */
  class Receiver {
    var filename: string
    var size: int
    var bytesReceived: int
    var incomingData: seq<seq<Byte>>
    var downloadEnabled: bool
    /** Control messages sent on the data channel, in order. */
    var sent: seq<Control>
    var dcClosed: bool
    var pcClosed: bool
    var saved: Option<SavedFile>

    function State(): ReceiverState
      reads this
    {
      ReceiverState(filename, size, bytesReceived, incomingData, downloadEnabled, sent, dcClosed, pcClosed, saved)
    }

    ghost predicate Valid()
      reads this
    {
      Inv(State())
    }

    /** The state once `connect` has returned, before the channel opens. */
    constructor ()
      ensures Valid() && State() == Initial
    {
      filename := "";
      size := 0;
      bytesReceived := 0;
      incomingData := [];
      downloadEnabled := false;
      sent := [];
      dcClosed := false;
      pcClosed := false;
      saved := None;
    }

    /** `dc.onmessage`; messages arrive only while the channel is open. */
    method OnMessage(m: Message)
      requires Valid() && !dcClosed
      modifies this
      ensures Valid()
      ensures State() == Deliver(old(State()), m)
    {
      if m.Text? && filename == "" && size == 0 {
        TakeManifest(m.manifest);
      } else if m.Binary? && filename != "" && size != 0 {
        TakeData(m.bytes);
      }
    }

    /** The first branch of `dc.onmessage`: a text message while neither
        `filename` nor `size` is set. `JSON.parse` gives the manifest, whose
        fields are taken and the download button enabled; text that does not
        parse (None) throws before anything changes. */
    method TakeManifest(manifest: Option<Manifest>)
      requires Valid() && !dcClosed && AwaitingManifest(State())
      modifies this`filename, this`size, this`downloadEnabled
      ensures Valid()
      ensures State() == Deliver(old(State()), Text(manifest))
    {
      ghost var st := State();
      DeliverKeepsInv(st, Text(manifest));
      if manifest.Some? {
        filename, size := manifest.value.filename, manifest.value.size;
        downloadEnabled := true;
      }
    }

    /** The second branch: a binary message once `filename` and `size` are
        set is buffered and counted; with at least `size` bytes in, `end` is
        sent, the channel and the connection closed and the buffers saved. */
    method TakeData(bytes: seq<Byte>)
      requires Valid() && !dcClosed && HasManifest(State())
      modifies this`incomingData, this`bytesReceived, this`sent, this`dcClosed, this`pcClosed, this`saved
      ensures Valid()
      ensures State() == Accept(old(State()), bytes)
      ensures State() == Deliver(old(State()), Binary(bytes))
    {
      ghost var st := State();
      var data := incomingData + [bytes];
      var received := bytesReceived + |bytes|;
      if received >= size {
        incomingData, bytesReceived, sent, dcClosed, pcClosed, saved :=
          data, received, sent + [End], true, true, Some(SavedFile(filename, Concat(data)));
      } else {
        incomingData, bytesReceived := data, received;
      }
      assert State() == Accept(st, bytes);
      AcceptKeepsInv(st, bytes);
    }

    /** `downloadButton.onclick`. */
    method OnDownloadClick()
      requires Valid()
      modifies this`sent, this`downloadEnabled
      ensures Valid()
      ensures State() == ClickDownload(old(State()))
    {
      ClickAndTimeoutKeepInv(State(), "");
      if downloadEnabled && !dcClosed {
        sent := sent + [Download];
        downloadEnabled := false;
      }
    }

    /** The `setTimeout` callback, with `pc.connectionState` at that moment. */
    method OnTimeout(connectionState: string)
      requires Valid()
      modifies this`dcClosed, this`pcClosed
      ensures Valid()
      ensures State() == Timeout(old(State()), connectionState)
    {
      ClickAndTimeoutKeepInv(State(), connectionState);
      if bytesReceived == 0 && connectionState != "connected" {
        dcClosed := true;
        pcClosed := true;
      }
    }
  }
}
