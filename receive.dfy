/** src/lib/receive.ts: `connect(id)`, the downloader's side of the
    negotiation. It creates the peer connection and the data channel, reads
    the transfer record and refuses a missing or completed transfer. Otherwise
    it installs the candidate writer, creates the offer, sets it locally and
    merges it into a fresh connection document. Only then does it listen for
    the answer, which it applies once before unsubscribing, and for the file
    holder's candidates, of which it applies the "added" ones. */
module Receive {
  import opened Base
  import opened Signaling

  /** The fields of the transfer record this code reads. */
  datatype TransferData = TransferData(completed: bool)

  datatype ConnectError = InvalidTransfer | TransferAlreadyCompleted

  /** The message of the `Error` thrown for each failure. */
  function ErrorMessage(e: ConnectError): (msg: string)
    ensures msg == "invalid transfer" <==> e == InvalidTransfer
    ensures msg == "transfer already completed" <==> e == TransferAlreadyCompleted
  {
    match e
    case InvalidTransfer => "invalid transfer"
    case TransferAlreadyCompleted => "transfer already completed"
  }

  /** The checks on the document `getDoc` returned (None when it does not
      exist): a missing record and a completed one are refused, anything
      else goes ahead. */
  function CheckTransfer(doc: Option<TransferData>): (r: Option<ConnectError>)
    ensures r == Some(InvalidTransfer) <==> doc.None?
    ensures r == Some(TransferAlreadyCompleted) <==> doc.Some? && doc.value.completed
    ensures r.None? <==> doc.Some? && !doc.value.completed
  {
    match doc
    case None => Some(InvalidTransfer)
    case Some(data) => if data.completed then Some(TransferAlreadyCompleted) else None
  }

  /** The calls `connect` makes on the peer connection and the store, in order. */
  datatype Effect =
    | CreateDataChannel
    | ReadTransfer
    | CreateOffer
    | SetLocalDescription(local: Description)
    | WriteOffer(offer: Description)
    | ListenAnswer
    | ListenAnswerCandidates
    | SetRemoteDescription(remote: Description)
    | Unsubscribe

  /** `item.data()` of the connection document: absent, or with its optional
      offer and answer. */
  datatype ConnectionData = ConnectionData(offer: Option<Description>, answer: Option<Description>)

  predicate CarriesAnswer(snapshot: Option<ConnectionData>)
  {
    snapshot.Some? && snapshot.value.answer.Some?
  }

  /** The state the answer listener reads and changes: the connection's
      current remote description and whether the listener is still subscribed. */
  datatype AnswerState = AnswerState(remote: Option<Description>, listening: bool)

  /** One snapshot of the connection document. The store delivers snapshots
      only while subscribed; the listener applies the answer when no remote
      description is set and the snapshot carries one, then unsubscribes. */
  function AnswerStep(st: AnswerState, snapshot: Option<ConnectionData>): AnswerState
  {
    if st.listening && st.remote.None? && CarriesAnswer(snapshot) then
      AnswerState(snapshot.value.answer, false)
    else st
  }

  /** A sequence of snapshots, in delivery order. */
  function AnswerAfter(st: AnswerState, snapshots: seq<Option<ConnectionData>>): AnswerState
    decreases |snapshots|
  {
    if snapshots == [] then st else AnswerAfter(AnswerStep(st, snapshots[0]), snapshots[1..])
  }

  /** Independent reference: the answer of the first snapshot that has one. */
  function FirstAnswer(snapshots: seq<Option<ConnectionData>>): Option<Description>
  {
    if snapshots == [] then None
    else if CarriesAnswer(snapshots[0]) then snapshots[0].value.answer
    else FirstAnswer(snapshots[1..])
  }

  /** However many snapshots arrive, with duplicates or later answers, the
      remote description ends as the first answer seen, and the listener is
      unsubscribed exactly when one was seen. */
  lemma {:induction false} FirstAnswerWins(snapshots: seq<Option<ConnectionData>>)
    ensures AnswerAfter(AnswerState(None, true), snapshots) ==
            if FirstAnswer(snapshots).Some? then AnswerState(FirstAnswer(snapshots), false)
            else AnswerState(None, true)
  {
    if snapshots != [] {
      if CarriesAnswer(snapshots[0]) {
        AppliedAnswerStays(AnswerState(snapshots[0].value.answer, false), snapshots[1..]);
      } else {
        FirstAnswerWins(snapshots[1..]);
      }
    }
  }

  /** Once the answer is applied nothing changes it again. */
  lemma {:induction false} AppliedAnswerStays(st: AnswerState, snapshots: seq<Option<ConnectionData>>)
    requires st.remote.Some?
    ensures AnswerAfter(st, snapshots) == st
  {
    if snapshots != [] {
      AppliedAnswerStays(st, snapshots[1..]);
    }
  }

  /** Snapshots without an `answer` field change nothing. */
  lemma {:induction false} NoAnswerNoChange(st: AnswerState, snapshots: seq<Option<ConnectionData>>)
    requires forall i :: 0 <= i < |snapshots| ==> !CarriesAnswer(snapshots[i])
    ensures AnswerAfter(st, snapshots) == st
  {
    if snapshots != [] {
      NoAnswerNoChange(st, snapshots[1..]);
    }
  }

  /** The number of remote descriptions set in a log of effects. */
  function RemoteSets(effects: seq<Effect>): nat
  {
    if effects == [] then 0
    else RemoteSets(effects[..|effects| - 1]) + (if effects[|effects| - 1].SetRemoteDescription? then 1 else 0)
  }

  lemma {:induction false} NoRemoteSets(effects: seq<Effect>)
    requires forall i :: 0 <= i < |effects| ==> !effects[i].SetRemoteDescription?
    ensures RemoteSets(effects) == 0
  {
    if effects != [] {
      NoRemoteSets(effects[..|effects| - 1]);
    }
  }

  lemma RemoteSetsPush(effects: seq<Effect>, e: Effect)
    ensures RemoteSets(effects + [e]) == RemoteSets(effects) + (if e.SetRemoteDescription? then 1 else 0)
  {
    assert (effects + [e])[..|effects|] == effects;
  }

  /** The sequence of calls of a successful `connect`, up to the listeners. */
  function ConnectEffects(offer: Description): seq<Effect>
  {
    [CreateDataChannel, ReadTransfer, CreateOffer, SetLocalDescription(offer), WriteOffer(offer),
     ListenAnswer, ListenAnswerCandidates]
  }

  /** The downloader's peer connection and its signalling. */
  class Downloader {
    /** Everything done on the peer connection and the store, in order. */
    var effects: seq<Effect>
    /** `pc.onicecandidate` is installed. */
    var iceHandlerSet: bool
    /** `pc.currentRemoteDescription`. */
    var remote: Option<Description>
    /** The answer listener is subscribed. */
    var answerListening: bool
    /** The answer-candidate listener is subscribed. */
    var candidatesListening: bool
    /** Local candidates written to `offerCandidates`. */
    var offerCandidates: seq<Candidate>
    /** Remote candidates passed to `pc.addIceCandidate`. */
    var appliedCandidates: seq<Candidate>

    /** The remote description is set at most once, and exactly when the log
        records it; a listener still waiting has not applied one. */
    ghost predicate Valid()
      reads this
    {
      && RemoteSets(effects) <= 1
      && (remote.Some? <==> RemoteSets(effects) == 1)
      && (answerListening ==> remote.None?)
      && |effects| >= 1 && effects[0] == CreateDataChannel
    }

    /** `new RTCPeerConnection(...)` and `pc.createDataChannel('channel')`:
        the downloader creates the data channel. */
    constructor ()
      ensures Valid()
      ensures effects == [CreateDataChannel] && remote.None?
      ensures !iceHandlerSet && !answerListening && !candidatesListening
      ensures offerCandidates == [] && appliedCandidates == []
    {
      effects := [CreateDataChannel];
      iceHandlerSet := false;
      remote := None;
      answerListening := false;
      candidatesListening := false;
      offerCandidates := [];
      appliedCandidates := [];
    }

    /** The body of `connect` after the data channel exists, given the
        document `getDoc` returns and the offer `pc.createOffer()` produces.
        A refused transfer writes nothing and creates no offer; otherwise the
        offer is set and written before either listener is attached. */
    method Connect(doc: Option<TransferData>, offer: Description) returns (err: Option<ConnectError>)
      requires Valid() && effects == [CreateDataChannel] && remote.None?
      requires !iceHandlerSet && !answerListening && !candidatesListening
      modifies this`effects, this`iceHandlerSet, this`answerListening, this`candidatesListening
      ensures Valid()
      ensures err == CheckTransfer(doc)
      ensures err.Some? ==> effects == [CreateDataChannel, ReadTransfer]
      ensures err.Some? ==> !iceHandlerSet && !answerListening && !candidatesListening
      ensures err.None? ==> effects == ConnectEffects(offer)
      ensures err.None? ==> iceHandlerSet && answerListening && candidatesListening
    {
      effects := effects + [ReadTransfer];
      err := CheckTransfer(doc);
      if err.Some? {
        NoRemoteSets(effects);
        return;
      }
      iceHandlerSet := true;
      effects := effects + [CreateOffer, SetLocalDescription(offer), WriteOffer(offer)];
      answerListening := true;
      effects := effects + [ListenAnswer];
      candidatesListening := true;
      effects := effects + [ListenAnswerCandidates];
      NoRemoteSets(effects);
    }

    /** `pc.onicecandidate`: only a non-null candidate is written. */
    method OnIceCandidate(candidate: Option<Candidate>)
      requires Valid()
      modifies this`offerCandidates
      ensures Valid()
      ensures offerCandidates ==
                if iceHandlerSet && candidate.Some? then old(offerCandidates) + [candidate.value]
                else old(offerCandidates)
    {
      if iceHandlerSet && candidate.Some? {
        offerCandidates := offerCandidates + [candidate.value];
      }
    }

    /** The answer listener, for one snapshot of the connection document. */
    method OnConnectionSnapshot(snapshot: Option<ConnectionData>)
      requires Valid()
      modifies this`remote, this`answerListening, this`effects
      ensures Valid()
      ensures AnswerState(remote, answerListening) == AnswerStep(old(AnswerState(remote, answerListening)), snapshot)
      ensures effects == if remote != old(remote) then old(effects) + [SetRemoteDescription(remote.value), Unsubscribe]
                         else old(effects)
    {
      if answerListening && remote.None? && CarriesAnswer(snapshot) {
        var answer := snapshot.value.answer.value;
        remote := Some(answer);
        RemoteSetsPush(effects, SetRemoteDescription(answer));
        effects := effects + [SetRemoteDescription(answer)];
        answerListening := false;
        RemoteSetsPush(effects, Unsubscribe);
        effects := effects + [Unsubscribe];
      }
    }

    /** The answer-candidate listener: only "added" candidates are applied. */
    method OnAnswerCandidates(changes: seq<Change<Candidate>>)
      requires Valid()
      modifies this`appliedCandidates
      ensures Valid()
      ensures appliedCandidates ==
                if candidatesListening then old(appliedCandidates) + AddedDocs(changes)
                else old(appliedCandidates)
    {
      if candidatesListening {
        var added := ForEachAdded(changes);
        appliedCandidates := appliedCandidates + added;
      }
    }
  }
}
