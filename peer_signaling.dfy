/**
 * The browser side of call set-up: the call hook's handling of signaling
 * messages for one room, the queue of ICE candidates that arrive before
 * the remote description is set, who makes the offer, leaving the call,
 * and how the peer connection's state is shown. The peer connection is
 * abstract: `applied` lists the candidates handed to it, in order, and the
 * remote description is a flag and the description last set.
 */
module PeerSignaling {
  import opened Wrappers

  /** A session description, passed through untouched. */
  type Sdp = string

  /** The four fields the hook copies into an `RTCIceCandidate`. */
  datatype IceCandidate = IceCandidate(candidate: string, sdpMid: Option<string>,
                                       sdpMLineIndex: Option<int>, usernameFragment: Option<string>)

  /** The `chatMessage` object of an incoming chat message. */
  datatype ChatPayload = ChatPayload(id: string, text: string, sender: string, timestamp: string)

  /** The message handed to the chat callback. */
  datatype ChatMessage = ChatMessage(id: string, text: string, sender: string, timestamp: string, isOwn: bool)

  /** The type-dependent part of an incoming message. */
  datatype Body =
    | OfferMsg(offer: Sdp)
    | AnswerMsg(answer: Sdp)
    | CandidateMsg(candidate: Option<IceCandidate>)
    | ChatMsg(chatMessage: Option<ChatPayload>)
    | OtherMsg

  /** An incoming message and the room it names (absent when it names none). */
  datatype ChannelMessage = ChannelMessage(roomId: Option<string>, body: Body)

  /** A message this hook posts. */
  datatype Post = PostOffer(offer: Sdp, room: string) | PostAnswer(answer: Sdp, room: string)

  /** The connection state the hook shows. */
  datatype Shown = Connecting | Connected | Disconnected

  /** `RTCPeerConnection.connectionState`. */
  datatype PeerState = New | PeerConnecting | PeerConnected | PeerDisconnected | Failed | Closed

  const ConnectionFailedMessage := "Connection failed. Check your network connection."

  /** The hook's displayed state, as one value. */
  datatype View = View(connectionState: Shown, isConnected: bool, participantCount: int,
                       hasLocalStream: bool, hasRemoteStream: bool, connectionError: Option<string>)

  /**
   * Whether `new RTCIceCandidate(...)` accepts the fields: it throws a `TypeError` when
   * `sdpMid` and `sdpMLineIndex` are both null.
   */
  predicate Constructible(c: IceCandidate)
  {
    c.sdpMid.Some? || c.sdpMLineIndex.Some?
  }

  /** The candidates of `cs` that become an `RTCIceCandidate`, in their order. */
  function Usable(cs: seq<IceCandidate>): (r: seq<IceCandidate>)
    ensures |r| <= |cs|
  {
    if cs == [] then []
    else Usable(cs[..|cs| - 1]) + (if Constructible(cs[|cs| - 1]) then [cs[|cs| - 1]] else [])
  }

  /** A candidate is usable exactly when it was received and is constructible. */
  lemma {:induction false} UsableMembers(cs: seq<IceCandidate>, c: IceCandidate)
    ensures c in Usable(cs) <==> c in cs && Constructible(c)
  {
    if cs != [] {
      var front, last := cs[..|cs| - 1], cs[|cs| - 1];
      assert front + [last] == cs;
      UsableMembers(front, c);
      UsableSnoc(front, last);
    }
  }

  /** One more candidate adds itself to the usable ones exactly when it is constructible. */
  lemma UsableSnoc(cs: seq<IceCandidate>, c: IceCandidate)
    ensures Usable(cs + [c]) == Usable(cs) + (if Constructible(c) then [c] else [])
  {
    assert (cs + [c])[..|cs|] == cs;
  }

  /** When every candidate carries `sdpMid` or `sdpMLineIndex`, none is skipped. */
  lemma {:induction false} UsableAll(cs: seq<IceCandidate>)
    requires forall i :: 0 <= i < |cs| ==> Constructible(cs[i])
    ensures Usable(cs) == cs
  {
    if cs != [] {
      var front, last := cs[..|cs| - 1], cs[|cs| - 1];
      assert front + [last] == cs;
      UsableAll(front);
      UsableSnoc(front, last);
    }
  }

  class Call {
    /** The room this hook belongs to. */
    const roomId: string

    /** The state the hook displays (its `useState` values). */
    var shown: View

    // Refs.
    var hasPeerConnection: bool
    var peerClosed: bool
    var channelOpen: bool
    var hasChatCallback: bool
    var isInitiator: bool
    var remoteDescriptionSet: bool
    var queue: seq<IceCandidate>

    // The abstract peer connection and channel.
    /** Every candidate handed to the current peer connection's `addIceCandidate`, in order. */
    var applied: seq<IceCandidate>
    var remoteDescription: Option<Sdp>
    var localDescription: Option<Sdp>
    /** Every message posted on the channel, in order. */
    var posted: seq<Post>
    /** Every message handed to the chat callback, in order. */
    var chatInbox: seq<ChatMessage>

    /**
     * The constructible candidates received for the current peer connection and not dropped
     * by leaving the call, in arrival order. Each method states how it changes.
     */
    ghost var accepted: seq<IceCandidate>

    ghost predicate Valid()
      reads this
    {
      && (channelOpen ==> hasPeerConnection)
      // Those received are applied, then wait in the queue, in arrival order.
      && applied + Usable(queue) == accepted
      // Once the remote description is set, no candidate waits in the queue.
      && (remoteDescriptionSet ==> queue == [])
    }

    /** The hook on mount, before the connection is initialised. */
    constructor (roomId: string)
      ensures Valid() && this.roomId == roomId
      ensures shown == View(Connecting, false, 1, false, false, None)
      ensures !hasPeerConnection && !peerClosed && !channelOpen && !hasChatCallback
      ensures !isInitiator && !remoteDescriptionSet && queue == [] && applied == [] && accepted == []
      ensures remoteDescription == None && localDescription == None && posted == [] && chatInbox == []
    {
      this.roomId := roomId;
      shown := View(Connecting, false, 1, false, false, None);
      hasPeerConnection := false;
      peerClosed := false;
      channelOpen := false;
      hasChatCallback := false;
      isInitiator := false;
      remoteDescriptionSet := false;
      queue := [];
      applied := [];
      remoteDescription := None;
      localDescription := None;
      posted := [];
      chatInbox := [];
      accepted := [];
    }

    /**
     * The synchronous part of initialising the connection: without camera and microphone the
     * hook shows `Disconnected`; otherwise a new peer connection, with no descriptions and no
     * candidates, and an open channel exist.
     */
    method Initialize(mediaGranted: bool)
      requires Valid()
      modifies this`shown, this`hasPeerConnection, this`peerClosed, this`channelOpen,
               this`applied, this`remoteDescription, this`localDescription, this`accepted
      ensures Valid()
      ensures !mediaGranted ==>
        && shown == old(shown).(connectionState := Disconnected)
        && unchanged(this`hasPeerConnection, this`peerClosed, this`channelOpen, this`applied,
                     this`remoteDescription, this`localDescription, this`accepted)
      ensures mediaGranted ==>
        && shown == old(shown).(hasLocalStream := true)
        && hasPeerConnection && !peerClosed && channelOpen
        && applied == [] && remoteDescription == None && localDescription == None
        && accepted == Usable(queue)
    {
      if !mediaGranted {
        shown := shown.(connectionState := Disconnected);
        return;
      }
      shown := shown.(hasLocalStream := true);
      hasPeerConnection := true;
      peerClosed := false;
      applied := [];
      remoteDescription := None;
      localDescription := None;
      accepted := Usable(queue);
      channelOpen := true;
    }

    /** Register the chat callback. */
    method OnChatMessage()
      requires Valid()
      modifies this`hasChatCallback
      ensures Valid() && hasChatCallback
    {
      hasChatCallback := true;
    }

    /**
     * `processQueuedIceCandidates`: with a peer connection and the remote description set,
     * hand every queued candidate that is constructible to the peer connection in FIFO order
     * (the others are caught and skipped) and empty the queue; otherwise do nothing.
     */
    method ProcessQueuedIceCandidates()
      modifies this`applied, this`queue
      ensures if old(hasPeerConnection) && old(remoteDescriptionSet) then
          applied == old(applied) + Usable(old(queue)) && queue == []
        else
          applied == old(applied) && queue == old(queue)
    {
      if !hasPeerConnection || !remoteDescriptionSet {
        return;
      }
      for i := 0 to |queue|
        invariant queue == old(queue)
        invariant applied == old(applied) + Usable(queue[..i])
      {
        var c := queue[i];
        assert queue[..i + 1] == queue[..i] + [c];
        UsableSnoc(queue[..i], c);
        if Constructible(c) {
          applied := applied + [c];
        }
      }
      assert queue[..|queue|] == queue;
      queue := [];
    }

    /**
     * The `offer` case: a peer that is not the initiator sets the offer as its remote
     * description when the peer connection accepts it (`remoteOk`), flushes the queue, then
     * sets and posts the `answer` the peer connection creates. Otherwise nothing changes.
     */
    method HandleOffer(offer: Sdp, remoteOk: bool, answer: Sdp)
      requires Valid() && hasPeerConnection
      modifies this`remoteDescription, this`remoteDescriptionSet, this`applied, this`queue,
               this`localDescription, this`posted
      ensures Valid()
      ensures if !old(isInitiator) && remoteOk then
          && remoteDescriptionSet && remoteDescription == Some(offer)
          && applied == old(applied) + Usable(old(queue)) && queue == []
          && localDescription == Some(answer) && posted == old(posted) + [PostAnswer(answer, roomId)]
        else
          unchanged(this)
    {
      if !isInitiator && remoteOk {
        remoteDescription := Some(offer);
        remoteDescriptionSet := true;
        ProcessQueuedIceCandidates();
        localDescription := Some(answer);
        posted := posted + [PostAnswer(answer, roomId)];
      }
    }

    /**
     * The `answer` case: only the initiator sets the answer as its remote description, when
     * the peer connection accepts it, and flushes the queue. Otherwise nothing changes.
     */
    method HandleAnswer(answer: Sdp, remoteOk: bool)
      requires Valid() && hasPeerConnection
      modifies this`remoteDescription, this`remoteDescriptionSet, this`applied, this`queue
      ensures Valid()
      ensures if old(isInitiator) && remoteOk then
          && remoteDescriptionSet && remoteDescription == Some(answer)
          && applied == old(applied) + Usable(old(queue)) && queue == []
        else
          unchanged(this)
    {
      if isInitiator && remoteOk {
        remoteDescription := Some(answer);
        remoteDescriptionSet := true;
        ProcessQueuedIceCandidates();
      }
    }

    /**
     * The `ice-candidate` case for a present candidate: with the remote description set it is
     * handed to the peer connection at once, unless it cannot be constructed, which the
     * handler's catch swallows; without it, it joins the queue.
     */
    method HandleCandidate(c: IceCandidate)
      requires Valid()
      modifies this`applied, this`queue, this`accepted
      ensures Valid()
      ensures accepted == old(accepted) + (if Constructible(c) then [c] else [])
      ensures if old(remoteDescriptionSet) then
          applied == old(applied) + (if Constructible(c) then [c] else []) && queue == old(queue)
        else
          applied == old(applied) && queue == old(queue) + [c]
    {
      if remoteDescriptionSet {
        // An unconstructible candidate throws here and ends in the handler's catch.
        if Constructible(c) {
          applied := applied + [c];
          accepted := accepted + [c];
        }
      } else {
        UsableSnoc(queue, c);
        queue := queue + [c];
        if Constructible(c) {
          accepted := accepted + [c];
        }
      }
    }

    /** The `chat-message` case: a payload reaches the registered callback with `isOwn` false. */
    method HandleChat(chatMessage: Option<ChatPayload>)
      requires Valid()
      modifies this`chatInbox
      ensures Valid()
      ensures chatInbox == old(chatInbox) +
        if chatMessage.Some? && hasChatCallback then
          var p := chatMessage.value;
          [ChatMessage(p.id, p.text, p.sender, p.timestamp, false)]
        else []
    {
      if chatMessage.Some? && hasChatCallback {
        var p := chatMessage.value;
        chatInbox := chatInbox + [ChatMessage(p.id, p.text, p.sender, p.timestamp, false)];
      }
    }

    /**
     * The channel's message handler. `remoteOk` says whether the peer connection accepts the
     * remote description it is given; `answer` is the answer it creates after an offer.
     */
    method OnMessage(m: ChannelMessage, remoteOk: bool, answer: Sdp)
      requires Valid() && channelOpen
      modifies this`remoteDescription, this`remoteDescriptionSet, this`applied, this`queue,
               this`localDescription, this`posted, this`chatInbox, this`accepted
      ensures Valid()
      // Messages for another room, and of no known type, are ignored.
      ensures m.roomId != Some(roomId) || m.body.OtherMsg? ==> unchanged(this)
      ensures m.roomId == Some(roomId) && m.body.OfferMsg? ==>
        && chatInbox == old(chatInbox) && accepted == old(accepted)
        && if !old(isInitiator) && remoteOk then
          && remoteDescriptionSet && remoteDescription == Some(m.body.offer)
          && applied == old(applied) + Usable(old(queue)) && queue == []
          && localDescription == Some(answer) && posted == old(posted) + [PostAnswer(answer, roomId)]
        else
          unchanged(this)
      ensures m.roomId == Some(roomId) && m.body.AnswerMsg? ==>
        && localDescription == old(localDescription) && posted == old(posted)
        && chatInbox == old(chatInbox) && accepted == old(accepted)
        && if old(isInitiator) && remoteOk then
          && remoteDescriptionSet && remoteDescription == Some(m.body.answer)
          && applied == old(applied) + Usable(old(queue)) && queue == []
        else
          unchanged(this)
      ensures m.roomId == Some(roomId) && m.body.CandidateMsg? ==>
        && remoteDescriptionSet == old(remoteDescriptionSet) && remoteDescription == old(remoteDescription)
        && localDescription == old(localDescription) && posted == old(posted)
        && chatInbox == old(chatInbox)
        && match m.body.candidate
          case None => unchanged(this)
          case Some(c) =>
            var u := if Constructible(c) then [c] else [];
            && accepted == old(accepted) + u
            && if old(remoteDescriptionSet) then applied == old(applied) + u && queue == old(queue)
               else applied == old(applied) && queue == old(queue) + [c]
      ensures m.roomId == Some(roomId) && m.body.ChatMsg? ==>
        && remoteDescriptionSet == old(remoteDescriptionSet) && remoteDescription == old(remoteDescription)
        && applied == old(applied) && queue == old(queue) && accepted == old(accepted)
        && localDescription == old(localDescription) && posted == old(posted)
        && chatInbox == old(chatInbox) +
             if m.body.chatMessage.Some? && old(hasChatCallback) then
               var p := m.body.chatMessage.value;
               [ChatMessage(p.id, p.text, p.sender, p.timestamp, false)]
             else []
    {
      if m.roomId != Some(roomId) {
        return;
      }
      match m.body {
        case OfferMsg(offer) => HandleOffer(offer, remoteOk, answer);
        case AnswerMsg(a) => HandleAnswer(a, remoteOk);
        case CandidateMsg(candidate) =>
          if candidate.Some? {
            HandleCandidate(candidate.value);
          }
        case ChatMsg(chatMessage) => HandleChat(chatMessage);
        case OtherMsg =>
      }
    }

    /**
     * The initiator timer: when this peer is not yet the initiator and has no remote
     * description, it becomes the initiator and, while the peer connection the timer holds is
     * not closed, sets and posts the `offer` that connection creates. `stale` says the timer
     * was armed by an earlier initialisation: it holds that run's connection, which leaving
     * the call has closed, so its offer fails into the catch.
     */
    method OnInitiatorTimer(offer: Sdp, stale: bool)
      requires Valid() && hasPeerConnection
      modifies this`isInitiator, this`localDescription, this`posted
      ensures Valid()
      ensures if !old(isInitiator) && !old(remoteDescriptionSet) then
          && isInitiator
          && localDescription == (if peerClosed || stale then old(localDescription) else Some(offer))
          && posted == old(posted) + (if peerClosed || stale then [] else [PostOffer(offer, roomId)])
        else
          unchanged(this)
    {
      if !isInitiator && !remoteDescriptionSet {
        isInitiator := true;
        if !peerClosed && !stale {
          localDescription := Some(offer);
          posted := posted + [PostOffer(offer, roomId)];
        }
      }
    }

    /** `onconnectionstatechange`: how a state of the peer connection is shown. */
    method OnConnectionStateChange(state: PeerState)
      requires Valid()
      modifies this`shown
      ensures Valid()
      ensures state == PeerConnected ==>
        shown == old(shown).(connectionState := Connected, isConnected := true, connectionError := None)
      ensures state == PeerDisconnected ==>
        shown == old(shown).(connectionState := Disconnected, isConnected := false,
                                 participantCount := 1, hasRemoteStream := false)
      ensures state == Failed ==>
        shown == old(shown).(connectionState := Disconnected, isConnected := false,
                                 participantCount := 1, hasRemoteStream := false,
                                 connectionError := Some(ConnectionFailedMessage))
      ensures state == PeerConnecting ==>
        shown == old(shown).(connectionState := Connecting, connectionError := None)
      ensures state == New || state == Closed ==> shown == old(shown)
    {
      match state {
        case PeerConnected =>
          shown := shown.(connectionState := Connected, isConnected := true, connectionError := None);
        case PeerDisconnected =>
          shown := shown.(connectionState := Disconnected, isConnected := false,
                          participantCount := 1, hasRemoteStream := false);
        case Failed =>
          shown := shown.(connectionState := Disconnected, isConnected := false,
                          participantCount := 1, hasRemoteStream := false);
          shown := shown.(connectionError := Some(ConnectionFailedMessage));
        case PeerConnecting =>
          shown := shown.(connectionState := Connecting, connectionError := None);
        case _ =>
      }
    }

    /** `ontrack`: a remote stream arrived, so the call shows two connected participants. */
    method OnTrack()
      requires Valid()
      modifies this`shown
      ensures Valid()
      ensures shown == old(shown).(connectionState := Connected, isConnected := true,
                                       participantCount := 2, hasRemoteStream := true)
    {
      shown := shown.(hasRemoteStream := true, connectionState := Connected, isConnected := true,
                      participantCount := 2);
    }

    /**
     * `leaveCall`: close the peer connection and the channel and reset the displayed state,
     * both flags and the queue. The reference to the closed peer connection is kept, and the
     * queued candidates are dropped.
     */
    method LeaveCall()
      requires Valid()
      modifies this`peerClosed, this`channelOpen, this`shown, this`isInitiator,
               this`remoteDescriptionSet, this`queue, this`accepted
      ensures Valid()
      ensures shown == View(Disconnected, false, 0, false, false, None)
      ensures !isInitiator && !remoteDescriptionSet && queue == []
      ensures !channelOpen
      ensures peerClosed == (old(peerClosed) || hasPeerConnection)
      ensures accepted == applied
    {
      // `close()` on the peer connection, when there is one.
      peerClosed := peerClosed || hasPeerConnection;
      channelOpen := false;
      shown := View(Disconnected, false, 0, false, false, None);
      isInitiator := false;
      remoteDescriptionSet := false;
      queue := [];
      accepted := applied;
    }
  }
}
