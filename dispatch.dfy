/**
 * The client state machine of src/service.cpp as functions on a state
 * value: the `booted` flag, the error cell `ep`, whether the transport has
 * been told to stop, the connection handle `conhdr`, and the frames sent so
 * far. The transport is a parameter: each send is given the exception the
 * transport throws for it (None when it accepts the frame), and the event
 * loop is the sequence of events the transport delivers.
 */
module Dispatch {
  import opened Wrappers
  import opened Buffers
  import opened Errors
  import opened Handlers
  import opened Protocol

  /** `websocketpp::connection_hdl`: empty until the open handler stores one. */
  datatype Handle = NoConnection | Connection(id: nat)

  /** One frame handed to the transport, with the connection it is addressed to. */
  datatype Sent = Sent(to: Handle, frame: Outbound)

  datatype State = State(booted: bool, ep: Option<Exception>, stopped: bool, conhdr: Handle, outbox: seq<Sent>)

  /** A freshly constructed service. */
  const Initial: State := State(false, None, false, NoConnection, [])

  /** `catch (...) { ep = std::current_exception(); ws.stop(); }`: the error cell is overwritten. */
  function Record(s: State, e: Exception): State
  {
    s.(ep := Some(e), stopped := true)
  }

  /** `ws.send(to, frame)` inside a try block whose catch records the error. */
  function Send(s: State, to: Handle, frame: Outbound, sendError: Option<Exception>): State
  {
    if sendError.Some? then Record(s, sendError.value) else s.(outbox := s.outbox + [Sent(to, frame)])
  }

  /** The packet built for request `id` from what its handler did. */
  function Reply(id: int, outcome: SyncResult): Outbound
    requires outcome.Threw? ==> outcome.ex.Std?
  {
    match outcome
    case Returned(ret) => SendPacket(Response(id, Contents(ret)))
    case Threw(e) => SendPacket(Exception(id, What(e)))
  }

  /**
   * Answering request `id`: a `std::exception` from the handler becomes an
   * `Exception` packet; anything else it throws escapes to the outer catch.
   */
  function Answer(s: State, hdl: Handle, id: int, outcome: SyncResult, sendError: Option<Exception>): State
  {
    if outcome.Threw? && outcome.ex.NonStd? then Record(s, outcome.ex)
    else Send(s, hdl, Reply(id, outcome), sendError)
  }

  /** `Service::OnMessage`: one inbound frame. */
  function OnMessage(s: State, mapped: map<CppString, SyncHandler>, default: SyncHandler,
                     hdl: Handle, msg: Frame, sendError: Option<Exception>): State
  {
    match msg
    case Text(payload) => Record(s, Std(RemoteException, payload))
    case Binary(reply, packet) =>
      if !s.booted then
        if reply.None? then s
        else if reply.value.magic != AcceptedMagic then Record(s, NewMagicError(AcceptedMagic, reply.value.magic))
        else s.(booted := true)
      else if packet.None? || packet.value.NotRequest? then s
      else
        var handler := Lookup(mapped, default, packet.value.key);
        var payload := packet.value.payload;
        Answer(s, hdl, packet.value.id, handler(ViewOfBytes(payload, |payload|)), sendError)
  }

  /** The open handler: store the connection and send the handshake. */
  function OnOpen(s: State, co: Handle, sendError: Option<Exception>): State
  {
    Send(s.(conhdr := co), co, ClientHandshake, sendError)
  }

  /** `Service::Disconnect`: stop the transport and clear `booted`. */
  function Disconnect(s: State): State
  {
    s.(stopped := true, booted := false)
  }

  /** `Service::Broadcast`: nothing before the handshake, else one `Broadcast` frame to `conhdr`. */
  function Broadcast(s: State, key: CppString, data: BufferView, sendError: Option<Exception>): State
  {
    if !s.booted then s else Send(s, s.conhdr, Protocol.Broadcast(key, ViewBytes(data)), sendError)
  }

  /** What the transport's event loop delivers, with how the transport treats the send it provokes. */
  datatype Event =
    | Opened(co: Handle, sendError: Option<Exception>)
    | Received(hdl: Handle, msg: Frame, sendError: Option<Exception>)

  function Deliver(s: State, mapped: map<CppString, SyncHandler>, default: SyncHandler, ev: Event): State
  {
    match ev
    case Opened(co, sendError) => OnOpen(s, co, sendError)
    case Received(hdl, msg, sendError) => OnMessage(s, mapped, default, hdl, msg, sendError)
  }

  /** `ws.run()`: deliver events in order until the transport is stopped or has nothing more. */
  function Run(s: State, mapped: map<CppString, SyncHandler>, default: SyncHandler, events: seq<Event>): State
    decreases |events|
  {
    if events == [] || s.stopped then s
    else Run(Deliver(s, mapped, default, events[0]), mapped, default, events[1..])
  }

  // ----- one frame -----

  /** The accepted magic has no NUL, so reading it as a C string gives it back whole. */
  lemma AcceptedMagicIsCString()
    ensures NUL !in AcceptedMagic
    ensures CStr(AcceptedMagic) == AcceptedMagic
  {
    CStrAppend(AcceptedMagic, []);
    assert AcceptedMagic + [] == AcceptedMagic;
  }

  /** The fixed part of the `MagicError` text for the accepted magic. */
  lemma MagicErrorPrefix()
    ensures NUL !in AcceptedMagic
    ensures "Expected magic " + AcceptedMagic + ", got " == "Expected magic WS-GATEWAY OK, got "
  {
  }

  /** A text frame, in any state, records a `RemoteException` carrying its payload and stops; nothing is sent. */
  lemma TextFrameIsFatal(s: State, mapped: map<CppString, SyncHandler>, default: SyncHandler,
                         hdl: Handle, payload: CppString, sendError: Option<Exception>)
    ensures var r := OnMessage(s, mapped, default, hdl, Text(payload), sendError);
            && r.ep == Some(Std(RemoteException, payload))
            && r.stopped
            && r.booted == s.booted && r.conhdr == s.conhdr && r.outbox == s.outbox
  {
  }

  /** Before the handshake, a binary frame that is not a valid `HandshakeResponse` is dropped. */
  lemma UnverifiedReplyIsDropped(s: State, mapped: map<CppString, SyncHandler>, default: SyncHandler,
                                 hdl: Handle, packet: Option<ReceivePacket>, sendError: Option<Exception>)
    requires !s.booted
    ensures OnMessage(s, mapped, default, hdl, Binary(None, packet), sendError) == s
  {
  }

  /**
   * Before the handshake, a reply with the wrong magic records a
   * `MagicError` naming both magics and stops, leaving `booted` false; the
   * right magic sets `booted` and changes nothing else.
   */
  lemma HandshakeReplyChecksMagic(s: State, mapped: map<CppString, SyncHandler>, default: SyncHandler,
                                  hdl: Handle, magic: CppString, packet: Option<ReceivePacket>, sendError: Option<Exception>)
    requires !s.booted
    ensures var r := OnMessage(s, mapped, default, hdl, Binary(Some(HandshakeResponse(magic)), packet), sendError);
            if magic == AcceptedMagic then r == s.(booted := true)
            else
              && r.ep == Some(NewMagicError(AcceptedMagic, magic))
              && r.ep.value.Std? && r.ep.value.kind == MagicError
              && What(r.ep.value) == "Expected magic " + AcceptedMagic + ", got " + CStr(magic)
              && r.stopped && !r.booted && r.outbox == s.outbox && r.conhdr == s.conhdr
  {
    if magic != AcceptedMagic {
      var e := NewMagicError(AcceptedMagic, magic);
      assert OnMessage(s, mapped, default, hdl, Binary(Some(HandshakeResponse(magic)), packet), sendError) == Record(s, e);
      AcceptedMagicIsCString();
      assert What(e) == "Expected magic " + AcceptedMagic + ", got " + CStr(magic);
    }
  }

  /** After the handshake, an unverifiable frame or a packet without a `Request` changes nothing. */
  lemma NonRequestIsIgnored(s: State, mapped: map<CppString, SyncHandler>, default: SyncHandler,
                            hdl: Handle, reply: Option<HandshakeResponse>, packet: Option<ReceivePacket>,
                            sendError: Option<Exception>)
    requires s.booted
    requires packet.None? || packet.value.NotRequest?
    ensures OnMessage(s, mapped, default, hdl, Binary(reply, packet), sendError) == s
  {
  }

  /**
   * After the handshake, a request is answered by the handler registered
   * for its key, or by the default handler when there is none; the handler
   * sees exactly the request's payload.
   */
  lemma RequestIsRouted(s: State, mapped: map<CppString, SyncHandler>, default: SyncHandler,
                        hdl: Handle, reply: Option<HandshakeResponse>,
                        id: int, key: CppString, payload: seq<uint8>, sendError: Option<Exception>)
    requires s.booted
    ensures var r := OnMessage(s, mapped, default, hdl, Binary(reply, Some(Request(id, key, payload))), sendError);
            var view := ViewOfBytes(payload, |payload|);
            && ViewBytes(view) == payload
            && (key in mapped ==> r == Answer(s, hdl, id, mapped[key](view), sendError))
            && (key !in mapped ==> r == Answer(s, hdl, id, default(view), sendError))
  {
  }

  /**
   * A routed request whose handler returns, or throws a `std::exception`,
   * appends exactly one frame when the transport accepts it: a `Response`
   * with the request's id and the returned bytes, or an `Exception` with
   * the id and `what()`. Nothing else changes.
   */
  lemma AnswerSendsOneReply(s: State, hdl: Handle, id: int, outcome: SyncResult)
    requires outcome.Threw? ==> outcome.ex.Std?
    ensures var r := Answer(s, hdl, id, outcome, None);
            && |r.outbox| == |s.outbox| + 1
            && r.outbox[..|s.outbox|] == s.outbox
            && r.outbox[|s.outbox|].to == hdl
            && r.outbox[|s.outbox|].frame.SendPacket?
            && r.outbox[|s.outbox|].frame.packet.id == id
            && (outcome.Returned? ==>
                  r.outbox[|s.outbox|].frame.packet == Response(id, Contents(outcome.ret)))
            && (outcome.Threw? ==>
                  r.outbox[|s.outbox|].frame.packet == Exception(id, What(outcome.ex)))
            && r.ep == s.ep && r.stopped == s.stopped && r.booted == s.booted && r.conhdr == s.conhdr
  {
  }

  /**
   * A routed request fails the connection instead when the handler throws
   * something other than a `std::exception`, or when the transport rejects
   * the reply: the error is recorded, the loop is stopped and nothing is sent.
   */
  lemma AnswerFailureIsFatal(s: State, hdl: Handle, id: int, outcome: SyncResult, sendError: Option<Exception>)
    requires (outcome.Threw? && outcome.ex.NonStd?) || sendError.Some?
    ensures var r := Answer(s, hdl, id, outcome, sendError);
            && r.ep == Some(if outcome.Threw? && outcome.ex.NonStd? then outcome.ex else sendError.value)
            && r.stopped && r.outbox == s.outbox && r.booted == s.booted
  {
  }

  /** The open handler stores the connection and sends the fixed handshake to it, or records the send failure. */
  lemma OpenSendsHandshake(s: State, co: Handle, sendError: Option<Exception>)
    ensures var r := OnOpen(s, co, sendError);
            && r.conhdr == co && r.booted == s.booted
            && (sendError.None? ==> r.outbox == s.outbox + [Sent(co, ClientHandshake)] && r.ep == s.ep && r.stopped == s.stopped)
            && (sendError.Some? ==> r.outbox == s.outbox && r.ep == sendError && r.stopped)
  {
  }

  /**
   * `Broadcast` does nothing before the handshake; after it, exactly one
   * `Broadcast` frame with the key and the view's bytes goes to `conhdr`,
   * unless the transport rejects it, which records the error and stops.
   */
  lemma BroadcastIsGated(s: State, key: CppString, data: BufferView, sendError: Option<Exception>)
    ensures var r := Broadcast(s, key, data, sendError);
            && (!s.booted ==> r == s)
            && (s.booted && sendError.None? ==>
                  r == s.(outbox := s.outbox + [Sent(s.conhdr, Protocol.Broadcast(key, ViewBytes(data)))]))
            && (s.booted && sendError.Some? ==>
                  r.outbox == s.outbox && r.ep == sendError && r.stopped && r.booted)
  {
  }

  /** After `Disconnect` the loop is stopped and `booted` is false, so broadcasts are silent. */
  lemma DisconnectSilencesBroadcast(s: State, key: CppString, data: BufferView, sendError: Option<Exception>)
    ensures var d := Disconnect(s);
            && d.stopped && !d.booted && d.ep == s.ep && d.outbox == s.outbox
            && Broadcast(d, key, data, sendError) == d
  {
  }

  /**
   * The error cell holds the latest failure, not the first: a remote
   * exception followed by a rejected broadcast leaves the send error in `ep`.
   */
  lemma LaterFailureOverwrites(s: State, mapped: map<CppString, SyncHandler>, default: SyncHandler,
                               hdl: Handle, payload: CppString, key: CppString, data: BufferView, sendFailure: Exception)
    requires s.booted
    ensures var r := OnMessage(s, mapped, default, hdl, Text(payload), None);
            && r.ep == Some(Std(RemoteException, payload))
            && Broadcast(r, key, data, Some(sendFailure)).ep == Some(sendFailure)
  {
  }

  // ----- the event loop -----

  /** A delivered open event for the connection `to`. */
  predicate OpensTo(ev: Event, to: Handle)
  {
    ev.Opened? && ev.co == to
  }

  /** A delivered frame on the connection `to` that is a request with the given id. */
  predicate RequestFrom(ev: Event, to: Handle, id: int)
  {
    && ev.Received? && ev.hdl == to && ev.msg.Binary?
    && ev.msg.asReceivePacket.Some? && ev.msg.asReceivePacket.value.Request?
    && ev.msg.asReceivePacket.value.id == id
  }

  /** A delivered frame that is a handshake reply with the accepted magic. */
  predicate AcceptsHandshake(ev: Event)
  {
    ev.Received? && ev.msg.Binary? && ev.msg.asHandshakeResponse == Some(HandshakeResponse(AcceptedMagic))
  }

  /**
   * Each frame the client sends while running is the handshake, sent to a
   * connection whose open event was delivered, or a reply sent back on the
   * connection a request with its id arrived on.
   */
  ghost predicate Accountable(sent: Sent, events: seq<Event>)
  {
    || (sent.frame == ClientHandshake && exists j :: 0 <= j < |events| && OpensTo(events[j], sent.to))
    || (sent.frame.SendPacket? && exists j :: 0 <= j < |events| && RequestFrom(events[j], sent.to, sent.frame.packet.id))
  }

  /** What a later event accounts for, the whole sequence accounts for. */
  lemma AccountableExtends(sent: Sent, events: seq<Event>)
    requires events != [] && Accountable(sent, events[1..])
    ensures Accountable(sent, events)
  {
    if sent.frame == ClientHandshake && exists j :: 0 <= j < |events[1..]| && OpensTo(events[1..][j], sent.to) {
      var j :| 0 <= j < |events[1..]| && OpensTo(events[1..][j], sent.to);
      assert OpensTo(events[j + 1], sent.to);
    } else {
      var j :| 0 <= j < |events[1..]| && RequestFrom(events[1..][j], sent.to, sent.frame.packet.id);
      assert RequestFrom(events[j + 1], sent.to, sent.frame.packet.id);
    }
  }

  /** A stopped transport delivers nothing. */
  lemma RunWhenStopped(s: State, mapped: map<CppString, SyncHandler>, default: SyncHandler, events: seq<Event>)
    requires s.stopped
    ensures Run(s, mapped, default, events) == s
  {
  }

  /**
   * The loop only appends to the outbox, at most one frame per delivered
   * event, and every frame it appends is the handshake or a reply carrying
   * the id of a request it delivered: no broadcast, no unsolicited reply.
   */
  lemma {:induction false} RunSendsOnlyAnswers(s: State, mapped: map<CppString, SyncHandler>, default: SyncHandler,
                                               events: seq<Event>)
    ensures var r := Run(s, mapped, default, events);
            && s.outbox <= r.outbox
            && |r.outbox| <= |s.outbox| + |events|
            && forall i :: |s.outbox| <= i < |r.outbox| ==> Accountable(r.outbox[i], events)
    decreases |events|
  {
    if events != [] && !s.stopped {
      var t := Deliver(s, mapped, default, events[0]);
      RunSendsOnlyAnswers(t, mapped, default, events[1..]);
      var r := Run(t, mapped, default, events[1..]);
      forall i | |t.outbox| <= i < |r.outbox|
        ensures Accountable(r.outbox[i], events)
      {
        AccountableExtends(r.outbox[i], events);
      }
      assert |t.outbox| <= |s.outbox| + 1;
      if |t.outbox| == |s.outbox| + 1 {
        var sent := t.outbox[|s.outbox|];
        if events[0].Opened? {
          assert OpensTo(events[0], sent.to);
        } else {
          assert RequestFrom(events[0], sent.to, sent.frame.packet.id);
        }
        assert Accountable(sent, events);
        assert r.outbox[|s.outbox|] == t.outbox[|s.outbox|];
      }
    }
  }

  /** Once booted, the loop never clears `booted`; and it only sets it on an accepted handshake reply. */
  lemma {:induction false} RunBootsOnlyOnAcceptedReply(s: State, mapped: map<CppString, SyncHandler>, default: SyncHandler,
                                                       events: seq<Event>)
    ensures var r := Run(s, mapped, default, events);
            && (s.booted ==> r.booted)
            && (!s.booted && r.booted ==> exists i :: 0 <= i < |events| && AcceptsHandshake(events[i]))
    decreases |events|
  {
    if events != [] && !s.stopped {
      var t := Deliver(s, mapped, default, events[0]);
      RunBootsOnlyOnAcceptedReply(t, mapped, default, events[1..]);
      var r := Run(t, mapped, default, events[1..]);
      if !s.booted && r.booted {
        if t.booted {
          assert AcceptsHandshake(events[0]);
        } else {
          var i :| 0 <= i < |events[1..]| && AcceptsHandshake(events[1..][i]);
          assert AcceptsHandshake(events[i + 1]);
        }
      }
    }
  }

  /** The loop changes the error cell only together with stopping, so a run that records an error ends there. */
  lemma {:induction false} RunRecordsOnlyWhenStopping(s: State, mapped: map<CppString, SyncHandler>, default: SyncHandler,
                                                      events: seq<Event>)
    ensures var r := Run(s, mapped, default, events);
            r.ep != s.ep ==> r.stopped
    decreases |events|
  {
    if events != [] && !s.stopped {
      var t := Deliver(s, mapped, default, events[0]);
      RunRecordsOnlyWhenStopping(t, mapped, default, events[1..]);
    }
  }

  /** Two events on a running transport: the second is delivered unless the first stopped it. */
  lemma RunTwo(s: State, mapped: map<CppString, SyncHandler>, default: SyncHandler, first: Event, second: Event)
    requires !s.stopped
    ensures var t := Deliver(s, mapped, default, first);
            Run(s, mapped, default, [first, second])
            == if t.stopped then t else Deliver(t, mapped, default, second)
  {
    var events := [first, second];
    var t := Deliver(s, mapped, default, first);
    assert events[1..] == [second];
    assert Run(s, mapped, default, events) == Run(t, mapped, default, [second]);
    if !t.stopped {
      assert [second][1..] == [];
      assert Run(t, mapped, default, [second]) == Run(Deliver(t, mapped, default, second), mapped, default, []);
    }
  }

  /**
   * The handshake succeeding: the open event sends the handshake, the
   * accepted reply boots the client, and no error is recorded.
   */
  lemma HandshakeSucceeds(mapped: map<CppString, SyncHandler>, default: SyncHandler, c: nat,
                          packet: Option<ReceivePacket>, sendError: Option<Exception>)
    ensures Run(Initial, mapped, default,
                [Opened(Connection(c), None),
                 Received(Connection(c), Binary(Some(HandshakeResponse(AcceptedMagic)), packet), sendError)])
            == State(true, None, false, Connection(c), [Sent(Connection(c), ClientHandshake)])
  {
    var reply := Binary(Some(HandshakeResponse(AcceptedMagic)), packet);
    RunTwo(Initial, mapped, default, Opened(Connection(c), None), Received(Connection(c), reply, sendError));
    var t := OnOpen(Initial, Connection(c), None);
    assert t == State(false, None, false, Connection(c), [Sent(Connection(c), ClientHandshake)]);
    HandshakeReplyChecksMagic(t, mapped, default, Connection(c), AcceptedMagic, packet, sendError);
  }

  /** The `MagicError` for a NUL-free magic names the accepted magic and that magic. */
  lemma MagicErrorText(actual: CppString)
    requires NUL !in actual
    ensures What(NewMagicError(AcceptedMagic, actual)) == "Expected magic WS-GATEWAY OK, got " + actual
  {
    MagicErrorPrefix();
    var e := NewMagicError(AcceptedMagic, actual);
    assert What(e) == "Expected magic " + AcceptedMagic + ", got " + actual;
  }

  /**
   * A handshake reply with any other NUL-free magic, "WRONG" say, stops the
   * loop with "Expected magic WS-GATEWAY OK, got WRONG", after the handshake
   * went out and without booting.
   */
  lemma MagicMismatchFails(mapped: map<CppString, SyncHandler>, default: SyncHandler, c: nat, magic: CppString,
                           packet: Option<ReceivePacket>, sendError: Option<Exception>)
    requires magic != AcceptedMagic && NUL !in magic
    ensures var r := Run(Initial, mapped, default,
                         [Opened(Connection(c), None),
                          Received(Connection(c), Binary(Some(HandshakeResponse(magic)), packet), sendError)]);
            && r.ep.Some? && r.ep.value.Std? && r.ep.value.kind == MagicError
            && What(r.ep.value) == "Expected magic WS-GATEWAY OK, got " + magic
            && r.stopped && !r.booted
            && r.outbox == [Sent(Connection(c), ClientHandshake)]
  {
    var reply := Binary(Some(HandshakeResponse(magic)), packet);
    RunTwo(Initial, mapped, default, Opened(Connection(c), None), Received(Connection(c), reply, sendError));
    var t := OnOpen(Initial, Connection(c), None);
    assert t == State(false, None, false, Connection(c), [Sent(Connection(c), ClientHandshake)]);
    HandshakeReplyChecksMagic(t, mapped, default, Connection(c), magic, packet, sendError);
    MagicErrorText(magic);
  }
}
