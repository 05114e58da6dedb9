/**
 * The client object of src/service.cpp: the fields that `OnMessage`, the
 * open handler, `Broadcast`, `Disconnect` and `Connect` update in place.
 * Each method is proved to change the state exactly as the matching
 * function of module Dispatch says, and to leave the handler table alone.
 */
module Gateway {
  import opened Wrappers
  import opened Buffers
  import opened Errors
  import opened Handlers
  import opened Protocol
  import Dispatch

  class Service {
    const defaultHandler: SyncHandler
    var mapped: map<CppString, SyncHandler>
    var booted: bool
    var ep: Option<Exception>
    var stopped: bool                 // `ws.stop()` has been called
    var conhdr: Dispatch.Handle
    var outbox: seq<Dispatch.Sent>    // frames handed to `ws.send`, in order

    /** The fields the state machine changes, as one value. */
    function Abs(): Dispatch.State
      reads this
    {
      Dispatch.State(booted, ep, stopped, conhdr, outbox)
    }

    /** `Service(Handler defaultHandler)`. */
    constructor (defaultHandler: SyncHandler)
      ensures Abs() == Dispatch.Initial
      ensures this.defaultHandler == defaultHandler && mapped == map[]
    {
      this.defaultHandler := defaultHandler;
      mapped := map[];
      booted := false;
      ep := None;
      stopped := false;
      conhdr := Dispatch.NoConnection;
      outbox := [];
    }

    /** `RegisterHandler`: `mapped.emplace(name, handler)`, so the first registration of a name stays. */
    method RegisterHandler(name: CppString, handler: SyncHandler)
      modifies this`mapped
      ensures mapped == Emplace(old(mapped), name, handler)
      ensures name in old(mapped) ==> mapped == old(mapped)
      ensures name !in old(mapped) ==> mapped == old(mapped)[name := handler]
    {
      mapped := Emplace(mapped, name, handler);
    }

    /** The catch-all clause: store the exception in `ep` and stop the transport. */
    method Fail(e: Exception)
      modifies this`ep, this`stopped
      ensures Abs() == Dispatch.Record(old(Abs()), e)
    {
      ep := Some(e);
      stopped := true;
    }

    /** `ws.send` of one binary frame; the transport throws `sendError` when it has one. */
    method Transmit(to: Dispatch.Handle, frame: Outbound, sendError: Option<Exception>)
      modifies this`ep, this`stopped, this`outbox
      ensures Abs() == Dispatch.Send(old(Abs()), to, frame, sendError)
    {
      if sendError.Some? {
        Fail(sendError.value);
      } else {
        outbox := outbox + [Dispatch.Sent(to, frame)];
      }
    }

    /** `Service::OnMessage`. */
    method OnMessage(hdl: Dispatch.Handle, msg: Frame, sendError: Option<Exception>)
      modifies this`booted, this`ep, this`stopped, this`outbox
      ensures Abs() == Dispatch.OnMessage(old(Abs()), mapped, defaultHandler, hdl, msg, sendError)
    {
      if msg.Text? {
        Fail(Std(RemoteException, msg.payload));
        return;
      }
      if !booted {
        var reply := msg.asHandshakeResponse;
        if reply.None? {
          return;
        }
        if reply.value.magic != AcceptedMagic {
          Fail(NewMagicError(AcceptedMagic, reply.value.magic));
          return;
        }
        booted := true;
      } else {
        var packet := msg.asReceivePacket;
        if packet.None? {
          return;
        }
        if packet.value.Request? {
          var id, key, payload := packet.value.id, packet.value.key, packet.value.payload;
          var handler := Lookup(mapped, defaultHandler, key);
          var frame: Outbound;
          match handler(ViewOfBytes(payload, |payload|)) {
            case Returned(ret) =>
              frame := SendPacket(Response(id, Contents(ret)));
            case Threw(e) =>
              if e.NonStd? {
                Fail(e);
                return;
              }
              frame := SendPacket(Exception(id, What(e)));
          }
          Transmit(hdl, frame, sendError);
        }
      }
    }

    /** The open handler: remember the connection, then send the handshake. */
    method OnOpen(co: Dispatch.Handle, sendError: Option<Exception>)
      modifies this`conhdr, this`ep, this`stopped, this`outbox
      ensures Abs() == Dispatch.OnOpen(old(Abs()), co, sendError)
    {
      conhdr := co;
      Transmit(co, ClientHandshake, sendError);
    }

    /** `Service::Disconnect`. */
    method Disconnect()
      modifies this`stopped, this`booted
      ensures Abs() == Dispatch.Disconnect(old(Abs()))
    {
      stopped := true;
      booted := false;
    }

    /** `Service::Broadcast`. */
    method Broadcast(key: CppString, data: BufferView, sendError: Option<Exception>)
      modifies this`ep, this`stopped, this`outbox
      ensures Abs() == Dispatch.Broadcast(old(Abs()), key, data, sendError)
    {
      if !booted {
        return;
      }
      Transmit(conhdr, Protocol.Broadcast(key, ViewBytes(data)), sendError);
    }

    /**
     * `Service::Connect(endpoint)`. `parseError` is the message of the error
     * the transport reports for a malformed endpoint; `events` is what its
     * loop then delivers. The loop runs until the transport is stopped or
     * has nothing more; the result is what `Connect` throws, if anything.
     */
    method Connect(parseError: Option<CppString>, events: seq<Dispatch.Event>) returns (thrown: Option<Exception>)
      modifies this`booted, this`ep, this`stopped, this`conhdr, this`outbox
      ensures parseError.Some? ==> thrown == Some(Std(ParseFailed, parseError.value)) && Abs() == old(Abs())
      ensures parseError.None? ==> Abs() == Dispatch.Run(old(Abs()), mapped, defaultHandler, events)
      ensures parseError.None? ==> thrown == ep
    {
      if parseError.Some? {
        return Some(Std(ParseFailed, parseError.value));
      }
      var i := 0;
      while i < |events| && !stopped
        invariant 0 <= i <= |events|
        invariant Dispatch.Run(Abs(), mapped, defaultHandler, events[i..])
               == Dispatch.Run(old(Abs()), mapped, defaultHandler, events)
        decreases |events| - i
      {
        match events[i] {
          case Opened(co, sendError) => OnOpen(co, sendError);
          case Received(hdl, msg, sendError) => OnMessage(hdl, msg, sendError);
        }
        i := i + 1;
      }
      thrown := ep;
    }
  }
}
