/**
 * Handlers and their registration, from include/ws-gw.h.
 *
 * A synchronous handler (`SyncHandler`) maps a view of the request payload
 * to a `Buffer`, or throws. An asynchronous handler (`Handler`) receives the
 * payload and a completion callback; what one invocation does is summarised
 * as the callback calls it makes and the exception, if any, that escapes it.
 */
module Handlers {
  import opened Wrappers
  import opened Buffers
  import opened Errors

  /** What one call of a synchronous handler does: return a buffer or throw. */
  datatype SyncResult = Returned(ret: Buffer) | Threw(ex: Exception)

  /** `SyncHandler = std::function<Buffer(BufferView const &)>`. */
  type SyncHandler = BufferView -> SyncResult

  /** The arguments of one callback call: an `exception_ptr` (null is None) and a view. */
  datatype CallbackArgs = CallbackArgs(ep: Option<Exception>, view: BufferView)

  /** What one call of a completion callback does: return or throw. */
  datatype CallbackResult = Completed | CallbackThrew(ex: Exception)

  /** `std::function<void(std::exception_ptr, BufferView)>`. */
  type Callback = CallbackArgs -> CallbackResult

  /** One invocation of an asynchronous handler: its callback calls, in order, and what escaped it. */
  datatype Invocation = Invocation(calls: seq<CallbackArgs>, escaped: Option<Exception>)

  /** `Handler = std::function<void(Buffer, std::function<void(std::exception_ptr, BufferView)>)>`. */
  type Handler = (Buffer, Callback) -> Invocation

  /** `std::map::emplace`: inserts only when the key is absent. */
  function Emplace<H>(m: map<CppString, H>, key: CppString, h: H): (r: map<CppString, H>)
    ensures r.Keys == m.Keys + {key}
    ensures forall k :: k in m ==> r[k] == m[k]
    ensures key !in m ==> r[key] == h
  {
    if key in m then m else m[key := h]
  }

  /** `mapped.find(key)`, falling back to the default handler when the key is absent. */
  function Lookup<H>(m: map<CppString, H>, default: H, key: CppString): H
  {
    if key in m then m[key] else default
  }

  /**
   * Registering then looking up: the first registration for a key is the one
   * found, and registering one key changes no other key's lookup.
   */
  lemma LookupAfterEmplace<H>(m: map<CppString, H>, default: H, key: CppString, h: H, k: CppString)
    ensures Lookup(Emplace(m, key, h), default, k) ==
            if k == key && key !in m then h else Lookup(m, default, k)
  {
  }

  /**
   * The sync-to-async adapter of `RegisterHandler(name, SyncHandler)`, with
   * `capture` turning the caught `std::exception` into the one handed to
   * the callback. The handler is called on a view of the buffer; a return
   * value is handed on with a null exception; a `std::exception` thrown by
   * the handler or by that first callback call is caught and reported by a
   * second call with an empty view; anything else escapes.
   */
  function AdaptedWith(h: SyncHandler, buffer: Buffer, cb: Callback, capture: Exception -> Exception): Invocation
  {
    match h(ViewOfBuffer(buffer))
    case Threw(e) =>
      if e.NonStd? then Invocation([], Some(e)) else Report(cb, capture(e))
    case Returned(r) =>
      var first := CallbackArgs(None, ViewOfBuffer(r));
      match cb(first)
      case Completed => Invocation([first], None)
      case CallbackThrew(e) =>
        if e.NonStd? then Invocation([first], Some(e))
        else
          var rest := Report(cb, capture(e));
          Invocation([first] + rest.calls, rest.escaped)
  }

  /** The catch clause of the adapter: `cb(exception, {})`, whose own exception escapes. */
  function Report(cb: Callback, ex: Exception): (inv: Invocation)
    ensures inv.calls == [CallbackArgs(Some(ex), EmptyView())]
  {
    var args := CallbackArgs(Some(ex), EmptyView());
    match cb(args)
    case Completed => Invocation([args], None)
    case CallbackThrew(e) => Invocation([args], Some(e))
  }

  /**
   * `std::make_exception_ptr(ex)` with `ex` a `std::exception const &`: the
   * template copies the `std::exception` base subobject, whose `what()` is the
   * library's fixed text.
   */
  function SlicedCopy(e: Exception): (c: Exception)
    ensures c.Std? && c.kind == PlainException
  {
    Std(PlainException, "std::exception")
  }

  /** The adapter as include/ws-gw.h writes it. */
  function AdaptedAsWritten(h: SyncHandler, buffer: Buffer, cb: Callback): Invocation
  {
    AdaptedWith(h, buffer, cb, SlicedCopy)
  }

  /**
   * The adapter handing the callback the exception as it was thrown, as
   * `std::current_exception()` would.
   */
  function Adapted(h: SyncHandler, buffer: Buffer, cb: Callback): Invocation
  {
    AdaptedWith(h, buffer, cb, e => e)
  }

  /** The adapter of include/ws-gw.h as a `Handler` value, as the header stores it in the handler map. */
  function AdaptAsWritten(h: SyncHandler): Handler
  {
    (buffer: Buffer, cb: Callback) => AdaptedAsWritten(h, buffer, cb)
  }

  /**
   * With a callback that returns normally, the adapter calls it exactly
   * once: with a null exception and the handler's bytes when the handler
   * returns, with the captured exception and an empty view when it throws a
   * `std::exception`. Nothing escapes. This holds for the adapter as written
   * (`capture` is `SlicedCopy`) and for the corrected one alike.
   */
  lemma AdaptedCallsOnce(h: SyncHandler, buffer: Buffer, cb: Callback, capture: Exception -> Exception)
    requires !h(ViewOfBuffer(buffer)).Threw? || h(ViewOfBuffer(buffer)).ex.Std?
    requires forall args :: cb(args) == Completed
    ensures AdaptedWith(h, buffer, cb, capture).escaped == None
    ensures |AdaptedWith(h, buffer, cb, capture).calls| == 1
    ensures h(ViewOfBuffer(buffer)).Returned? ==>
              AdaptedWith(h, buffer, cb, capture).calls[0] == CallbackArgs(None, ViewOfBuffer(h(ViewOfBuffer(buffer)).ret))
    ensures h(ViewOfBuffer(buffer)).Threw? ==>
              AdaptedWith(h, buffer, cb, capture).calls[0]
              == CallbackArgs(Some(capture(h(ViewOfBuffer(buffer)).ex)), EmptyView())
  {
    var args := CallbackArgs(None, EmptyView());
    if h(ViewOfBuffer(buffer)).Returned? {
      args := CallbackArgs(None, ViewOfBuffer(h(ViewOfBuffer(buffer)).ret));
    }
    assert cb(args) == Completed;
  }

  /** The corrected adapter hands the callback exactly the `std::exception` the handler threw. */
  lemma AdaptedPassesThrownException(h: SyncHandler, buffer: Buffer, cb: Callback)
    requires h(ViewOfBuffer(buffer)).Threw? && h(ViewOfBuffer(buffer)).ex.Std?
    ensures Adapted(h, buffer, cb).calls[0] == CallbackArgs(Some(h(ViewOfBuffer(buffer)).ex), EmptyView())
    ensures What(Adapted(h, buffer, cb).calls[0].ep.value) == What(h(ViewOfBuffer(buffer)).ex)
  {
  }

  /** A handler that throws something other than a `std::exception` never reaches the callback. */
  lemma AdaptedLetsNonStdEscape(h: SyncHandler, buffer: Buffer, cb: Callback, capture: Exception -> Exception)
    requires h(ViewOfBuffer(buffer)).Threw? && h(ViewOfBuffer(buffer)).ex.NonStd?
    ensures AdaptedWith(h, buffer, cb, capture) == Invocation([], Some(h(ViewOfBuffer(buffer)).ex))
  {
  }

  /**
   * A callback that throws a `std::exception` on the success call is caught
   * by the adapter's own try block and called a second time, with the
   * captured exception and an empty view.
   */
  lemma AdaptedRecallsThrowingCallback(h: SyncHandler, buffer: Buffer, cb: Callback, capture: Exception -> Exception)
    requires h(ViewOfBuffer(buffer)).Returned?
    requires cb(CallbackArgs(None, ViewOfBuffer(h(ViewOfBuffer(buffer)).ret))).CallbackThrew?
    requires cb(CallbackArgs(None, ViewOfBuffer(h(ViewOfBuffer(buffer)).ret))).ex.Std?
    ensures |AdaptedWith(h, buffer, cb, capture).calls| == 2
    ensures AdaptedWith(h, buffer, cb, capture).calls[0] == CallbackArgs(None, ViewOfBuffer(h(ViewOfBuffer(buffer)).ret))
    ensures AdaptedWith(h, buffer, cb, capture).calls[1] ==
            CallbackArgs(Some(capture(cb(CallbackArgs(None, ViewOfBuffer(h(ViewOfBuffer(buffer)).ret))).ex)), EmptyView())
  {
  }

  /**
   * As written, a handler that throws a `std::exception` of any other dynamic
   * type makes the callback receive a different object: a plain
   * `std::exception` whose `what()` is the library's fixed text, whatever
   * message the handler gave.
   */
  lemma AdaptedAsWrittenSlicesException(h: SyncHandler, buffer: Buffer, cb: Callback)
    requires h(ViewOfBuffer(buffer)).Threw? && h(ViewOfBuffer(buffer)).ex.Std?
    ensures AdaptedAsWritten(h, buffer, cb).calls[0] ==
            CallbackArgs(Some(Std(PlainException, "std::exception")), EmptyView())
    ensures h(ViewOfBuffer(buffer)).ex.kind != PlainException ==>
            AdaptedAsWritten(h, buffer, cb).calls[0].ep != Some(h(ViewOfBuffer(buffer)).ex)
    ensures What(AdaptedAsWritten(h, buffer, cb).calls[0].ep.value) == "std::exception"
  {
    var plain := "std::exception";
    CStrAppend(plain, []);
    assert plain + [] == plain;
  }

  /**
   * The handler table of include/ws-gw.h's `Service`: the default handler
   * given at construction and the map the two `RegisterHandler` overloads
   * fill in.
   */
  class Registry {
    const defaultHandler: Handler
    var mapped: map<CppString, Handler>

    /** `Service(Handler defaultHandler)`. */
    constructor (defaultHandler: Handler)
      ensures this.defaultHandler == defaultHandler
      ensures mapped == map[]
    {
      this.defaultHandler := defaultHandler;
      mapped := map[];
    }

    /** `RegisterHandler(name, Handler)`: `mapped.emplace(name, handler)`. */
    method RegisterHandler(name: CppString, handler: Handler)
      modifies this
      ensures mapped == Emplace(old(mapped), name, handler)
      ensures name in old(mapped) ==> mapped == old(mapped)
      ensures name !in old(mapped) ==> mapped == old(mapped)[name := handler]
    {
      mapped := Emplace(mapped, name, handler);
    }

    /** `RegisterHandler(name, SyncHandler)`: emplaces the header's adapter around the handler. */
    method RegisterSyncHandler(name: CppString, handler: SyncHandler)
      modifies this
      ensures mapped == Emplace(old(mapped), name, AdaptAsWritten(handler))
      ensures name in old(mapped) ==> mapped == old(mapped)
      ensures name !in old(mapped) ==>
                name in mapped && forall buffer, cb :: mapped[name](buffer, cb) == AdaptedAsWritten(handler, buffer, cb)
    {
      mapped := Emplace(mapped, name, AdaptAsWritten(handler));
    }
  }
}
