/**
 The table of proxy byte-stream handles. Three reserved handles name fixed
 endpoints and are entered in the table on first use; every other handle is
 allocated. Each entry keeps the write state of its stream.
 */
module StreamHandles {
  import opened Wrappers

  const I64_MAX: int := 0x7FFF_FFFF_FFFF_FFFF
  const FIRST_PROXY_STREAM_HANDLE: int := 4096
  const DEFAULT_UPSTREAM_EXCHANGE: int := 1

  const RESERVED_HTTP_DOWNSTREAM: int := -1
  const RESERVED_DOWNSTREAM_CONNECT: int := -2
  const RESERVED_DEFAULT_UPSTREAM: int := -3

  datatype Endpoint =
    | HttpDownstream
    | DownstreamConnect
    | DownstreamWebSocketBinary
    | HttpExchange(exchange: int)
    | DynamicTcp(stream: int)
    | DynamicTls(session: int)
    | WebSocketBinary(connection: int)

  /** `notify` says whether some waiter has asked for the close notification yet. */
  datatype StreamState = StreamState(endpoint: Endpoint, writeObserved: bool, writeClosed: bool, notify: bool)

  datatype HandleError = UnknownHandle(handle: int) | WriteClosed(handle: int) | HandleSpaceExhausted

  function NewStream(endpoint: Endpoint): StreamState {
    StreamState(endpoint, false, false, false)
  }

  function ReservedHandle(endpoint: Endpoint): Option<int> {
    match endpoint
    case HttpDownstream => Some(RESERVED_HTTP_DOWNSTREAM)
    case DownstreamConnect => Some(RESERVED_DOWNSTREAM_CONNECT)
    case HttpExchange(exchange) =>
      if exchange == DEFAULT_UPSTREAM_EXCHANGE then Some(RESERVED_DEFAULT_UPSTREAM) else None
    case _ => None
  }

  function ReservedEndpoint(handle: int): Option<Endpoint> {
    if handle == RESERVED_HTTP_DOWNSTREAM then Some(HttpDownstream)
    else if handle == RESERVED_DOWNSTREAM_CONNECT then Some(DownstreamConnect)
    else if handle == RESERVED_DEFAULT_UPSTREAM then Some(HttpExchange(DEFAULT_UPSTREAM_EXCHANGE))
    else None
  }

  /** The two reserved tables are inverse to each other and stay clear of allocated handles. */
  lemma ReservedHandlesInvert(endpoint: Endpoint, handle: int)
    ensures ReservedHandle(endpoint) == Some(handle) <==> ReservedEndpoint(handle) == Some(endpoint)
    ensures ReservedEndpoint(handle).Some? ==> handle < FIRST_PROXY_STREAM_HANDLE
    ensures ReservedHandle(HttpDownstream) == Some(-1) && ReservedHandle(DownstreamConnect) == Some(-2)
    ensures ReservedHandle(HttpExchange(DEFAULT_UPSTREAM_EXCHANGE)) == Some(-3)
  {
  }

  // ---------------------------------------------------------------- write state

  /** A write is refused once the stream is write-closed, and observed otherwise. */
  function WritePrepared(st: StreamState): StreamState {
    if st.writeClosed then st else st.(writeObserved := true)
  }

  function WriteClosedState(st: StreamState): StreamState {
    st.(writeClosed := true)
  }

  /** Only the call that closes the stream notifies, and only if a waiter asked before. */
  predicate CloseOwesNotify(st: StreamState) {
    !st.writeClosed && st.notify
  }

  function NotifyRequested(st: StreamState): StreamState {
    st.(notify := true)
  }

  // ---------------------------------------------------------------- the table in place

  class ProxyStreamRegistry {
    var next: int
    var handles: map<int, StreamState>

    ghost predicate Valid()
      reads this
    {
      && FIRST_PROXY_STREAM_HANDLE <= next <= I64_MAX
      && (forall h :: h in handles ==> h < next)
      && (forall h :: h in handles && h < FIRST_PROXY_STREAM_HANDLE ==> ReservedEndpoint(h).Some?)
    }

    /** What a caller sees of a handle: a reserved one looks untouched until it is used. */
    ghost function View(handle: int): Option<StreamState>
      reads this
    {
      if handle in handles then Some(handles[handle])
      else match ReservedEndpoint(handle)
           case Some(endpoint) => Some(NewStream(endpoint))
           case None => None
    }

    constructor ()
      ensures Valid()
      ensures forall h :: View(h) == match ReservedEndpoint(h)
                                     case Some(endpoint) => Some(NewStream(endpoint))
                                     case None => None
    {
      next := FIRST_PROXY_STREAM_HANDLE;
      handles := map[];
    }

    /** The new handle was unknown before, and no other handle changes. */
    method AllocateHandle(endpoint: Endpoint) returns (r: Result<int, HandleError>)
      requires Valid()
      modifies this
      ensures Valid()
      ensures r.Failure? <==> old(next) == I64_MAX
      ensures r.Failure? ==> r.error == HandleSpaceExhausted && forall h :: View(h) == old(View(h))
      ensures r.Success? ==>
                && r.value == old(next) >= FIRST_PROXY_STREAM_HANDLE
                && old(View(r.value)) == None
                && View(r.value) == Some(StreamState(endpoint, false, false, false))
                && forall h :: h != r.value ==> View(h) == old(View(h))
    {
      var handle := next;
      if handle == I64_MAX {
        return Failure(HandleSpaceExhausted);
      }
      next := handle + 1;
      handles := handles[handle := NewStream(endpoint)];
      r := Success(handle);
    }

    /** Entering a reserved handle on demand is invisible. */
    method EnsureState(handle: int) returns (r: Result<StreamState, HandleError>)
      requires Valid()
      modifies this`handles
      ensures Valid() && forall h :: View(h) == old(View(h))
      ensures match old(View(handle))
              case Some(st) => r == Success(st) && handle in handles
              case None => r == Failure(UnknownHandle(handle)) && handles == old(handles)
    {
      if handle in handles {
        return Success(handles[handle]);
      }
      match ReservedEndpoint(handle) {
        case Some(endpoint) =>
          handles := handles[handle := NewStream(endpoint)];
          r := Success(handles[handle]);
        case None =>
          r := Failure(UnknownHandle(handle));
      }
    }

    method StateOf(handle: int) returns (r: Result<StreamState, HandleError>)
      ensures match View(handle)
              case Some(st) => r == Success(st)
              case None => r == Failure(UnknownHandle(handle))
    {
      if handle in handles {
        return Success(handles[handle]);
      }
      match ReservedEndpoint(handle) {
        case Some(endpoint) => r := Success(NewStream(endpoint));
        case None => r := Failure(UnknownHandle(handle));
      }
    }

    method PrepareWrite(handle: int) returns (r: Result<Endpoint, HandleError>)
      requires Valid()
      modifies this`handles
      ensures Valid() && forall h :: h != handle ==> View(h) == old(View(h))
      ensures match old(View(handle))
              case None => r == Failure(UnknownHandle(handle)) && View(handle) == None
              case Some(st) =>
                && View(handle) == Some(WritePrepared(st))
                && r == if st.writeClosed then Failure(WriteClosed(handle)) else Success(st.endpoint)
    {
      var st :- EnsureState(handle);
      if st.writeClosed {
        return Failure(WriteClosed(handle));
      }
      handles := handles[handle := st.(writeObserved := true)];
      r := Success(st.endpoint);
    }

    /** The second result says whether the caller must now notify the waiters. */
    method MarkWriteClosed(handle: int) returns (r: Result<(Endpoint, bool), HandleError>)
      requires Valid()
      modifies this`handles
      ensures Valid() && forall h :: h != handle ==> View(h) == old(View(h))
      ensures match old(View(handle))
              case None => r == Failure(UnknownHandle(handle)) && View(handle) == None
              case Some(st) =>
                && View(handle) == Some(WriteClosedState(st))
                && r == Success((st.endpoint, CloseOwesNotify(st)))
    {
      var st :- EnsureState(handle);
      if st.writeClosed {
        return Success((st.endpoint, false));
      }
      handles := handles[handle := st.(writeClosed := true)];
      r := Success((st.endpoint, st.notify));
    }

    method WriteClosedFlag(handle: int) returns (r: Result<bool, HandleError>)
      ensures match View(handle)
              case Some(st) => r == Success(st.writeClosed)
              case None => r == Failure(UnknownHandle(handle))
    {
      if handle in handles {
        return Success(handles[handle].writeClosed);
      }
      r := if ReservedEndpoint(handle).Some? then Success(false) else Failure(UnknownHandle(handle));
    }

    method RequestNotify(handle: int) returns (r: Result<(), HandleError>)
      requires Valid()
      modifies this`handles
      ensures Valid() && forall h :: h != handle ==> View(h) == old(View(h))
      ensures match old(View(handle))
              case None => r == Failure(UnknownHandle(handle)) && View(handle) == None
              case Some(st) => r == Success(()) && View(handle) == Some(NotifyRequested(st))
    {
      var st :- EnsureState(handle);
      handles := handles[handle := st.(notify := true)];
      r := Success(());
    }
  }
}
