/** The serialization transport session: one byte-oriented link layer shared by a
    synchronous command/response channel and an asynchronous event stream, told apart by
    the packet-type byte in front of every payload.

    The threads of the original are replaced by a sequential model. The link layer's
    results are parameters of the operations that call it (and every call is recorded in
    `linkCalls`); the payloads the link layer's thread delivers while `Send` waits for a
    reply are a parameter of `Send`; the event thread's inner loop is `ProcessQueue`, one
    iteration of it `DispatchFront`; the event decoder is a function parameter. */
module Transport {
  import opened Types
  import opened Framing
  import opened Demux
  import opened Dispatch

  /** A caller-owned reply buffer (a shared `std::vector<uint8_t>`): the caller sizes it
      for the reply it expects, the session copies the reply into it and truncates it. */
  class ByteBuffer {
    var bytes: seq<Byte>

    constructor (initial: seq<Byte>)
      ensures bytes == initial
    {
      bytes := initial;
    }

    /** `std::copy` of `src` over the front of the buffer. */
    method CopyFrom(src: seq<Byte>)
      requires |src| <= |bytes|
      modifies this
      ensures bytes == src + old(bytes)[|src|..]
    {
      var i := 0;
      while i < |src|
        invariant 0 <= i <= |src|
        invariant |bytes| == |old(bytes)|
        invariant bytes[..i] == src[..i]
        invariant bytes[i..] == old(bytes)[i..]
      {
        bytes := bytes[i := src[i]];
        i := i + 1;
      }
      assert bytes == bytes[..|src|] + bytes[|src|..];
    }

    /** `std::vector::resize`: truncates, or pads with zero bytes. */
    method Resize(n: nat)
      modifies this
      ensures |bytes| == n
      ensures n <= |old(bytes)| ==> bytes == old(bytes)[..n]
      ensures n > |old(bytes)| ==> bytes == old(bytes) + seq(n - |old(bytes)|, _ => 0)
    {
      if n <= |bytes| {
        bytes := bytes[..n];
      } else {
        bytes := bytes + seq(n - |bytes|, _ => 0);
      }
    }
  }

  /** A call the session makes into the link layer. */
  datatype LinkCall = LinkOpen | LinkSend(frame: seq<Byte>) | LinkClose

  class SerializationTransport {
    /** Milliseconds `Send` waits for a reply; the clock itself is not modelled. */
    const responseTimeout: nat

    /** The status, event and log callbacks registered by the last `Open`. */
    var callbacks: Sinks
    /** The pending-response slot: whether a reply arrived, and where to copy it. */
    var responseReceived: bool
    var responseBuffer: ByteBuffer?
    /** Whether the event thread keeps handling events. */
    var processEvents: bool
    var isOpen: bool
    /** Whether an event thread exists that has not been joined (`eventThread.joinable()`). */
    var eventThreadJoinable: bool
    /** Whether that event thread is still running its loop; it stops early when a decode
        failure meets an empty status callback, and the session keeps it joinable. */
    var eventThreadRunning: bool
    /** Event payloads received and not yet handled, oldest first. */
    var eventQueue: seq<seq<Byte>>
    /** Every call made into the link layer, in order. */
    var linkCalls: seq<LinkCall>
    /** What the event thread did with each payload it took from the queue, in order. */
    var dispatched: seq<Dispatched>

    /** The event thread handles events only while it exists, runs only while it has not
        been joined, and exists only while the session is open. */
    ghost predicate Valid()
      reads this
    {
      (processEvents ==> eventThreadJoinable) && (eventThreadRunning ==> eventThreadJoinable)
      && (eventThreadJoinable ==> isOpen)
    }

    constructor (responseTimeout: nat)
      ensures Valid()
      ensures this.responseTimeout == responseTimeout
      ensures callbacks == Sinks(None, None, None)
      ensures !responseReceived && responseBuffer == null
      ensures !processEvents && !isOpen && !eventThreadJoinable && !eventThreadRunning
      ensures eventQueue == [] && linkCalls == [] && dispatched == []
    {
      this.responseTimeout := responseTimeout;
      callbacks := Sinks(None, None, None);
      responseReceived := false;
      responseBuffer := null;
      processEvents := false;
      isOpen := false;
      eventThreadJoinable := false;
      eventThreadRunning := false;
      eventQueue := [];
      linkCalls := [];
      dispatched := [];
    }

    /** Opens the session over a link layer whose own open returns `linkResult`. */
    method Open(sinks: Sinks, linkResult: uint32) returns (r: uint32)
      modifies this`callbacks, this`isOpen, this`processEvents, this`eventThreadJoinable, this`eventThreadRunning
      modifies this`eventQueue, this`linkCalls
      ensures old(isOpen) ==> r == TransportAlreadyOpen && unchanged(this)
      ensures !old(isOpen) ==> callbacks == sinks && linkCalls == old(linkCalls) + [LinkOpen]
      ensures !old(isOpen) && linkResult != Success ==>
        r == linkResult && !isOpen && processEvents == old(processEvents)
        && eventThreadJoinable == old(eventThreadJoinable) && eventThreadRunning == old(eventThreadRunning)
        && eventQueue == old(eventQueue)
      ensures !old(isOpen) && linkResult == Success && !old(eventThreadJoinable) ==>
        r == Success && isOpen && processEvents && eventThreadJoinable && eventThreadRunning
        && eventQueue == []
      ensures !old(isOpen) && linkResult == Success && old(eventThreadJoinable) ==>
        r == TransportError && isOpen && processEvents == old(processEvents)
        && eventThreadJoinable && eventThreadRunning == old(eventThreadRunning) && eventQueue == old(eventQueue)
      ensures old(Valid()) ==> Valid()
      ensures old(Valid()) && !old(isOpen) && linkResult == Success ==> r == Success
    {
      if isOpen {
        return TransportAlreadyOpen;
      }
      callbacks := sinks;
      linkCalls := linkCalls + [LinkOpen];
      if linkResult != Success {
        return linkResult;
      }
      isOpen := true;
      if !eventThreadJoinable {
        // Start the event thread and wait for its first "ready" signal; before giving it,
        // the thread drops every queued payload: any left from an earlier session, and any
        // event the link just opened has already delivered (those are lost at startup).
        processEvents := true;
        eventThreadJoinable := true;
        eventThreadRunning := true;
        DrainEventQueue();
      } else {
        return TransportError;
      }
      return Success;
    }

    /** Closes the session. `onEventThread` says the caller is the event thread itself (a
        close from inside an event callback); `joinFails` says joining the event thread
        raises a system error; `linkResult` is what the link layer's close returns. */
    method Close(onEventThread: bool, joinFails: bool, linkResult: uint32) returns (r: uint32)
      requires onEventThread ==> eventThreadRunning
      modifies this`processEvents, this`eventThreadJoinable, this`eventThreadRunning, this`isOpen, this`linkCalls
      ensures !processEvents
      ensures old(eventThreadJoinable) && onEventThread ==>
        r == TransportError && eventThreadJoinable && eventThreadRunning == old(eventThreadRunning)
        && isOpen == old(isOpen) && linkCalls == old(linkCalls)
      ensures old(eventThreadJoinable) && !onEventThread && joinFails ==>
        r == TransportInvalidState && eventThreadJoinable && eventThreadRunning == old(eventThreadRunning)
        && isOpen == old(isOpen) && linkCalls == old(linkCalls)
      ensures !old(eventThreadJoinable) || (!onEventThread && !joinFails) ==>
        !eventThreadJoinable && eventThreadRunning == (old(eventThreadRunning) && !old(eventThreadJoinable))
        && !isOpen &&
        if old(isOpen) then r == linkResult && linkCalls == old(linkCalls) + [LinkClose]
        else r == TransportAlreadyClosed && linkCalls == old(linkCalls)
      ensures old(Valid()) ==> Valid()
    {
      // Stop the event thread first: its callbacks may call back into the session.
      processEvents := false;
      if eventThreadJoinable {
        if onEventThread {
          // Joining itself would never return; the thread is left running.
          return TransportError;
        }
        if joinFails {
          return TransportInvalidState;
        }
        // Once joined, the thread has finished.
        eventThreadJoinable := false;
        eventThreadRunning := false;
      }
      if !isOpen {
        return TransportAlreadyClosed;
      }
      isOpen := false;
      linkCalls := linkCalls + [LinkClose];
      return linkResult;
    }

    /** Sends `command` tagged with `pktType`. `linkResult` is what the link layer's send
        returns; `arrivals` are the payloads the link layer delivers, each through
        `ReadHandler`, before the reply deadline passes. */
    method Send(command: seq<Byte>, rsp: ByteBuffer?, pktType: Byte, linkResult: uint32,
                arrivals: seq<seq<Byte>>) returns (r: uint32)
      requires AllNonEmpty(arrivals)
      modifies this`responseReceived, this`responseBuffer, this`eventQueue, this`linkCalls, rsp
      ensures !old(isOpen) ==>
        r == TransportInvalidState && unchanged(this) && (rsp != null ==> unchanged(rsp))
      ensures old(isOpen) ==>
        responseBuffer == rsp && linkCalls == old(linkCalls) + [LinkSend(Frame(pktType, command))]
      ensures old(isOpen) && linkResult != Success ==>
        r == linkResult && !responseReceived && eventQueue == old(eventQueue)
        && (rsp != null ==> rsp.bytes == old(rsp.bytes))
      ensures old(isOpen) && linkResult == Success && rsp == null ==>
        r == Success && !responseReceived && eventQueue == old(eventQueue)
      ensures old(isOpen) && linkResult == Success && rsp != null ==>
        var responses := ResponsesIn(arrivals);
        responseReceived == (responses != [])
        && r == (if responses != [] then Success else TransportNoResponse)
        && rsp.bytes == ReplyAfter(old(rsp.bytes), responses)
        && eventQueue == old(eventQueue) + EventsIn(arrivals)
    {
      if !isOpen {
        return TransportInvalidState;
      }
      responseReceived := false;
      responseBuffer := rsp;
      var frame := Frame(pktType, command);
      linkCalls := linkCalls + [LinkSend(frame)];
      if linkResult != Success {
        return linkResult;
      }
      if rsp == null {
        return Success;
      }
      AwaitResponse(arrivals);
      if !responseReceived {
        // A warning is logged: no reply before the deadline.
        return TransportNoResponse;
      }
      return Success;
    }

    /** The timed wait of `send` for a reply into the buffer in the slot: until the
        deadline, the link layer's thread hands each payload of `arrivals`, in order, to
        the inbound handler. */
    method AwaitResponse(arrivals: seq<seq<Byte>>)
      requires AllNonEmpty(arrivals) && responseBuffer != null
      modifies this`responseReceived, this`eventQueue, responseBuffer
      ensures responseReceived == (old(responseReceived) || ResponsesIn(arrivals) != [])
      ensures responseBuffer.bytes == ReplyAfter(old(responseBuffer.bytes), ResponsesIn(arrivals))
      ensures eventQueue == old(eventQueue) + EventsIn(arrivals)
    {
      ghost var rsp, buffer0 := responseBuffer, responseBuffer.bytes;
      var i := 0;
      while i < |arrivals|
        invariant 0 <= i <= |arrivals|
        invariant responseReceived == (old(responseReceived) || ResponsesIn(arrivals[..i]) != [])
        invariant responseBuffer == rsp
        invariant rsp.bytes == ReplyAfter(buffer0, ResponsesIn(arrivals[..i]))
        invariant eventQueue == old(eventQueue) + EventsIn(arrivals[..i])
      {
        assert arrivals[..i + 1] == arrivals[..i] + [arrivals[i]];
        RoutingSnoc(arrivals[..i], arrivals[i]);
        ReplyStep(buffer0, arrivals[..i], arrivals[i]);
        ReadHandler(arrivals[i]);
        i := i + 1;
      }
      assert arrivals[..i] == arrivals;
    }

    /** The inbound-payload handler the link layer calls with every payload it receives. */
    method ReadHandler(data: seq<Byte>)
      requires |data| >= 1
      modifies this`responseReceived, this`eventQueue, responseBuffer
      ensures Route(data).Response? ==>
        responseReceived && eventQueue == old(eventQueue)
        && (responseBuffer != null ==>
              responseBuffer.bytes == AfterResponse(old(responseBuffer.bytes), Route(data).body))
      ensures Route(data).Event? ==>
        eventQueue == old(eventQueue) + [Route(data).body] && responseReceived == old(responseReceived)
        && (responseBuffer != null ==> responseBuffer.bytes == old(responseBuffer.bytes))
      ensures Route(data).Unknown? ==>
        eventQueue == old(eventQueue) && responseReceived == old(responseReceived)
        && (responseBuffer != null ==> responseBuffer.bytes == old(responseBuffer.bytes))
    {
      var tag := data[0];
      var body := data[1..];
      if tag == ResponseTag {
        if responseBuffer != null && |responseBuffer.bytes| > 0 {
          if |responseBuffer.bytes| >= |body| {
            responseBuffer.CopyFrom(body);
            responseBuffer.Resize(|body|);
          }
          // Otherwise the reply is larger than the buffer: an error is logged, the body dropped.
        }
        // Otherwise the command gave no buffer for a reply: an error is logged, the body dropped.
        responseReceived := true;
      } else if tag == EventTag {
        eventQueue := eventQueue + [body];
      }
      // Any other packet type: a warning is logged, the payload dropped.
    }

    /** Drops every queued event payload without handling it. */
    method DrainEventQueue()
      modifies this`eventQueue
      ensures eventQueue == []
    {
      while eventQueue != []
        decreases |eventQueue|
      {
        eventQueue := eventQueue[1..];
      }
    }

    /** One iteration of the running event thread's inner loop: take the oldest payload off
        the queue, decode it with `decode`, and hand the outcome to the registered callbacks.
        A decode failure with an empty status callback ends the thread. */
    method DispatchFront(decode: seq<Byte> -> DecodeResult) returns (d: Dispatched)
      requires processEvents && eventThreadRunning && eventQueue != []
      modifies this`eventQueue, this`dispatched, this`eventThreadRunning
      ensures d == DispatchOne(old(eventQueue)[0], decode, callbacks)
      ensures eventQueue == old(eventQueue)[1..]
      ensures dispatched == old(dispatched) + [d]
      ensures eventThreadRunning == !d.RunnerAborted?
    {
      var eventData := eventQueue[0];
      eventQueue := eventQueue[1..];
      var result := decode(eventData);
      d := EventDropped;
      if callbacks.event.Some? && result.err == Success {
        d := EventDelivered(callbacks.event.value, result.event);
      }
      if result.err != Success {
        if callbacks.status.Some? {
          d := DecodeErrorReported(callbacks.status.value, result.err);
        } else {
          // Calling the empty callback throws; the thread's handler catches it and returns.
          d := RunnerAborted(result.err);
          eventThreadRunning := false;
        }
      }
      dispatched := dispatched + [d];
    }

    /** The event thread's inner loop, run once it is woken: handle queued payloads, oldest
        first, until the queue is empty or event processing has been switched off. A thread
        that has ended handles nothing. `aborted` says the thread ended during this run, on a
        decode failure with no status callback. */
    method ProcessQueue(decode: seq<Byte> -> DecodeResult) returns (aborted: bool)
      modifies this`eventQueue, this`dispatched, this`eventThreadRunning
      ensures !old(eventThreadRunning) || !processEvents ==>
        !aborted && eventQueue == old(eventQueue) && dispatched == old(dispatched)
        && eventThreadRunning == old(eventThreadRunning)
      ensures old(eventThreadRunning) && processEvents ==>
        var run := Run(old(eventQueue), decode, callbacks);
        dispatched == old(dispatched) + run
        && eventQueue == old(eventQueue)[|run|..]
        && aborted == (run != [] && run[|run| - 1].RunnerAborted?)
        && eventThreadRunning == !aborted
      ensures aborted ==> !eventThreadRunning
      ensures eventThreadRunning && processEvents ==> eventQueue == []
    {
      ghost var queue0 := eventQueue;
      ghost var running0 := eventThreadRunning;
      ghost var n := 0;
      aborted := false;
      while eventQueue != [] && processEvents && eventThreadRunning
        invariant n <= |queue0| && eventQueue == queue0[n..]
        invariant !running0 || !processEvents ==> n == 0 && eventThreadRunning == running0
        invariant running0 ==> eventThreadRunning == !aborted
        invariant dispatched == old(dispatched) + Run(queue0[..n], decode, callbacks)
        invariant !aborted ==> NoAbort(queue0[..n], decode, callbacks)
        invariant aborted ==>
          0 < n && NoAbort(queue0[..n - 1], decode, callbacks) && Aborts(queue0[n - 1], decode, callbacks)
        decreases |eventQueue|
      {
        var d := DispatchFront(decode);
        RunStep(queue0, decode, callbacks, n);
        n := n + 1;
        aborted := d.RunnerAborted?;
      }
      if running0 && processEvents {
        if aborted {
          assert queue0[..n][..n - 1] == queue0[..n - 1];
          RunStopsAtAbort(queue0, decode, callbacks, n - 1);
          RunInOrder(queue0, decode, callbacks, n - 1);
        } else {
          assert queue0[..n] == queue0;
          RunComplete(queue0, decode, callbacks);
        }
      }
    }
  }
}
