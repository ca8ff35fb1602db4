# Serialization transport session: a Dafny model

This project models `SerializationTransport` from the PC BLE driver. It is the session layer between an
application and an H5 link layer that talks to a remote Bluetooth controller. It turns the one link into
two channels:

- a synchronous command/response channel;
- an asynchronous event stream.

A one-byte packet type in front of every payload tells the two apart.

The model is sequential. The session is a class (`Transport.SerializationTransport`) with the source's
fields: `isOpen`, `processEvents`, the pending-response slot (`responseReceived`, `responseBuffer`), the
registered callbacks and `eventQueue`. Its methods change those fields in place, as the C++ methods do.
What other threads do becomes an input:

- The link layer's open, send and close results are parameters. Every call into the link layer is
  recorded in `linkCalls`.
- The timed wait in `send` is `AwaitResponse` over `arrivals`: the payloads the link layer's thread hands
  to the inbound handler before the deadline. Each one goes through `ReadHandler`, so `Send` returns `Success`
  exactly when one of them is a response, as `responseReceived` decides in the source.
- The event thread's inner loop is `ProcessQueue`. One iteration of it is `DispatchFront`.
- The event decoder `ble_event_dec` is a function parameter. It returns an error code and a decoded event.
- Closing from inside an event callback and a failing thread join are boolean inputs of `Close`.
- Whether the event thread is still running is the field `eventThreadRunning`. It is set when `Open`
  starts the thread, cleared when `Close` joins it, and cleared when the thread ends on a decode failure
  with no status callback. An ended thread handles no further events, although `processEvents` stays on
  until `Close`.

Pure specifications sit beside the class:

- `Framing`: the wire format `[tag] ++ body` and routing by tag.
- `Demux`: the effect of a sequence of inbound payloads on the reply buffer and on the event queue.
- `Dispatch`: the FIFO handling of queued event payloads.

The lemmas about these are the model's main results:

- the reply buffer holds either its old content or one whole response body;
- oversized replies are dropped;
- a single fitting reply is delivered exactly;
- unknown packet types change nothing;
- events are handled in queue order, and each one is handled completely.

The model keeps these details of the code exactly as written, including the return codes it chooses:

- A `close` called from the event thread itself returns `NRF_ERROR_SD_RPC_SERIALIZATION_TRANSPORT`
  (`TransportError`), not the invalid-state code.
- The double-start guard in `open` also returns `TransportError`, and it leaves `isOpen` true. `Valid()`
  (an event thread exists only while the session is open, and runs only until it is joined) is kept by `Open` and `Close`. From a valid state
  the guard never fires, and `Open` proves that.
- Once `open` has succeeded, the new event thread drains the queue before it signals "ready". So `Open`
  leaves the queue empty. The drain drops payloads left from an earlier session, and also any event the
  link delivered between its own open and that signal: such events are lost at startup.
- `send` does not clear the response slot when it returns. A reply that arrives late is still copied into
  the last caller's buffer. `ReadHandler`'s contract shows this, since it acts on whatever `responseBuffer`
  holds.

The packet-type values (command 0, response 1, event 2) and the numeric error codes come from headers that
are not part of this model (serialization_transport.h, sd_rpc_types.h). No proof depends on their values.
The proofs only need the codes to be distinct from each other and from `Success`.

## Model

| member | source | states |
|---|---|---|
| `Framing.Frame` | src/common/transport/serialization_transport.cpp:147-149 | the frame is one byte longer than the command, starts with the packet type and continues with the command bytes |
| `Framing.Route` | src/common/transport/serialization_transport.cpp:270-312 | a payload is a response iff its first byte is the response tag, and an event iff it is the event tag; anything else is unknown; the body is everything after the tag, so tag and body rebuild the payload |
| `Framing.RouteInvertsFrame` | src/common/transport/serialization_transport.cpp:270-273 | routing a frame built with the response or event tag gives back exactly the framed body; any other tag is unknown |
| `Demux.AfterResponse` | src/common/transport/serialization_transport.cpp:277-294 | a response body replaces the buffer's content iff the buffer is non-empty and at least as long; otherwise the buffer is unchanged; the buffer never grows |
| `Demux.ResponsesIn` | src/common/transport/serialization_transport.cpp:275-299 | the response bodies among the delivered payloads, in arrival order; never more than the payloads |
| `Demux.EventsIn` | src/common/transport/serialization_transport.cpp:300-308 | the event bodies among the delivered payloads, in arrival order; never more than the payloads |
| `Demux.ReplyAfter` | src/common/transport/serialization_transport.cpp:279-283 | after any sequence of responses, the reply buffer is no longer than the caller allocated it |
| `Demux.RoutingSnoc` | src/common/transport/serialization_transport.cpp:275-308 | one more payload adds its body at the end of the responses if it is a response, at the end of the events if it is an event, and nothing otherwise |
| `Demux.ReplyStep` | src/common/transport/serialization_transport.cpp:275-299 | one more payload: a response acts on the buffer the earlier ones left and means a response has arrived; anything else leaves the buffer and the received flag as they were |
| `Demux.RoutingAppend` | src/common/transport/serialization_transport.cpp:300-306 | handling payloads in two batches queues the same events in the same order as handling them at once, and the same for responses |
| `Demux.UnknownPayloadIgnored` | src/common/transport/serialization_transport.cpp:309-312 | inserting a payload with an unknown tag anywhere changes neither the responses seen nor the events queued |
| `Demux.ReplyIsWholeBody` | src/common/transport/serialization_transport.cpp:279-283 | the reply buffer only ever holds its original content or one whole response body |
| `Demux.OversizedRepliesDropped` | src/common/transport/serialization_transport.cpp:284-288 | responses that do not fit leave the reply buffer unchanged |
| `Demux.SingleReplyDelivered` | src/common/transport/serialization_transport.cpp:279-283 | when exactly one response arrives among other payloads and it fits, the buffer ends up equal to that response's body |
| `Dispatch.DispatchOne` | src/common/transport/serialization_transport.cpp:238-252 | the event callback is invoked iff decoding succeeded and one is registered, and then with the decoded event; a decode failure never invokes it and is reported to the status callback as PKT_DECODE_ERROR, with the decoder's error code (carried in the source's message text) kept as `err`; with no status callback a failure ends the event thread |
| `Dispatch.Run` | src/common/transport/serialization_transport.cpp:215-256 | draining a queue yields at most one outcome per queued payload |
| `Dispatch.RunInOrder` | src/common/transport/serialization_transport.cpp:215-222 | FIFO: the i-th outcome is the handling of the i-th queued payload, so events queued A then B are delivered A then B |
| `Dispatch.RunComplete` | src/common/transport/serialization_transport.cpp:215-256 | without a failure that ends the thread, every queued payload is handled and none ends the thread |
| `Dispatch.RunAppend` | src/common/transport/serialization_transport.cpp:215-222 | handling a queue in two parts, the first free of aborting entries, gives the same outcomes as handling it at once |
| `Dispatch.RunStep` | src/common/transport/serialization_transport.cpp:215-222 | after a prefix free of aborting entries, handling one more entry appends exactly its own outcome, and the longer prefix is free of aborts unless that entry aborts |
| `Dispatch.RunStopsAtAbort` | src/common/transport/serialization_transport.cpp:246-265 | the first entry whose failure ends the thread is the last one handled; the entries behind it stay unhandled |
| `Transport.ByteBuffer.CopyFrom` | src/common/transport/serialization_transport.cpp:281 | the buffer's front is overwritten by the source bytes and the rest is kept |
| `Transport.ByteBuffer.Resize` | src/common/transport/serialization_transport.cpp:282 | the buffer is truncated to the new length, or padded with zero bytes |
| `Transport.SerializationTransport.constructor` | src/common/transport/serialization_transport.cpp:14-27 | a new session is closed, has no callbacks, no pending reply, an empty queue, and no event thread |
| `Transport.SerializationTransport.Open` | src/common/transport/serialization_transport.cpp:37-87 | on an open session: `TransportAlreadyOpen` and nothing changes; otherwise the callbacks are replaced and the link is opened; a link failure code is returned unchanged with the session still closed; on success the session is open, event processing is on, the event thread exists and runs, and the queue is empty; from a valid state the result is `Success` and validity is kept |
| `Transport.SerializationTransport.Close` | src/common/transport/serialization_transport.cpp:89-129 | always switches event processing off; called from the (then running) event thread it returns `TransportError`; a failed join returns `TransportInvalidState`; otherwise the thread is joined and no longer runs, and a closed session returns `TransportAlreadyClosed` without touching the link, while an open one is closed and returns the link's close result; validity is kept |
| `Transport.SerializationTransport.Send` | src/common/transport/serialization_transport.cpp:131-177 | on a closed session: `TransportInvalidState`, nothing transmitted, the slot and buffer untouched; otherwise exactly `[pktType] ++ command` is transmitted after the slot is reset to this buffer; a link failure is returned unchanged with no wait; with no reply buffer, `Success`; otherwise `Success` iff a response arrived before the deadline, else `TransportNoResponse`, with the buffer holding what the responses left and arriving events queued in order |
| `Transport.SerializationTransport.AwaitResponse` | src/common/transport/serialization_transport.cpp:165-170 | while `send` waits with a reply buffer in the slot, the payloads delivered mark a response as received iff one of them is a response, leave the buffer as `ReplyAfter` of the response bodies, and queue the event bodies in arrival order |
| `Transport.SerializationTransport.ReadHandler` | src/common/transport/serialization_transport.cpp:268-313 | a response sets the received flag, copies the body into a present buffer iff it fits and leaves the queue alone; an event appends its body to the queue and leaves the slot alone; any other tag changes nothing |
| `Transport.SerializationTransport.DrainEventQueue` | src/common/transport/serialization_transport.cpp:179-196 | the queue is left empty |
| `Transport.SerializationTransport.DispatchFront` | src/common/transport/serialization_transport.cpp:217-256 | while event processing is on and the event thread runs, removes exactly the oldest queued payload and records the callback outcome `DispatchOne` gives for it; the thread keeps running unless that outcome ends it |
| `Transport.SerializationTransport.ProcessQueue` | src/common/transport/serialization_transport.cpp:199-265 | with event processing off, or once the event thread has ended, nothing happens; otherwise the recorded outcomes are `Run` of the queue and exactly the handled payloads leave the queue from the front; the thread is still running afterwards iff no handled payload ended it, and then the queue is empty |

## Left out

- Threads, mutexes and condition variables. This covers the event-thread spawn, the startup handshake
  wait and notify, the outer `while (processEvents)` loop with its wait and notify, the unlock and relock
  around decoding, and the destructor's join. The model is sequential: each wake of the event thread is one
  call of `ProcessQueue`. The handshake keeps one effect: `Open` leaves the queue drained.
- Self-join detection and join failure in `close`. They are boolean inputs of `Close`, not thread identities.
- The wall-clock deadline (`system_clock`, `wait_until`). `responseTimeout` is only stored. The payloads
  that arrive before the deadline are the `arrivals` parameter of `Send`.
- The H5 link layer's open, send and close. Their result codes are parameters, and the calls are recorded
  in `linkCalls`.
- `ble_event_dec`, `EventCodecContext` and the raw decode buffer. The decoder is a function parameter
  that returns an error code and an event.
- Logging and the exception handlers, with one exception. When decoding fails and no status callback is
  registered, the empty callback throws and the event thread ends; this is modelled as `RunnerAborted`,
  which clears `eventThreadRunning` so that no later payload is handled until the next `Open`.
  The handler in `drainEventQueue` guards against nothing the model can produce.
- `Transport.SerializationTransport.ProcessQueue`: within one call, the callbacks do not call back into
  the session. The source re-reads `processEvents` after every entry because a callback may close the
  session. The model captures that only when `DispatchFront` and `Close` are called in turn.
- `Transport.SerializationTransport.ReadHandler`: requires a non-empty payload, because the source reads
  the tag byte unconditionally.
- The numeric values of the error codes and packet types, which are defined in headers that are not part
  of this model.
