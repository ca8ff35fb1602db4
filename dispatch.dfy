/** What the event thread does with the queued event payloads: decode each one, in queue
    order, and hand the result to the application's event callback or, on a decode
    failure, report it through the status callback. */
module Dispatch {
  import opened Types

  /** A decoded event (`ble_evt_t`), as the bytes of the decode buffer. */
  type BleEvent = seq<Byte>

  /** What the event decoder (`ble_event_dec`) gives back: its error code and the event it
      wrote into the decode buffer (meaningful only when the code is Success). */
  datatype DecodeResult = DecodeResult(err: uint32, event: BleEvent)

  /** The callbacks registered by the last `open`; None stands for an empty `std::function`. */
  datatype Sinks = Sinks(status: Option<SinkId>, event: Option<SinkId>, log: Option<SinkId>)

  /** The outcome of handling one queued event payload. */
  datatype Dispatched =
    | EventDelivered(sink: SinkId, event: BleEvent)  // event callback invoked with the event
    | EventDropped                                   // decoded, but no event callback registered
    | DecodeErrorReported(sink: SinkId, err: uint32) // status callback invoked with PKT_DECODE_ERROR;
                                                     // `err` is the decoder's code its message shows
    | RunnerAborted(err: uint32)                     // decode failed and the status callback is empty:
                                                     // calling it throws, which ends the event thread

  /** Handles one queued payload with the decoder `decode` and the registered `sinks`. */
  function DispatchOne(entry: seq<Byte>, decode: seq<Byte> -> DecodeResult, sinks: Sinks): (d: Dispatched)
    ensures d.EventDelivered? <==> decode(entry).err == Success && sinks.event.Some?
    ensures d.EventDelivered? ==> d.sink == sinks.event.value && d.event == decode(entry).event
    ensures d.DecodeErrorReported? || d.RunnerAborted? <==> decode(entry).err != Success
    ensures d.DecodeErrorReported? ==> sinks.status == Some(d.sink) && d.err == decode(entry).err
    ensures d.RunnerAborted? <==> decode(entry).err != Success && sinks.status.None?
  {
    var result := decode(entry);
    if result.err == Success then
      if sinks.event.Some? then EventDelivered(sinks.event.value, result.event) else EventDropped
    else if sinks.status.Some? then DecodeErrorReported(sinks.status.value, result.err)
    else RunnerAborted(result.err)
  }

  /** Whether handling `entry` ends the event thread. */
  predicate Aborts(entry: seq<Byte>, decode: seq<Byte> -> DecodeResult, sinks: Sinks)
  {
    DispatchOne(entry, decode, sinks).RunnerAborted?
  }

  /** No entry of `queue` ends the event thread. */
  predicate NoAbort(queue: seq<seq<Byte>>, decode: seq<Byte> -> DecodeResult, sinks: Sinks)
  {
    forall i :: 0 <= i < |queue| ==> !Aborts(queue[i], decode, sinks)
  }

  /** The outcomes of draining `queue` front first, stopping after an entry that ends the
      event thread. */
  function Run(queue: seq<seq<Byte>>, decode: seq<Byte> -> DecodeResult, sinks: Sinks): (r: seq<Dispatched>)
    ensures |r| <= |queue|
    decreases |queue|
  {
    if queue == [] then []
    else
      var d := DispatchOne(queue[0], decode, sinks);
      if d.RunnerAborted? then [d] else [d] + Run(queue[1..], decode, sinks)
  }

  /** FIFO delivery: the i-th outcome is the handling of the i-th queued payload, so two
      events queued A then B are handed to the application A then B. */
  lemma {:induction false} RunInOrder(queue: seq<seq<Byte>>, decode: seq<Byte> -> DecodeResult, sinks: Sinks, i: nat)
    requires i < |Run(queue, decode, sinks)|
    ensures i < |queue| && Run(queue, decode, sinks)[i] == DispatchOne(queue[i], decode, sinks)
    decreases i
  {
    if i > 0 {
      RunInOrder(queue[1..], decode, sinks, i - 1);
    }
  }

  /** Without a decode failure that ends the thread, every queued payload is handled. */
  lemma {:induction false} RunComplete(queue: seq<seq<Byte>>, decode: seq<Byte> -> DecodeResult, sinks: Sinks)
    requires NoAbort(queue, decode, sinks)
    ensures |Run(queue, decode, sinks)| == |queue|
    ensures forall i :: 0 <= i < |queue| ==> !Run(queue, decode, sinks)[i].RunnerAborted?
    decreases |queue|
  {
    if queue != [] {
      assert !Aborts(queue[0], decode, sinks);
      assert forall i :: 0 <= i < |queue| - 1 ==> queue[1..][i] == queue[i + 1];
      RunComplete(queue[1..], decode, sinks);
    }
  }

  /** Handling a queue in two parts, the first free of aborts, is handling it in one go. */
  lemma {:induction false} RunAppend(a: seq<seq<Byte>>, b: seq<seq<Byte>>, decode: seq<Byte> -> DecodeResult, sinks: Sinks)
    requires NoAbort(a, decode, sinks)
    ensures Run(a + b, decode, sinks) == Run(a, decode, sinks) + Run(b, decode, sinks)
    decreases |a|
  {
    if a == [] {
      assert a + b == b;
    } else {
      assert !Aborts(a[0], decode, sinks);
      assert (a + b)[0] == a[0] && (a + b)[1..] == a[1..] + b;
      assert forall i :: 0 <= i < |a| - 1 ==> a[1..][i] == a[i + 1];
      RunAppend(a[1..], b, decode, sinks);
    }
  }

  /** Handling one more entry after an abort-free prefix appends its own outcome. */
  lemma RunStep(queue: seq<seq<Byte>>, decode: seq<Byte> -> DecodeResult, sinks: Sinks, n: nat)
    requires n < |queue| && NoAbort(queue[..n], decode, sinks)
    ensures Run(queue[..n + 1], decode, sinks) == Run(queue[..n], decode, sinks) + [DispatchOne(queue[n], decode, sinks)]
    ensures !Aborts(queue[n], decode, sinks) ==> NoAbort(queue[..n + 1], decode, sinks)
  {
    RunAppend(queue[..n], [queue[n]], decode, sinks);
    assert queue[..n] + [queue[n]] == queue[..n + 1];
  }

  /** The first payload whose decode failure ends the thread is the last one handled: the
      entries behind it stay unhandled. */
  lemma RunStopsAtAbort(queue: seq<seq<Byte>>, decode: seq<Byte> -> DecodeResult, sinks: Sinks, k: nat)
    requires k < |queue| && NoAbort(queue[..k], decode, sinks) && Aborts(queue[k], decode, sinks)
    ensures Run(queue, decode, sinks) == Run(queue[..k + 1], decode, sinks)
    ensures |Run(queue, decode, sinks)| == k + 1
  {
    RunAppend(queue[..k], queue[k..], decode, sinks);
    RunAppend(queue[..k], [queue[k]], decode, sinks);
    assert queue[..k] + queue[k..] == queue;
    assert queue[..k] + [queue[k]] == queue[..k + 1];
    RunComplete(queue[..k], decode, sinks);
  }
}
