/** The effect of the inbound-payload handler (`readHandler`) on the session, stated over
    the sequence of payloads the link layer delivers: which bodies reach the pending reply
    buffer, which are queued as events, and what the reply buffer holds afterwards. */
module Demux {
  import opened Types
  import opened Framing

  /** The link layer never delivers a payload without its tag byte. */
  predicate AllNonEmpty(payloads: seq<seq<Byte>>)
  {
    forall i :: 0 <= i < |payloads| ==> |payloads[i]| >= 1
  }

  /** Whether a response body is copied into the pending reply buffer: the buffer must be
      non-empty and at least as long as the body. */
  predicate Fits(buffer: seq<Byte>, body: seq<Byte>)
  {
    |buffer| > 0 && |buffer| >= |body|
  }

  /** Content of the caller's reply buffer after one response body arrives: the body when
      it fits, otherwise the buffer untouched (the body is dropped). */
  function AfterResponse(buffer: seq<Byte>, body: seq<Byte>): (r: seq<Byte>)
    ensures Fits(buffer, body) ==> r == body
    ensures !Fits(buffer, body) ==> r == buffer
    ensures |r| <= |buffer|
  {
    if Fits(buffer, body) then body else buffer
  }

  /** The bodies of the response payloads among `payloads`, in arrival order. */
  function ResponsesIn(payloads: seq<seq<Byte>>): (r: seq<seq<Byte>>)
    requires AllNonEmpty(payloads)
    ensures |r| <= |payloads|
    decreases |payloads|
  {
    if payloads == [] then []
    else
      var n := |payloads| - 1;
      ResponsesIn(payloads[..n]) + (if Route(payloads[n]).Response? then [Route(payloads[n]).body] else [])
  }

  /** The bodies of the event payloads among `payloads`, in arrival order. */
  function EventsIn(payloads: seq<seq<Byte>>): (r: seq<seq<Byte>>)
    requires AllNonEmpty(payloads)
    ensures |r| <= |payloads|
    decreases |payloads|
  {
    if payloads == [] then []
    else
      var n := |payloads| - 1;
      EventsIn(payloads[..n]) + (if Route(payloads[n]).Event? then [Route(payloads[n]).body] else [])
  }

  /** Content of the reply buffer after the response bodies `bodies` arrive in order. */
  function ReplyAfter(buffer: seq<Byte>, bodies: seq<seq<Byte>>): (r: seq<Byte>)
    ensures |r| <= |buffer|
    decreases |bodies|
  {
    if bodies == [] then buffer
    else AfterResponse(ReplyAfter(buffer, bodies[..|bodies| - 1]), bodies[|bodies| - 1])
  }

  /** Handling one more payload extends the routed responses and events by its own body
      at the end, according to its tag. */
  lemma RoutingSnoc(p: seq<seq<Byte>>, x: seq<Byte>)
    requires AllNonEmpty(p) && |x| >= 1
    ensures AllNonEmpty(p + [x])
    ensures ResponsesIn(p + [x]) == ResponsesIn(p) + (if Route(x).Response? then [Route(x).body] else [])
    ensures EventsIn(p + [x]) == EventsIn(p) + (if Route(x).Event? then [Route(x).body] else [])
  {
  }

  /** Handling one more payload: a response acts on the buffer the earlier ones left, and
      anything else leaves both the buffer and whether a response has arrived as they were. */
  lemma ReplyStep(buffer: seq<Byte>, p: seq<seq<Byte>>, x: seq<Byte>)
    requires AllNonEmpty(p) && |x| >= 1
    ensures AllNonEmpty(p + [x])
    ensures ResponsesIn(p + [x]) != [] <==> ResponsesIn(p) != [] || Route(x).Response?
    ensures Route(x).Response? ==>
      ReplyAfter(buffer, ResponsesIn(p + [x])) == AfterResponse(ReplyAfter(buffer, ResponsesIn(p)), Route(x).body)
    ensures !Route(x).Response? ==> ReplyAfter(buffer, ResponsesIn(p + [x])) == ReplyAfter(buffer, ResponsesIn(p))
  {
    RoutingSnoc(p, x);
    var bodies := ResponsesIn(p);
    if Route(x).Response? {
      assert (bodies + [Route(x).body])[..|bodies|] == bodies;
    } else {
      assert bodies + [] == bodies;
    }
  }

  /** Handling payloads in two batches routes them as handling them all at once: responses
      and events keep their arrival order across batches. */
  lemma {:induction false} RoutingAppend(a: seq<seq<Byte>>, b: seq<seq<Byte>>)
    requires AllNonEmpty(a) && AllNonEmpty(b)
    ensures AllNonEmpty(a + b)
    ensures ResponsesIn(a + b) == ResponsesIn(a) + ResponsesIn(b)
    ensures EventsIn(a + b) == EventsIn(a) + EventsIn(b)
    decreases |b|
  {
    if b == [] {
      assert a + b == a;
    } else {
      var n := |b| - 1;
      var front, last := b[..n], b[n];
      assert b == front + [last];
      assert a + b == (a + front) + [last];
      RoutingAppend(a, front);
      RoutingSnoc(a + front, last);
      RoutingSnoc(front, last);
    }
  }

  /** A payload with an unrecognised tag changes neither what reaches the reply buffer nor
      what is queued, wherever it arrives. */
  lemma UnknownPayloadIgnored(a: seq<seq<Byte>>, u: seq<Byte>, b: seq<seq<Byte>>)
    requires AllNonEmpty(a) && AllNonEmpty(b)
    requires |u| >= 1 && Route(u).Unknown?
    ensures AllNonEmpty(a + [u] + b) && AllNonEmpty(a + b)
    ensures ResponsesIn(a + [u] + b) == ResponsesIn(a + b)
    ensures EventsIn(a + [u] + b) == EventsIn(a + b)
  {
    assert AllNonEmpty([u]);
    RoutingAppend(a, [u]);
    RoutingAppend(a + [u], b);
    RoutingAppend(a, b);
    assert [u][..0] == [];
  }

  /** The reply buffer only ever holds the caller's original content or one whole response
      body, never a mixture. */
  lemma {:induction false} ReplyIsWholeBody(buffer: seq<Byte>, bodies: seq<seq<Byte>>)
    ensures ReplyAfter(buffer, bodies) == buffer || ReplyAfter(buffer, bodies) in bodies
    decreases |bodies|
  {
    if bodies != [] {
      var n := |bodies| - 1;
      ReplyIsWholeBody(buffer, bodies[..n]);
      var before := ReplyAfter(buffer, bodies[..n]);
      if before in bodies[..n] {
        var k :| 0 <= k < n && bodies[..n][k] == before;
        assert bodies[k] == before;
      }
    }
  }

  /** Response bodies too large for the buffer are all dropped: the buffer keeps its content. */
  lemma {:induction false} OversizedRepliesDropped(buffer: seq<Byte>, bodies: seq<seq<Byte>>)
    requires forall i :: 0 <= i < |bodies| ==> !Fits(buffer, bodies[i])
    ensures ReplyAfter(buffer, bodies) == buffer
    decreases |bodies|
  {
    if bodies != [] {
      var n := |bodies| - 1;
      assert forall i :: 0 <= i < n ==> bodies[..n][i] == bodies[i];
      OversizedRepliesDropped(buffer, bodies[..n]);
    }
  }

  /** When exactly one response arrives, among any events and unknown payloads, and its body
      fits the buffer, the buffer ends up holding exactly that body. */
  lemma SingleReplyDelivered(buffer: seq<Byte>, before: seq<seq<Byte>>, body: seq<Byte>, after: seq<seq<Byte>>)
    requires AllNonEmpty(before) && AllNonEmpty(after)
    requires ResponsesIn(before) == [] && ResponsesIn(after) == []
    requires Fits(buffer, body)
    ensures AllNonEmpty(before + [Frame(ResponseTag, body)] + after)
    ensures ResponsesIn(before + [Frame(ResponseTag, body)] + after) == [body]
    ensures ReplyAfter(buffer, ResponsesIn(before + [Frame(ResponseTag, body)] + after)) == body
  {
    var reply := [Frame(ResponseTag, body)];
    RouteInvertsFrame(ResponseTag, body);
    assert AllNonEmpty(reply);
    assert reply[..0] == [];
    RoutingAppend(before, reply);
    RoutingAppend(before + reply, after);
    assert [body][..0] == [];
  }
}
