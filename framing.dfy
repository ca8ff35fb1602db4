/** The wire format of the session layer: every payload exchanged with the link layer
    is one packet-type byte followed by an opaque body. */
module Framing {
  import opened Types

  // Values of serialization_pkt_type_t (declared in serialization_transport.h, which is
  // not part of this model).

  /** SERIALIZATION_COMMAND: the usual tag of an outgoing command. */
  const CommandTag: Byte := 0
  /** SERIALIZATION_RESPONSE: an inbound reply to the pending command. */
  const ResponseTag: Byte := 1
  /** SERIALIZATION_EVENT: an inbound unsolicited event. */
  const EventTag: Byte := 2

  /** The frame `send` hands to the link layer: the caller's packet type, then the command. */
  function Frame(tag: Byte, body: seq<Byte>): (f: seq<Byte>)
    ensures |f| == |body| + 1
    ensures f[0] == tag && f[1..] == body
  {
    [tag] + body
  }

  /** What the inbound-payload handler makes of a payload, by its first byte. */
  datatype Inbound =
    | Response(body: seq<Byte>)
    | Event(body: seq<Byte>)
    | Unknown(tag: Byte)

  /** Routes an inbound payload (never empty) by its leading tag; the body is the rest. */
  function Route(payload: seq<Byte>): (r: Inbound)
    requires |payload| >= 1
    ensures r.Response? <==> payload[0] == ResponseTag
    ensures r.Event? <==> payload[0] == EventTag
    ensures r.Unknown? <==> payload[0] != ResponseTag && payload[0] != EventTag
    ensures r.Unknown? ==> r.tag == payload[0]
    ensures !r.Unknown? ==> Frame(payload[0], r.body) == payload
  {
    var tag, body := payload[0], payload[1..];
    assert [tag] + body == payload;
    if tag == ResponseTag then Response(body)
    else if tag == EventTag then Event(body)
    else Unknown(tag)
  }

  /** A frame built with the response or event tag is routed back to its body: `Route`
      inverts `Frame` on the two tags the handler recognises. */
  lemma RouteInvertsFrame(tag: Byte, body: seq<Byte>)
    ensures tag == ResponseTag ==> Route(Frame(tag, body)) == Response(body)
    ensures tag == EventTag ==> Route(Frame(tag, body)) == Event(body)
    ensures tag != ResponseTag && tag != EventTag ==> Route(Frame(tag, body)) == Unknown(tag)
  {
  }
}
