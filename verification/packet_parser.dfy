/** The MQTT packet codec: variable-length integers, length-prefixed strings, parsing and building. */
module PacketParser {
  import opened Wrappers
  import opened Bytes

  // ---------------------------------------------------------------- remaining length

  /** The variable byte integer of MQTT 5.0, section 1.5.5: seven bits a byte, low group first, the
      top bit set on every byte but the last. */
  function EncodeLength(length: nat): (s: seq<byte>)
    ensures |s| >= 1
  {
    if length < 128 then [length] else [length % 128 + 128] + EncodeLength(length / 128)
  }

  /** The integer at `offset` and the offset after it; None where the code raises IndexError. */
  function DecodeLength(data: seq<byte>, offset: nat): (r: Option<(nat, nat)>)
    ensures r.Some? ==> offset < r.value.1 <= |data|
    decreases |data| - offset
  {
    if offset >= |data| then None
    else if data[offset] < 128 then Some((data[offset], offset + 1))
    else
      var (high, end) :- DecodeLength(data, offset + 1);
      Some((data[offset] - 128 + 128 * high, end))
  }

  method EncodeRemainingLength(length: nat) returns (result: seq<byte>)
    ensures result == EncodeLength(length)
  {
    result := [];
    var left := length;
    while true
      invariant EncodeLength(length) == result + EncodeLength(left)
      decreases left
    {
      var byte := left % 128;
      var more := left / 128;
      if more > 0 {
        byte := byte + 128;
      }
      assert EncodeLength(left) == [byte] + if more > 0 then EncodeLength(more) else [];
      result := result + [byte];
      left := more;
      if left == 0 {
        break;
      }
    }
  }

  /** What the rest of the integer adds to the groups read so far. */
  function WithPrefix(value: nat, multiplier: nat, rest: Option<(nat, nat)>): Option<(nat, nat)> {
    if rest.None? then None else Some((value + multiplier * rest.value.0, rest.value.1))
  }

  lemma NextGroup(data: seq<byte>, offset: nat, value: nat, multiplier: nat)
    requires offset < |data|
    ensures WithPrefix(value, multiplier, DecodeLength(data, offset)) ==
            var next := value + data[offset] % 128 * multiplier;
            if data[offset] < 128 then Some((next, offset + 1))
            else WithPrefix(next, multiplier * 128, DecodeLength(data, offset + 1))
  {
    var group := data[offset] % 128;
    var rest := DecodeLength(data, offset + 1);
    if data[offset] >= 128 && rest.Some? {
      Expand(multiplier, group, rest.value.0);
    }
  }

  lemma Expand(multiplier: nat, group: nat, high: nat)
    ensures multiplier * (group + 128 * high) == group * multiplier + (multiplier * 128) * high
  {
  }

  method DecodeRemainingLength(data: seq<byte>, start: nat) returns (r: Option<(nat, nat)>)
    ensures r == DecodeLength(data, start)
  {
    var multiplier: nat, value: nat, offset := 1, 0, start;
    while true
      invariant DecodeLength(data, start) == WithPrefix(value, multiplier, DecodeLength(data, offset))
      decreases |data| - offset
    {
      if offset >= |data| {
        return None;
      }
      NextGroup(data, offset, value, multiplier);
      var byte := data[offset];
      offset := offset + 1;
      value := value + byte % 128 * multiplier;
      multiplier := multiplier * 128;
      if byte < 128 {
        return Some((value, offset));
      }
    }
  }

  /** Decoding looks only at the bytes of the integer. */
  lemma {:induction false} DecodeLengthLocal(data: seq<byte>, more: seq<byte>, offset: nat)
    requires DecodeLength(data, offset).Some?
    ensures DecodeLength(data + more, offset) == DecodeLength(data, offset)
    decreases |data| - offset
  {
    if data[offset] >= 128 {
      DecodeLengthLocal(data, more, offset + 1);
    }
  }

  /** Decoding inverts encoding, wherever the integer stands and whatever follows it. */
  lemma {:induction false} LengthRoundTrip(before: seq<byte>, length: nat, after: seq<byte>)
    ensures DecodeLength(before + EncodeLength(length) + after, |before|) ==
            Some((length, |before| + |EncodeLength(length)|))
    decreases length
  {
    if length >= 128 {
      var first := [length % 128 + 128];
      LengthRoundTrip(before + first, length / 128, after);
      assert before + EncodeLength(length) + after == before + first + EncodeLength(length / 128) + after;
    }
  }

  lemma LengthAtStart(length: nat, after: seq<byte>)
    ensures DecodeLength(EncodeLength(length) + after, 0) == Some((length, |EncodeLength(length)|))
  {
    LengthRoundTrip([], length, after);
    assert [] + EncodeLength(length) + after == EncodeLength(length) + after;
  }

  /** No encoding is a proper prefix of another. */
  lemma LengthPrefixFree(a: nat, b: nat)
    requires EncodeLength(a) <= EncodeLength(b)
    ensures a == b
  {
    var rest := EncodeLength(b)[|EncodeLength(a)|..];
    LengthAtStart(a, rest);
    LengthAtStart(b, []);
    assert EncodeLength(b) == EncodeLength(a) + rest == EncodeLength(b) + [];
  }

  /** No byte string that decodes to `length` is shorter than its encoding. */
  lemma {:induction false} LengthMinimal(data: seq<byte>, offset: nat, length: nat, end: nat)
    requires DecodeLength(data, offset) == Some((length, end))
    ensures |EncodeLength(length)| <= end - offset
    decreases |data| - offset
  {
    if data[offset] >= 128 {
      var high := DecodeLength(data, offset + 1).value.0;
      LengthMinimal(data, offset + 1, high, end);
      if length >= 128 {
        assert length / 128 == high;
      }
    }
  }

  /** The four-byte limit of section 1.5.5. */
  lemma LengthInFourBytes(length: nat)
    ensures |EncodeLength(length)| <= 4 <==> length <= 268_435_455
  {
    EncodeLengthSize(length, 4);
    assert Power128(4) == 268_435_456;
  }

  function Power128(n: nat): nat {
    if n == 0 then 1 else 128 * Power128(n - 1)
  }

  lemma {:induction false} EncodeLengthSize(length: nat, n: nat)
    requires n > 0
    ensures |EncodeLength(length)| <= n <==> length < Power128(n)
  {
    if n == 1 {
      assert Power128(1) == 128;
    } else {
      EncodeLengthSize(length / 128, n - 1);
      assert Power128(n - 1) >= 128 by { Power128Large(n - 1); }
    }
  }

  lemma {:induction false} Power128Large(n: nat)
    requires n > 0
    ensures Power128(n) >= 128
  {
    if n > 1 {
      Power128Large(n - 1);
    }
  }

  // ---------------------------------------------------------------- strings and integers

  /** Strings are taken as their encoded bytes. */
  type Str = seq<byte>

  /** A big-endian 16-bit integer; None where `struct.unpack_from` raises. */
  function U16At(data: seq<byte>, offset: nat): Option<nat> {
    if offset + 2 <= |data| then Some(256 * (data[offset] as int) + data[offset + 1]) else None
  }

  function U16(n: nat): (s: seq<byte>)
    requires n < 65536
    ensures |s| == 2
  {
    [n / 256, n % 256]
  }

  function ByteAt(data: seq<byte>, offset: nat): Option<byte> {
    if offset < |data| then Some(data[offset]) else None
  }

  function DecodeString(data: seq<byte>, offset: nat): (r: Option<(Str, nat)>)
    ensures r.Some? ==> r.value.1 >= offset + 2
  {
    var length :- U16At(data, offset);
    Some((Slice(data, offset + 2, offset + 2 + length), offset + 2 + length))
  }

  /** None where `struct.pack` raises: the length does not fit in 16 bits. */
  function EncodeString(s: Str): Option<seq<byte>> {
    if |s| < 65536 then Some(U16(|s|) + s) else None
  }

  lemma StringRoundTrip(before: seq<byte>, s: Str, after: seq<byte>)
    requires |s| < 65536
    ensures DecodeString(before + EncodeString(s).value + after, |before|) == Some((s, |before| + 2 + |s|))
  {
    var data := before + EncodeString(s).value + after;
    var start := |before| + 2;
    assert data[|before|] == |s| / 256 && data[|before| + 1] == |s| % 256;
    assert U16At(data, |before|) == Some(|s|);
    assert data[start..start + |s|] == s;
    assert Slice(data, start, start + |s|) == s;
  }

  // ---------------------------------------------------------------- packets

  const CONNECT: nat := 1
  const PUBLISH: nat := 3
  const PUBACK: nat := 4
  const SUBSCRIBE: nat := 8
  const UNSUBSCRIBE: nat := 10
  const PINGREQ: nat := 12
  const DISCONNECT: nat := 14

  datatype Packet = Packet(
    ptype: nat, flags: nat, payload: seq<byte>,
    topic: Str, qos: nat, retain: bool, packetId: Option<nat>,
    clientId: Str, cleanSession: bool, keepalive: nat,
    subscriptions: seq<(Str, nat)>)

  function BlankPacket(ptype: nat, flags: nat): Packet {
    Packet(ptype, flags, [], [], 0, false, None, [], true, 60, [])
  }

  /** What parsing gives: a packet, nothing yet (fewer than two bytes), or an exception. */
  datatype Parsed = Ok(packet: Packet) | TooShort | Raised

  function ParseConnect(pkt: Packet, body: seq<byte>): Option<Packet> {
    var protoLen :- U16At(body, 0);
    var pos := 2 + protoLen;
    var version :- ByteAt(body, pos);
    var connectFlags :- ByteAt(body, pos + 1);
    var keepalive :- U16At(body, pos + 2);
    var propLen :- if version == 5 then ByteAt(body, pos + 4) else Some(0);
    var idAt := if version == 5 then pos + 5 + propLen else pos + 4;
    var (clientId, _) :- DecodeString(body, idAt);
    Some(pkt.(keepalive := keepalive, clientId := clientId, cleanSession := connectFlags / 2 % 2 == 1))
  }

  function ParsePublish(pkt: Packet, body: seq<byte>): Option<Packet> {
    var qos, retain := pkt.flags / 2 % 4, pkt.flags % 2 == 1;
    var (topic, afterTopic) :- DecodeString(body, 0);
    var id :- if qos > 0 then U16At(body, afterTopic) else Some(0);
    var propsAt := if qos > 0 then afterTopic + 2 else afterTopic;
    var (propLen, pos) :- DecodeLength(body, propsAt);
    Some(pkt.(qos := qos, retain := retain, topic := topic,
      packetId := if qos > 0 then Some(id) else None, payload := Slice(body, pos + propLen, pos + propLen + |body|)))
  }

  /** One (filter, qos) pair of a SUBSCRIBE, or one filter of an UNSUBSCRIBE, and the position after it. */
  function ParseFilter(body: seq<byte>, pos: nat, withQos: bool): (r: Option<((Str, nat), nat)>)
    ensures r.Some? ==> r.value.1 > pos
  {
    var (topic, after) :- DecodeString(body, pos);
    if withQos then
      var options :- ByteAt(body, after);
      Some(((topic, options % 4), after + 1))
    else Some(((topic, 0), after))
  }

  function ParseFilters(body: seq<byte>, pos: nat, withQos: bool): Option<seq<(Str, nat)>>
    decreases |body| - pos
  {
    if pos >= |body| then Some([])
    else
      var (filter, after) :- ParseFilter(body, pos, withQos);
      var rest :- ParseFilters(body, after, withQos);
      Some([filter] + rest)
  }

  /** The filters behind the properties, whose length and end the header gives. */
  function FiltersAfter(body: seq<byte>, header: Option<(nat, nat)>, withQos: bool): Option<seq<(Str, nat)>> {
    if header.None? then None else ParseFilters(body, header.value.1 + header.value.0, withQos)
  }

  function WithFilters(pkt: Packet, id: Option<nat>, filters: Option<seq<(Str, nat)>>): Option<Packet> {
    if id.None? || filters.None? then None else Some(pkt.(packetId := id, subscriptions := filters.value))
  }

  function ParseSubscriptions(pkt: Packet, body: seq<byte>, withQos: bool): Option<Packet> {
    WithFilters(pkt, U16At(body, 0), FiltersAfter(body, DecodeLength(body, 2), withQos))
  }

  function ParseBody(pkt: Packet, body: seq<byte>): Option<Packet> {
    if pkt.ptype == CONNECT then ParseConnect(pkt, body)
    else if pkt.ptype == PUBLISH then ParsePublish(pkt, body)
    else if pkt.ptype == SUBSCRIBE then ParseSubscriptions(pkt, body, true)
    else if pkt.ptype == UNSUBSCRIBE then ParseSubscriptions(pkt, body, false)
    else Some(pkt)
  }

  function Outcome(pkt: Option<Packet>): Parsed {
    if pkt.None? then Raised else Ok(pkt.value)
  }

  function Parse(data: seq<byte>): Parsed {
    if |data| < 2 then TooShort
    else
      var header := DecodeLength(data, 1);
      if header.None? then Raised
      else
        var (length, offset) := header.value;
        var pkt := ParseBody(BlankPacket(data[0] / 16, data[0] % 16), Slice(data, offset, offset + length));
        if pkt.None? then Raised else Ok(pkt.value)
  }

  /** What the rest of the filters adds to those read so far. */
  function WithRead(subs: seq<(Str, nat)>, rest: Option<seq<(Str, nat)>>): Option<seq<(Str, nat)>> {
    if rest.None? then None else Some(subs + rest.value)
  }

  /** The loop over the topic filters of SUBSCRIBE and UNSUBSCRIBE. */
  method ReadFilters(body: seq<byte>, start: nat, withQos: bool) returns (filters: Option<seq<(Str, nat)>>)
    ensures filters == ParseFilters(body, start, withQos)
  {
    var subs: seq<(Str, nat)> := [];
    var pos := start;
    ReadNothing(ParseFilters(body, start, withQos));
    while pos < |body|
      invariant ParseFilters(body, start, withQos) == WithRead(subs, ParseFilters(body, pos, withQos))
      decreases |body| - pos
    {
      var next := ParseFilter(body, pos, withQos);
      if next.None? {
        return None;
      }
      var (filter, after) := next.value;
      ReadOne(subs, filter, ParseFilters(body, after, withQos));
      subs := subs + [filter];
      pos := after;
    }
    assert subs + [] == subs;
    return Some(subs);
  }

  lemma ReadNothing(rest: Option<seq<(Str, nat)>>)
    ensures WithRead([], rest) == rest
  {
    if rest.Some? {
      assert [] + rest.value == rest.value;
    }
  }

  lemma ReadOne(subs: seq<(Str, nat)>, filter: (Str, nat), rest: Option<seq<(Str, nat)>>)
    ensures WithRead(subs, WithRead([filter], rest)) == WithRead(subs + [filter], rest)
  {
    if rest.Some? {
      assert subs + ([filter] + rest.value) == (subs + [filter]) + rest.value;
    }
  }

  /** The SUBSCRIBE and UNSUBSCRIBE branches. */
  method FillSubscriptions(pkt: Packet, body: seq<byte>, withQos: bool) returns (r: Option<Packet>)
    ensures r == ParseSubscriptions(pkt, body, withQos)
  {
    var id := U16At(body, 0);
    if id.None? {
      return None;
    }
    var props := DecodeRemainingLength(body, 2);
    if props.None? {
      return None;
    }
    var (propLen, pos) := props.value;
    var filters := ReadFilters(body, pos + propLen, withQos);
    if filters.None? {
      return None;
    }
    return Some(pkt.(packetId := id, subscriptions := filters.value));
  }

  /** The parser itself: header, then the fields of the packet's type. */
  method ParsePacket(data: seq<byte>) returns (r: Parsed)
    ensures r == Parse(data)
  {
    if |data| < 2 {
      return TooShort;
    }
    var header := DecodeRemainingLength(data, 1);
    if header.None? {
      return Raised;
    }
    var (length, offset) := header.value;
    var pkt := BlankPacket(data[0] / 16, data[0] % 16);
    var body := Slice(data, offset, offset + length);
    var filled := Some(pkt);
    if pkt.ptype == CONNECT {
      filled := ParseConnect(pkt, body);
    } else if pkt.ptype == PUBLISH {
      filled := ParsePublish(pkt, body);
    } else if pkt.ptype == SUBSCRIBE {
      filled := FillSubscriptions(pkt, body, true);
    } else if pkt.ptype == UNSUBSCRIBE {
      filled := FillSubscriptions(pkt, body, false);
    }
    return Outcome(filled);
  }

  // ---------------------------------------------------------------- building

  type Qos = q: nat | q < 4

  function Framed(first: byte, body: seq<byte>): seq<byte> {
    [first] + EncodeLength(|body|) + body
  }

  function PublishFlags(qos: Qos, retain: bool): (flags: nat)
    ensures flags < 8 && flags / 2 % 4 == qos && flags % 2 == if retain then 1 else 0
  {
    2 * qos + if retain then 1 else 0
  }

  /** The packet identifier, when there is one and it is wanted. */
  function EncodeId(qos: Qos, packetId: Option<nat>): Option<seq<byte>> {
    if qos == 0 || packetId.None? then Some([])
    else if packetId.value < 65536 then Some(U16(packetId.value)) else None
  }

  /** Topic, packet identifier if any, no properties, payload. */
  function PublishBody(head: seq<byte>, id: seq<byte>, payload: seq<byte>): seq<byte> {
    head + id + [0] + payload
  }

  /** None where `struct.pack` raises. */
  function BuildPublish(topic: Str, payload: seq<byte>, qos: Qos, packetId: Option<nat>,
      retain: bool): Option<seq<byte>> {
    var head :- EncodeString(topic);
    var id :- EncodeId(qos, packetId);
    Some(Framed(0x30 + PublishFlags(qos, retain), PublishBody(head, id, payload)))
  }

  function BuildConnack(sessionPresent: bool, reasonCode: byte): seq<byte> {
    Framed(0x20, [if sessionPresent then 1 else 0, reasonCode, 0])
  }

  function BuildPuback(packetId: nat): seq<byte>
    requires packetId < 65536
  {
    Framed(0x40, U16(packetId) + [0, 0])
  }

  function BuildSuback(packetId: nat, reasonCodes: seq<byte>): seq<byte>
    requires packetId < 65536
  {
    Framed(0x90, U16(packetId) + [0] + reasonCodes)
  }

  function BuildUnsuback(packetId: nat, count: nat): seq<byte>
    requires packetId < 65536
  {
    Framed(0xB0, U16(packetId) + [0] + seq<byte>(count, _ => 0))
  }

  const PINGRESP: seq<byte> := [0xD0, 0x00]

  // ---------------------------------------------------------------- round trips

  /** A framed body is found again, whatever follows the frame. */
  lemma FramedRoundTrip(first: byte, body: seq<byte>, rest: seq<byte>)
    ensures var data := Framed(first, body) + rest;
            var offset := 1 + |EncodeLength(|body|)|;
            |data| >= 2 && data[0] == first && DecodeLength(data, 1) == Some((|body|, offset)) &&
            Slice(data, offset, offset + |body|) == body
  {
    LengthRoundTrip([first], |body|, body + rest);
    var data := Framed(first, body) + rest;
    assert data == [first] + EncodeLength(|body|) + (body + rest);
    var offset := 1 + |EncodeLength(|body|)|;
    assert data[offset..offset + |body|] == body;
  }

  lemma ParseFramed(first: byte, body: seq<byte>, rest: seq<byte>)
    ensures Parse(Framed(first, body) + rest) == Outcome(ParseBody(BlankPacket(first / 16, first % 16), body))
  {
    FramedRoundTrip(first, body, rest);
    var data := Framed(first, body) + rest;
    var (length, offset) := DecodeLength(data, 1).value;
    assert Slice(data, offset, offset + length) == body;
  }

  /** The packet a PUBLISH is meant to carry. */
  function PublishPacket(topic: Str, payload: seq<byte>, qos: Qos, packetId: Option<nat>, retain: bool): Packet {
    BlankPacket(PUBLISH, PublishFlags(qos, retain)).(
      topic := topic, payload := payload, qos := qos, packetId := packetId, retain := retain)
  }

  lemma PublishBodyRoundTrip(topic: Str, payload: seq<byte>, qos: Qos, packetId: Option<nat>, retain: bool,
      id: seq<byte>)
    requires |topic| < 65536 && (packetId.Some? ==> packetId.value < 65536) && (packetId.Some? <==> qos > 0)
    requires EncodeId(qos, packetId) == Some(id)
    ensures ParsePublish(BlankPacket(PUBLISH, PublishFlags(qos, retain)),
      PublishBody(EncodeString(topic).value, id, payload)) ==
            Some(PublishPacket(topic, payload, qos, packetId, retain))
  {
    var head := EncodeString(topic).value;
    var body := PublishBody(head, id, payload);
    assert body == [] + head + (id + [0] + payload);
    StringRoundTrip([], topic, id + [0] + payload);
    var afterTopic := 2 + |topic|;
    var propsAt := afterTopic + |id|;
    assert qos > 0 ==> U16At(body, afterTopic) == packetId;
    assert DecodeLength(body, propsAt) == Some((0, propsAt + 1));
    assert body[propsAt + 1..] == payload;
    assert Slice(body, propsAt + 1, propsAt + 1 + |body|) == payload;
  }

  lemma PublishFirstByte(qos: Qos, retain: bool)
    ensures var first := 0x30 + PublishFlags(qos, retain);
            first < 256 && first / 16 == PUBLISH && first % 16 == PublishFlags(qos, retain)
  {
  }

  lemma ParseFramedPublish(qos: Qos, retain: bool, body: seq<byte>, rest: seq<byte>)
    ensures Parse(Framed(0x30 + PublishFlags(qos, retain), body) + rest) ==
            Outcome(ParsePublish(BlankPacket(PUBLISH, PublishFlags(qos, retain)), body))
  {
    PublishFirstByte(qos, retain);
    ParseFramed(0x30 + PublishFlags(qos, retain), body, rest);
  }

  lemma PublishIsFramed(topic: Str, payload: seq<byte>, qos: Qos, packetId: Option<nat>, retain: bool)
    requires |topic| < 65536 && (packetId.Some? ==> packetId.value < 65536)
    ensures BuildPublish(topic, payload, qos, packetId, retain) ==
            Some(Framed(0x30 + PublishFlags(qos, retain),
                        PublishBody(EncodeString(topic).value, EncodeId(qos, packetId).value, payload)))
  {
  }

  lemma PublishRecovered(topic: Str, payload: seq<byte>, qos: Qos, packetId: Option<nat>, retain: bool, rest: seq<byte>)
    requires |topic| < 65536 && (packetId.Some? ==> packetId.value < 65536) && (packetId.Some? <==> qos > 0)
    ensures BuildPublish(topic, payload, qos, packetId, retain).Some?
    ensures Parse(BuildPublish(topic, payload, qos, packetId, retain).value + rest) ==
            Ok(PublishPacket(topic, payload, qos, packetId, retain))
  {
    var id := EncodeId(qos, packetId).value;
    var body := PublishBody(EncodeString(topic).value, id, payload);
    PublishIsFramed(topic, payload, qos, packetId, retain);
    calc {
      Parse(BuildPublish(topic, payload, qos, packetId, retain).value + rest);
      Parse(Framed(0x30 + PublishFlags(qos, retain), body) + rest);
      { ParseFramedPublish(qos, retain, body, rest); }
      Outcome(ParsePublish(BlankPacket(PUBLISH, PublishFlags(qos, retain)), body));
      { PublishBodyRoundTrip(topic, payload, qos, packetId, retain, id); }
      Outcome(Some(PublishPacket(topic, payload, qos, packetId, retain)));
    }
  }

  /** A parsed PUBLISH has an id exactly when its QoS is above 0. */
  predicate HasIdForQos(parsed: Parsed) {
    parsed.Ok? ==> (parsed.packet.packetId.Some? <==> parsed.packet.qos > 0)
  }

  lemma PublishIdParsed(topic: Str, payload: seq<byte>, qos: Qos, packetId: Option<nat>, retain: bool, rest: seq<byte>)
    requires |topic| < 65536 && (packetId.Some? ==> packetId.value < 65536)
    ensures BuildPublish(topic, payload, qos, packetId, retain).Some?
    ensures HasIdForQos(Parse(BuildPublish(topic, payload, qos, packetId, retain).value + rest))
  {
    var id := EncodeId(qos, packetId).value;
    ParseFramedPublish(qos, retain, PublishBody(EncodeString(topic).value, id, payload), rest);
  }

  /** Every field of a built PUBLISH is recovered exactly when an id is given exactly for QoS above 0. */
  lemma PublishRoundTrip(topic: Str, payload: seq<byte>, qos: Qos, packetId: Option<nat>, retain: bool, rest: seq<byte>)
    requires |topic| < 65536 && (packetId.Some? ==> packetId.value < 65536)
    ensures BuildPublish(topic, payload, qos, packetId, retain).Some?
    ensures Parse(BuildPublish(topic, payload, qos, packetId, retain).value + rest) ==
            Ok(PublishPacket(topic, payload, qos, packetId, retain))
            <==> (packetId.Some? <==> qos > 0)
  {
    PublishIdParsed(topic, payload, qos, packetId, retain, rest);
    if packetId.Some? <==> qos > 0 {
      PublishRecovered(topic, payload, qos, packetId, retain, rest);
    }
  }

  lemma PubackRoundTrip(packetId: nat, rest: seq<byte>)
    requires packetId < 65536
    ensures Parse(BuildPuback(packetId) + rest) == Ok(BlankPacket(PUBACK, 0))
    ensures U16At(BuildPuback(packetId), 2) == Some(packetId)
  {
    FramedRoundTrip(0x40, U16(packetId) + [0, 0], rest);
    assert BuildPuback(packetId) == [0x40, 4, packetId / 256, packetId % 256, 0, 0];
  }
}
