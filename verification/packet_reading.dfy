/** What the parser makes of packets written as section 3 of MQTT 5.0 says. */
module PacketReading {
  import opened Wrappers
  import opened Bytes
  import opened PacketParser

  // ---------------------------------------------------------------- numbers on the wire

  /** Section 1.5.2: the high byte first. */
  lemma HighByteFirst(n: nat)
    requires n < 65536
    ensures U16(n)[0] as int * 256 + U16(n)[1] == n
  {
  }

  /** What groups of seven bits stand for, the lowest group first. */
  function GroupsValue(groups: seq<byte>): nat {
    if groups == [] then 0 else groups[0] % 128 + 128 * GroupsValue(groups[1..])
  }

  /** Section 1.5.5: the lowest group first, and the top bit on every byte but the last. */
  lemma {:induction false} LowGroupFirst(n: nat)
    ensures var s := EncodeLength(n);
            GroupsValue(s) == n && forall i :: 0 <= i < |s| ==> (s[i] >= 128 <==> i < |s| - 1)
  {
    if n < 128 {
      assert EncodeLength(n)[1..] == [];
    } else {
      LowGroupFirst(n / 128);
      assert EncodeLength(n)[1..] == EncodeLength(n / 128);
    }
  }

  // ---------------------------------------------------------------- PUBLISH

  /** The first byte of section 3.3.1: type, DUP, QoS, RETAIN. */
  function PublishHeader(dup: bool, qos: Qos, retain: bool): byte {
    48 + (if dup then 8 else 0) + 2 * qos + if retain then 1 else 0
  }

  /** Topic, packet identifier if any, properties behind their length, payload: sections 3.3.2 and 3.3.3. */
  function PublishContent(topic: Str, id: Option<nat>, props: seq<byte>, payload: seq<byte>): seq<byte>
    requires |topic| < 65536 && (id.Some? ==> id.value < 65536)
  {
    U16(|topic|) + topic + (if id.Some? then U16(id.value) else []) + EncodeLength(|props|) + props + payload
  }

  lemma PublishContentStands(topic: Str, id: Option<nat>, props: seq<byte>, payload: seq<byte>)
    requires |topic| < 65536 && (id.Some? ==> id.value < 65536)
    ensures var body := PublishContent(topic, id, props, payload);
            var propsAt := 2 + |topic| + if id.Some? then 2 else 0;
            && DecodeString(body, 0) == Some((topic, 2 + |topic|))
            && (id.Some? ==> U16At(body, 2 + |topic|) == id)
            && DecodeLength(body, propsAt) == Some((|props|, propsAt + |EncodeLength(|props|)|))
            && |body| == propsAt + |EncodeLength(|props|)| + |props| + |payload|
            && body[propsAt + |EncodeLength(|props|)| + |props|..] == payload
  {
    hide EncodeLength, DecodeLength, DecodeString;
    var head, idBytes := U16(|topic|) + topic, if id.Some? then U16(id.value) else [];
    var length := EncodeLength(|props|);
    var body := PublishContent(topic, id, props, payload);
    PropertiesSkipped(head + idBytes, props, payload);
    StringRoundTrip([], topic, idBytes + length + props + payload);
    assert [] + EncodeString(topic).value + (idBytes + length + props + payload) == body;
    if id.Some? {
      assert body[|head|] == idBytes[0] && body[|head| + 1] == idBytes[1];
    }
  }

  /** For all properties: a PUBLISH gives back its topic, payload, QoS, id and retain flag, whatever follows. */
  lemma StandardPublishRoundTrip(topic: Str, id: Option<nat>, props: seq<byte>, payload: seq<byte>, dup: bool, qos: Qos,
      retain: bool, rest: seq<byte>)
    requires |topic| < 65536 && (id.Some? ==> id.value < 65536) && (id.Some? <==> qos > 0)
    ensures Parse(Framed(PublishHeader(dup, qos, retain), PublishContent(topic, id, props, payload)) + rest) ==
            Ok(BlankPacket(3, PublishHeader(dup, qos, retain) % 16).(
              topic := topic, payload := payload, qos := qos, packetId := id, retain := retain))
  {
    hide EncodeLength, DecodeLength, DecodeString;
    var first, body := PublishHeader(dup, qos, retain), PublishContent(topic, id, props, payload);
    PublishContentStands(topic, id, props, payload);
    HeaderFields(dup, qos, retain);
    var start := |body| - |payload|;
    assert Slice(body, start, start + |body|) == payload;
    PublishFieldsParse(body, topic, id, payload, first % 16, qos, retain, |props|, start - |props|);
    ParseFramed(first, body, rest);
  }

  lemma HeaderFields(dup: bool, qos: Qos, retain: bool)
    ensures var first := PublishHeader(dup, qos, retain);
            first / 16 == 3 && first % 16 / 2 % 4 == qos && (first % 16 % 2 == 1 <==> retain)
  {
  }

  lemma PublishFieldsParse(body: seq<byte>, topic: Str, id: Option<nat>, payload: seq<byte>, flags: nat, qos: nat,
      retain: bool, propLen: nat, pos: nat)
    requires flags / 2 % 4 == qos && (flags % 2 == 1 <==> retain) && (id.Some? <==> qos > 0)
    requires DecodeString(body, 0) == Some((topic, 2 + |topic|)) && (id.Some? ==> U16At(body, 2 + |topic|) == id)
    requires DecodeLength(body, 2 + |topic| + if id.Some? then 2 else 0) == Some((propLen, pos))
    requires Slice(body, pos + propLen, pos + propLen + |body|) == payload
    ensures ParsePublish(BlankPacket(PUBLISH, flags), body) ==
            Some(BlankPacket(3, flags).(
              topic := topic, payload := payload, qos := qos, packetId := id, retain := retain))
  {
    hide DecodeLength, DecodeString, U16At, Slice;
  }

  /** The broker's own PUBLISH packets are the standard's, with no properties and DUP unset. */
  lemma BuiltIsStandard(topic: Str, payload: seq<byte>, qos: Qos, id: Option<nat>, retain: bool)
    requires |topic| < 65536 && (id.Some? ==> id.value < 65536) && (id.Some? <==> qos > 0)
    ensures BuildPublish(topic, payload, qos, id, retain) ==
            Some(Framed(PublishHeader(false, qos, retain), PublishContent(topic, id, [], payload)))
  {
    PublishIsFramed(topic, payload, qos, id, retain);
    assert EncodeLength(0) == [0];
    assert PublishContent(topic, id, [], payload) ==
           PublishBody(EncodeString(topic).value, EncodeId(qos, id).value, payload);
  }

  /** Packets of every other type are taken as they are: PINGREQ is 0xC0 0x00, DISCONNECT begins with 0xE0. */
  lemma OtherPacketsPass(first: byte, body: seq<byte>, rest: seq<byte>)
    requires first / 16 !in {1, 3, 8, 10}
    ensures Parse(Framed(first, body) + rest) ==
            Ok(Packet(first / 16, first % 16, [], [], 0, false, None, [], true, 60, []))
  {
    ParseFramed(first, body, rest);
  }

  /** CONNACK, section 3.2: three bytes, the first 1 exactly when a session is present, then the reason, then no
      properties. */
  lemma ConnackCarries(sessionPresent: bool, reasonCode: byte)
    ensures var sent := BuildConnack(sessionPresent, reasonCode);
            && |sent| == 5 && sent[0] == 0x20 && sent[1] == 3 && sent[3] == reasonCode && sent[4] == 0
            && (sent[2] == 1 <==> sessionPresent) && (sent[2] == 0 <==> !sessionPresent)
  {
  }

  // ---------------------------------------------------------------- topic filters

  /** A filter with its options byte, section 3.8.3.1, or alone, section 3.10.3. */
  function EncodeFilter(filter: (Str, byte), withQos: bool): seq<byte>
    requires |filter.0| < 65536
  {
    U16(|filter.0|) + filter.0 + if withQos then [filter.1] else []
  }

  predicate Encodable(filters: seq<(Str, byte)>) {
    forall i :: 0 <= i < |filters| ==> |filters[i].0| < 65536
  }

  function EncodeFilters(filters: seq<(Str, byte)>, withQos: bool): seq<byte>
    requires Encodable(filters)
  {
    if filters == [] then [] else EncodeFilter(filters[0], withQos) + EncodeFilters(filters[1..], withQos)
  }

  /** A filter with the QoS its options ask for: their two lowest bits. */
  function Asked(filter: (Str, byte), withQos: bool): (Str, nat) {
    (filter.0, if withQos then filter.1 % 4 else 0)
  }

  function AllAsked(filters: seq<(Str, byte)>, withQos: bool): seq<(Str, nat)> {
    if filters == [] then [] else [Asked(filters[0], withQos)] + AllAsked(filters[1..], withQos)
  }

  lemma FilterReadBack(before: seq<byte>, filter: (Str, byte), withQos: bool, after: seq<byte>)
    requires |filter.0| < 65536
    ensures ParseFilter(before + EncodeFilter(filter, withQos) + after, |before|, withQos) ==
            Some((Asked(filter, withQos), |before| + |EncodeFilter(filter, withQos)|))
  {
    var options: seq<byte> := if withQos then [filter.1] else [];
    StringRoundTrip(before, filter.0, options + after);
    assert before + EncodeString(filter.0).value + (options + after) == before + EncodeFilter(filter, withQos) + after;
    if withQos {
      assert (before + EncodeFilter(filter, withQos) + after)[|before| + 2 + |filter.0|] == filter.1;
    }
  }

  lemma OneFilterMore(body: seq<byte>, pos: nat, withQos: bool, filter: (Str, nat), after: nat)
    requires pos < |body| && ParseFilter(body, pos, withQos) == Some((filter, after))
    ensures ParseFilters(body, pos, withQos) == WithRead([filter], ParseFilters(body, after, withQos))
  {
  }

  /** A list of filters written one after another is read back, wherever it stands. */
  lemma {:induction false} FiltersReadBack(body: seq<byte>, before: seq<byte>, at: nat, filters: seq<(Str, byte)>,
      withQos: bool)
    requires Encodable(filters) && body == before + EncodeFilters(filters, withQos) && at == |before|
    ensures ParseFilters(body, at, withQos) == Some(AllAsked(filters, withQos))
    decreases |filters|
  {
    if filters != [] {
      var first, rest := EncodeFilter(filters[0], withQos), EncodeFilters(filters[1..], withQos);
      Regroup(before, first, rest);
      FilterReadBack(before, filters[0], withQos, rest);
      var after := at + |first|;
      FiltersReadBack(body, before + first, after, filters[1..], withQos);
      OneFilterMore(body, at, withQos, Asked(filters[0], withQos), after);
    }
  }

  lemma Regroup(a: seq<byte>, b: seq<byte>, c: seq<byte>)
    ensures a + (b + c) == a + b + c
  {
  }

  function SubscriptionBody(id: nat, props: seq<byte>, filters: seq<(Str, byte)>, withQos: bool): seq<byte>
    requires id < 65536 && Encodable(filters)
  {
    U16(id) + EncodeLength(|props|) + props + EncodeFilters(filters, withQos)
  }

  /** Properties behind their length are skipped, whatever stands around them. */
  lemma PropertiesSkipped(before: seq<byte>, props: seq<byte>, after: seq<byte>)
    ensures DecodeLength(before + EncodeLength(|props|) + props + after, |before|) ==
            Some((|props|, |before| + |EncodeLength(|props|)|))
  {
    LengthRoundTrip(before, |props|, props + after);
    Regroup(before + EncodeLength(|props|), props, after);
  }

  lemma IdReadBack(id: nat, after: seq<byte>)
    requires id < 65536
    ensures U16At(U16(id) + after, 0) == Some(id)
  {
  }

  lemma FieldsStand(id: nat, props: seq<byte>, filters: seq<(Str, byte)>, withQos: bool)
    requires id < 65536 && Encodable(filters)
    ensures var body := SubscriptionBody(id, props, filters, withQos);
            U16At(body, 0) == Some(id) && DecodeLength(body, 2) == Some((|props|, 2 + |EncodeLength(|props|)|))
  {
    var list, length := EncodeFilters(filters, withQos), EncodeLength(|props|);
    PropertiesSkipped(U16(id), props, list);
    Regroup(U16(id), length, props + list);
    Regroup(U16(id) + length, props, list);
    IdReadBack(id, length + (props + list));
  }

  lemma SubscriptionBodyReadBack(pkt: Packet, id: nat, props: seq<byte>, filters: seq<(Str, byte)>, withQos: bool)
    requires id < 65536 && Encodable(filters)
    ensures ParseSubscriptions(pkt, SubscriptionBody(id, props, filters, withQos), withQos) ==
            Some(pkt.(packetId := Some(id), subscriptions := AllAsked(filters, withQos)))
  {
    hide Zeros, EncodeFilters, EncodeLength, DecodeLength, AllAsked, ParseFilters;
    var body := SubscriptionBody(id, props, filters, withQos);
    var before := U16(id) + EncodeLength(|props|) + props;
    FieldsStand(id, props, filters, withQos);
    FiltersReadBack(body, before, |before|, filters, withQos);
    hide SubscriptionBody, U16, U16At;
    ParsedFrom(pkt, body, withQos, id, |props|, |before| - |props|, AllAsked(filters, withQos));
  }

  lemma ParsedFrom(pkt: Packet, body: seq<byte>, withQos: bool, id: nat, length: nat, at: nat, asked: seq<(Str, nat)>)
    requires U16At(body, 0) == Some(id) && DecodeLength(body, 2) == Some((length, at))
    requires ParseFilters(body, at + length, withQos) == Some(asked)
    ensures ParseSubscriptions(pkt, body, withQos) == Some(pkt.(packetId := Some(id), subscriptions := asked))
  {
    hide ParseFilters, U16At, DecodeLength;
  }

  /** A SUBSCRIBE gives back its id and every (filter, QoS) pair, an UNSUBSCRIBE its id and every filter: for any
      properties and any list, whatever follows. */
  lemma SubscriptionsRoundTrip(id: nat, props: seq<byte>, filters: seq<(Str, byte)>, withQos: bool, rest: seq<byte>)
    requires id < 65536 && Encodable(filters)
    ensures Parse(Framed(if withQos then 0x82 else 0xA2, SubscriptionBody(id, props, filters, withQos)) + rest) ==
            Ok(BlankPacket(if withQos then SUBSCRIBE else UNSUBSCRIBE, 2).(
              packetId := Some(id), subscriptions := AllAsked(filters, withQos)))
  {
    var first: byte := if withQos then 0x82 else 0xA2;
    var pkt := BlankPacket(first / 16, first % 16);
    ParseFramed(first, SubscriptionBody(id, props, filters, withQos), rest);
    SubscriptionBodyReadBack(pkt, id, props, filters, withQos);
  }

  // ---------------------------------------------------------------- CONNECT

  /** Protocol name, version, flags and keep-alive of section 3.1.2. */
  function ConnectHead(name: Str, version: byte, flags: byte, keepalive: nat): seq<byte>
    requires |name| < 65536 && keepalive < 65536
  {
    U16(|name|) + name + [version, flags] + U16(keepalive)
  }

  /** Version 5: the head, the properties behind their length, the client id, and what may follow it. */
  function Connect5(name: Str, flags: byte, keepalive: nat, props: seq<byte>, id: Str, tail: seq<byte>): seq<byte>
    requires |name| < 65536 && keepalive < 65536 && |id| < 65536
  {
    ConnectHead(name, 5, flags, keepalive) + (EncodeLength(|props|) + props + (U16(|id|) + id) + tail)
  }

  /** Earlier versions have no properties. */
  function Connect4(name: Str, version: byte, flags: byte, keepalive: nat, id: Str, tail: seq<byte>): seq<byte>
    requires |name| < 65536 && keepalive < 65536 && |id| < 65536
  {
    ConnectHead(name, version, flags, keepalive) + (U16(|id|) + id + tail)
  }

  function ConnectPacket(flags: byte, keepalive: nat, id: Str): Packet {
    BlankPacket(CONNECT, 0).(keepalive := keepalive, clientId := id, cleanSession := flags / 2 % 2 == 1)
  }

  lemma HeadReadBack(name: Str, version: byte, flags: byte, keepalive: nat, rest: seq<byte>)
    requires |name| < 65536 && keepalive < 65536
    ensures var head := ConnectHead(name, version, flags, keepalive);
            var body, pos := head + rest, 2 + |name|;
            && |head| == pos + 4 && U16At(body, 0) == Some(|name|)
            && ByteAt(body, pos) == Some(version) && ByteAt(body, pos + 1) == Some(flags)
            && U16At(body, pos + 2) == Some(keepalive)
  {
    var head, pos := ConnectHead(name, version, flags, keepalive), 2 + |name|;
    assert head[0] == |name| / 256 && head[1] == |name| % 256;
    assert head[pos] == version && head[pos + 1] == flags;
    assert head[pos + 2] == keepalive / 256 && head[pos + 3] == keepalive % 256;
  }

  /** What the parser makes of a version 5 body behind its head: the client id is read at `idAt`. */
  lemma HeadParses(name: Str, flags: byte, keepalive: nat, rest: seq<byte>, idAt: nat)
    requires |name| < 65536 && keepalive < 65536 && rest != [] && idAt == 7 + |name| + rest[0]
    ensures var id := DecodeString(ConnectHead(name, 5, flags, keepalive) + rest, idAt);
            ParseConnect(BlankPacket(CONNECT, 0), ConnectHead(name, 5, flags, keepalive) + rest) ==
            if id.None? then None else Some(ConnectPacket(flags, keepalive, id.value.0))
  {
    HeadReadBack(name, 5, flags, keepalive, rest);
    var body := ConnectHead(name, 5, flags, keepalive) + rest;
    assert ByteAt(body, 6 + |name|) == Some(rest[0]);
  }

  lemma Connect4ReadBack(name: Str, version: byte, flags: byte, keepalive: nat, id: Str, tail: seq<byte>)
    requires |name| < 65536 && keepalive < 65536 && |id| < 65536 && version != 5
    ensures ParseConnect(BlankPacket(CONNECT, 0), Connect4(name, version, flags, keepalive, id, tail)) ==
            Some(ConnectPacket(flags, keepalive, id))
  {
    var head := ConnectHead(name, version, flags, keepalive);
    HeadReadBack(name, version, flags, keepalive, U16(|id|) + id + tail);
    StringRoundTrip(head, id, tail);
    Regroup(head, U16(|id|) + id, tail);
  }

  lemma ShortPropertiesReadBack(name: Str, flags: byte, keepalive: nat, props: seq<byte>, id: Str, tail: seq<byte>)
    requires |name| < 65536 && keepalive < 65536 && |id| < 65536 && |props| < 128
    ensures ParseConnect(BlankPacket(CONNECT, 0), Connect5(name, flags, keepalive, props, id, tail)) ==
            Some(ConnectPacket(flags, keepalive, id))
  {
    var head, fields := ConnectHead(name, 5, flags, keepalive), EncodeLength(|props|) + props;
    HeadParses(name, flags, keepalive, fields + (U16(|id|) + id) + tail, |head + fields|);
    StringRoundTrip(head + fields, id, tail);
    Regroup(head, fields + (U16(|id|) + id), tail);
    Regroup(head, fields, U16(|id|) + id);
    assert |head + fields| == 7 + |name| + |props|;
  }

  lemma LongLength(n: nat)
    requires 128 <= n
    ensures EncodeLength(n)[0] == n % 128 + 128 && |EncodeLength(n)| >= 2
  {
  }

  /** The bytes where the parser looks for the id are zeros. */
  lemma LooksAmongZeros(n: nat, body: seq<byte>, idAt: nat)
    requires 128 <= n <= 268_435_455 && body == Connect5([], 2, 60, Zeros(n), [97], [])
    requires idAt == 7 + EncodeLength(n)[0] as int
    ensures U16At(body, idAt) == Some(0)
  {
    LongLength(n);
    LengthInFourBytes(n);
    var front := ConnectHead([], 5, 2, 60) + EncodeLength(n);
    assert body == front + (Zeros(n) + [0, 1, 97]);
    assert forall i :: |front| <= i <= |front| + n ==> body[i] == 0;
  }

  lemma EmptyString(data: seq<byte>, offset: nat)
    requires U16At(data, offset) == Some(0)
    ensures DecodeString(data, offset) == Some(([], offset + 2))
  {
    assert Slice(data, offset + 2, offset + 2 + 0) == [];
  }

  /** With 128 or more property bytes the parser looks for the client id among them: when they are zeros, it reads
      an empty one. */
  lemma LongPropertiesLoseId(n: nat)
    requires 128 <= n <= 268_435_455
    ensures ParseConnect(BlankPacket(CONNECT, 0), Connect5([], 2, 60, Zeros(n), [97], [])) ==
            Some(ConnectPacket(2, 60, []))
  {
    var body := Connect5([], 2, 60, Zeros(n), [97], []);
    var rest := EncodeLength(|Zeros(n)|) + Zeros(n) + (U16(|[97 as byte]|) + [97]) + [];
    var idAt: nat := 7 + EncodeLength(n)[0] as int;
    LooksAmongZeros(n, body, idAt);
    EmptyString(body, idAt);
    HeadParses([], 2, 60, rest, idAt);
    assert body == ConnectHead([], 5, 2, 60) + rest;
  }

  /** Every version 5 CONNECT with n property bytes is read back: id, keep-alive and clean flag, whatever follows. */
  ghost predicate AllConnectsRead(n: nat) {
    forall name: Str, flags: byte, keepalive: nat, props: seq<byte>, id: Str, tail: seq<byte>, rest: seq<byte> ::
      |name| < 65536 && keepalive < 65536 && |props| == n && |id| < 65536 ==>
      ConnectIsRead(name, flags, keepalive, props, id, tail, rest)
  }

  predicate ConnectIsRead(name: Str, flags: byte, keepalive: nat, props: seq<byte>, id: Str, tail: seq<byte>,
      rest: seq<byte>)
    requires |name| < 65536 && keepalive < 65536 && |id| < 65536
  {
    Parse(Framed(0x10, Connect5(name, flags, keepalive, props, id, tail)) + rest) ==
      Ok(ConnectPacket(flags, keepalive, id))
  }

  /** For every property length the standard allows: all such packets are read back exactly when the length fits in
      one byte of the variable byte integer, below 128. */
  lemma ConnectReadExactly(n: nat)
    requires n <= 268_435_455
    ensures AllConnectsRead(n) <==> n < 128
  {
    if n < 128 {
      forall name: Str, flags: byte, keepalive: nat, props: seq<byte>, id: Str, tail: seq<byte>, rest: seq<byte>
        | |name| < 65536 && keepalive < 65536 && |props| == n && |id| < 65536
        ensures ConnectIsRead(name, flags, keepalive, props, id, tail, rest)
      {
        ParseFramed(0x10, Connect5(name, flags, keepalive, props, id, tail), rest);
        ShortPropertiesReadBack(name, flags, keepalive, props, id, tail);
      }
    } else {
      ParseFramed(0x10, Connect5([], 2, 60, Zeros(n), [97], []), []);
      LongPropertiesLoseId(n);
      assert !ConnectIsRead([], 2, 60, Zeros(n), [97], [], []);
    }
  }

  /** A CONNECT of any other version is always read back. */
  lemma OlderConnectRoundTrip(name: Str, version: byte, flags: byte, keepalive: nat, id: Str, tail: seq<byte>,
      rest: seq<byte>)
    requires |name| < 65536 && keepalive < 65536 && |id| < 65536 && version != 5
    ensures Parse(Framed(0x10, Connect4(name, version, flags, keepalive, id, tail)) + rest) ==
            Ok(ConnectPacket(flags, keepalive, id))
  {
    ParseFramed(0x10, Connect4(name, version, flags, keepalive, id, tail), rest);
    Connect4ReadBack(name, version, flags, keepalive, id, tail);
  }
}
